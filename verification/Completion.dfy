/** Tab completion (src/complete.rs): the token at the cursor, the byte-wise longest common
    prefix, the candidates, and what repeated Tab presses on a slash token do. */
module Completion {
  import opened Text
  import opened Utf8

  // ----- character boundaries -----

  /** `str::is_char_boundary` inside the string. */
  predicate Boundary(bs: seq<byte>, i: nat) {
    i == 0 || i == |bs| || (i < |bs| && !IsContinuation(bs[i]))
  }

  lemma CharBytes(c: char)
    ensures var bs := EncodeChar(c);
      !IsContinuation(bs[0]) && forall i :: 0 < i < |bs| ==> IsContinuation(bs[i])
  {}

  lemma CharsSplit(s: string, k: nat)
    requires k <= |s|
    ensures Encode(s) == Encode(s[..k]) + Encode(s[k..])
  {
    hide Encode;
    assert s[..k] + s[k..] == s;
    EncodeConcat(s[..k], s[k..]);
  }

  lemma FirstByte(s: string)
    requires s != ""
    ensures Encode(s) != [] && !IsContinuation(Encode(s)[0])
  {
    CharBytes(s[0]);
  }

  /** Each cut between characters is a boundary. */
  lemma CutIsBoundary(s: string, k: nat)
    requires k <= |s|
    ensures Boundary(Encode(s), |Encode(s[..k])|)
  {
    CharsSplit(s, k);
    if k < |s| {
      FirstByte(s[k..]);
    } else {
      assert s[..k] == s && s[k..] == "";
    }
    hide Encode;
    var a, b := Encode(s[..k]), Encode(s[k..]);
    if b != [] { assert (a + b)[|a|] == b[0]; }
  }

  lemma BoundaryBehind(w: seq<byte>, e: seq<byte>, i: nat)
    requires w != [] && forall j :: 0 < j < |w| ==> IsContinuation(w[j])
    requires 0 < i <= |w + e| && Boundary(w + e, i)
    ensures |w| <= i && Boundary(e, i - |w|)
  {
    hide IsContinuation;
    if |w| <= i < |w + e| { assert (w + e)[i] == e[i - |w|]; }
  }

  lemma EncodeFirst(s: string)
    requires s != ""
    ensures Encode(s) == EncodeChar(s[0]) + Encode(s[1..])
  {
  }

  /** And there are no others. */
  lemma {:induction false} BoundaryIsCut(s: string, i: nat) returns (k: nat)
    requires i <= |Encode(s)| && Boundary(Encode(s), i)
    ensures k <= |s| && |Encode(s[..k])| == i && Encode(s[..k]) == Encode(s)[..i]
  {
    if i == 0 {
      k := 0;
    } else {
      var w, rest := EncodeChar(s[0]), s[1..];
      CharBytes(s[0]);
      hide EncodeChar, Encode, Boundary, IsContinuation;
      EncodeFirst(s);
      BoundaryBehind(w, Encode(rest), i);
      var m := BoundaryIsCut(rest, i - |w|);
      k := m + 1;
      assert s[..k][0] == s[0] && s[..k][1..] == rest[..m];
      EncodeFirst(s[..k]);
    }
  }

  lemma EncodeMonotone(p: string, s: string)
    requires p <= s
    ensures Encode(p) <= Encode(s) && (p != s ==> |Encode(p)| < |Encode(s)|)
  {
    CharsSplit(s, |p|);
    assert s[..|p|] == p;
    if p != s { FirstByte(s[|p|..]); }
  }

  /** Text prefixes and byte prefixes are the same thing. */
  lemma PrefixOfBytes(p: string, s: string)
    ensures p <= s <==> Encode(p) <= Encode(s)
  {
    hide Encode, Decode;
    if p <= s { EncodeMonotone(p, s); }
    if Encode(p) <= Encode(s) {
      DecodeIsLongest(Encode(s), p);
      DecodeWhole(s);
    }
  }

  /** The largest boundary not above i. */
  function BackOff(bs: seq<byte>, i: nat): (j: nat)
    requires i <= |bs|
    ensures j <= i && Boundary(bs, j)
  {
    if Boundary(bs, i) then i else BackOff(bs, i - 1)
  }

  lemma {:induction false} BackOffIsLargest(bs: seq<byte>, i: nat, k: nat)
    requires k <= i <= |bs| && Boundary(bs, k)
    ensures k <= BackOff(bs, i)
    decreases i
  {
    if !Boundary(bs, i) { BackOffIsLargest(bs, i - 1, k); }
  }

  // ----- the longest common prefix -----

  function Common(a: string, b: string): (p: string)
  {
    if a == "" || b == "" || a[0] != b[0] then "" else [a[0]] + Common(a[1..], b[1..])
  }

  lemma {:induction false} CommonIsLongest(a: string, b: string, p: string)
    ensures p <= Common(a, b) <==> p <= a && p <= b
  {
    if p != "" && a != "" && b != "" && a[0] == b[0] {
      CommonIsLongest(a[1..], b[1..], p[1..]);
      PrefixTail(p, a);
      PrefixTail(p, b);
      PrefixTail(p, Common(a, b));
    } else if p != "" {
      FirstAgrees(p, a);
      FirstAgrees(p, b);
    }
  }

  lemma FirstAgrees<T>(p: seq<T>, s: seq<T>)
    requires p != []
    ensures p <= s ==> s != [] && s[0] == p[0]
  {}

  lemma PrefixTail(p: string, s: string)
    requires p != "" && s != ""
    ensures p <= s <==> p[0] == s[0] && p[1..] <= s[1..]
  {
    if p[0] == s[0] && p[1..] <= s[1..] {
      assert p == [p[0]] + p[1..] && s == [s[0]] + s[1..];
    }
    if p <= s { assert p[1..] == s[1..|p|]; }
  }

  function Lcp(cands: seq<string>): string {
    if cands == [] then "" else if |cands| == 1 then cands[0]
    else Common(Lcp(cands[..|cands| - 1]), cands[|cands| - 1])
  }

  /** A text is a prefix of all candidates exactly when it is a prefix of their longest common
      prefix. */
  lemma {:induction false} LcpIsLongest(cands: seq<string>, p: string)
    requires cands != []
    ensures p <= Lcp(cands) <==> forall i :: 0 <= i < |cands| ==> p <= cands[i]
  {
    hide Common;
    var m := |cands| - 1;
    if m > 0 {
      LcpIsLongest(cands[..m], p);
      CommonIsLongest(Lcp(cands[..m]), cands[m], p);
      assert forall i :: 0 <= i < m ==> cands[..m][i] == cands[i];
    }
  }

  function CommonBytes(a: seq<byte>, b: seq<byte>): (n: nat)
    ensures n <= |a| && n <= |b| && a[..n] == b[..n]
    ensures n < |a| && n < |b| ==> a[n] != b[n]
  {
    if a == [] || b == [] || a[0] != b[0] then 0 else 1 + CommonBytes(a[1..], b[1..])
  }

  lemma CommonBytesIsLongest(a: seq<byte>, b: seq<byte>, q: seq<byte>)
    requires q <= a && q <= b
    ensures |q| <= CommonBytes(a, b)
  {
    assert forall k :: 0 <= k < |q| ==> a[k] == q[k] && b[k] == q[k];
  }

  lemma PrefixAt(q: seq<byte>, a: seq<byte>, n: nat)
    requires q <= a && n < |q|
    ensures n < |a| && a[n] == q[n]
  {}

  /** One round of the loop: backing the common bytes off to a boundary of the first
      candidate gives the common characters. */
  lemma RoundIsCommon(first: string, p: string, other: string)
    requires p <= first
    ensures var bs := Encode(first);
      && |Encode(p)| <= |bs|
      && var n := CommonBytes(bs[..|Encode(p)|], Encode(other));
      && BackOff(bs, n) == |Encode(Common(p, other))|
  {
    hide Encode, Common, EncodeChar, CommonBytes, BackOff;
    var bs := Encode(first);
    EncodeMonotone(p, first);
    var end := |Encode(p)|;
    assert bs[..end] == Encode(p);
    var n := CommonBytes(bs[..end], Encode(other));
    var e := BackOff(bs, n);
    var k := BoundaryIsCut(first, e);
    var q := first[..k];
    assert Encode(q) == bs[..e] <= Encode(p);
    assert bs[..e] == bs[..end][..n][..e] == Encode(other)[..n][..e];
    PrefixOfBytes(q, p);
    PrefixOfBytes(q, other);
    var c := Common(p, other);
    CommonIsLongest(p, other, q);
    CommonIsLongest(p, other, c);
    EncodeMonotone(q, c);
    EncodeMonotone(c, p);
    EncodeMonotone(c, other);
    CommonBytesIsLongest(Encode(p), Encode(other), Encode(c));
    assert c == first[..|c|];
    CutIsBoundary(first, |c|);
    BackOffIsLargest(bs, n, |Encode(c)|);
  }

  /** How many leading bytes agree, at most `limit`. */
  method CountCommon(bs: seq<byte>, other: seq<byte>, limit: nat) returns (e: nat)
    requires limit <= |bs|
    ensures e == CommonBytes(bs[..limit], other)
  {
    e := 0;
    while e < limit && e < |other| && bs[e] == other[e]
      invariant e <= limit && e <= |other| && bs[..e] == other[..e]
    {
      e := e + 1;
    }
    assert bs[..limit][..e] == bs[..e];
    CommonBytesAt(bs[..limit], other, e);
  }

  method BackOffTo(bs: seq<byte>, from: nat) returns (end: nat)
    requires from <= |bs|
    ensures end == BackOff(bs, from)
  {
    end := from;
    while !Boundary(bs, end)
      invariant end <= from && BackOff(bs, end) == BackOff(bs, from)
      decreases end
    {
      end := end - 1;
    }
  }

  /** `longest_common_prefix`, byte by byte with the back-off. */
  method LongestCommonPrefix(cands: seq<string>) returns (r: string)
    ensures r == Lcp(cands)
  {
    if cands == [] { return ""; }
    hide Encode, Common, CommonBytes, BackOff, Decode;
    var first := cands[0];
    var bs := Encode(first);
    var end := |bs|;
    for i := 1 to |cands|
      invariant end <= |bs| && Lcp(cands[..i]) <= first && end == |Encode(Lcp(cands[..i]))|
    {
      ghost var p := Lcp(cands[..i]);
      assert cands[..i + 1][..i] == cands[..i];
      RoundIsCommon(first, p, cands[i]);
      CommonIsLongest(p, cands[i], Common(p, cands[i]));
      var agreed := CountCommon(bs, Encode(cands[i]), end);
      end := BackOffTo(bs, agreed);
    }
    assert cands[..|cands|] == cands;
    EncodeMonotone(Lcp(cands), first);
    assert bs[..end] == Encode(Lcp(cands));
    DecodeWhole(Lcp(cands));
    r := Decode(bs[..end]).0;
  }

  lemma CommonBytesAt(a: seq<byte>, b: seq<byte>, e: nat)
    requires e <= |a| && e <= |b| && a[..e] == b[..e]
    requires e < |a| && e < |b| ==> a[e] != b[e]
    ensures CommonBytes(a, b) == e
  {
    CommonBytesIsLongest(a, b, a[..e]);
    var n := CommonBytes(a, b);
    if e < n {
      PrefixAt(a[..n], a, e);
      PrefixAt(b[..n], b, e);
    }
  }

  // ----- the token at the cursor -----

  /** Steps back over characters until whitespace or the start of the line. */
  method RunStart(line: string, cursor: nat, ghost k: nat) returns (start: nat, ghost i: nat)
    requires k <= |line| && cursor == |Encode(line[..k])|
    ensures i <= k && start == |Encode(line[..i])|
    ensures forall j :: i <= j < k ==> !IsWhitespace(line[j])
    ensures i > 0 ==> IsWhitespace(line[i - 1])
  {
    hide Encode, Decode, IsWhitespace, EncodeChar;
    var bs := Encode(line);
    i, start := k, cursor;
    CharsSplit(line, k);
    while start > 0
      invariant i <= k && start <= |bs| && start == |Encode(line[..i])| && bs[..start] == Encode(line[..i])
      invariant forall j :: i <= j < k ==> !IsWhitespace(line[j])
    {
      DecodeWhole(line[..i]);
      var before := Decode(bs[..start]).0;
      assert before == line[..i];
      if i == 0 { EncodeNothing(); }
      var prev := before[|before| - 1];
      if IsWhitespace(prev) { return; }
      LastCharWidth(line, i);
      start := start - |EncodeChar(prev)|;
      i := i - 1;
    }
    NothingBefore(line, i);
  }

  /** The token line[i..k] starts at byte `start`, ends at the boundary the cursor backs off
      to, holds no whitespace, and cannot be extended to the left. */
  ghost predicate TokenSpan(line: string, cursorByte: nat, start: nat, token: string, i: nat, k: nat) {
    var bs := Encode(line);
    && i <= k <= |line| && token == line[i..k]
    && start == |Encode(line[..i])|
    && |Encode(line[..k])| == BackOff(bs, if cursorByte < |bs| then cursorByte else |bs|)
    && (forall j :: i <= j < k ==> !IsWhitespace(line[j]))
    && (i > 0 ==> IsWhitespace(line[i - 1]))
  }

  /** `token_at_cursor`: the cursor is clamped and backed off to a boundary; the token is the
      whole whitespace-free run that ends there. */
  method TokenAtCursor(line: string, cursorByte: nat) returns (start: nat, token: string)
    ensures exists i, k :: TokenSpan(line, cursorByte, start, token, i, k)
  {
    hide Encode, Decode, IsWhitespace, BackOff;
    var bs := Encode(line);
    var cursor := if cursorByte < |bs| then cursorByte else |bs|;
    cursor := BackOffTo(bs, cursor);
    ghost var k := BoundaryIsCut(line, cursor);
    ghost var i;
    start, i := RunStart(line, cursor, k);
    Between(line, i, k);
    token := Decode(bs[start..cursor]).0;
    assert TokenSpan(line, cursorByte, start, token, i, k);
  }

  lemma NothingBefore(line: string, i: nat)
    requires i <= |line| && Encode(line[..i]) == []
    ensures i == 0
  {
    if i > 0 { FirstByte(line[..i]); }
  }

  lemma LastCharWidth(line: string, i: nat)
    requires 0 < i <= |line|
    ensures |Encode(line[..i])| == |Encode(line[..i - 1])| + |EncodeChar(line[i - 1])|
    ensures Encode(line[..i - 1]) <= Encode(line[..i])
  {
    assert line[..i] == line[..i - 1] + [line[i - 1]];
    EncodeConcat(line[..i - 1], [line[i - 1]]);
    assert [line[i - 1]] + "" == [line[i - 1]];
    EncodeCons(line[i - 1], "");
    EncodeNothing();
  }

  lemma Between(line: string, i: nat, k: nat)
    requires i <= k <= |line|
    ensures var bs := Encode(line); var a, b := |Encode(line[..i])|, |Encode(line[..k])|;
      a <= b <= |bs| && Decode(bs[a..b]).0 == line[i..k]
  {
    hide Encode, Decode;
    CharsSplit(line, k);
    CharsSplit(line[..k], i);
    assert line[..k][..i] == line[..i] && line[..k][i..] == line[i..k];
    var bs := Encode(line);
    var a, b := |Encode(line[..i])|, |Encode(line[..k])|;
    assert bs[..b] == Encode(line[..k]);
    assert bs[a..b] == bs[..b][a..] == Encode(line[i..k]);
    DecodeWhole(line[i..k]);
  }

  // ----- sorting -----

  ghost predicate TotalOrder<T(!new)>(le: (T, T) -> bool) {
    && (forall x, y :: le(x, y) || le(y, x))
    && (forall x, y :: le(x, y) && le(y, x) ==> x == y)
    && (forall x, y, z :: le(x, y) && le(y, z) ==> le(x, z))
  }

  ghost predicate Sorted<T>(le: (T, T) -> bool, xs: seq<T>) {
    forall i, j :: 0 <= i < j < |xs| ==> le(xs[i], xs[j])
  }

  function Place<T>(le: (T, T) -> bool, x: T, xs: seq<T>): seq<T> {
    if xs == [] || le(x, xs[0]) then [x] + xs else [xs[0]] + Place(le, x, xs[1..])
  }

  /** The sorted arrangement; with a total order there is only one. */
  function Sort<T>(le: (T, T) -> bool, xs: seq<T>): seq<T> {
    if xs == [] then [] else Place(le, xs[0], Sort(le, xs[1..]))
  }

  lemma {:induction false} PlaceAdds<T>(le: (T, T) -> bool, x: T, xs: seq<T>)
    ensures multiset(Place(le, x, xs)) == multiset(xs) + multiset{x}
  {
    if xs != [] && !le(x, xs[0]) {
      PlaceAdds(le, x, xs[1..]);
      assert xs == [xs[0]] + xs[1..];
    }
  }

  ghost predicate Below<T>(le: (T, T) -> bool, x: T, xs: seq<T>) {
    forall i :: 0 <= i < |xs| ==> le(x, xs[i])
  }

  lemma SortedCons<T>(le: (T, T) -> bool, x: T, xs: seq<T>)
    ensures Sorted(le, [x] + xs) <==> Below(le, x, xs) && Sorted(le, xs)
  {
    var all := [x] + xs;
    if Sorted(le, all) {
      forall i | 0 <= i < |xs| ensures le(x, xs[i]) { assert all[0] == x && all[i + 1] == xs[i]; }
      forall i, j | 0 <= i < j < |xs| ensures le(xs[i], xs[j]) {
        assert all[i + 1] == xs[i] && all[j + 1] == xs[j];
      }
    }
  }

  lemma BelowPlaced<T>(le: (T, T) -> bool, y: T, x: T, xs: seq<T>)
    requires le(y, x) && Below(le, y, xs)
    ensures Below(le, y, Place(le, x, xs))
  {
    PlaceAdds(le, x, xs);
    var placed := Place(le, x, xs);
    forall i | 0 <= i < |placed| ensures le(y, placed[i]) {
      assert placed[i] in multiset(placed);
    }
  }

  lemma {:induction false} PlaceSorts<T(!new)>(le: (T, T) -> bool, x: T, xs: seq<T>)
    requires TotalOrder(le) && Sorted(le, xs)
    ensures Sorted(le, Place(le, x, xs))
  {
    hide Sorted, Below;
    if xs == [] {
      SortedCons(le, x, []);
      assert Below(le, x, []) by { NothingBelow(le, x); }
    } else {
      assert xs == [xs[0]] + xs[1..];
      SortedCons(le, xs[0], xs[1..]);
      if le(x, xs[0]) {
        BelowAll(le, x, xs[0], xs[1..]);
        SortedCons(le, x, xs);
      } else {
        PlaceSorts(le, x, xs[1..]);
        BelowPlaced(le, xs[0], x, xs[1..]);
        SortedCons(le, xs[0], Place(le, x, xs[1..]));
      }
    }
  }

  lemma NothingBelow<T>(le: (T, T) -> bool, x: T)
    ensures Below(le, x, []) && Sorted(le, [])
  {}

  lemma BelowAll<T(!new)>(le: (T, T) -> bool, x: T, y: T, xs: seq<T>)
    requires TotalOrder(le) && le(x, y) && Below(le, y, xs)
    ensures Below(le, x, [y] + xs)
  {}

  lemma {:induction false} SortSorts<T(!new)>(le: (T, T) -> bool, xs: seq<T>)
    requires TotalOrder(le)
    ensures Sorted(le, Sort(le, xs)) && multiset(Sort(le, xs)) == multiset(xs)
  {
    if xs != [] {
      SortSorts(le, xs[1..]);
      PlaceSorts(le, xs[0], Sort(le, xs[1..]));
      PlaceAdds(le, xs[0], Sort(le, xs[1..]));
      assert xs == [xs[0]] + xs[1..];
    }
  }

  lemma {:induction false} SortedIsUnique<T(!new)>(le: (T, T) -> bool, a: seq<T>, b: seq<T>)
    requires TotalOrder(le) && Sorted(le, a) && Sorted(le, b) && multiset(a) == multiset(b)
    ensures a == b
  {
    if a == [] {
      assert |multiset(b)| == 0;
    } else {
      assert a[0] in multiset(b);
      assert b[0] in multiset(a);
      assert a[0] == b[0];
      assert a == [a[0]] + a[1..] && b == [b[0]] + b[1..];
      assert multiset(a[1..]) == multiset(a) - multiset{a[0]};
      assert multiset(b[1..]) == multiset(b) - multiset{a[0]};
      SortedIsUnique(le, a[1..], b[1..]);
    }
  }

  /** Sorting forgets the order of discovery. */
  lemma SortForgetsOrder<T(!new)>(le: (T, T) -> bool, a: seq<T>, b: seq<T>)
    requires TotalOrder(le) && multiset(a) == multiset(b)
    ensures Sort(le, a) == Sort(le, b)
  {
    SortSorts(le, a);
    SortSorts(le, b);
    SortedIsUnique(le, Sort(le, a), Sort(le, b));
  }

  /** The order of `str`: byte by byte. */
  predicate BytesLe(a: seq<byte>, b: seq<byte>) {
    a == [] || (b != [] && (a[0] < b[0] || (a[0] == b[0] && BytesLe(a[1..], b[1..]))))
  }

  predicate StrLe(a: string, b: string) { BytesLe(Encode(a), Encode(b)) }

  lemma {:induction false} BytesLeOrders(a: seq<byte>, b: seq<byte>, c: seq<byte>)
    ensures BytesLe(a, b) || BytesLe(b, a)
    ensures BytesLe(a, b) && BytesLe(b, a) ==> a == b
    ensures BytesLe(a, b) && BytesLe(b, c) ==> BytesLe(a, c)
  {
    if a != [] && b != [] {
      BytesLeOrders(a[1..], b[1..], if c == [] then [] else c[1..]);
      if a[0] == b[0] && a[1..] == b[1..] {
        assert a == [a[0]] + a[1..] && b == [b[0]] + b[1..];
      }
    }
  }

  /** That is: a beginning, or smaller at the first byte that differs. */
  lemma {:induction false} BytesLeIs(a: seq<byte>, b: seq<byte>)
    ensures BytesLe(a, b) <==> a <= b || exists k :: 0 <= k < |a| && k < |b| && a[..k] == b[..k] && a[k] < b[k]
  {
    if a != [] && b != [] {
      BytesLeIs(a[1..], b[1..]);
      if a[0] == b[0] {
        assert a == [a[0]] + a[1..] && b == [b[0]] + b[1..];
        if k :| 0 <= k < |a[1..]| && k < |b[1..]| && a[1..][..k] == b[1..][..k] && a[1..][k] < b[1..][k] {
          assert a[..k + 1] == [a[0]] + a[1..][..k] && b[..k + 1] == [b[0]] + b[1..][..k];
          assert a[k + 1] < b[k + 1];
        }
        if k :| 0 <= k < |a| && k < |b| && a[..k] == b[..k] && a[k] < b[k] {
          assert k > 0 && a[1..][..k - 1] == a[..k][1..] && b[1..][..k - 1] == b[..k][1..];
          assert a[1..][k - 1] < b[1..][k - 1];
        }
      } else {
        if a[0] < b[0] { assert a[..0] == b[..0]; }
        if k :| 0 < k < |a| && k < |b| && a[..k] == b[..k] && a[k] < b[k] { SameFirst(a, b, k); }
      }
    }
  }

  lemma SameFirst(a: seq<byte>, b: seq<byte>, k: nat)
    requires 0 < k <= |a| && k <= |b| && a[..k] == b[..k]
    ensures a[0] == b[0]
  {
    assert a[..k][0] == a[0] && b[..k][0] == b[0];
  }

  lemma StrLeIsTotal()
    ensures TotalOrder(StrLe)
  {
    hide Encode, BytesLe;
    forall x: string, y: string, z: string
      ensures (StrLe(x, y) || StrLe(y, x)) && (StrLe(x, y) && StrLe(y, x) ==> x == y)
      ensures StrLe(x, y) && StrLe(y, z) ==> StrLe(x, z)
    {
      BytesLeOrders(Encode(x), Encode(y), Encode(z));
      DecodeWhole(x);
      DecodeWhole(y);
    }
  }

  // ----- slash candidates -----

  const SLASH_COMMANDS: seq<string> :=
    ["spec", "goal", "check", "model", "budget", "ledger", "quit", "help"]

  function Filter<T>(keep: T -> bool, xs: seq<T>): seq<T> {
    if xs == [] then [] else (if keep(xs[0]) then [xs[0]] else []) + Filter(keep, xs[1..])
  }

  lemma {:induction false} FilterKeeps<T>(keep: T -> bool, xs: seq<T>, x: T)
    ensures multiset(Filter(keep, xs))[x] == if keep(x) then multiset(xs)[x] else 0
    ensures x in Filter(keep, xs) <==> x in xs && keep(x)
  {
    if xs != [] {
      FilterKeeps(keep, xs[1..], x);
      assert xs == [xs[0]] + xs[1..];
    }
  }

  lemma {:induction false} FilterAgrees<T>(keep: T -> bool, also: T -> bool, xs: seq<T>)
    requires forall x :: x in xs ==> keep(x) == also(x)
    ensures Filter(keep, xs) == Filter(also, xs)
  {
    if xs != [] {
      assert xs[0] in xs;
      FilterAgrees(keep, also, xs[1..]);
    }
  }

  function Slashed(names: seq<string>): (r: seq<string>) {
    seq(|names|, i requires 0 <= i < |names| => "/" + names[i])
  }

  function Offers(prefix: string): string -> bool { name => prefix <= name }

  function OffersPack(prefix: string): string -> bool {
    name => name !in SLASH_COMMANDS && prefix <= name
  }

  /** Names that match, built-ins first. */
  function Names(prefix: string, packs: seq<string>): seq<string> {
    Filter(Offers(prefix), SLASH_COMMANDS) + Sort(StrLe, Filter(OffersPack(prefix), packs))
  }

  /** `slash_candidates_with_packs`. */
  function SlashCandidates(token: string, packs: seq<string>): seq<string> {
    if token == "" || token[0] != '/' then [] else Slashed(Names(token[1..], packs))
  }

  lemma NamesAre(prefix: string, packs: seq<string>, name: string)
    ensures name in Names(prefix, packs) <==> (name in SLASH_COMMANDS || name in packs) && prefix <= name
  {
    hide Sort;
    FilterKeeps(Offers(prefix), SLASH_COMMANDS, name);
    var found := Filter(OffersPack(prefix), packs);
    FilterKeeps(OffersPack(prefix), packs, name);
    StrLeIsTotal();
    SortSorts(StrLe, found);
    hide StrLe;
    assert name in Sort(StrLe, found) <==> name in multiset(Sort(StrLe, found));
    assert name in found <==> name in multiset(found);
  }

  lemma {:induction false} CountsOnce(names: seq<string>, name: string)
    requires forall i, j :: 0 <= i < j < |names| ==> names[i] != names[j]
    ensures multiset(names)[name] == if name in names then 1 else 0
  {
    if names != [] {
      var m := |names| - 1;
      assert names == names[..m] + [names[m]];
      CountsOnce(names[..m], name);
    }
  }

  /** The initials tell the built-ins apart. */
  function ByInitial(c: char): nat {
    match c
    case 's' => 0 case 'g' => 1 case 'c' => 2 case 'm' => 3
    case 'b' => 4 case 'l' => 5 case 'q' => 6 case _ => 7
  }

  lemma Initials(names: seq<string>, name: string)
    requires forall i :: 0 <= i < |names| ==> names[i] != "" && ByInitial(names[i][0]) == i
    ensures multiset(names)[name] == if name in names then 1 else 0
  {
    hide ByInitial;
    CountsOnce(names, name);
  }

  lemma BuiltInsAreDistinct(name: string)
    ensures multiset(SLASH_COMMANDS)[name] == if name in SLASH_COMMANDS then 1 else 0
  {
    assert forall i :: 0 <= i < |SLASH_COMMANDS| ==> SLASH_COMMANDS[i] != "" && ByInitial(SLASH_COMMANDS[i][0]) == i;
    Initials(SLASH_COMMANDS, name);
  }

  /** How often a name is offered: a built-in once, however many packs collide with it, and
      any other name as often as packs carry it. */
  lemma OfferedOften(prefix: string, packs: seq<string>, name: string)
    ensures multiset(Names(prefix, packs))[name]
         == if !(prefix <= name) then 0 else if name in SLASH_COMMANDS then 1 else multiset(packs)[name]
  {
    var found := Filter(OffersPack(prefix), packs);
    FilterKeeps(Offers(prefix), SLASH_COMMANDS, name);
    FilterKeeps(OffersPack(prefix), packs, name);
    BuiltInsAreDistinct(name);
    StrLeIsTotal();
    SortSorts(StrLe, found);
    hide Sort, StrLe, Filter;
  }

  ghost predicate IsBuiltIn(name: string) {
    name in {"spec", "goal", "check", "model", "budget", "ledger", "quit", "help"}
  }

  lemma BuiltInsAre(name: string)
    ensures name in SLASH_COMMANDS <==> IsBuiltIn(name)
  {
    var s := SLASH_COMMANDS;
    assert s[0] == "spec" && s[1] == "goal" && s[2] == "check" && s[3] == "model";
    assert s[4] == "budget" && s[5] == "ledger" && s[6] == "quit" && s[7] == "help";
  }

  lemma ListedOrPacked(token: string, packs: seq<string>, c: string)
    requires token != "" && token[0] == '/'
    ensures c in SlashCandidates(token, packs)
       <==> c != "" && token <= c && (c[1..] in SLASH_COMMANDS || c[1..] in packs)
  {
    hide Names;
    var names := Names(token[1..], packs);
    if c in SlashCandidates(token, packs) {
      var i :| 0 <= i < |names| && "/" + names[i] == c;
      assert c[1..] == names[i];
      NamesAre(token[1..], packs, names[i]);
      PrefixTail(token, c);
    }
    if c != "" && token <= c && (c[1..] in SLASH_COMMANDS || c[1..] in packs) {
      PrefixTail(token, c);
      NamesAre(token[1..], packs, c[1..]);
      var i :| 0 <= i < |names| && names[i] == c[1..];
      assert Slashed(names)[i] == "/" + c[1..] == c;
    }
  }

  /** The candidates of a slash token are exactly the built-in and pack names it is a prefix
      of, each with its slash. */
  lemma CandidatesAre(token: string, packs: seq<string>, c: string)
    requires token != "" && token[0] == '/'
    ensures c in SlashCandidates(token, packs)
       <==> c != "" && token <= c && (IsBuiltIn(c[1..]) || c[1..] in packs)
  {
    hide *;
    ListedOrPacked(token, packs, c);
    if c != "" { BuiltInsAre(c[1..]); }
  }

  lemma {:induction false} FilterKeepsOrder<T>(keep: T -> bool, xs: seq<T>, i: nat, j: nat) returns (a: nat, b: nat)
    requires i < j < |Filter(keep, xs)|
    ensures a < b < |xs| && Filter(keep, xs)[i] == xs[a] && Filter(keep, xs)[j] == xs[b]
  {
    var rest := Filter(keep, xs[1..]);
    if keep(xs[0]) {
      assert Filter(keep, xs) == [xs[0]] + rest;
      if i == 0 {
        b := FilterFrom(keep, xs[1..], j - 1);
        a, b := 0, b + 1;
      } else {
        a, b := FilterKeepsOrder(keep, xs[1..], i - 1, j - 1);
        a, b := a + 1, b + 1;
      }
    } else {
      assert Filter(keep, xs) == rest;
      a, b := FilterKeepsOrder(keep, xs[1..], i, j);
      a, b := a + 1, b + 1;
    }
  }

  lemma {:induction false} FilterFrom<T>(keep: T -> bool, xs: seq<T>, j: nat) returns (b: nat)
    requires j < |Filter(keep, xs)|
    ensures b < |xs| && Filter(keep, xs)[j] == xs[b] && keep(xs[b])
  {
    if keep(xs[0]) && j == 0 {
      b := 0;
    } else {
      b := FilterFrom(keep, xs[1..], if keep(xs[0]) then j - 1 else j);
      b := b + 1;
    }
  }

  lemma PartsInOrder(keep: string -> bool, listed: seq<string>, also: string -> bool, packs: seq<string>,
                     names: seq<string>, i: nat, j: nat)
    requires forall x :: also(x) ==> x !in listed
    requires names == Filter(keep, listed) + Sort(StrLe, Filter(also, packs)) && i < j < |names|
    ensures names[j] in listed ==>
      names[i] in listed && exists p, q :: 0 <= p < q < |listed| && listed[p] == names[i] && listed[q] == names[j]
    ensures names[i] !in listed ==> StrLe(names[i], names[j])
  {
    var own, found := Filter(keep, listed), Filter(also, packs);
    var sorted := Sort(StrLe, found);
    StrLeIsTotal();
    SortSorts(StrLe, found);
    hide Sort, StrLe, Filter;
    if j < |own| {
      var p, q := FilterKeepsOrder(keep, listed, i, j);
    } else {
      assert names[j] in multiset(sorted) && names[j] in multiset(found) && names[j] in found;
      var f :| 0 <= f < |found| && found[f] == names[j];
      var b := FilterFrom(also, packs, f);
      if i < |own| { var p := FilterFrom(keep, listed, i); }
    }
  }

  /** Of two candidates the earlier one is a built-in if the later is; two built-ins stand in
      the listed order, two packs in byte order. */
  lemma CandidatesInOrder(token: string, packs: seq<string>, i: nat, j: nat)
    requires i < j < |SlashCandidates(token, packs)|
    ensures var a, b := SlashCandidates(token, packs)[i][1..], SlashCandidates(token, packs)[j][1..];
      && (b in SLASH_COMMANDS ==>
            a in SLASH_COMMANDS
            && exists p, q :: 0 <= p < q < |SLASH_COMMANDS| && SLASH_COMMANDS[p] == a && SLASH_COMMANDS[q] == b)
      && (a !in SLASH_COMMANDS ==> StrLe(a, b))
  {
    var prefix := token[1..];
    var names := Names(prefix, packs);
    PartsInOrder(Offers(prefix), SLASH_COMMANDS, OffersPack(prefix), packs, names, i, j);
    hide Names, StrLe;
    assert SlashCandidates(token, packs) == Slashed(names);
    assert ("/" + names[i])[1..] == names[i] && ("/" + names[j])[1..] == names[j];
  }

  /** The order in which packs are found never shows. */
  lemma DiscoveryOrderIsHidden(token: string, packs: seq<string>, others: seq<string>)
    requires multiset(packs) == multiset(others)
    ensures SlashCandidates(token, packs) == SlashCandidates(token, others)
  {
    if token != "" {
      var keep := OffersPack(token[1..]);
      hide StrLe, Sort;
      forall x: string ensures multiset(Filter(keep, packs))[x] == multiset(Filter(keep, others))[x] {
        FilterKeeps(keep, packs, x);
        FilterKeeps(keep, others, x);
      }
      assert multiset(Filter(keep, packs)) == multiset(Filter(keep, others));
      StrLeIsTotal();
      SortForgetsOrder(StrLe, Filter(keep, packs), Filter(keep, others));
    }
  }

  /** A longer token that all candidates still start with has the same candidates. */
  lemma SameCandidates(token: string, longer: string, packs: seq<string>)
    requires token != "" && token[0] == '/' && token <= longer
    requires forall c :: c in SlashCandidates(token, packs) ==> longer <= c
    ensures SlashCandidates(longer, packs) == SlashCandidates(token, packs)
  {
    var p, q := token[1..], longer[1..];
    PrefixTail(token, longer);
    hide SlashCandidates;
    forall name | name in SLASH_COMMANDS || name in packs
      ensures p <= name <==> q <= name
    {
      CandidatesAre(token, packs, "/" + name);
      assert ("/" + name)[1..] == name;
      PrefixTail(token, "/" + name);
      PrefixTail(longer, "/" + name);
    }
    FilterAgrees(Offers(p), Offers(q), SLASH_COMMANDS);
    FilterAgrees(OffersPack(p), OffersPack(q), packs);
    SameNames(token, longer, packs);
  }

  lemma SameNames(token: string, longer: string, packs: seq<string>)
    requires token != "" && longer != "" && token[0] == longer[0] == '/'
    requires Filter(Offers(token[1..]), SLASH_COMMANDS) == Filter(Offers(longer[1..]), SLASH_COMMANDS)
    requires Filter(OffersPack(token[1..]), packs) == Filter(OffersPack(longer[1..]), packs)
    ensures SlashCandidates(longer, packs) == SlashCandidates(token, packs)
  {}

  // ----- Tab -----

  datatype Decision = NoMatch | Inline(text: string) | Extend(prefix: string) | OpenStrip(candidates: seq<string>)

  function Decide(typed: string, cands: seq<string>): Decision {
    if cands == [] then NoMatch
    else if |cands| == 1 then Inline(cands[0])
    else if Lcp(cands) != typed then Extend(Lcp(cands))
    else OpenStrip(cands)
  }

  function Tab(token: string, packs: seq<string>): Decision {
    Decide(token, SlashCandidates(token, packs))
  }

  /** A Tab on a slash token never shortens or changes what was typed; an extension leaves
      the candidates as they are, so the next Tab opens the strip over exactly them; and an
      inline completion stays. */
  lemma TabSettles(token: string, packs: seq<string>)
    requires token != "" && token[0] == '/'
    ensures var d := Tab(token, packs);
      && (d.Extend? ==>
            && token < d.prefix
            && SlashCandidates(d.prefix, packs) == SlashCandidates(token, packs)
            && Tab(d.prefix, packs) == OpenStrip(SlashCandidates(token, packs)))
      && (d.Inline? ==> token <= d.text && Tab(d.text, packs) == d)
  {
    var cands := SlashCandidates(token, packs);
    hide SlashCandidates;
    forall c | c in cands ensures token <= c { CandidatesAre(token, packs, c); }
    if cands != [] {
      LcpIsLongest(cands, token);
      LcpIsLongest(cands, Lcp(cands));
      assert forall i :: 0 <= i < |cands| ==> cands[i] in cands;
      forall c | c in cands ensures Lcp(cands) <= c {
        var i :| 0 <= i < |cands| && cands[i] == c;
      }
      SameCandidates(token, Lcp(cands), packs);
    }
  }

  ghost predicate SharedBy(p: string, cands: seq<string>) {
    forall i :: 0 <= i < |cands| ==> p <= cands[i]
  }

  /** The strip opens exactly when two or more names match and no longer text is shared by
      all of them. */
  lemma StripOpensIff(token: string, packs: seq<string>)
    requires token != "" && token[0] == '/'
    ensures var cands := SlashCandidates(token, packs);
      Tab(token, packs).OpenStrip? <==> |cands| >= 2 && forall p :: SharedBy(p, cands) ==> !(token < p)
  {
    var cands := SlashCandidates(token, packs);
    hide SlashCandidates;
    if |cands| >= 2 {
      forall i | 0 <= i < |cands| ensures token <= cands[i] { CandidatesAre(token, packs, cands[i]); }
      LcpIsLongest(cands, token);
      LcpIsLongest(cands, Lcp(cands));
      assert SharedBy(Lcp(cands), cands);
      forall p | SharedBy(p, cands) ensures p <= Lcp(cands) { LcpIsLongest(cands, p); }
    }
  }

  // ----- file tokens -----

  /** `match_paths` ranks basename hits first, then shorter paths, then byte order. */
  predicate PathLe(lower: string -> string, query: string, a: string, b: string) {
    var hitA, hitB := Contains(lower(BaseName(a)), query), Contains(lower(BaseName(b)), query);
    if hitA != hitB then hitA
    else if |Encode(a)| != |Encode(b)| then |Encode(a)| < |Encode(b)|
    else StrLe(a, b)
  }

  function FirstSorted<T>(keep: T -> bool, le: (T, T) -> bool, index: seq<T>, cap: nat): seq<T> {
    var ranked := Sort(le, Filter(keep, index));
    if |ranked| > cap then ranked[..cap] else ranked
  }

  function MatchPaths(lower: string -> string, index: seq<string>, query: string, cap: nat): seq<string> {
    var q := lower(query);
    FirstSorted((path: string) => Contains(lower(path), q), (a, b) => PathLe(lower, q, a, b), index, cap)
  }

  lemma PathLeIsTotal(lower: string -> string, query: string)
    ensures TotalOrder((a, b) => PathLe(lower, query, a, b))
  {
    hide Encode, BytesLe, Contains, BaseName;
    StrLeIsTotal();
    hide StrLe;
    var le := (a: string, b: string) => PathLe(lower, query, a, b);
    forall x, y, z
      ensures (le(x, y) || le(y, x)) && (le(x, y) && le(y, x) ==> x == y)
      ensures le(x, y) && le(y, z) ==> le(x, z)
    {
      StrLeAt(x, y, z);
    }
  }

  lemma StrLeAt(x: string, y: string, z: string)
    ensures (StrLe(x, y) || StrLe(y, x)) && (StrLe(x, y) && StrLe(y, x) ==> x == y)
    ensures StrLe(x, y) && StrLe(y, z) ==> StrLe(x, z)
  {
    hide StrLe;
    StrLeIsTotal();
  }

  /** How two paths rank: one whose base name has the query goes first, then the one of fewer
      bytes, then the one that is smaller byte by byte. */
  lemma RankIs(lower: string -> string, query: string, a: string, b: string)
    ensures var hitA, hitB := Contains(lower(BaseName(a)), query), Contains(lower(BaseName(b)), query);
      && (hitA && !hitB ==> PathLe(lower, query, a, b) && !PathLe(lower, query, b, a))
      && (hitA == hitB && |Encode(a)| < |Encode(b)| ==> PathLe(lower, query, a, b) && !PathLe(lower, query, b, a))
      && (hitA == hitB && |Encode(a)| == |Encode(b)| ==>
            (PathLe(lower, query, a, b)
             <==> Encode(a) == Encode(b)
                  || exists k :: 0 <= k < |Encode(a)| && Encode(a)[..k] == Encode(b)[..k] && Encode(a)[k] < Encode(b)[k]))
  {
    hide Encode, Contains, BaseName, BytesLe;
    BytesLeIs(Encode(a), Encode(b));
  }

  /** The paths returned are the best matches: no path outside the index or without the query,
      at most `cap`, ranked, and every match left out ranks behind every one returned. */
  lemma BestMatches(lower: string -> string, index: seq<string>, query: string, cap: nat)
    ensures var r := MatchPaths(lower, index, query, cap); var q := lower(query);
      && |r| <= cap
      && (forall i :: 0 <= i < |r| ==> r[i] in index && Contains(lower(r[i]), q))
      && (forall i, j :: 0 <= i < j < |r| ==> PathLe(lower, q, r[i], r[j]))
      && (forall p :: p in index && Contains(lower(p), q) && p !in r ==>
            |r| == cap && forall i :: 0 <= i < |r| ==> PathLe(lower, q, r[i], p))
  {
    var q := lower(query);
    PathLeIsTotal(lower, q);
    hide PathLe, Contains, FirstSorted;
    BestOf((path: string) => Contains(lower(path), q), (a, b) => PathLe(lower, q, a, b), index, cap);
  }

  lemma BestOf<T(!new)>(keep: T -> bool, le: (T, T) -> bool, index: seq<T>, cap: nat)
    requires TotalOrder(le)
    ensures var r := FirstSorted(keep, le, index, cap);
      && |r| <= cap
      && (forall i :: 0 <= i < |r| ==> r[i] in index && keep(r[i]))
      && (forall i, j :: 0 <= i < j < |r| ==> le(r[i], r[j]))
      && (forall p :: p in index && keep(p) && p !in r ==> |r| == cap && forall i :: 0 <= i < |r| ==> le(r[i], p))
  {
    var found := Filter(keep, index);
    SortSorts(le, found);
    hide Sort, Filter, TotalOrder;
    var ranked := Sort(le, found);
    var r := FirstSorted(keep, le, index, cap);
    forall p ensures p in ranked <==> p in index && keep(p) {
      FilterKeeps(keep, index, p);
      assert p in ranked <==> p in multiset(ranked);
      assert p in found <==> p in multiset(found);
    }
    assert forall i :: 0 <= i < |r| ==> r[i] == ranked[i] && ranked[i] in ranked && ranked[i] in r;
    forall p | p in index && keep(p) && p !in r
      ensures |r| == cap && forall i :: 0 <= i < |r| ==> le(r[i], p)
    {
      var k :| 0 <= k < |ranked| && ranked[k] == p;
    }
  }
}
