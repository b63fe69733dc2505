/** Character and string helpers shared by the models: whitespace classes, trimming,
    first-line extraction, and decimal printing and parsing. */
module Text {

  datatype Option<+T> = None | Some(value: T)

  /** Unicode White_Space, the class `char::is_whitespace` tests in Rust. */
  predicate IsWhitespace(c: char) {
    || '\U{0009}' <= c <= '\U{000D}'
    || c == '\U{0020}' || c == '\U{0085}' || c == '\U{00A0}' || c == '\U{1680}'
    || '\U{2000}' <= c <= '\U{200A}'
    || c == '\U{2028}' || c == '\U{2029}' || c == '\U{202F}' || c == '\U{205F}' || c == '\U{3000}'
  }

  /** The class Python's `str.strip` removes: White_Space plus four separators. */
  predicate IsPySpace(c: char) {
    IsWhitespace(c) || '\U{001C}' <= c <= '\U{001F}'
  }

  predicate IsDigit(c: char) { '0' <= c <= '9' }

  /** The two classes, spelled out. */
  lemma Blanks(c: char)
    ensures IsWhitespace(c) <==> c in {
      '\U{0009}', '\U{000A}', '\U{000B}', '\U{000C}', '\U{000D}', '\U{0020}', '\U{0085}', '\U{00A0}', '\U{1680}',
      '\U{2000}', '\U{2001}', '\U{2002}', '\U{2003}', '\U{2004}', '\U{2005}', '\U{2006}', '\U{2007}', '\U{2008}',
      '\U{2009}', '\U{200A}', '\U{2028}', '\U{2029}', '\U{202F}', '\U{205F}', '\U{3000}'}
    ensures IsPySpace(c) <==> IsWhitespace(c) || c in {'\U{001C}', '\U{001D}', '\U{001E}', '\U{001F}'}
  {
  }

  function TrimStart(ws: char -> bool, s: string): (r: string)
    ensures |r| <= |s|
  {
    if s == "" || !ws(s[0]) then s else TrimStart(ws, s[1..])
  }

  lemma {:induction false} TrimStartCuts(ws: char -> bool, s: string)
    ensures var r := TrimStart(ws, s); var k := |s| - |r|;
      && r == s[k..] && (r != "" ==> !ws(r[0])) && (forall i :: 0 <= i < k ==> ws(s[i]))
  {
    if s != "" && ws(s[0]) { TrimStartCuts(ws, s[1..]); }
  }

  function TrimEnd(ws: char -> bool, s: string): (r: string)
    ensures |r| <= |s|
  {
    if s == "" || !ws(s[|s| - 1]) then s else TrimEnd(ws, s[..|s| - 1])
  }

  lemma {:induction false} TrimEndCuts(ws: char -> bool, s: string)
    ensures var r := TrimEnd(ws, s);
      && r == s[..|r|] && (r != "" ==> !ws(r[|r| - 1]))
      && (forall i :: |r| <= i < |s| ==> ws(s[i]))
  {
    if s != "" && ws(s[|s| - 1]) { TrimEndCuts(ws, s[..|s| - 1]); }
  }

  function Trim(ws: char -> bool, s: string): string {
    TrimEnd(ws, TrimStart(ws, s))
  }

  /** A string that trimming leaves alone. */
  predicate Trimmed(ws: char -> bool, s: string) {
    s == "" || (!ws(s[0]) && !ws(s[|s| - 1]))
  }

  lemma TrimIsTrimmed(ws: char -> bool, s: string)
    ensures Trimmed(ws, Trim(ws, s))
    ensures forall c :: c in Trim(ws, s) ==> c in s
    ensures Trimmed(ws, s) ==> Trim(ws, s) == s
  {
    var a := TrimStart(ws, s);
    var b := TrimEnd(ws, a);
    TrimStartCuts(ws, s);
    TrimEndCuts(ws, a);
    assert b != "" ==> b[0] == a[0];
    if Trimmed(ws, s) && s != "" {
      assert |a| == |s|;
      assert a == s;
      assert |b| == |a|;
    }
  }

  /** Blanks around a trimmed text are exactly what trimming removes. */
  lemma TrimPadded(ws: char -> bool, before: string, s: string, after: string)
    requires Trimmed(ws, s)
    requires forall c :: c in before || c in after ==> ws(c)
    ensures Trim(ws, before + s + after) == s
  {
    assert before + s + after == before + (s + after);
    if s == "" {
      assert before + (s + after) == (before + after) + "";
      TrimStartPadded(ws, before + after, "");
    } else {
      TrimStartPadded(ws, before, s + after);
      TrimEndPadded(ws, s, after);
    }
  }

  predicate All(ws: char -> bool, s: string) { forall c :: c in s ==> ws(c) }

  lemma {:induction false} CutStart(ws: char -> bool, s: string) returns (l: string)
    ensures s == l + TrimStart(ws, s) && All(ws, l)
  {
    if s == "" || !ws(s[0]) {
      l := "";
    } else {
      var m := CutStart(ws, s[1..]);
      l := [s[0]] + m;
      assert s == [s[0]] + s[1..];
    }
  }

  lemma {:induction false} CutEnd(ws: char -> bool, s: string) returns (r: string)
    ensures s == TrimEnd(ws, s) + r && All(ws, r)
  {
    if s == "" || !ws(s[|s| - 1]) {
      r := "";
    } else {
      var m := CutEnd(ws, s[..|s| - 1]);
      r := m + [s[|s| - 1]];
      assert s == s[..|s| - 1] + [s[|s| - 1]];
    }
  }

  /** Trimming takes blanks off both ends. */
  lemma TrimCuts(ws: char -> bool, s: string) returns (l: string, r: string)
    ensures s == l + Trim(ws, s) + r && All(ws, l) && All(ws, r)
  {
    hide TrimStart, TrimEnd, All;
    l := CutStart(ws, s);
    r := CutEnd(ws, TrimStart(ws, s));
    assert l + (Trim(ws, s) + r) == l + Trim(ws, s) + r;
  }

  /** Blanks put around any text change nothing that trimming keeps. */
  lemma TrimAround(ws: char -> bool, before: string, s: string, after: string)
    requires All(ws, before) && All(ws, after)
    ensures Trim(ws, before + s + after) == Trim(ws, s)
  {
    TrimIsTrimmed(ws, s);
    hide Trim, Trimmed;
    var l, r := TrimCuts(ws, s);
    var t := Trim(ws, s);
    assert before + s + after == (before + l) + t + (r + after);
    TrimPadded(ws, before + l, t, r + after);
  }

  lemma {:induction false} TrimStartPadded(ws: char -> bool, before: string, s: string)
    requires forall c :: c in before ==> ws(c)
    requires s != "" ==> !ws(s[0])
    ensures TrimStart(ws, before + s) == s
  {
    if before == "" {
      assert before + s == s;
    } else {
      assert (before + s)[0] == before[0] && (before + s)[1..] == before[1..] + s;
      TrimStartPadded(ws, before[1..], s);
    }
  }

  lemma {:induction false} TrimEndPadded(ws: char -> bool, s: string, after: string)
    requires s != "" && !ws(s[|s| - 1])
    requires forall c :: c in after ==> ws(c)
    ensures TrimEnd(ws, s + after) == s
  {
    var t := s + after;
    if after == "" {
      assert t == s;
    } else {
      assert t[|t| - 1] == after[|after| - 1];
      assert t[..|t| - 1] == s + after[..|after| - 1];
      TrimEndPadded(ws, s, after[..|after| - 1]);
    }
  }

  // ----- first occurrence -----

  /** Index of the first `c`, or |s|. */
  function IndexOf(s: string, c: char): (i: nat)
    ensures i <= |s|
  {
    if s == "" || s[0] == c then 0 else IndexOf(s[1..], c) + 1
  }

  lemma {:induction false} IndexOfFinds(s: string, c: char)
    ensures var i := IndexOf(s, c);
      && (i < |s| ==> s[i] == c) && (forall k :: 0 <= k < i ==> s[k] != c)
  {
    if s != "" && s[0] != c { IndexOfFinds(s[1..], c); }
  }

  lemma IndexOfConcat(a: string, c: char, b: string)
    requires c !in a
    ensures IndexOf(a + [c] + b, c) == |a|
  {
    var s := a + [c] + b;
    IndexOfFinds(s, c);
    assert s[|a|] == c;
    assert forall k :: 0 <= k < |a| ==> s[k] == a[k];
  }

  // ----- substrings and paths -----

  predicate Contains(s: string, pat: string) {
    pat <= s || (s != "" && Contains(s[1..], pat))
  }

  /** It stands somewhere in s. */
  lemma {:induction false} ContainsIs(s: string, pat: string)
    ensures Contains(s, pat) <==> exists before, after :: s == before + pat + after
  {
    if pat <= s {
      assert s == "" + pat + s[|pat|..];
    } else {
      if before, after :| s == before + pat + after {
        assert "" + pat + after == pat + after;
        assert s[1..] == before[1..] + pat + after;
      }
      if s != "" {
        ContainsIs(s[1..], pat);
        if before, after :| s[1..] == before + pat + after {
          assert s == [s[0]] + s[1..] == ([s[0]] + before) + pat + after;
        }
      }
    }
  }

  /** What follows the last `/`. */
  function BaseName(path: string): string
    decreases |path|
  {
    var k := IndexOf(path, '/');
    if k == |path| then path else BaseName(path[k + 1..])
  }

  lemma {:induction false} BaseNameIs(dir: string, name: string)
    requires '/' !in name
    ensures BaseName(name) == name && BaseName(dir + "/" + name) == name
    decreases |dir|
  {
    IndexOfFinds(name, '/');
    var path := dir + "/" + name;
    var k := IndexOf(path, '/');
    IndexOfFinds(path, '/');
    assert path[|dir|] == '/';
    if k == |dir| {
      assert path[k + 1..] == name;
    } else {
      assert path[k] == dir[k] == '/';
      assert path[k + 1..] == dir[k + 1..] + "/" + name;
      BaseNameIs(dir[k + 1..], name);
    }
  }

  // ----- decimals -----

  function DigitChar(d: nat): (c: char)
    requires d < 10
    ensures IsDigit(c)
  {
    '0' + d as char
  }

  function DigitVal(c: char): (d: nat)
    requires IsDigit(c)
    ensures d < 10
  {
    (c - '0') as nat
  }

  /** Decimal digits of n, no leading zeros (`{n}`). */
  function Dec(n: nat): (s: string)
    ensures s != "" && forall c :: c in s ==> IsDigit(c)
  {
    if n < 10 then [DigitChar(n)] else Dec(n / 10) + [DigitChar(n % 10)]
  }

  predicate AllDigits(s: string) { forall c :: c in s ==> IsDigit(c) }

  function DecVal(s: string): (n: nat)
    requires AllDigits(s)
  {
    if s == "" then 0 else DecVal(s[..|s| - 1]) * 10 + DigitVal(s[|s| - 1])
  }

  lemma {:induction false} LeadingZeros(z: string, d: string)
    requires AllDigits(d) && forall i :: 0 <= i < |z| ==> z[i] == '0'
    ensures AllDigits(z + d) && DecVal(z + d) == DecVal(d)
    decreases |z| + |d|
  {
    var s := z + d;
    assert AllDigits(s);
    if d != "" {
      var m := |d| - 1;
      assert s[..|s| - 1] == z + d[..m] && s[|s| - 1] == d[m];
      LeadingZeros(z, d[..m]);
    } else if z != "" {
      var n := |z| - 1;
      LeadingZeros(z[..n], "");
      assert z[..n] + "" == z[..n] && s == z;
      assert DecVal(z) == DecVal(z[..n]) * 10 + DigitVal('0');
    }
  }

  lemma {:induction false} DecRoundTrip(n: nat)
    ensures DecVal(Dec(n)) == n
  {
    if n >= 10 {
      DecRoundTrip(n / 10);
      assert Dec(n)[..|Dec(n)| - 1] == Dec(n / 10);
    }
  }

  /** `str::parse` for an unsigned type whose values are below `limit`: an optional plus
      sign, then at least one ASCII digit, then the overflow test. */
  function ParseUnsigned(s: string, limit: nat): (r: Option<nat>)
    ensures r.Some? ==> r.value < limit
  {
    var d := if s != "" && s[0] == '+' then s[1..] else s;
    if d != "" && AllDigits(d) && DecVal(d) < limit then Some(DecVal(d)) else None
  }

  lemma ParseDec(n: nat, limit: nat)
    ensures ParseUnsigned(Dec(n), limit) == if n < limit then Some(n) else None
  {
    DecRoundTrip(n);
    assert Dec(n)[0] in Dec(n);
  }
}
