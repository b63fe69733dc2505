/** What text the accumulator hands to the event parser when a body is not UTF-8: how it
    depends on the chunks, and exactly when it does not (src/api.rs:686-713). */
module Delivery {
  import opened Text
  import opened Utf8
  import opened Sse
  import opened Stream
  import opened Accumulator
  import opened StreamTheorems
  import opened StreamBytes

  /** One feed, bytes only: the text decoded, and the carry left after dropping at most one
      invalid sequence. */
  function Hand(available: seq<byte>): (string, seq<byte>) {
    var (text, rest) := Decode(available);
    (text, DropInvalid(rest))
  }

  /** All the text handed on by feeding the chunks, and the carry behind it. */
  function Handed(chunks: seq<seq<byte>>): (string, seq<byte>) {
    if chunks == [] then ("", [])
    else
      var (text, carry) := Handed(chunks[..|chunks| - 1]);
      var (more, left) := Hand(carry + chunks[|chunks| - 1]);
      (text + more, left)
  }

  // ----- the accumulator depends on the text handed on only -----

  ghost predicate Holds(parse: JsonParser, a: Acc, text: string, carry: seq<byte>) {
    && a.core == Run(parse, EMPTY, Events(text))
    && (a.core.error == None ==> a.carry == carry && a.sse == Parse(FRESH, text).0)
  }

  /** Blocks, usage, hook calls and error are those of the text handed on. */
  lemma {:induction false} CoreIsHanded(parse: JsonParser, chunks: seq<seq<byte>>)
    ensures Holds(parse, FeedAll(parse, chunks), Handed(chunks).0, Handed(chunks).1)
  {
    hide Decode, Parse, Run, DropInvalid;
    if chunks == [] {
      ParseNothing(FRESH);
      RunNothing(parse, EMPTY);
    } else {
      var m := |chunks| - 1;
      CoreIsHanded(parse, chunks[..m]);
      var a := FeedAll(parse, chunks[..m]);
      var (text, carry) := Handed(chunks[..m]);
      var more := Decode(carry + chunks[m]).0;
      ParseConcat(FRESH, text, more);
      var (s1, e1) := Parse(FRESH, text);
      var (s2, e2) := Parse(s1, more);
      RunConcat(parse, EMPTY, e1, e2);
      if a.core.error.Some? { ErrorIsSticky(parse, a.core, e2); }
    }
  }

  // ----- consuming units -----

  /** Consuming whole units, characters and invalid sequences, leads from the bytes `a` to
      their end `z`; the characters on the way are `text`. */
  ghost predicate Reach(a: seq<byte>, z: seq<byte>, text: string)
    decreases |a|
  {
    || (a == z && text == "")
    || (a != [] && match FirstUnit(a)
        case Char(c, len) => text != "" && text[0] == c && Reach(a[len..], z, text[1..])
        case Invalid(len) => Reach(a[len..], z, text)
        case Incomplete => false)
  }

  lemma CharStays(a: seq<byte>, more: seq<byte>)
    requires a != [] && FirstUnit(a).Char?
    ensures FirstUnit(a + more) == FirstUnit(a)
  {}

  /** More bytes behind change no unit that was complete. */
  lemma {:induction false} ReachAppend(a: seq<byte>, z: seq<byte>, text: string, more: seq<byte>)
    requires Reach(a, z, text)
    ensures Reach(a + more, z + more, text)
    decreases |a|
  {
    hide FirstUnit;
    if !(a == z && text == "") {
      match FirstUnit(a)
      case Char(c, len) =>
        CharStays(a, more);
        ReachAppend(a[len..], z, text[1..], more);
        assert (a + more)[len..] == a[len..] + more;
      case Invalid(len) =>
        InvalidStays(a, more);
        ReachAppend(a[len..], z, text, more);
        assert (a + more)[len..] == a[len..] + more;
      case Incomplete =>
    }
  }

  lemma {:induction false} ReachTrans(a: seq<byte>, b: seq<byte>, z: seq<byte>, s: string, t: string)
    requires Reach(a, b, s) && Reach(b, z, t)
    ensures Reach(a, z, s + t)
    decreases |a|
  {
    hide FirstUnit;
    if a == b && s == "" {
      assert s + t == t;
    } else {
      match FirstUnit(a)
      case Char(c, len) =>
        ReachTrans(a[len..], b, z, s[1..], t);
        assert (s + t)[1..] == s[1..] + t;
      case Invalid(len) => ReachTrans(a[len..], b, z, s, t);
      case Incomplete =>
    }
  }

  lemma DecodeChar(a: seq<byte>)
    requires a != [] && FirstUnit(a).Char?
    ensures var u := FirstUnit(a); var d := Decode(a[u.len..]);
      Decode(a) == ([u.c] + d.0, d.1)
  {
    hide FirstUnit;
  }

  /** A feed consumes units. */
  lemma {:induction false} HandReaches(a: seq<byte>)
    ensures Reach(a, Hand(a).1, Hand(a).0)
    decreases |a|
  {
    hide FirstUnit, Decode;
    if a == [] {
      DecodeStops(a);
    } else {
      match FirstUnit(a)
      case Char(c, len) =>
        DecodeChar(a);
        HandReaches(a[len..]);
        assert ([c] + Hand(a[len..]).0)[1..] == Hand(a[len..]).0;
      case Invalid(len) => DecodeStops(a);
      case Incomplete => DecodeStops(a);
    }
  }

  /** Being ahead stays being ahead: if b lies behind a on the way, so does what a feed makes
      of b behind what it makes of a. */
  lemma {:induction false} HandKeepsAhead(a: seq<byte>, b: seq<byte>, s: string) returns (gap: string)
    requires Reach(a, b, s)
    ensures Reach(Hand(a).1, Hand(b).1, gap) && s + Hand(b).0 == Hand(a).0 + gap
    decreases |a|
  {
    hide FirstUnit, Decode;
    if a == b && s == "" {
      gap := "";
    } else {
      match FirstUnit(a)
      case Char(c, len) =>
        DecodeChar(a);
        gap := HandKeepsAhead(a[len..], b, s[1..]);
        assert s + Hand(b).0 == [c] + (s[1..] + Hand(b).0);
      case Invalid(len) =>
        DecodeStops(a);
        HandReaches(b);
        ReachTrans(a[len..], b, Hand(b).1, s, Hand(b).0);
        gap := s + Hand(b).0;
      case Incomplete =>
    }
  }

  /** What decodes at the front decodes on the way. */
  lemma {:induction false} FrontIsOnTheWay(a: seq<byte>, b: seq<byte>, s: string)
    requires Reach(a, b, s)
    ensures Decode(a).0 <= s + Decode(b).0
    decreases |a|
  {
    hide FirstUnit, Decode;
    if !(a == b && s == "") {
      match FirstUnit(a)
      case Char(c, len) =>
        DecodeChar(a);
        FrontIsOnTheWay(a[len..], b, s[1..]);
        assert s + Decode(b).0 == [c] + (s[1..] + Decode(b).0);
      case Invalid(_) => DecodeStops(a);
      case Incomplete =>
    }
  }

  // ----- byte by byte -----

  /** The delivery of one byte a chunk. */
  function Singles(body: seq<byte>): seq<seq<byte>> { seq(|body|, i requires 0 <= i < |body| => [body[i]]) }

  lemma HandedLast(chunks: seq<seq<byte>>, d: seq<byte>)
    ensures var (text, carry) := Handed(chunks);
      Handed(chunks + [d]) == (text + Hand(carry + d).0, Hand(carry + d).1)
    ensures Concat(chunks + [d]) == Concat(chunks) + d
  {
    hide Hand;
    assert (chunks + [d])[..|chunks|] == chunks;
  }

  lemma SinglesLast(body: seq<byte>, x: byte)
    ensures Singles(body + [x]) == Singles(body) + [[x]]
  {}

  lemma {:induction false} SinglesConcat(body: seq<byte>)
    ensures Concat(Singles(body)) == body
  {
    if body != [] {
      var m := |body| - 1;
      assert body == body[..m] + [body[m]];
      SinglesConcat(body[..m]);
      SinglesLast(body[..m], body[m]);
      assert Singles(body)[..m] == Singles(body[..m]);
    }
  }

  /** Feeding more bytes one by one consumes units of carry and bytes. */
  lemma {:induction false} SinglesReach(body: seq<byte>, d: seq<byte>) returns (text: string)
    ensures var b0 := Handed(Singles(body)); var b1 := Handed(Singles(body + d));
      Reach(b0.1 + d, b1.1, text) && b1.0 == b0.0 + text
    decreases |d|
  {
    hide Reach, Hand, Handed;
    var b0 := Handed(Singles(body));
    if d == [] {
      text := "";
      assert body + d == body && b0.1 + d == b0.1;
      assert Reach(b0.1, b0.1, "") by { ReachNothing(b0.1); }
    } else {
      var m := |d| - 1;
      var x := d[m];
      var before := SinglesReach(body, d[..m]);
      var (t1, c1) := Handed(Singles(body + d[..m]));
      assert (body + d[..m]) + [x] == body + d && (b0.1 + d[..m]) + [x] == b0.1 + d;
      SinglesLast(body + d[..m], x);
      HandedLast(Singles(body + d[..m]), [x]);
      ReachAppend(b0.1 + d[..m], c1, before, [x]);
      HandReaches(c1 + [x]);
      ReachTrans(b0.1 + d, c1 + [x], Hand(c1 + [x]).1, before, Hand(c1 + [x]).0);
      text := before + Hand(c1 + [x]).0;
    }
  }

  lemma ReachNothing(a: seq<byte>)
    ensures Reach(a, a, "")
  {}

  // ----- every delivery lies between the whole and the single bytes -----

  /** The body reader passes on what it read, never an empty chunk. */
  predicate NonEmpty(chunks: seq<seq<byte>>) { forall i :: 0 <= i < |chunks| ==> chunks[i] != [] }

  /** Byte by byte is never behind: it has handed on whatever any other delivery has. */
  lemma {:induction false} BytesAreAhead(chunks: seq<seq<byte>>) returns (gap: string)
    requires NonEmpty(chunks)
    ensures var (text, carry) := Handed(chunks); var (most, left) := Handed(Singles(Concat(chunks)));
      Reach(carry, left, gap) && most == text + gap
  {
    hide Reach, Hand, Handed;
    if chunks == [] {
      gap := "";
      NothingHanded();
    } else {
      var m := |chunks| - 1;
      var d := chunks[m];
      var pre := Concat(chunks[..m]);
      var gap0 := BytesAreAhead(chunks[..m]);
      var (text, carry) := Handed(chunks[..m]);
      var (most, left) := Handed(Singles(pre));
      var n := |d| - 1;
      var t := SinglesReach(pre, d[..n]);
      var (most1, left1) := Handed(Singles(pre + d[..n]));
      assert d[..n] + [d[n]] == d && (pre + d[..n]) + [d[n]] == pre + d && (left + d[..n]) + [d[n]] == left + d;
      assert chunks == chunks[..m] + [d];
      HandedLast(chunks[..m], d);
      SinglesLast(pre + d[..n], d[n]);
      HandedLast(Singles(pre + d[..n]), [d[n]]);
      ReachAppend(carry, left, gap0, d);
      ReachAppend(left + d[..n], left1, t, [d[n]]);
      ReachTrans(carry + d, left + d, left1 + [d[n]], gap0, t);
      gap := HandKeepsAhead(carry + d, left1 + [d[n]], gap0 + t);
      Regrouped(text, gap0, t, Hand(left1 + [d[n]]).0, Hand(carry + d).0, gap);
    }
  }

  lemma NothingHanded()
    ensures Concat([]) == [] && Singles([]) == [] && Handed([]) == ("", []) && Reach([], [], "")
  {}

  lemma Regrouped(text: string, gap0: string, t: string, b: string, a: string, gap: string)
    requires (gap0 + t) + b == a + gap
    ensures ((text + gap0) + t) + b == (text + a) + gap
  {
    assert ((text + gap0) + t) + b == text + ((gap0 + t) + b);
    assert text + (a + gap) == (text + a) + gap;
  }

  lemma {:induction false} ChunksReach(chunks: seq<seq<byte>>)
    ensures Reach(Concat(chunks), Handed(chunks).1, Handed(chunks).0)
    ensures Decode(Concat(chunks)).0 <= Handed(chunks).0
  {
    hide Reach, Hand, Handed, Decode;
    if chunks == [] {
      NothingHanded();
      DecodeStops([]);
    } else {
      var m := |chunks| - 1;
      var d := chunks[m];
      var (text, carry) := Handed(chunks[..m]);
      ChunksReach(chunks[..m]);
      assert chunks == chunks[..m] + [d];
      HandedLast(chunks[..m], d);
      ReachAppend(Concat(chunks[..m]), carry, text, d);
      HandReaches(carry + d);
      ReachTrans(Concat(chunks), carry + d, Hand(carry + d).1, text, Hand(carry + d).0);
      FrontIsOnTheWay(Concat(chunks), carry + d, text);
      assert Hand(carry + d).0 == Decode(carry + d).0 by { HandIs(carry + d); }
    }
  }

  lemma HandIs(a: seq<byte>)
    ensures Hand(a).0 == Decode(a).0
  {}

  lemma WholeHands(body: seq<byte>)
    ensures Handed([body]).0 == Decode(body).0 && Concat([body]) == body
  {
    hide Decode;
    NothingHanded();
    assert [body][..0] == [];
    assert [] + body == body && "" + Decode(body).0 == Decode(body).0;
  }

  /** However a body is delivered: the text handed on begins with what decodes at the body's
      front, and single bytes hand on the most. */
  lemma DeliveriesLieBetween(chunks: seq<seq<byte>>)
    requires NonEmpty(chunks)
    ensures Decode(Concat(chunks)).0 <= Handed(chunks).0 <= Handed(Singles(Concat(chunks))).0
  {
    hide Reach, Handed, Decode;
    ChunksReach(chunks);
    var gap := BytesAreAhead(chunks);
  }

  /** All deliveries of a body hand on the same text exactly when, delivered byte by byte,
      nothing decodes behind the text at its front. */
  lemma DeliveriesAgreeIff(body: seq<byte>)
    ensures (forall chunks :: NonEmpty(chunks) && Concat(chunks) == body ==> Handed(chunks).0 == Handed([body]).0)
       <==> Handed(Singles(body)).0 == Decode(body).0
  {
    hide Handed, Decode, Concat;
    WholeHands(body);
    SinglesConcat(body);
    assert NonEmpty(Singles(body));
    if Handed(Singles(body)).0 == Decode(body).0 {
      forall chunks | NonEmpty(chunks) && Concat(chunks) == body ensures Handed(chunks).0 == Handed([body]).0 {
        DeliveriesLieBetween(chunks);
      }
    }
  }

  // ----- the exact condition, on the bytes -----

  /** Feeding bytes one by one behind a carry. */
  function Bytes(carry: seq<byte>, d: seq<byte>): (string, seq<byte>) {
    if d == [] then ("", carry)
    else
      var (text, c) := Bytes(carry, d[..|d| - 1]);
      var (more, left) := Hand(c + [d[|d| - 1]]);
      (text + more, left)
  }

  lemma Assoc(a: string, b: string, c: string)
    ensures (a + b) + c == a + (b + c)
  {}

  lemma BytesLast(carry: seq<byte>, d: seq<byte>, x: byte)
    ensures var (text, c) := Bytes(carry, d); var (more, left) := Hand(c + [x]);
      Bytes(carry, d + [x]) == (text + more, left)
  {
    hide Hand;
    assert (d + [x])[..|d|] == d;
  }

  lemma BytesNone(carry: seq<byte>)
    ensures Bytes(carry, []) == ("", carry)
  {}

  lemma {:induction false} BytesFront(carry: seq<byte>, x: byte, d: seq<byte>)
    ensures var (more, c) := Hand(carry + [x]); var (text, left) := Bytes(c, d);
      Bytes(carry, [x] + d) == (more + text, left)
    decreases |d|
  {
    hide Hand, Bytes;
    var (more, c) := Hand(carry + [x]);
    if d == [] {
      BytesNone(carry);
      BytesNone(c);
      BytesLast(carry, [], x);
      assert [] + [x] == [x] + d;
      assert "" + more == more + "";
    } else {
      var m := |d| - 1;
      BytesFront(carry, x, d[..m]);
      var (text, c1) := Bytes(c, d[..m]);
      BytesLast(carry, [x] + d[..m], d[m]);
      BytesLast(c, d[..m], d[m]);
      assert d[..m] + [d[m]] == d;
      assert ([x] + d[..m]) + [d[m]] == [x] + d;
      Assoc(more, text, Hand(c1 + [d[m]]).0);
    }
  }

  lemma {:induction false} SinglesAreBytes(pre: seq<byte>, d: seq<byte>)
    ensures var (text, carry) := Handed(Singles(pre)); var (more, left) := Bytes(carry, d);
      Handed(Singles(pre + d)) == (text + more, left)
    decreases |d|
  {
    hide Hand, Handed, Bytes;
    var (text, carry) := Handed(Singles(pre));
    if d == [] {
      assert pre + d == pre && text + "" == text;
      BytesNone(carry);
    } else {
      var m := |d| - 1;
      SinglesAreBytes(pre, d[..m]);
      var (more, c1) := Bytes(carry, d[..m]);
      assert (pre + d[..m]) + [d[m]] == pre + d && d[..m] + [d[m]] == d;
      SinglesLast(pre + d[..m], d[m]);
      HandedLast(Singles(pre + d[..m]), [d[m]]);
      BytesLast(carry, d[..m], d[m]);
      Assoc(text, more, Hand(c1 + [d[m]]).0);
    }
  }

  /** Nothing of r ever decodes byte by byte: it is invalid sequences up to the end or an
      unfinished character, or up to a last ASCII byte that came one feed late. A byte is late
      once an invalid sequence was recognised only by the byte behind it. */
  predicate Inert(r: seq<byte>, late: bool)
    decreases |r|
  {
    r == []
    || match FirstUnit(r)
       case Invalid(len) => Inert(r[len..], late || Width(r[0]) > 0)
       case Incomplete => true
       case Char(_, _) => late && |r| == 1
  }

  lemma HandDecodes(a: seq<byte>)
    requires a != [] && FirstUnit(a).Char? && FirstUnit(a).len == |a|
    ensures Hand(a) == ([FirstUnit(a).c], [])
  {
    hide FirstUnit, Decode;
    DecodeChar(a);
    assert a[|a|..] == [];
    DecodeStops([]);
    assert [FirstUnit(a).c] + "" == [FirstUnit(a).c];
  }

  lemma HandDrops(a: seq<byte>)
    requires a != [] && FirstUnit(a).Invalid?
    ensures Hand(a) == ("", a[FirstUnit(a).len..])
  {
    hide FirstUnit, Decode;
    DecodeStops(a);
  }

  lemma HandWaits(a: seq<byte>)
    requires a != [] && FirstUnit(a).Incomplete?
    ensures Hand(a) == ("", a)
  {
    hide FirstUnit, Decode;
    DecodeStops(a);
  }

  lemma UnitGrows(carry: seq<byte>, x: byte)
    requires carry != [] && FirstUnit(carry).Incomplete?
    ensures var u := FirstUnit(carry + [x]);
      (u.Char? ==> u.len == |carry| + 1) && (u.Invalid? ==> u.len == |carry|)
    ensures Width(carry[0]) > 1
  {
    hide Scalar;
    var a := carry + [x];
    assert forall i :: 0 <= i < |carry| ==> a[i] == carry[i];
  }

  /** What one more byte makes of an unfinished character. */
  lemma UnfinishedGrows(carry: seq<byte>, x: byte)
    requires carry != [] && FirstUnit(carry).Incomplete?
    ensures var a := carry + [x]; var u := FirstUnit(a);
      && (u.Char? ==> u.len == |a| && Hand(a) == ([u.c], []))
      && (u.Incomplete? ==> Hand(a) == ("", a))
      && (u.Invalid? ==> u.len == |carry| && Hand(a) == ("", [x]))
    ensures Width(carry[0]) > 1
  {
    hide FirstUnit, Decode, Hand, Width;
    UnitGrows(carry, x);
    var a := carry + [x];
    match FirstUnit(a)
    case Char(_, _) => HandDecodes(a);
    case Incomplete => HandWaits(a);
    case Invalid(_) =>
      HandDrops(a);
      assert a[|carry|..] == [x];
  }

  lemma OneUnit(x: byte)
    ensures var u := FirstUnit([x]); (u.Char? ==> u.len == 1) && (u.Invalid? ==> u.len == 1 && Width(x) == 0)
  {
    hide Scalar;
  }

  lemma OneByte(x: byte)
    ensures var u := FirstUnit([x]);
      && (u.Char? ==> u.len == 1 && Hand([x]) == ([u.c], []))
      && (u.Incomplete? ==> Hand([x]) == ("", [x]))
      && (u.Invalid? ==> u.len == 1 && Width(x) == 0 && Hand([x]) == ("", []))
  {
    hide FirstUnit, Decode, Hand, Width;
    OneUnit(x);
    match FirstUnit([x])
    case Char(_, _) => HandDecodes([x]);
    case Incomplete => HandWaits([x]);
    case Invalid(_) =>
      HandDrops([x]);
      assert [x][1..] == [];
  }

  /** From an unfinished character on. */
  lemma {:induction false} UnfinishedInert(carry: seq<byte>, d: seq<byte>, late: bool)
    requires carry != [] && FirstUnit(carry).Incomplete?
    ensures Bytes(carry, d).0 == "" <==> Inert(carry + d, late)
    decreases |d|, 0
  {
    hide FirstUnit, Width, Decode, Hand;
    if d == [] {
      assert carry + d == carry;
    } else {
      var x, more := d[0], d[1..];
      assert d == [x] + more && (carry + [x]) + more == carry + d;
      BytesFront(carry, x, more);
      UnfinishedGrows(carry, x);
      var a := carry + [x];
      match FirstUnit(a)
      case Char(_, _) => CharStays(a, more);
      case Incomplete => UnfinishedInert(a, more, late);
      case Invalid(len) =>
        InvalidStays(a, more);
        assert (a + more)[len..] == [x] + more && (a + more)[0] == carry[0];
        LateInert(x, more);
    }
  }

  /** From a late byte on. */
  lemma {:induction false} LateInert(b: byte, d: seq<byte>)
    ensures Bytes([b], d).0 == "" <==> Inert([b] + d, true)
    decreases |d|, 1
  {
    hide FirstUnit, Width, Decode, Hand;
    OneByte(b);
    match FirstUnit([b])
    case Incomplete => UnfinishedInert([b], d, true);
    case Char(_, _) =>
      CharStays([b], d);
      if d != [] {
        var x, more := d[0], d[1..];
        assert d == [x] + more;
        BytesFront([b], x, more);
        CharStays([b], [x]);
        DecodeChar([b] + [x]);
        assert Hand([b] + [x]).0 != "" by { HandIs([b] + [x]); }
      } else {
        assert [b] + d == [b];
      }
    case Invalid(_) =>
      InvalidStays([b], d);
      if d == [] {
        assert [b] + d == [b] && [b][1..] == [];
      } else {
        var x, more := d[0], d[1..];
        assert d == [x] + more;
        BytesFront([b], x, more);
        InvalidStays([b], [x]);
        DecodeStops([b] + [x]);
        assert ([b] + [x])[1..] == [x] && ([b] + d)[1..] == d;
        assert Hand([b] + [x]) == ("", [x]) by { HandDrops([b] + [x]); }
        LateInert(x, more);
      }
  }

  /** From nothing on. */
  lemma {:induction false} FreshInert(d: seq<byte>)
    ensures Bytes([], d).0 == "" <==> Inert(d, false)
  {
    hide FirstUnit, Width, Decode, Hand;
    if d != [] {
      var x, more := d[0], d[1..];
      assert d == [x] + more && [] + [x] == [x];
      BytesFront([], x, more);
      OneByte(x);
      match FirstUnit([x])
      case Char(_, _) => CharStays([x], more);
      case Incomplete => UnfinishedInert([x], more, false);
      case Invalid(_) =>
        InvalidStays([x], more);
        assert d[1..] == more;
        FreshInert(more);
    }
  }

  lemma {:induction false} EncodedIsConsumed(t: string, z: seq<byte>, s: string)
    requires Reach(Encode(t), z, s) && t <= s
    ensures z == [] && s == t
  {
    hide FirstUnit, EncodeChar;
    if t != "" {
      var tail := Encode(t[1..]);
      EncodeCharDecodes(t[0], tail);
      assert (EncodeChar(t[0]) + tail)[|EncodeChar(t[0])|..] == tail;
      EncodedIsConsumed(t[1..], z, s[1..]);
      assert s == [s[0]] + s[1..] && t == [t[0]] + t[1..];
    }
  }

  lemma TextThenBytes(t: string, r: seq<byte>)
    ensures Handed(Singles(Encode(t) + r)).0 == t + Bytes([], r).0
  {
    hide Handed, Decode, Encode, Reach, Bytes;
    SinglesConcat(Encode(t));
    ChunksReach(Singles(Encode(t)));
    DecodeWhole(t);
    EncodedIsConsumed(t, Handed(Singles(Encode(t))).1, Handed(Singles(Encode(t))).0);
    SinglesAreBytes(Encode(t), r);
  }

  lemma FrontText(t: string, r: seq<byte>)
    requires r != [] && FirstUnit(r).Invalid?
    ensures Decode(Encode(t) + r).0 == t
  {
    hide *;
    DecodeEncode(t, r);
    assert Decode(r).0 == "" by { DecodeStops(r); }
    assert t + "" == t;
  }

  /** A body whose first invalid sequence stands behind the text t: every delivery hands on t
      and nothing else exactly when the bytes behind t are inert. */
  lemma InvalidBodiesAgreeIff(t: string, r: seq<byte>)
    requires r != [] && FirstUnit(r).Invalid?
    ensures (forall chunks :: NonEmpty(chunks) && Concat(chunks) == Encode(t) + r ==> Handed(chunks).0 == t)
       <==> Inert(r, false)
  {
    hide Handed, Decode, Concat, FirstUnit, Encode, Bytes, Inert;
    FrontText(t, r);
    WholeHands(Encode(t) + r);
    DeliveriesAgreeIff(Encode(t) + r);
    TextThenBytes(t, r);
    FreshInert(r);
    assert t + Bytes([], r).0 == t <==> Bytes([], r).0 == "";
  }

  // ----- a response lost to one stray byte -----

  /** A body that alone is a response: with one stray byte in front it is a retryable error
      when delivered whole, and that response when the byte comes as its own chunk. */
  lemma StrayByteLosesResponse(parse: JsonParser, body: seq<byte>)
    requires Finish(Decoded(parse, body)).Body?
    ensures Finish(FeedAll(parse, [[0xFF] + body]).core) == Failed(Retryable(NoMessageStop))
    ensures Finish(FeedAll(parse, [[0xFF], body]).core) == Finish(Decoded(parse, body))
  {
    hide FeedAll, Decoded;
    InvalidBytesBreakChunkIndependence(parse, body);
  }

  const STOP := "s"

  /** A parser that knows one payload, the terminal event. */
  function KnowsStop(text: string): Option<Json> {
    if text == STOP then Some(EventJson(MessageStop)) else None
  }

  /** A concrete one: the smallest accepted stream has one event. */
  lemma SmallestResponseIsLost()
    ensures var body := Encode(Framed([Frame("", STOP)]));
      && Finish(FeedAll(KnowsStop, [[0xFF] + body]).core) == Failed(Retryable(NoMessageStop))
      && Finish(FeedAll(KnowsStop, [[0xFF], body]).core).Body?
  {
    SmallestResponse();
    hide Decoded, FeedAll, Finish;
    StrayByteLosesResponse(KnowsStop, Encode(Framed([Frame("", STOP)])));
  }

  lemma SmallestResponse()
    ensures Finish(Decoded(KnowsStop, Encode(Framed([Frame("", STOP)])))).Body?
  {
    var fs := [Frame("", STOP)];
    var es := [MessageStop];
    assert OneLine(fs[0]);
    assert FramesCarry(KnowsStop, fs, es);
    DecodedStream(KnowsStop, fs, es);
    assert es[..0] == [];
    assert Fold(KnowsStop, EMPTY, es) == EMPTY.(stopSeen := true);
  }
}
