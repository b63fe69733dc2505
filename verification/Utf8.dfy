/** UTF-8 as section 4 of RFC 3629 defines it: encoding, the first unit of a byte string with
    the three verdicts of `str::from_utf8` (character, incomplete, invalid), and decoding of
    the longest valid prefix. */
module Utf8 {

  type byte = b: nat | b < 256


  function EncodeChar(c: char): (bs: seq<byte>)
    ensures 1 <= |bs| <= 4
  {
    var u := c as nat;
    if u < 0x80 then [u]
    else if u < 0x800 then [0xC0 + u / 64, 0x80 + u % 64]
    else if u < 0x1_0000 then [0xE0 + u / 4096, 0x80 + u / 64 % 64, 0x80 + u % 64]
    else [0xF0 + u / 262_144, 0x80 + u / 4096 % 64, 0x80 + u / 64 % 64, 0x80 + u % 64]
  }

  function Encode(s: string): seq<byte> {
    if s == "" then [] else EncodeChar(s[0]) + Encode(s[1..])
  }

  /** What stands at the front of a byte string. `Invalid(n)`: drop n bytes. */
  datatype Unit = Char(c: char, len: nat) | Incomplete | Invalid(len: nat)

  predicate IsContinuation(b: byte) { 0x80 <= b < 0xC0 }

  /** The second bytes allowed after each lead byte of a three- or four-byte character:
      no overlong form, no surrogate, nothing above U+10FFFF. */
  predicate SecondFits(lead: byte, second: byte) {
    if lead == 0xE0 then 0xA0 <= second < 0xC0
    else if lead == 0xED then 0x80 <= second < 0xA0
    else if lead == 0xF0 then 0x90 <= second < 0xC0
    else if lead == 0xF4 then 0x80 <= second < 0x90
    else IsContinuation(second)
  }

  function Width(lead: byte): nat {
    if lead < 0x80 then 1
    else if 0xC2 <= lead < 0xE0 then 2
    else if 0xE0 <= lead < 0xF0 then 3
    else if 0xF0 <= lead < 0xF5 then 4
    else 0
  }

  function Scalar(bs: seq<byte>): (u: nat)
    requires bs != [] && |bs| == Width(bs[0])
    requires |bs| >= 2 ==> IsContinuation(bs[1])
    requires |bs| >= 3 ==> IsContinuation(bs[2]) && SecondFits(bs[0], bs[1])
    requires |bs| == 4 ==> IsContinuation(bs[3])
    ensures u < 0xD800 || 0xE000 <= u < 0x11_0000
  {
    var lead: nat := bs[0];
    if |bs| == 1 then lead
    else
      var b1: nat := bs[1] - 0x80;
      if |bs| == 2 then (lead - 0xC0) * 64 + b1
      else
        var b2: nat := bs[2] - 0x80;
        if |bs| == 3 then (lead - 0xE0) * 4096 + b1 * 64 + b2
        else
          var b3: nat := bs[3] - 0x80;
          (lead - 0xF0) * 262_144 + b1 * 4096 + b2 * 64 + b3
  }

  function FirstUnit(bs: seq<byte>): (r: Unit)
    requires bs != []
    ensures r.Char? ==> 1 <= r.len <= |bs|
    ensures r.Invalid? ==> 1 <= r.len <= |bs|
    ensures r.Incomplete? ==> |bs| <= 3
  {
    var w := Width(bs[0]);
    if w == 0 then Invalid(1)
    else if w == 1 then Char(Scalar(bs[..1]) as char, 1)
    else if |bs| < 2 then Incomplete
    else if !(if w == 2 then IsContinuation(bs[1]) else SecondFits(bs[0], bs[1])) then Invalid(1)
    else if w == 2 then Char(Scalar(bs[..2]) as char, 2)
    else if |bs| < 3 then Incomplete
    else if !IsContinuation(bs[2]) then Invalid(2)
    else if w == 3 then Char(Scalar(bs[..3]) as char, 3)
    else if |bs| < 4 then Incomplete
    else if !IsContinuation(bs[3]) then Invalid(3)
    else Char(Scalar(bs[..4]) as char, 4)
  }

  /** The text of the longest valid prefix, and the bytes after it. */
  function Decode(bs: seq<byte>): (r: (string, seq<byte>))
    ensures |r.1| <= |bs| && r.1 == bs[|bs| - |r.1|..]
    ensures r.1 != [] ==> !FirstUnit(r.1).Char?
  {
    if bs == [] then ("", [])
    else
      match FirstUnit(bs)
      case Char(c, len) =>
        var (t, rest) := Decode(bs[len..]);
        ([c] + t, rest)
      case _ => ("", bs)
  }

  // ----- decoding inverts encoding -----

  lemma EncodeCharDecodes(c: char, tail: seq<byte>)
    ensures FirstUnit(EncodeChar(c) + tail) == Char(c, |EncodeChar(c)|)
  {
    var bs := EncodeChar(c);
    assert (bs + tail)[..|bs|] == bs;
    var u := c as nat;
    assert u == u / 64 * 64 + u % 64;
    assert u / 64 == u / 4096 * 64 + u / 64 % 64;
    assert u / 4096 == u / 262_144 * 64 + u / 4096 % 64;
  }

  /** One step of Decode over a front that is one character. */
  lemma DecodeStep(c: char, front: seq<byte>, tail: seq<byte>)
    requires front != [] && FirstUnit(front + tail) == Char(c, |front|)
    ensures Decode(front + tail) == ([c] + Decode(tail).0, Decode(tail).1)
  {
    hide FirstUnit;
    assert (front + tail)[|front|..] == tail;
  }

  lemma EncodeNothing()
    ensures Encode("") == []
  {
  }

  lemma EncodeCons(c: char, t: string)
    ensures Encode([c] + t) == EncodeChar(c) + Encode(t)
  {
    hide EncodeChar;
    assert ([c] + t)[1..] == t;
  }

  lemma {:induction false} DecodeEncode(s: string, tail: seq<byte>)
    ensures Decode(Encode(s) + tail) == (s + Decode(tail).0, Decode(tail).1)
  {
    hide *;
    if s == "" {
      assert Encode(s) == [] by { EncodeNothing(); }
      assert Encode(s) + tail == tail && s + Decode(tail).0 == Decode(tail).0;
    } else {
      var e, t := EncodeChar(s[0]), s[1..];
      assert s == [s[0]] + t;
      EncodeCons(s[0], t);
      assert Encode(s) + tail == e + (Encode(t) + tail);
      EncodeCharDecodes(s[0], Encode(t) + tail);
      DecodeStep(s[0], e, Encode(t) + tail);
      DecodeEncode(t, tail);
      assert [s[0]] + (t + Decode(tail).0) == s + Decode(tail).0;
    }
  }

  lemma DecodeWhole(s: string)
    ensures Decode(Encode(s)) == (s, [])
  {
    hide *;
    DecodeEncode(s, []);
    DecodeNothing();
    assert Encode(s) + [] == Encode(s) && s + "" == s;
  }

  lemma DecodeNothing()
    ensures Decode([]) == ("", [])
  {
  }

  lemma ScalarEncodes(bs: seq<byte>)
    requires bs != [] && FirstUnit(bs).Char?
    ensures bs[..FirstUnit(bs).len] == EncodeChar(FirstUnit(bs).c)
  {
    var w := Width(bs[0]);
    var u := Scalar(bs[..w]);
    if w == 2 {
      Digits64(0, 0, bs[0] - 0xC0, bs[1] - 0x80, u);
    } else if w == 3 {
      Digits64(0, bs[0] - 0xE0, bs[1] - 0x80, bs[2] - 0x80, u);
    } else if w == 4 {
      Digits64(bs[0] - 0xF0, bs[1] - 0x80, bs[2] - 0x80, bs[3] - 0x80, u);
    }
  }

  /** The six-bit digits of a number are the ones it was built from. */
  lemma Digits64(a: nat, b: nat, c: nat, d: nat, u: nat)
    requires b < 64 && c < 64 && d < 64 && u == a * 262_144 + b * 4096 + c * 64 + d
    ensures u / 262_144 == a && u / 4096 == a * 64 + b && u / 4096 % 64 == b
    ensures u / 64 == a * 4096 + b * 64 + c && u / 64 % 64 == c && u % 64 == d
  {
  }

  lemma {:induction false} EncodeDecode(bs: seq<byte>)
    ensures bs == Encode(Decode(bs).0) + Decode(bs).1
  {
    hide FirstUnit, EncodeChar, Encode;
    EncodeNothing();
    if bs == [] {
    } else if FirstUnit(bs).Char? {
      var u := FirstUnit(bs);
      var front, tail := bs[..u.len], bs[u.len..];
      assert bs == front + tail;
      ScalarEncodes(bs);
      EncodeDecode(tail);
      EncodeCons(u.c, Decode(tail).0);
      Regroup(front, Encode(Decode(tail).0), Decode(tail).1);
    } else {
      assert [] + bs == bs;
    }
  }

  lemma Regroup(a: seq<byte>, b: seq<byte>, c: seq<byte>)
    ensures a + (b + c) == (a + b) + c
  {
  }

  /** Decoding in two goes: what the first go left over is decoded with what comes next. */
  lemma DecodeAppend(a: seq<byte>, b: seq<byte>)
    ensures Decode(a + b) == (Decode(a).0 + Decode(Decode(a).1 + b).0, Decode(Decode(a).1 + b).1)
  {
    hide *;
    EncodeDecode(a);
    var (t, rest) := Decode(a);
    assert a + b == Encode(t) + (rest + b);
    DecodeEncode(t, rest + b);
  }

  /** The decoded text is the longest whose encoding the bytes begin with. */
  lemma DecodeIsLongest(bs: seq<byte>, s: string)
    requires Encode(s) <= bs
    ensures s <= Decode(bs).0
  {
    hide *;
    assert bs == Encode(s) + bs[|Encode(s)|..];
    DecodeEncode(s, bs[|Encode(s)|..]);
  }

  lemma {:induction false} EncodeConcat(s: string, t: string)
    ensures Encode(s + t) == Encode(s) + Encode(t)
  {
    hide EncodeChar;
    if s == "" {
      assert s + t == t;
    } else {
      assert (s + t)[1..] == s[1..] + t;
      EncodeConcat(s[1..], t);
    }
  }

  // ----- prefixes of valid UTF-8 -----

  ghost predicate PrefixOfValid(bs: seq<byte>) { exists s: string :: bs <= Encode(s) }

  /** Cut anywhere, valid UTF-8 leaves at most an unfinished character of 1 to 3 bytes. */
  lemma PrefixLeavesIncomplete(bs: seq<byte>)
    requires PrefixOfValid(bs)
    ensures Decode(bs).1 == [] || (FirstUnit(Decode(bs).1).Incomplete? && |Decode(bs).1| <= 3)
  {
    var s :| bs <= Encode(s);
    PrefixCut(bs, s);
  }

  lemma PrefixCut(bs: seq<byte>, s: string)
    requires bs <= Encode(s)
    ensures Decode(bs).1 == [] || (FirstUnit(Decode(bs).1).Incomplete? && |Decode(bs).1| <= 3)
  {
    hide *;
    var rest, b := Decode(bs).1, Encode(s)[|bs|..];
    assert bs + b == Encode(s);
    DecodeWhole(s);
    DecodeAppend(bs, b);
    if rest != [] && FirstUnit(rest).Invalid? {
      InvalidStays(rest, b);
    }
  }

  lemma InvalidStays(bs: seq<byte>, more: seq<byte>)
    requires bs != [] && FirstUnit(bs).Invalid?
    ensures FirstUnit(bs + more) == FirstUnit(bs)
    ensures Decode(bs + more) == ("", bs + more)
  {
    assert forall i :: 0 <= i < |bs| ==> (bs + more)[i] == bs[i];
  }

  lemma DecodeStops(a: seq<byte>)
    requires a == [] || !FirstUnit(a).Char?
    ensures Decode(a) == ("", a)
  {
    hide FirstUnit;
  }

  /** How much an invalid sequence drops: a byte that begins no character, or all of what had
      begun like one before the byte that does not go on. */
  lemma InvalidIsWhatHadBegun(bs: seq<byte>)
    requires bs != [] && FirstUnit(bs).Invalid?
    ensures var n := FirstUnit(bs).len;
      || (n == 1 && FirstUnit(bs[..1]) == Invalid(1))
      || (0 < n < |bs| && FirstUnit(bs[..n]).Incomplete? && FirstUnit(bs[..n + 1]).Invalid?)
  {
  }
}
