/** The hand-written scanner for `N iters / ~W s wall [A -> B` blocks
    (scripts/wrap_assert.py, `_take_ts` and `_fill_datum_blocks`), an independent layout
    grammar it is shown to decide, and the recovery of a printed block in any text. */
module BlockScan {
  import opened Text

  /** One block's figures, each kept as the text read. */
  datatype Block = Block(iters: string, wall: string, first: string, last: string)

  /** A block and the position just after it. */
  datatype Reading = Reading(block: Block, end: nat)

  predicate Ws(c: char) { c == ' ' || c == '\t' || c == '\r' || c == '\n' }

  /** `str.isdigit` also accepts digits outside ASCII, so the class is a parameter; only its
      ASCII part matters. */
  ghost predicate DigitClass(digit: char -> bool) {
    forall c: char :: c < '\U{0080}' ==> digit(c) == IsDigit(c)
  }

  predicate TsMark(c: char) { c == '-' || c == 'T' || c == ':' || c == '.' || c == 'Z' }

  function Ts(digit: char -> bool): char -> bool { c => digit(c) || TsMark(c) }

  function WallChar(digit: char -> bool): char -> bool { c => digit(c) || c == ',' || c == '.' }

  // ----- reading forwards and backwards over a class -----

  ghost predicate AllIn(cls: char -> bool, s: string) { forall k :: 0 <= k < |s| ==> cls(s[k]) }

  /** The end of the longest run of `cls` starting at i. */
  function Span(cls: char -> bool, t: string, i: nat): (j: nat)
    requires i <= |t|
    ensures i <= j <= |t|
    decreases |t| - i
  {
    if i == |t| || !cls(t[i]) then i else Span(cls, t, i + 1)
  }

  lemma {:induction false} SpanIsLongest(cls: char -> bool, t: string, i: nat)
    requires i <= |t|
    ensures var j := Span(cls, t, i);
      (forall k :: i <= k < j ==> cls(t[k])) && (j < |t| ==> !cls(t[j]))
    decreases |t| - i
  {
    if i < |t| && cls(t[i]) { SpanIsLongest(cls, t, i + 1); }
  }

  /** The start of the longest run of `cls` ending at i. */
  function SpanBack(cls: char -> bool, t: string, i: nat): (j: nat)
    requires i <= |t|
    ensures j <= i
  {
    if i == 0 || !cls(t[i - 1]) then i else SpanBack(cls, t, i - 1)
  }

  lemma {:induction false} SpanBackIsLongest(cls: char -> bool, t: string, i: nat)
    requires i <= |t|
    ensures var j := SpanBack(cls, t, i);
      (forall k :: j <= k < i ==> cls(t[k])) && (j > 0 ==> !cls(t[j - 1]))
  {
    if i > 0 && cls(t[i - 1]) { SpanBackIsLongest(cls, t, i - 1); }
  }

  predicate At(t: string, i: nat, s: string) {
    i + |s| <= |t| && forall k :: 0 <= k < |s| ==> s[k] == t[i + k]
  }

  lemma AtSlice(t: string, i: nat, j: nat)
    requires i <= j <= |t|
    ensures At(t, i, t[i..j])
  {}

  lemma AtIsSlice(t: string, i: nat, s: string)
    requires At(t, i, s)
    ensures i + |s| <= |t| && t[i..i + |s|] == s
  {}

  lemma AtConcat(t: string, i: nat, a: string, b: string)
    ensures At(t, i, a + b) <==> At(t, i, a) && At(t, i + |a|, b)
  {
    var s := a + b;
    if At(t, i, a) && At(t, i + |a|, b) {
      forall k | 0 <= k < |s| ensures s[k] == t[i + k] {
        assert s[k] == if k < |a| then a[k] else b[k - |a|];
      }
    }
    if At(t, i, s) {
      forall k | 0 <= k < |a| ensures a[k] == t[i + k] { assert s[k] == a[k]; }
      forall k | 0 <= k < |b| ensures b[k] == t[i + |a| + k] { assert s[|a| + k] == b[k]; }
    }
  }

  /** A run of the class followed by something outside it is the whole span. */
  lemma SpanReads(cls: char -> bool, t: string, i: nat, s: string)
    requires At(t, i, s) && AllIn(cls, s)
    requires i + |s| < |t| ==> !cls(t[i + |s|])
    ensures Span(cls, t, i) == i + |s|
  {
    SpanIsLongest(cls, t, i);
    assert forall k :: i <= k < i + |s| ==> t[k] == s[k - i];
  }

  lemma SpanBackReads(cls: char -> bool, t: string, i: nat, s: string)
    requires At(t, i, s) && AllIn(cls, s)
    requires i > 0 ==> !cls(t[i - 1])
    ensures SpanBack(cls, t, i + |s|) == i
  {
    SpanBackIsLongest(cls, t, i + |s|);
    assert forall k :: i <= k < i + |s| ==> t[k] == s[k - i];
  }

  lemma MaximalEnd(cls: char -> bool, t: string, i: nat)
    requires i <= |t|
    ensures Span(cls, t, i) < |t| ==> !cls(t[Span(cls, t, i)])
  {
    SpanIsLongest(cls, t, i);
  }

  lemma SpanIsIn(cls: char -> bool, t: string, i: nat)
    requires i <= |t|
    ensures var s := t[i..Span(cls, t, i)]; AllIn(cls, s) && At(t, i, s)
  {
    SpanIsLongest(cls, t, i);
  }

  // ----- what the scanner reads around one marker -----

  const MARK := "iters"

  predicate HasDigit(digit: char -> bool, s: string) { exists c :: c in s && digit(c) }

  /** The count before position i: blanks backwards, then digits backwards. */
  function ReadCount(digit: char -> bool, t: string, i: nat): (r: string)
    requires i <= |t|
  {
    var d1 := SpanBack(Ws, t, i);
    t[SpanBack(digit, t, d1)..d1]
  }

  datatype Rate = Rate(wall: string, end: nat)

  /** `/ ~WALL s` from p. */
  function ReadRate(digit: char -> bool, t: string, p: nat): (r: Option<Rate>)
    requires p <= |t|
    ensures r.Some? ==> p < r.value.end <= |t|
  {
    var slash := Span(Ws, t, p);
    if !At(t, slash, "/") then None else
    var tilde := Span(Ws, t, slash + 1);
    if !At(t, tilde, "~") then None else
    var w := Span(WallChar(digit), t, tilde + 1);
    if !HasDigit(digit, t[tilde + 1..w]) || !At(t, w, "s") then None
    else Some(Rate(t[tilde + 1..w], w + 1))
  }

  /** `wall [` from p. */
  function ReadOpening(t: string, p: nat): (r: Option<nat>)
    requires p <= |t|
    ensures r.Some? ==> p < r.value <= |t|
  {
    var word := Span(Ws, t, p);
    if !At(t, word, "wall") then None else
    var open := Span(Ws, t, word + 4);
    if !At(t, open, "[") then None else Some(open + 1)
  }

  datatype Anchors = Anchors(first: string, last: string, end: nat)

  /** `ANCHOR -> ANCHOR` from p. */
  function ReadAnchors(digit: char -> bool, t: string, p: nat): (r: Option<Anchors>)
    requires p <= |t|
    ensures r.Some? ==> p < r.value.end <= |t|
  {
    var a := Span(Ts(digit), t, p);
    var arrow := Span(Ws, t, a);
    if !At(t, arrow, "->") then None else
    var b0 := Span(Ws, t, arrow + 2);
    var b1 := Span(Ts(digit), t, b0);
    Some(Anchors(t[p..a], t[b0..b1], b1))
  }

  /** Everything the scanner reads around the marker at i. */
  function ReadAt(digit: char -> bool, t: string, i: nat): (r: Option<Reading>)
    requires At(t, i, MARK)
    ensures r.Some? ==> i + |MARK| < r.value.end <= |t|
  {
    var iters := ReadCount(digit, t, i);
    if iters == "" then None else
    var rate := ReadRate(digit, t, i + |MARK|);
    if rate.None? then None else
    var open := ReadOpening(t, rate.value.end);
    if open.None? then None else
    var anchors := ReadAnchors(digit, t, open.value);
    if anchors.None? then None else
    var x := anchors.value;
    Some(Reading(Block(iters, rate.value.wall, x.first, x.last), x.end))
  }

  // ----- the grammar of a block, as concatenated text -----

  /** The blanks a block may be wrapped with: between count and marker, and at the six gaps
      after the marker. */
  datatype Gaps = Gaps(count: string, slash: string, tilde: string, word: string,
                       open: string, arrow: string, last: string)

  const PLAIN := Gaps(" ", " ", " ", " ", " ", " ", " ")

  ghost predicate Blank(s: string) { AllIn(Ws, s) }

  function CountText(iters: string, gap: string): string { iters + gap }

  function RateText(wall: string, slash: string, tilde: string): string {
    slash + ("/" + (tilde + ("~" + (wall + "s"))))
  }

  function OpeningText(word: string, open: string): string { word + ("wall" + (open + "[")) }

  function AnchorsText(first: string, last: string, arrow: string, gap: string): string {
    first + (arrow + ("->" + (gap + last)))
  }

  function Head(d: Block, g: Gaps): string { CountText(d.iters, g.count) }

  function Tail(d: Block, g: Gaps): string {
    RateText(d.wall, g.slash, g.tilde)
    + (OpeningText(g.word, g.open) + AnchorsText(d.first, d.last, g.arrow, g.last))
  }

  /** The block's text: `N iters / ~W s wall [A -> B`, wrapped with the blanks of g. */
  function Print(d: Block, g: Gaps): string { Head(d, g) + (MARK + Tail(d, g)) }

  ghost predicate RateStands(digit: char -> bool, t: string, p: nat, wall: string, g: Gaps) {
    && Blank(g.slash) && Blank(g.tilde)
    && AllIn(WallChar(digit), wall) && HasDigit(digit, wall)
    && At(t, p, RateText(wall, g.slash, g.tilde))
  }

  ghost predicate OpeningStands(t: string, p: nat, g: Gaps) {
    Blank(g.word) && Blank(g.open) && At(t, p, OpeningText(g.word, g.open))
  }

  /** Two anchors at p that cannot be extended to the right. The gap before the arrow is not
      empty, since `-` is itself a timestamp character. */
  ghost predicate AnchorsStand(digit: char -> bool, t: string, p: nat, first: string,
                               last: string, g: Gaps) {
    var s := AnchorsText(first, last, g.arrow, g.last);
    && Blank(g.arrow) && Blank(g.last) && g.arrow != ""
    && AllIn(Ts(digit), first) && AllIn(Ts(digit), last)
    && At(t, p, s)
    && (p + |s| < |t| ==> !Ts(digit)(t[p + |s|]))
    // blanks behind the arrow belong to the gap, also when nothing follows them
    && (last == "" && p + |s| < |t| ==> !Ws(t[p + |s|]))
  }

  ghost predicate CountStands(digit: char -> bool, t: string, h: nat, iters: string, g: Gaps) {
    && iters != "" && AllIn(digit, iters) && Blank(g.count)
    && At(t, h, CountText(iters, g.count))
    && (0 < h <= |t| ==> !digit(t[h - 1]))
  }

  /** The block d, wrapped with the blanks g, stands at position h and cannot be extended on
      either side. */
  ghost predicate Stands(digit: char -> bool, t: string, h: nat, d: Block, g: Gaps) {
    var i := h + |Head(d, g)|;
    var p := i + |MARK|;
    var q := p + |RateText(d.wall, g.slash, g.tilde)|;
    && CountStands(digit, t, h, d.iters, g)
    && At(t, i, MARK)
    && RateStands(digit, t, p, d.wall, g)
    && OpeningStands(t, q, g)
    && AnchorsStand(digit, t, q + |OpeningText(g.word, g.open)|, d.first, d.last, g)
  }

  lemma StandingIsPrinted(digit: char -> bool, t: string, h: nat, d: Block, g: Gaps)
    requires Stands(digit, t, h, d, g)
    ensures At(t, h, Print(d, g))
  {
    hide At, RateText, OpeningText, AnchorsText, CountText, Blank, AllIn, HasDigit;
    var i := h + |Head(d, g)|;
    var p := i + |MARK|;
    var q := p + |RateText(d.wall, g.slash, g.tilde)|;
    AtConcat(t, q, OpeningText(g.word, g.open), AnchorsText(d.first, d.last, g.arrow, g.last));
    AtConcat(t, p, RateText(d.wall, g.slash, g.tilde),
             OpeningText(g.word, g.open) + AnchorsText(d.first, d.last, g.arrow, g.last));
    AtConcat(t, i, MARK, Tail(d, g));
    AtConcat(t, h, Head(d, g), MARK + Tail(d, g));
  }

  // ----- the pieces of each text -----

  lemma RatePieces(t: string, p: nat, wall: string, slash: string, tilde: string)
    ensures |RateText(wall, slash, tilde)| == |slash| + |tilde| + |wall| + 3
    ensures var s := p + |slash|; var q := s + 1 + |tilde|; var w := q + 1 + |wall|;
      At(t, p, RateText(wall, slash, tilde))
      <==> (&& At(t, p, slash) && At(t, s, "/") && At(t, s + 1, tilde) && At(t, q, "~")
            && At(t, q + 1, wall) && At(t, w, "s"))
  {
    hide At;
    var s := p + |slash|;
    var q := s + 1 + |tilde|;
    AtConcat(t, p, slash, "/" + (tilde + ("~" + (wall + "s"))));
    AtConcat(t, s, "/", tilde + ("~" + (wall + "s")));
    AtConcat(t, s + 1, tilde, "~" + (wall + "s"));
    AtConcat(t, q, "~", wall + "s");
    AtConcat(t, q + 1, wall, "s");
  }

  lemma OpeningPieces(t: string, p: nat, word: string, open: string)
    ensures |OpeningText(word, open)| == |word| + |open| + 5
    ensures var w := p + |word|; var o := w + 4 + |open|;
      At(t, p, OpeningText(word, open))
      <==> At(t, p, word) && At(t, w, "wall") && At(t, w + 4, open) && At(t, o, "[")
  {
    hide At;
    var w := p + |word|;
    AtConcat(t, p, word, "wall" + (open + "["));
    AtConcat(t, w, "wall", open + "[");
    AtConcat(t, w + 4, open, "[");
  }

  lemma AnchorPieces(t: string, p: nat, first: string, last: string, arrow: string, gap: string)
    ensures |AnchorsText(first, last, arrow, gap)| == |first| + |arrow| + 2 + |gap| + |last|
    ensures var a := p + |first|; var r := a + |arrow|; var b := r + 2 + |gap|;
      At(t, p, AnchorsText(first, last, arrow, gap))
      <==> (&& At(t, p, first) && At(t, a, arrow) && At(t, r, "->") && At(t, r + 2, gap)
            && At(t, b, last))
  {
    hide At;
    var a := p + |first|;
    var r := a + |arrow|;
    AtConcat(t, p, first, arrow + ("->" + (gap + last)));
    AtConcat(t, a, arrow, "->" + (gap + last));
    AtConcat(t, r, "->", gap + last);
    AtConcat(t, r + 2, gap, last);
  }

  /** The first character of a standing literal. */
  lemma AtFirst(t: string, i: nat, s: string)
    requires At(t, i, s)
    ensures i + |s| <= |t|
    ensures s != "" ==> t[i] == s[0]
  {}

  // ----- a standing block is read -----

  lemma CountIsRead(digit: char -> bool, t: string, h: nat, iters: string, g: Gaps)
    requires DigitClass(digit) && CountStands(digit, t, h, iters, g)
    ensures var i := h + |CountText(iters, g.count)|;
      && i <= |t| && ReadCount(digit, t, i) == iters
      && SpanBack(digit, t, SpanBack(Ws, t, i)) == h
  {
    AtConcat(t, h, iters, g.count);
    var d1 := h + |iters|;
    assert t[d1 - 1] == iters[|iters| - 1];
    SpanBackReads(Ws, t, d1, g.count);
    SpanBackReads(digit, t, h, iters);
    AtIsSlice(t, h, iters);
  }

  lemma RateEval(digit: char -> bool, t: string, p: nat, s: nat, q: nat, w: nat)
    requires p <= s < q < w < |t|
    requires Span(Ws, t, p) == s && At(t, s, "/") && Span(Ws, t, s + 1) == q && At(t, q, "~")
    requires Span(WallChar(digit), t, q + 1) == w && At(t, w, "s")
    ensures ReadRate(digit, t, p)
         == if HasDigit(digit, t[q + 1..w]) then Some(Rate(t[q + 1..w], w + 1)) else None
  {
    hide At, Span, HasDigit, WallChar;
  }

  lemma AnchorsEval(digit: char -> bool, t: string, p: nat, a: nat, r: nat, b: nat, end: nat)
    requires p <= a <= r && r + 2 <= b <= end <= |t|
    requires Span(Ts(digit), t, p) == a && Span(Ws, t, a) == r && At(t, r, "->")
    requires Span(Ws, t, r + 2) == b && Span(Ts(digit), t, b) == end
    ensures ReadAnchors(digit, t, p) == Some(Anchors(t[p..a], t[b..end], end))
  {
    hide At, Span, Ts;
  }

  lemma RateIsRead(digit: char -> bool, t: string, p: nat, wall: string, g: Gaps)
    requires DigitClass(digit) && RateStands(digit, t, p, wall, g)
    ensures p <= |t|
    ensures ReadRate(digit, t, p) == Some(Rate(wall, p + |RateText(wall, g.slash, g.tilde)|))
  {
    hide At, HasDigit, RateText, AllIn, Span, ReadRate;
    var s := p + |g.slash|;
    var q := s + 1 + |g.tilde|;
    var w := q + 1 + |wall|;
    RatePieces(t, p, wall, g.slash, g.tilde);
    BlankThen(t, p, g.slash, "/");
    BlankThen(t, s + 1, g.tilde, "~");
    WallThen(digit, t, q + 1, wall);
    AtIsSlice(t, q + 1, wall);
    RateEval(digit, t, p, s, q, w);
  }

  lemma BlankThen(t: string, p: nat, gap: string, next: string)
    requires Blank(gap) && At(t, p, gap) && At(t, p + |gap|, next)
    requires next != "" && !Ws(next[0])
    ensures p + |gap| + |next| <= |t| && Span(Ws, t, p) == p + |gap|
  {
    AtFirst(t, p + |gap|, next);
    SpanReads(Ws, t, p, gap);
  }

  lemma WallThen(digit: char -> bool, t: string, p: nat, wall: string)
    requires DigitClass(digit) && AllIn(WallChar(digit), wall)
    requires At(t, p, wall) && At(t, p + |wall|, "s")
    ensures p + |wall| < |t| && Span(WallChar(digit), t, p) == p + |wall|
  {
    assert !WallChar(digit)('s');
    AtFirst(t, p + |wall|, "s");
    SpanReads(WallChar(digit), t, p, wall);
  }

  lemma OpeningIsRead(t: string, p: nat, g: Gaps)
    requires OpeningStands(t, p, g)
    ensures p <= |t| && ReadOpening(t, p) == Some(p + |OpeningText(g.word, g.open)|)
  {
    hide At, AllIn, OpeningText, Span;
    OpeningPieces(t, p, g.word, g.open);
    var w := p + |g.word|;
    BlankThen(t, p, g.word, "wall");
    BlankThen(t, w + 4, g.open, "[");
  }

  lemma AnchorsAreRead(digit: char -> bool, t: string, p: nat, first: string, last: string, g: Gaps)
    requires DigitClass(digit) && AnchorsStand(digit, t, p, first, last, g)
    ensures var end := p + |AnchorsText(first, last, g.arrow, g.last)|;
      p <= |t| && ReadAnchors(digit, t, p) == Some(Anchors(first, last, end))
  {
    var a := p + |first|;
    var r := a + |g.arrow|;
    var b := r + 2 + |g.last|;
    hide At, AllIn, DigitClass, Ts, AnchorsText, Span, ReadAnchors;
    AnchorPieces(t, p, first, last, g.arrow, g.last);
    AtIsSlice(t, p, first);
    AtIsSlice(t, b, last);
    TokenThen(digit, t, p, first, g.arrow);
    BlankThen(t, a, g.arrow, "->");
    LastToken(digit, t, r + 2, g.last, last);
    AnchorsEval(digit, t, p, a, r, b, b + |last|);
  }

  lemma TokenThen(digit: char -> bool, t: string, p: nat, token: string, gap: string)
    requires DigitClass(digit) && AllIn(Ts(digit), token) && Blank(gap) && gap != ""
    requires At(t, p, token) && At(t, p + |token|, gap)
    ensures Span(Ts(digit), t, p) == p + |token|
  {
    assert Ws(gap[0]) && !Ts(digit)(gap[0]);
    AtFirst(t, p + |token|, gap);
    SpanReads(Ts(digit), t, p, token);
  }

  lemma LastToken(digit: char -> bool, t: string, p: nat, gap: string, token: string)
    requires DigitClass(digit) && AllIn(Ts(digit), token) && Blank(gap)
    requires At(t, p, gap) && At(t, p + |gap|, token)
    requires var end := p + |gap| + |token|;
      end < |t| ==> !Ts(digit)(t[end]) && (token == "" ==> !Ws(t[end]))
    ensures Span(Ws, t, p) == p + |gap|
    ensures Span(Ts(digit), t, p + |gap|) == p + |gap| + |token|
  {
    AtFirst(t, p + |gap|, token);
    assert token != "" ==> Ts(digit)(token[0]) && !Ws(token[0]);
    SpanReads(Ws, t, p, gap);
    SpanReads(Ts(digit), t, p + |gap|, token);
  }

  /** The scanner reads a standing block back: same figures, ending where the block ends. */
  lemma StandingIsRead(digit: char -> bool, t: string, h: nat, d: Block, g: Gaps)
    requires DigitClass(digit) && Stands(digit, t, h, d, g)
    ensures var i := h + |Head(d, g)|;
      At(t, i, MARK) && ReadAt(digit, t, i) == Some(Reading(d, h + |Print(d, g)|))
  {
    hide At, DigitClass, CountStands, RateStands, OpeningStands, AnchorsStand;
    hide CountText, RateText, OpeningText, AnchorsText, ReadCount, ReadRate, ReadOpening, ReadAnchors;
    var i := h + |Head(d, g)|;
    var p := i + |MARK|;
    var q := p + |RateText(d.wall, g.slash, g.tilde)|;
    CountIsRead(digit, t, h, d.iters, g);
    assert d.iters != "" by { CountIsSome(digit, t, h, d.iters, g); }
    RateIsRead(digit, t, p, d.wall, g);
    OpeningIsRead(t, q, g);
    AnchorsAreRead(digit, t, q + |OpeningText(g.word, g.open)|, d.first, d.last, g);
  }

  lemma CountIsSome(digit: char -> bool, t: string, h: nat, iters: string, g: Gaps)
    requires CountStands(digit, t, h, iters, g)
    ensures iters != ""
  {}

  // ----- whatever is read stands -----

  lemma CountReadStands(digit: char -> bool, t: string, i: nat, g: Gaps)
    requires i <= |t| && ReadCount(digit, t, i) != "" && g.count == t[SpanBack(Ws, t, i)..i]
    ensures var iters := ReadCount(digit, t, i); var h := SpanBack(digit, t, SpanBack(Ws, t, i));
      && CountStands(digit, t, h, iters, g) && h + |CountText(iters, g.count)| == i
  {
    var d1 := SpanBack(Ws, t, i);
    var h := SpanBack(digit, t, d1);
    SpanBackIsLongest(Ws, t, i);
    SpanBackIsLongest(digit, t, d1);
    AtSlice(t, h, d1);
    AtSlice(t, d1, i);
    AtConcat(t, h, t[h..d1], t[d1..i]);
  }

  lemma RateReadStands(digit: char -> bool, t: string, p: nat, g: Gaps)
    requires p <= |t| && ReadRate(digit, t, p).Some?
    requires var slash := Span(Ws, t, p);
      g.slash == t[p..slash] && g.tilde == t[slash + 1..Span(Ws, t, slash + 1)]
    ensures var r := ReadRate(digit, t, p).value;
      RateStands(digit, t, p, r.wall, g) && p + |RateText(r.wall, g.slash, g.tilde)| == r.end
  {
    hide At, HasDigit, AllIn, WallChar, Span, RateText;
    var s := Span(Ws, t, p);
    var q := Span(Ws, t, s + 1);
    var w := Span(WallChar(digit), t, q + 1);
    var wall := t[q + 1..w];
    assert At(t, s, "/") && At(t, q, "~") && At(t, w, "s") && HasDigit(digit, wall);
    RateEval(digit, t, p, s, q, w);
    hide ReadRate;
    SpanIsIn(Ws, t, p);
    SpanIsIn(Ws, t, s + 1);
    SpanIsIn(WallChar(digit), t, q + 1);
    RatePieces(t, p, wall, g.slash, g.tilde);
  }

  lemma OpeningReadStands(t: string, p: nat, g: Gaps)
    requires p <= |t| && ReadOpening(t, p).Some?
    requires var word := Span(Ws, t, p);
      g.word == t[p..word] && g.open == t[word + 4..Span(Ws, t, word + 4)]
    ensures OpeningStands(t, p, g) && Some(p + |OpeningText(g.word, g.open)|) == ReadOpening(t, p)
  {
    var w := Span(Ws, t, p);
    SpanIsIn(Ws, t, p);
    SpanIsIn(Ws, t, w + 4);
    hide At, AllIn, Span, OpeningText;
    OpeningPieces(t, p, g.word, g.open);
  }

  /** A timestamp token swallows a `-`, so the arrow never touches it. */
  lemma ArrowNeedsGap(digit: char -> bool, t: string, p: nat, a: nat)
    requires p <= |t| && a == Span(Ts(digit), t, p)
    ensures !At(t, a, "->")
  {
    MaximalEnd(Ts(digit), t, p);
    assert Ts(digit)('-');
    if At(t, a, "->") { AtFirst(t, a, "->"); }
  }

  lemma AnchorsReadStand(digit: char -> bool, t: string, p: nat, g: Gaps)
    requires p <= |t| && ReadAnchors(digit, t, p).Some?
    requires var a := Span(Ts(digit), t, p); var arrow := Span(Ws, t, a);
      g.arrow == t[a..arrow] && g.last == t[arrow + 2..Span(Ws, t, arrow + 2)]
    ensures var r := ReadAnchors(digit, t, p).value;
      && AnchorsStand(digit, t, p, r.first, r.last, g)
      && p + |AnchorsText(r.first, r.last, g.arrow, g.last)| == r.end
  {
    hide At, AllIn, Ts, AnchorsText, Span, Ws;
    var a := Span(Ts(digit), t, p);
    var arrow := Span(Ws, t, a);
    var b := Span(Ws, t, arrow + 2);
    var end := Span(Ts(digit), t, b);
    assert At(t, arrow, "->");
    AnchorsEval(digit, t, p, a, arrow, b, end);
    hide ReadAnchors;
    var first, last := t[p..a], t[b..end];
    ArrowNeedsGap(digit, t, p, a);
    assert g.arrow != "" && AllIn(Ts(digit), first) && AllIn(Ts(digit), last) by {
      SpanIsIn(Ts(digit), t, p);
      SpanIsIn(Ts(digit), t, b);
    }
    assert Blank(g.arrow) && Blank(g.last) by {
      SpanIsIn(Ws, t, a);
      SpanIsIn(Ws, t, arrow + 2);
    }
    assert At(t, p, AnchorsText(first, last, g.arrow, g.last)) by {
      SpanIsIn(Ts(digit), t, p);
      SpanIsIn(Ws, t, a);
      SpanIsIn(Ws, t, arrow + 2);
      SpanIsIn(Ts(digit), t, b);
      AnchorPieces(t, p, first, last, g.arrow, g.last);
    }
    AnchorPieces(t, p, first, last, g.arrow, g.last);
    MaximalEnd(Ts(digit), t, b);
    MaximalEnd(Ws, t, arrow + 2);
  }

  /** The blanks around what was read at marker i. */
  ghost function GapsAt(digit: char -> bool, t: string, i: nat): Gaps
    requires At(t, i, MARK) && ReadAt(digit, t, i).Some?
  {
    var p := i + |MARK|;
    var slash := Span(Ws, t, p);
    var q := ReadRate(digit, t, p).value.end;
    var word := Span(Ws, t, q);
    var o := ReadOpening(t, q).value;
    var a := Span(Ts(digit), t, o);
    var arrow := Span(Ws, t, a);
    Gaps(t[SpanBack(Ws, t, i)..i], t[p..slash], t[slash + 1..Span(Ws, t, slash + 1)],
         t[q..word], t[word + 4..Span(Ws, t, word + 4)],
         t[a..arrow], t[arrow + 2..Span(Ws, t, arrow + 2)])
  }

  ghost function Start(digit: char -> bool, t: string, i: nat): nat
    requires i <= |t|
  {
    SpanBack(digit, t, SpanBack(Ws, t, i))
  }

  /** Whatever the scanner reads does stand in the text. */
  lemma ReadStands(digit: char -> bool, t: string, i: nat)
    requires DigitClass(digit) && At(t, i, MARK) && ReadAt(digit, t, i).Some?
    ensures var d := ReadAt(digit, t, i).value.block; var g := GapsAt(digit, t, i);
      && Stands(digit, t, Start(digit, t, i), d, g)
      && Start(digit, t, i) + |Head(d, g)| == i
  {
    hide At, DigitClass, CountStands, RateStands, OpeningStands, AnchorsStand, Span, SpanBack;
    hide CountText, RateText, OpeningText, AnchorsText, ReadCount, ReadRate, ReadOpening, ReadAnchors;
    var g := GapsAt(digit, t, i);
    var p := i + |MARK|;
    var q := ReadRate(digit, t, p).value.end;
    CountReadStands(digit, t, i, g);
    RateReadStands(digit, t, p, g);
    OpeningReadStands(t, q, g);
    AnchorsReadStand(digit, t, ReadOpening(t, q).value, g);
  }

  /** The scanner decides the grammar: at a marker it reads exactly what stands there. */
  lemma ReadExactly(digit: char -> bool, t: string, i: nat, d: Block)
    requires DigitClass(digit) && At(t, i, MARK)
    ensures (ReadAt(digit, t, i).Some? && ReadAt(digit, t, i).value.block == d)
       <==> (exists h: nat, g :: Stands(digit, t, h, d, g) && h + |Head(d, g)| == i)
  {
    hide ReadAt, Stands, Head, At, DigitClass, Start, GapsAt;
    if ReadAt(digit, t, i).Some? && ReadAt(digit, t, i).value.block == d {
      ReadStands(digit, t, i);
    }
    if h: nat, g :| Stands(digit, t, h, d, g) && h + |Head(d, g)| == i {
      StandingIsRead(digit, t, h, d, g);
    }
  }

  // ----- the whole text -----

  /** The blocks at every marker from i on, in text order; no marker is skipped. */
  function BlocksFrom(digit: char -> bool, t: string, i: nat): seq<Block>
    decreases |t| - i
  {
    if i >= |t| then []
    else if At(t, i, MARK) && ReadAt(digit, t, i).Some? then
      [ReadAt(digit, t, i).value.block] + BlocksFrom(digit, t, i + 1)
    else BlocksFrom(digit, t, i + 1)
  }

  lemma {:induction false} SkipUnmarked(digit: char -> bool, t: string, i: nat, j: nat)
    requires i <= j <= |t|
    requires forall k :: i <= k < j ==> !At(t, k, MARK)
    ensures BlocksFrom(digit, t, i) == BlocksFrom(digit, t, j)
    decreases j - i
  {
    hide ReadAt, At;
    if i < j { SkipUnmarked(digit, t, i + 1, j); }
  }

  ghost predicate NoI(t: string, i: nat, j: nat) {
    forall k :: i <= k < j && k < |t| ==> t[k] != 'i'
  }

  lemma RateHasNoI(digit: char -> bool, t: string, p: nat)
    requires !digit('i') && p <= |t| && ReadRate(digit, t, p).Some?
    ensures NoI(t, p, ReadRate(digit, t, p).value.end)
  {
    var s := Span(Ws, t, p);
    var q := Span(Ws, t, s + 1);
    var w := Span(WallChar(digit), t, q + 1);
    SpanIsLongest(Ws, t, p);
    SpanIsLongest(Ws, t, s + 1);
    SpanIsLongest(WallChar(digit), t, q + 1);
    assert "/"[0] == t[s] && "~"[0] == t[q] && "s"[0] == t[w];
  }

  lemma OpeningHasNoI(t: string, p: nat)
    requires p <= |t| && ReadOpening(t, p).Some?
    ensures NoI(t, p, ReadOpening(t, p).value)
  {
    var w := Span(Ws, t, p);
    var o := Span(Ws, t, w + 4);
    SpanIsLongest(Ws, t, p);
    SpanIsLongest(Ws, t, w + 4);
    assert "wall"[0] == t[w] && "wall"[1] == t[w + 1] && "wall"[2] == t[w + 2] && "wall"[3] == t[w + 3];
    assert "["[0] == t[o];
  }

  lemma AnchorsHaveNoI(digit: char -> bool, t: string, p: nat)
    requires !digit('i') && p <= |t| && ReadAnchors(digit, t, p).Some?
    ensures NoI(t, p, ReadAnchors(digit, t, p).value.end)
  {
    var a := Span(Ts(digit), t, p);
    var arrow := Span(Ws, t, a);
    SpanIsLongest(Ts(digit), t, p);
    SpanIsLongest(Ws, t, a);
    SpanIsLongest(Ws, t, arrow + 2);
    SpanIsLongest(Ts(digit), t, Span(Ws, t, arrow + 2));
    assert "->"[0] == t[arrow] && "->"[1] == t[arrow + 1];
  }

  lemma MarkHasOneI(t: string, i: nat)
    requires At(t, i, MARK)
    ensures NoI(t, i + 1, i + |MARK|)
  {
    assert MARK[1] == t[i + 1] && MARK[2] == t[i + 2] && MARK[3] == t[i + 3] && MARK[4] == t[i + 4];
  }

  lemma NoIMeansNoMarker(t: string, i: nat, j: nat)
    requires NoI(t, i, j)
    ensures forall k :: i <= k < j ==> !At(t, k, MARK)
  {
    assert forall k: nat {:trigger At(t, k, MARK)} :: At(t, k, MARK) ==> MARK[0] == t[k];
  }

  /** A block that was read contains no further marker, so jumping over it misses none. */
  lemma NoMarkerInside(digit: char -> bool, t: string, i: nat)
    requires DigitClass(digit) && At(t, i, MARK) && ReadAt(digit, t, i).Some?
    ensures forall k :: i < k < ReadAt(digit, t, i).value.end ==> !At(t, k, MARK)
  {
    assert !digit('i');
    var p := i + |MARK|;
    var q := ReadRate(digit, t, p).value.end;
    var o := ReadOpening(t, q).value;
    MarkHasOneI(t, i);
    RateHasNoI(digit, t, p);
    OpeningHasNoI(t, q);
    AnchorsHaveNoI(digit, t, o);
    hide At, DigitClass, ReadCount, ReadRate, ReadOpening, ReadAnchors;
    NoIMeansNoMarker(t, i + 1, ReadAt(digit, t, i).value.end);
  }

  /** `str.find` from a position. */
  function Find(t: string, s: string, from: nat): (r: Option<nat>)
    ensures r.None? ==> forall k: nat :: k >= from ==> !At(t, k, s)
    ensures r.Some? ==> from <= r.value && At(t, r.value, s)
    ensures r.Some? ==> forall k :: from <= k < r.value ==> !At(t, k, s)
    decreases |t| - from
  {
    if At(t, from, s) then Some(from) else if from >= |t| then None else Find(t, s, from + 1)
  }

  method SkipWs(t: string, start: nat) returns (p: nat)
    requires start <= |t|
    ensures p == Span(Ws, t, start)
  {
    p := start;
    while p < |t| && Ws(t[p])
      invariant start <= p <= |t| && Span(Ws, t, p) == Span(Ws, t, start)
    {
      p := p + 1;
    }
  }

  /** `_take_ts`: the timestamp-shaped token at p, and its end. */
  method TakeTs(digit: char -> bool, t: string, start: nat) returns (token: string, p: nat)
    requires start <= |t|
    ensures p == Span(Ts(digit), t, start) && token == t[start..p]
  {
    p := start;
    while p < |t| && (digit(t[p]) || TsMark(t[p]))
      invariant start <= p <= |t| && Span(Ts(digit), t, p) == Span(Ts(digit), t, start)
    {
      p := p + 1;
    }
    token := t[start..p];
  }

  /** The count before the marker at i. */
  method TakeCount(digit: char -> bool, t: string, i: nat) returns (iters: string)
    requires i <= |t|
    ensures iters == ReadCount(digit, t, i)
  {
    var k := i;
    while k > 0 && Ws(t[k - 1])
      invariant 0 <= k <= i
      invariant SpanBack(Ws, t, k) == SpanBack(Ws, t, i)
    {
      k := k - 1;
    }
    var dEnd := k;
    while k > 0 && digit(t[k - 1])
      invariant 0 <= k <= dEnd
      invariant SpanBack(digit, t, k) == SpanBack(digit, t, dEnd)
    {
      k := k - 1;
    }
    iters := t[k..dEnd];
  }

  /** The digits, commas and points at `start`, and whether a digit is among them. */
  method TakeWall(digit: char -> bool, t: string, start: nat) returns (wall: string, some: bool, p: nat)
    requires start <= |t|
    ensures p == Span(WallChar(digit), t, start) && wall == t[start..p]
    ensures some == HasDigit(digit, wall)
  {
    p, some := start, false;
    while p < |t| && (digit(t[p]) || t[p] == ',' || t[p] == '.')
      invariant start <= p <= |t| && Span(WallChar(digit), t, p) == Span(WallChar(digit), t, start)
      invariant some == HasDigit(digit, t[start..p])
    {
      assert t[start..p + 1] == t[start..p] + [t[p]];
      some := some || digit(t[p]);
      p := p + 1;
    }
    wall := t[start..p];
  }

  /** `_fill_datum_blocks`: every block of the text, in text order. It ends on every text,
      and resuming the search behind a block misses no marker. */
  method FillDatumBlocks(digit: char -> bool, t: string) returns (blocks: seq<Block>)
    requires DigitClass(digit)
    ensures blocks == BlocksFrom(digit, t, 0)
  {
    blocks := [];
    var pos := 0;
    while true
      invariant pos <= |t|
      invariant blocks + BlocksFrom(digit, t, pos) == BlocksFrom(digit, t, 0)
      decreases |t| - pos
    {
      hide ReadAt, At, DigitClass;
      var found := Find(t, MARK, pos);
      if found.None? {
        SkipUnmarked(digit, t, pos, |t|);
        return;
      }
      var i := found.value;
      SkipUnmarked(digit, t, pos, i);
      var reading := Inspect(digit, t, i);
      if reading.None? {
        PastMarker(digit, t, i);
        pos := i + |MARK|;
      } else {
        AtBlock(digit, t, i);
        blocks := blocks + [reading.value.block];
        pos := reading.value.end;
      }
    }
  }

  /** The loop's body: each test that fails skips the marker, as prose. */
  method Inspect(digit: char -> bool, t: string, i: nat) returns (r: Option<Reading>)
    requires At(t, i, MARK)
    ensures r == ReadAt(digit, t, i)
  {
    Within(t, i, MARK);
    hide At, ReadCount, ReadRate, ReadOpening, ReadAnchors;
    var iters := TakeCount(digit, t, i);
    if iters == "" { return None; }
    var rate := TakeRate(digit, t, i + |MARK|);
    if rate.None? { return None; }
    var open := TakeOpening(t, rate.value.end);
    if open.None? { return None; }
    var anchors := TakeAnchors(digit, t, open.value);
    if anchors.None? { return None; }
    return Some(Reading(Block(iters, rate.value.wall, anchors.value.first, anchors.value.last),
                        anchors.value.end));
  }

  method TakeRate(digit: char -> bool, t: string, start: nat) returns (r: Option<Rate>)
    requires start <= |t|
    ensures r == ReadRate(digit, t, start)
  {
    hide Span, HasDigit, At, WallChar;
    var p := SkipWs(t, start);
    if !At(t, p, "/") { return None; }
    Within(t, p, "/");
    p := SkipWs(t, p + 1);
    if !At(t, p, "~") { return None; }
    Within(t, p, "~");
    var wall, some;
    wall, some, p := TakeWall(digit, t, p + 1);
    EmptyHasNoDigit(digit);
    if wall == "" || !some { return None; }
    if !At(t, p, "s") { return None; }
    return Some(Rate(wall, p + 1));
  }

  method TakeOpening(t: string, start: nat) returns (r: Option<nat>)
    requires start <= |t|
    ensures r == ReadOpening(t, start)
  {
    hide Span, At;
    var p := SkipWs(t, start);
    if !At(t, p, "wall") { return None; }
    Within(t, p, "wall");
    p := SkipWs(t, p + 4);
    if !At(t, p, "[") { return None; }
    return Some(p + 1);
  }

  method TakeAnchors(digit: char -> bool, t: string, start: nat) returns (r: Option<Anchors>)
    requires start <= |t|
    ensures r == ReadAnchors(digit, t, start)
  {
    hide Span, At, Ts;
    var first, p := TakeTs(digit, t, start);
    p := SkipWs(t, p);
    if !At(t, p, "->") { return None; }
    Within(t, p, "->");
    p := SkipWs(t, p + 2);
    var last;
    last, p := TakeTs(digit, t, p);
    return Some(Anchors(first, last, p));
  }

  lemma Within(t: string, i: nat, s: string)
    requires At(t, i, s)
    ensures i + |s| <= |t|
  {}

  lemma EmptyHasNoDigit(digit: char -> bool)
    ensures !HasDigit(digit, "")
  {}

  lemma PastMarker(digit: char -> bool, t: string, i: nat)
    requires At(t, i, MARK) && ReadAt(digit, t, i).None?
    ensures BlocksFrom(digit, t, i) == BlocksFrom(digit, t, i + |MARK|)
  {
    MarkHasOneI(t, i);
    NoIMeansNoMarker(t, i + 1, i + |MARK|);
    SkipUnmarked(digit, t, i + 1, i + |MARK|);
  }

  lemma AtBlock(digit: char -> bool, t: string, i: nat)
    requires DigitClass(digit) && At(t, i, MARK) && ReadAt(digit, t, i).Some?
    ensures var r := ReadAt(digit, t, i).value;
      BlocksFrom(digit, t, i) == [r.block] + BlocksFrom(digit, t, r.end)
  {
    NoMarkerInside(digit, t, i);
    hide ReadAt, At, DigitClass;
    SkipUnmarked(digit, t, i + 1, ReadAt(digit, t, i).value.end);
  }

  // ----- what the template prints is found -----

  /** The blocks at markers before position j. */
  function BlocksUpTo(digit: char -> bool, t: string, i: nat, j: nat): seq<Block>
    requires i <= j <= |t|
    decreases j - i
  {
    if i == j then []
    else if At(t, i, MARK) && ReadAt(digit, t, i).Some? then
      [ReadAt(digit, t, i).value.block] + BlocksUpTo(digit, t, i + 1, j)
    else BlocksUpTo(digit, t, i + 1, j)
  }

  lemma {:induction false} BlocksSplit(digit: char -> bool, t: string, i: nat, j: nat)
    requires i <= j <= |t|
    ensures BlocksFrom(digit, t, i) == BlocksUpTo(digit, t, i, j) + BlocksFrom(digit, t, j)
    decreases j - i
  {
    hide ReadAt, At;
    if i < j { BlocksSplit(digit, t, i + 1, j); }
  }

  /** Figures a block may carry. */
  ghost predicate Figures(digit: char -> bool, d: Block) {
    && d.iters != "" && AllIn(digit, d.iters)
    && AllIn(WallChar(digit), d.wall) && HasDigit(digit, d.wall)
    && AllIn(Ts(digit), d.first) && d.last != "" && AllIn(Ts(digit), d.last)
  }

  /** A text in the middle of another stands there, between its neighbours. */
  lemma MiddleStands(before: string, s: string, after: string)
    ensures var t := before + s + after; var h := |before|;
      && At(t, h, s) && h + |s| <= |t|
      && (before != "" ==> t[h - 1] == before[|before| - 1])
      && (after == "" ==> h + |s| == |t|)
      && (after != "" ==> h + |s| < |t| && t[h + |s|] == after[0])
  {}

  lemma PlainGaps(d: Block)
    requires d.last != ""
    ensures Blank(PLAIN.count) && Blank(PLAIN.slash) && Blank(PLAIN.tilde) && Blank(PLAIN.word)
    ensures Blank(PLAIN.open) && Blank(PLAIN.arrow) && Blank(PLAIN.last) && PLAIN.arrow != ""
  {}

  lemma PrintStands(digit: char -> bool, before: string, d: Block, after: string)
    requires Figures(digit, d)
    requires before == "" || !digit(before[|before| - 1])
    requires after == "" || !Ts(digit)(after[0])
    ensures Stands(digit, before + Print(d, PLAIN) + after, |before|, d, PLAIN)
  {
    hide At, AllIn, Ts, WallChar, HasDigit, Blank, RateText, OpeningText, AnchorsText, CountText, Print;
    MiddleStands(before, Print(d, PLAIN), after);
    PlainGaps(d);
    StandsAt(digit, before + Print(d, PLAIN) + after, |before|, d);
  }

  lemma StandsAt(digit: char -> bool, t: string, h: nat, d: Block)
    requires Figures(digit, d) && At(t, h, Print(d, PLAIN)) && h + |Print(d, PLAIN)| <= |t|
    requires h > 0 ==> !digit(t[h - 1])
    requires h + |Print(d, PLAIN)| < |t| ==> !Ts(digit)(t[h + |Print(d, PLAIN)|])
    ensures Stands(digit, t, h, d, PLAIN)
  {
    hide At, AllIn, Ts, WallChar, HasDigit, Blank, RateText, OpeningText, AnchorsText, CountText;
    var g := PLAIN;
    PlainGaps(d);
    var i := h + |Head(d, g)|;
    var p := i + |MARK|;
    var rate := RateText(d.wall, g.slash, g.tilde);
    var opening := OpeningText(g.word, g.open);
    var anchors := AnchorsText(d.first, d.last, g.arrow, g.last);
    AtConcat(t, h, Head(d, g), MARK + Tail(d, g));
    AtConcat(t, i, MARK, Tail(d, g));
    AtConcat(t, p, rate, opening + anchors);
    AtConcat(t, p + |rate|, opening, anchors);
  }

  // ----- exactly when a printed block is read back -----

  lemma SpanReachesOver(cls: char -> bool, t: string, i: nat, s: string)
    requires At(t, i, s) && AllIn(cls, s) && i + |s| < |t| && cls(t[i + |s|])
    ensures Span(cls, t, i) > i + |s|
  {
    SpanIsLongest(cls, t, i);
    var j := Span(cls, t, i);
    assert forall k :: i <= k < i + |s| ==> t[k] == s[k - i];
  }

  lemma SpanBackReachesOver(cls: char -> bool, t: string, i: nat, s: string)
    requires At(t, i, s) && AllIn(cls, s) && 0 < i && cls(t[i - 1])
    ensures SpanBack(cls, t, i + |s|) < i
  {
    SpanBackIsLongest(cls, t, i + |s|);
    var j := SpanBack(cls, t, i + |s|);
    assert forall k :: i <= k < i + |s| ==> t[k] == s[k - i];
  }

  /** Behind a digit the count comes out longer. */
  lemma CountIsLonger(digit: char -> bool, t: string, h: nat, iters: string)
    requires DigitClass(digit) && At(t, h, CountText(iters, " "))
    requires iters != "" && AllIn(digit, iters) && 0 < h && digit(t[h - 1])
    ensures |ReadCount(digit, t, h + |CountText(iters, " ")|)| > |iters|
  {
    AtConcat(t, h, iters, " ");
    var d1 := h + |iters|;
    assert t[d1 - 1] == iters[|iters| - 1] && Blank(" ");
    SpanBackReads(Ws, t, d1, " ");
    SpanBackReachesOver(digit, t, h, iters);
  }

  /** In front of a timestamp character the last anchor comes out longer. */
  lemma LastIsLonger(digit: char -> bool, t: string, p: nat, first: string, last: string)
    requires DigitClass(digit) && At(t, p, AnchorsText(first, last, " ", " "))
    requires AllIn(Ts(digit), first) && last != "" && AllIn(Ts(digit), last)
    requires var end := p + |AnchorsText(first, last, " ", " ")|; end < |t| && Ts(digit)(t[end])
    ensures p <= |t| && ReadAnchors(digit, t, p).Some? && |ReadAnchors(digit, t, p).value.last| > |last|
  {
    var a := p + |first|;
    var r := a + 1;
    var b := r + 3;
    assert Blank(" ");
    assert !Ws(last[0]) by { assert Ts(digit)(last[0]); }
    hide At, AllIn, DigitClass, Ts, AnchorsText, Span, ReadAnchors, Blank;
    AnchorPieces(t, p, first, last, " ", " ");
    AtIsSlice(t, p, first);
    TokenThen(digit, t, p, first, " ");
    BlankThen(t, a, " ", "->");
    BlankThen(t, r + 2, " ", last);
    SpanReachesOver(Ts(digit), t, b, last);
    AnchorsEval(digit, t, p, a, r, b, Span(Ts(digit), t, b));
  }

  lemma MarkStands(digit: char -> bool, t: string, h: nat, d: Block)
    requires Figures(digit, d) && At(t, h, Print(d, PLAIN))
    ensures var i := h + |Head(d, PLAIN)|;
      var p := i + |MARK|; var q := p + |RateText(d.wall, PLAIN.slash, PLAIN.tilde)|;
      && At(t, h, Head(d, PLAIN)) && At(t, i, MARK)
      && RateStands(digit, t, p, d.wall, PLAIN) && OpeningStands(t, q, PLAIN)
      && At(t, q + |OpeningText(PLAIN.word, PLAIN.open)|, AnchorsText(d.first, d.last, " ", " "))
  {
    hide At, AllIn, Ts, WallChar, HasDigit, Blank, RateText, OpeningText, AnchorsText, CountText;
    var g := PLAIN;
    PlainGaps(d);
    var i := h + |Head(d, g)|;
    var p := i + |MARK|;
    var rate := RateText(d.wall, g.slash, g.tilde);
    var opening := OpeningText(g.word, g.open);
    AtConcat(t, h, Head(d, g), MARK + Tail(d, g));
    AtConcat(t, i, MARK, Tail(d, g));
    AtConcat(t, p, rate, opening + AnchorsText(d.first, d.last, g.arrow, g.last));
    AtConcat(t, p + |rate|, opening, AnchorsText(d.first, d.last, g.arrow, g.last));
  }

  /** Where the anchors of the block printed at h stand. */
  function AnchorsAt(h: nat, d: Block): (o: nat)
    ensures o + |AnchorsText(d.first, d.last, " ", " ")| == h + |Print(d, PLAIN)|
  {
    h + |Head(d, PLAIN)| + |MARK| + |RateText(d.wall, PLAIN.slash, PLAIN.tilde)| + |OpeningText(PLAIN.word, PLAIN.open)|
  }

  /** The count that is read stands before the marker, the anchors behind the opening. */
  lemma ReadsAround(digit: char -> bool, t: string, h: nat, d: Block)
    requires DigitClass(digit) && Figures(digit, d) && At(t, h, Print(d, PLAIN))
    ensures var i := h + |Head(d, PLAIN)|;
      && At(t, h, Head(d, PLAIN)) && At(t, i, MARK) && i <= |t|
      && AnchorsAt(h, d) <= |t| && At(t, AnchorsAt(h, d), AnchorsText(d.first, d.last, " ", " "))
      && (ReadAt(digit, t, i).Some? ==>
            && ReadAt(digit, t, i).value.block.iters == ReadCount(digit, t, i)
            && ReadAnchors(digit, t, AnchorsAt(h, d)).Some?
            && ReadAt(digit, t, i).value.block.last == ReadAnchors(digit, t, AnchorsAt(h, d)).value.last)
  {
    hide At, DigitClass, Figures, Print, Head, RateStands, OpeningStands, RateText, OpeningText, AnchorsText;
    hide ReadCount, ReadRate, ReadOpening, ReadAnchors;
    MarkStands(digit, t, h, d);
    var i := h + |Head(d, PLAIN)|;
    var p := i + |MARK|;
    var q := p + |RateText(d.wall, PLAIN.slash, PLAIN.tilde)|;
    Within(t, i, MARK);
    Within(t, AnchorsAt(h, d), AnchorsText(d.first, d.last, " ", " "));
    RateIsRead(digit, t, p, d.wall, PLAIN);
    OpeningIsRead(t, q, PLAIN);
  }

  /** What the scanner reads at the marker of the block printed at h is the block. */
  ghost predicate ReadsItself(digit: char -> bool, t: string, h: nat, d: Block) {
    var i := h + |Head(d, PLAIN)|;
    At(t, i, MARK) && ReadAt(digit, t, i).Some? && ReadAt(digit, t, i).value.block == d
  }

  lemma HeadIsCount(d: Block)
    ensures Head(d, PLAIN) == CountText(d.iters, " ")
  {
    hide CountText;
  }

  lemma DigitBeforeSpoils(digit: char -> bool, t: string, h: nat, d: Block)
    requires DigitClass(digit) && Figures(digit, d) && At(t, h, Print(d, PLAIN))
    requires 0 < h <= |t| && digit(t[h - 1])
    ensures var i := h + |Head(d, PLAIN)|; At(t, i, MARK) ==> ReadAt(digit, t, i).Some? ==> ReadAt(digit, t, i).value.block.iters != d.iters
  {
    assert d.iters != "" && AllIn(digit, d.iters);
    HeadIsCount(d);
    hide *;
    ReadsAround(digit, t, h, d);
    CountIsLonger(digit, t, h, d.iters);
  }

  lemma AnchorBehindSpoils(digit: char -> bool, t: string, h: nat, d: Block)
    requires DigitClass(digit) && Figures(digit, d) && At(t, h, Print(d, PLAIN))
    requires h + |Print(d, PLAIN)| < |t| && Ts(digit)(t[h + |Print(d, PLAIN)|])
    ensures var i := h + |Head(d, PLAIN)|; At(t, i, MARK) ==> ReadAt(digit, t, i).Some? ==> ReadAt(digit, t, i).value.block.last != d.last
  {
    assert AllIn(Ts(digit), d.first) && d.last != "" && AllIn(Ts(digit), d.last);
    hide *;
    ReadsAround(digit, t, h, d);
    LastIsLonger(digit, t, AnchorsAt(h, d), d.first, d.last);
  }

  ghost predicate NoDigitBefore(digit: char -> bool, before: string) {
    before == "" || !digit(before[|before| - 1])
  }

  ghost predicate NoAnchorBehind(digit: char -> bool, after: string) {
    after == "" || !Ts(digit)(after[0])
  }

  /** At a printed block's own marker the scanner reads exactly the block's figures if and only
      if no digit stands before the block and no timestamp character behind it. */
  lemma PrintedIsReadIff(digit: char -> bool, before: string, d: Block, after: string)
    requires DigitClass(digit) && Figures(digit, d)
    ensures ReadsItself(digit, before + Print(d, PLAIN) + after, |before|, d)
       <==> NoDigitBefore(digit, before) && NoAnchorBehind(digit, after)
  {
    hide At, DigitClass, Print, Head, ReadAt, Ts, Figures, Stands;
    var t := before + Print(d, PLAIN) + after;
    MiddleStands(before, Print(d, PLAIN), after);
    if !NoDigitBefore(digit, before) {
      DigitBeforeSpoils(digit, t, |before|, d);
    } else if !NoAnchorBehind(digit, after) {
      AnchorBehindSpoils(digit, t, |before|, d);
    } else {
      PrintStands(digit, before, d, after);
      StandingIsRead(digit, t, |before|, d, PLAIN);
    }
  }

  /** Inside any text, a printed block is found with exactly its figures, after the blocks
      of everything before its own marker and before those of everything behind it. What
      stands before must not end in a digit, what follows must not continue the anchor. */
  lemma PrintedIsFound(digit: char -> bool, before: string, d: Block, after: string)
    requires DigitClass(digit) && Figures(digit, d)
    requires before == "" || !digit(before[|before| - 1])
    requires after == "" || !Ts(digit)(after[0])
    ensures var t := before + Print(d, PLAIN) + after;
      var i := |before| + |Head(d, PLAIN)|;
      var end := |before| + |Print(d, PLAIN)|;
      && i <= |t|
      && BlocksFrom(digit, t, 0)
         == BlocksUpTo(digit, t, 0, i) + [d] + BlocksFrom(digit, t, end)
  {
    hide At, DigitClass, Figures, Stands, ReadAt, Print, Head, BlocksFrom, BlocksUpTo;
    var t := before + Print(d, PLAIN) + after;
    PrintStands(digit, before, d, after);
    StandingIsRead(digit, t, |before|, d, PLAIN);
    var i := |before| + |Head(d, PLAIN)|;
    AtFirst(t, i, MARK);
    BlocksSplit(digit, t, 0, i);
    AtBlock(digit, t, i);
  }

  /** The template's text, spelled out. */
  lemma PlainText(d: Block)
    ensures Print(d, PLAIN)
         == d.iters + " iters / ~" + d.wall + "s wall [" + d.first + " -> " + d.last
  {
    var rate := RateText(d.wall, PLAIN.slash, PLAIN.tilde);
    assert rate == " / ~" + d.wall + "s";
    assert OpeningText(PLAIN.word, PLAIN.open) == " wall [";
    assert AnchorsText(d.first, d.last, PLAIN.arrow, PLAIN.last) == d.first + " -> " + d.last;
  }

  /** `YYYY-MM-DDThh:mm:ssZ`. */
  ghost predicate IsStamp(s: string) {
    && |s| == 20 && s[4] == '-' && s[7] == '-' && s[10] == 'T' && s[13] == ':' && s[16] == ':' && s[19] == 'Z'
    && forall k :: 0 <= k < 19 && k != 4 && k != 7 && k != 10 && k != 13 && k != 16 ==> '0' <= s[k] <= '9'
  }

  lemma StampIsTs(digit: char -> bool, s: string)
    requires DigitClass(digit) && IsStamp(s)
    ensures AllIn(Ts(digit), s)
  {
  }

  /** Seconds with a fraction: `w.f`. */
  function Wall(whole: nat, fraction: nat): string { Dec(whole) + "." + Dec(fraction) }

  lemma WallIsRead(digit: char -> bool, whole: nat, fraction: nat)
    requires DigitClass(digit)
    ensures AllIn(WallChar(digit), Wall(whole, fraction)) && HasDigit(digit, Wall(whole, fraction))
  {
    var w := Wall(whole, fraction);
    assert forall k :: 0 <= k < |Dec(whole)| ==> w[k] == Dec(whole)[k] && Dec(whole)[k] in Dec(whole);
    assert forall k :: 0 <= k < |Dec(fraction)| ==> w[|Dec(whole)| + 1 + k] == Dec(fraction)[k] && Dec(fraction)[k] in Dec(fraction);
    assert digit(w[0]);
  }

  lemma DecIsIn(digit: char -> bool, n: nat)
    requires DigitClass(digit)
    ensures Dec(n) != "" && AllIn(digit, Dec(n))
  {
    assert forall k :: 0 <= k < |Dec(n)| ==> Dec(n)[k] in Dec(n);
  }

  lemma BracketEnds(digit: char -> bool)
    requires DigitClass(digit)
    ensures !Ts(digit)(']')
  {
    assert digit(']') == IsDigit(']');
  }

  function Datum(n: nat, whole: nat, fraction: nat, first: string, last: string): Block {
    Block(Dec(n), Wall(whole, fraction), first, last)
  }

  lemma DatumFigures(digit: char -> bool, n: nat, whole: nat, fraction: nat, first: string, last: string)
    requires DigitClass(digit) && IsStamp(first) && IsStamp(last)
    ensures Figures(digit, Datum(n, whole, fraction, first, last))
  {
    DecIsIn(digit, n);
    WallIsRead(digit, whole, fraction);
    StampIsTs(digit, first);
    StampIsTs(digit, last);
    hide DigitClass, AllIn, Ts, WallChar, HasDigit, Wall, Dec;
  }

  /** The datum line's text. */
  function DatumLine(n: nat, whole: nat, fraction: nat, first: string, last: string): string {
    Dec(n) + " iters / ~" + Wall(whole, fraction) + "s wall [" + first + " -> " + last
  }

  /** A datum line between UTC stamps, in any text that does not end in a digit there, is found
      with its four figures. */
  lemma DatumLineIsFound(digit: char -> bool, before: string, n: nat, whole: nat, fraction: nat,
                         first: string, last: string, after: string)
    requires DigitClass(digit) && IsStamp(first) && IsStamp(last)
    requires before == "" || !digit(before[|before| - 1])
    ensures exists ahead, behind ::
      BlocksFrom(digit, before + DatumLine(n, whole, fraction, first, last) + ("]" + after), 0)
      == ahead + [Datum(n, whole, fraction, first, last)] + behind
  {
    hide Figures, BlocksFrom, BlocksUpTo, Print, DigitClass, Head, Wall, Dec, IsStamp, Ts;
    DatumFigures(digit, n, whole, fraction, first, last);
    BracketEnds(digit);
    PlainText(Datum(n, whole, fraction, first, last));
    PrintedIsFound(digit, before, Datum(n, whole, fraction, first, last), "]" + after);
  }

  /** The side condition is needed: a digit standing before the block is taken for part of
      its count, whatever the figures and whatever follows. */
  lemma DigitBeforeJoinsTheCount(digit: char -> bool, c: char, d: Block, after: string)
    requires DigitClass(digit) && Figures(digit, d) && digit(c)
    requires after == "" || !Ts(digit)(after[0])
    ensures exists before, rest ::
      BlocksFrom(digit, [c] + Print(d, PLAIN) + after, 0)
      == before + [d.(iters := [c] + d.iters)] + rest
  {
    var e := d.(iters := [c] + d.iters);
    assert [c] + Print(d, PLAIN) + after == "" + Print(e, PLAIN) + after by {
      hide RateText, OpeningText, AnchorsText;
      assert Tail(d, PLAIN) == Tail(e, PLAIN);
      assert [c] + Head(d, PLAIN) == Head(e, PLAIN);
    }
    PrintedIsFound(digit, "", e, after);
  }
}
