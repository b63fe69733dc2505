/** `@path` mentions in a chat message (src/attach.rs): the tokenizer against the grammar its
    documentation gives, and what expanding a message changes. Offsets count characters. */
module Mentions {
  import opened Text

  datatype Mention = Mention(start: nat, end: nat, path: string)

  predicate Strippable(c: char) {
    || c == ',' || c == '.' || c == ';' || c == ':' || c == '!' || c == '?' || c == ')' || c == ']'
  }

  /** An `@` at the start of the text or directly after whitespace. */
  predicate Opens(t: string, i: nat) {
    i < |t| && t[i] == '@' && (i == 0 || IsWhitespace(t[i - 1]))
  }

  /** The first whitespace from i on, or |t|. */
  function RunEnd(t: string, i: nat): (j: nat)
    requires i <= |t|
    ensures i <= j <= |t|
    decreases |t| - i
  {
    if i == |t| || IsWhitespace(t[i]) then i else RunEnd(t, i + 1)
  }

  /** The first double quote from i on, or |t|. */
  function QuoteEnd(t: string, i: nat): (j: nat)
    requires i <= |t|
    ensures i <= j <= |t|
    decreases |t| - i
  {
    if i == |t| || t[i] == '"' then i else QuoteEnd(t, i + 1)
  }

  /** The quoted form is opened. */
  predicate Quoted(t: string, i: nat) { Opens(t, i) && i + 1 < |t| && t[i + 1] == '"' }

  /** No quote closes the form opened at i. */
  predicate Unclosed(t: string, i: nat) { Quoted(t, i) && QuoteEnd(t, i + 2) == |t| }

  /** The path of the unquoted form at i. */
  function BarePath(t: string, i: nat): string
    requires i < |t|
  {
    TrimEnd(Strippable, t[i + 1..RunEnd(t, i + 1)])
  }

  /** The mention that the grammar sees at an opening `@`. */
  function MentionAt(t: string, i: nat): (m: Option<Mention>)
    requires Opens(t, i)
    ensures m.Some? ==> m.value.start == i
  {
    if Quoted(t, i) then
      var j := QuoteEnd(t, i + 2);
      if j == |t| || j == i + 2 then None else Some(Mention(i, j + 1, t[i + 2..j]))
    else
      var path := BarePath(t, i);
      if path == "" then None else Some(Mention(i, i + 1 + |path|, path))
  }

  /** Just past everything the opening `@` at i takes up. */
  function PieceEnd(t: string, i: nat): (e: nat)
    requires Opens(t, i)
    ensures i < e <= |t|
  {
    if Quoted(t, i) then
      var j := QuoteEnd(t, i + 2);
      if j == |t| then j else j + 1
    else RunEnd(t, i + 1)
  }

  /** The mentions from position i on, scanning left to right. */
  function From(t: string, i: nat): seq<Mention>
    requires i <= |t|
    decreases |t| - i
  {
    if i == |t| then []
    else if Opens(t, i) then
      (match MentionAt(t, i) case None => [] case Some(m) => [m]) + From(t, PieceEnd(t, i))
    else From(t, i + 1)
  }

  // ----- the tokenizer -----

  /** The quoted form: consume up to and including the closing quote, or everything. */
  method TakeQuoted(t: string, start: nat) returns (closedAt: Option<nat>, pos: nat)
    requires start <= |t|
    ensures var j := QuoteEnd(t, start);
      if j == |t| then closedAt == None && pos == |t|
      else closedAt == Some(j) && pos == j + 1 && t[j] == '"'
  {
    pos, closedAt := start, None;
    while pos < |t|
      invariant start <= pos <= |t| && QuoteEnd(t, pos) == QuoteEnd(t, start)
    {
      if t[pos] == '"' { return Some(pos), pos + 1; }
      pos := pos + 1;
    }
  }

  /** The unquoted form: consume a run and the whitespace that ends it, if any. */
  method TakeBare(t: string, start: nat) returns (tokEnd: nat, lastChar: Option<char>, pos: nat)
    requires start < |t|
    ensures tokEnd == RunEnd(t, start) && start < pos <= |t| && lastChar == Some(t[pos - 1])
    ensures if tokEnd == |t| then pos == |t| else pos == tokEnd + 1 && IsWhitespace(t[tokEnd])
  {
    hide IsWhitespace;
    pos, lastChar, tokEnd := start, None, |t|;
    while pos < |t|
      invariant start <= pos <= |t| && RunEnd(t, pos) == RunEnd(t, start)
      invariant pos > start ==> lastChar == Some(t[pos - 1])
    {
      var c := t[pos];
      pos := pos + 1;
      if IsWhitespace(c) { return pos - 1, Some(c), pos; }
      lastChar := Some(c);
    }
  }

  lemma QuotedPiece(t: string, i: nat)
    requires Quoted(t, i)
    ensures var j := QuoteEnd(t, i + 2);
      && MentionAt(t, i) == (if j == |t| || t[i + 2..j] == "" then None else Some(Mention(i, j + 1, t[i + 2..j])))
      && PieceEnd(t, i) == if j == |t| then j else j + 1
  {}

  lemma BarePiece(t: string, i: nat)
    requires Opens(t, i) && !Quoted(t, i)
    ensures var e := RunEnd(t, i + 1); var path := TrimEnd(Strippable, t[i + 1..e]);
      && MentionAt(t, i) == (if path == "" then None else Some(Mention(i, i + 1 + |path|, path)))
      && PieceEnd(t, i) == e
  {}

  /** What an opening `@` at i takes up, and the character that was read last. */
  method TakeMention(t: string, i: nat) returns (found: Option<Mention>, prev: Option<char>, pos: nat)
    requires Opens(t, i)
    ensures found == MentionAt(t, i) && i < pos <= |t| && From(t, pos) == From(t, PieceEnd(t, i))
    ensures pos < |t| ==> prev == Some(t[pos - 1])
  {
    hide From, IsWhitespace, TrimEnd, QuoteEnd, RunEnd, MentionAt, PieceEnd;
    found, prev, pos := None, Some(t[i]), i + 1;
    if pos == |t| {
      LoneAt(t, i);
    } else if t[pos] == '"' {
      var pathStart := pos + 1;
      QuotedPiece(t, i);
      var closedAt;
      closedAt, pos := TakeQuoted(t, pathStart);
      if closedAt.Some? {
        var path := t[pathStart..closedAt.value];
        if path != "" { found := Some(Mention(i, closedAt.value + 1, path)); }
        prev := Some('"');
      } else {
        prev := None;
      }
    } else {
      var tokStart := pos;
      BarePiece(t, i);
      var tokEnd;
      tokEnd, prev, pos := TakeBare(t, tokStart);
      var path := TrimEnd(Strippable, t[tokStart..tokEnd]);
      if path != "" { found := Some(Mention(i, tokStart + |path|, path)); }
      if tokEnd < |t| { BlankSkips(t, tokEnd); }
    }
  }

  method Tokenize(t: string) returns (out: seq<Mention>)
    ensures out == From(t, 0)
  {
    hide From, IsWhitespace, MentionAt, PieceEnd;
    out := [];
    var pos := 0;
    var prev: Option<char> := None;
    while pos < |t|
      invariant pos <= |t| && out + From(t, pos) == From(t, 0)
      invariant pos < |t| ==> prev == (if pos == 0 then None else Some(t[pos - 1]))
      decreases |t| - pos
    {
      var c := t[pos];
      if c != '@' || (prev.Some? && !IsWhitespace(prev.value)) {
        FromSkips(t, pos);
        prev := Some(c);
        pos := pos + 1;
        continue;
      }
      FromOpens(t, pos);
      var found;
      found, prev, pos := TakeMention(t, pos);
      if found.Some? { out := out + [found.value]; }
    }
    EndOfText(t);
  }

  lemma FromSkips(t: string, i: nat)
    requires i < |t| && !Opens(t, i)
    ensures From(t, i) == From(t, i + 1)
  {}

  lemma FromOpens(t: string, i: nat)
    requires Opens(t, i)
    ensures From(t, i) == (match MentionAt(t, i) case None => [] case Some(m) => [m]) + From(t, PieceEnd(t, i))
  {}

  lemma BlankSkips(t: string, i: nat)
    requires i < |t| && IsWhitespace(t[i])
    ensures From(t, i) == From(t, i + 1)
  {
    FromSkips(t, i);
  }

  lemma LoneAt(t: string, i: nat)
    requires Opens(t, i) && i + 1 == |t|
    ensures MentionAt(t, i) == None && PieceEnd(t, i) == |t|
  {
    assert t[i + 1..RunEnd(t, i + 1)] == "";
  }

  lemma EndOfText(t: string)
    ensures From(t, |t|) == []
  {}

  // ----- the grammar, stated without a scan -----

  /** An opening `@` counts unless a counting quoted form spans it. */
  ghost predicate Active(t: string, i: nat)
    decreases i
  {
    && Opens(t, i)
    && forall j: nat :: j < i ==> (Active(t, j) && Quoted(t, j) ==> PieceEnd(t, j) <= i)
  }

  /** No counting form reaches across position i. */
  ghost predicate Boundary(t: string, i: nat) {
    forall j: nat :: j < i && Active(t, j) ==> PieceEnd(t, j) <= i
  }

  /** An unquoted form spans no other opening: it holds no whitespace. */
  lemma BareSpansNothing(t: string, i: nat, k: nat)
    requires Opens(t, i) && !Quoted(t, i) && i < k < PieceEnd(t, i)
    ensures !Opens(t, k)
  {
    RunHasNoBlank(t, i + 1, k);
    if k > i + 1 { RunHasNoBlank(t, i + 1, k - 1); }
  }

  lemma {:induction false} RunHasNoBlank(t: string, i: nat, k: nat)
    requires i <= |t| && i <= k < RunEnd(t, i)
    ensures !IsWhitespace(t[k])
    decreases k - i
  {
    if i < k { RunHasNoBlank(t, i + 1, k); }
  }

  lemma ActiveAtBoundary(t: string, i: nat)
    requires Opens(t, i) && Boundary(t, i)
    ensures Active(t, i)
  {}

  /** At a boundary, the next counting opening is the next opening, and the position behind
      its form is a boundary again. */
  lemma BoundaryMoves(t: string, i: nat)
    requires i < |t| && Boundary(t, i)
    ensures Opens(t, i) ==> Active(t, i) && Boundary(t, PieceEnd(t, i))
    ensures Opens(t, i) ==> forall k :: i < k < PieceEnd(t, i) ==> !Active(t, k)
    ensures !Opens(t, i) ==> Boundary(t, i + 1)
  {
    if Opens(t, i) {
      ActiveAtBoundary(t, i);
      var e := PieceEnd(t, i);
      forall k | i < k < e ensures !Active(t, k) {
        if !Quoted(t, i) { BareSpansNothing(t, i, k); }
      }
    }
  }

  lemma {:induction false} FromIsActive(t: string, i: nat, m: Mention)
    requires i <= |t| && Boundary(t, i)
    ensures m in From(t, i)
       <==> m.start >= i && Active(t, m.start) && MentionAt(t, m.start) == Some(m)
    decreases |t| - i
  {
    hide MentionAt, PieceEnd, Boundary, Active, Opens;
    if i == |t| {
      assert Active(t, m.start) ==> m.start < |t| by { ActiveIsInside(t, m.start); }
    } else {
      BoundaryMoves(t, i);
      if Opens(t, i) {
        FromIsActive(t, PieceEnd(t, i), m);
      } else {
        FromIsActive(t, i + 1, m);
        assert !Active(t, i) by { ActiveIsInside(t, i); }
      }
    }
  }

  lemma ActiveIsInside(t: string, i: nat)
    ensures Active(t, i) ==> i < |t| && Opens(t, i)
  {}

  /** The tokenizer finds exactly the forms the grammar has at counting openings. */
  lemma TokensAreTheGrammar(t: string, m: Mention)
    ensures m in From(t, 0) <==> Active(t, m.start) && MentionAt(t, m.start) == Some(m)
  {
    FromIsActive(t, 0, m);
  }

  /** Mentions from position i on, in text order and without overlap. */
  ghost predicate Ordered(t: string, ms: seq<Mention>, i: nat) {
    && i <= |t|
    && (forall k :: 0 <= k < |ms| ==> i <= ms[k].start < ms[k].end <= |t|)
    && (forall a, b :: 0 <= a < b < |ms| ==> ms[a].end <= ms[b].start)
  }

  lemma ConsOrdered(t: string, m: Mention, ms: seq<Mention>, i: nat, e: nat)
    requires Ordered(t, ms, e) && i <= m.start < m.end <= e
    ensures Ordered(t, [m] + ms, i)
  {
    var all := [m] + ms;
    assert forall k {:trigger all[k]} :: 0 < k < |all| ==> all[k] == ms[k - 1];
  }

  /** Mentions come in text order and do not overlap. */
  lemma {:induction false} InOrder(t: string, i: nat)
    requires i <= |t|
    ensures Ordered(t, From(t, i), i)
    decreases |t| - i
  {
    hide RunEnd, QuoteEnd, TrimEnd, IsWhitespace, Opens, MentionAt, PieceEnd;
    if i < |t| {
      if Opens(t, i) {
        var e := PieceEnd(t, i);
        InOrder(t, e);
        var m := MentionAt(t, i);
        if m.Some? {
          EndsInside(t, i);
          ConsOrdered(t, m.value, From(t, e), i, e);
        }
      } else {
        InOrder(t, i + 1);
      }
    }
  }

  lemma EndsInside(t: string, i: nat)
    requires Opens(t, i) && MentionAt(t, i).Some?
    ensures i < MentionAt(t, i).value.end <= PieceEnd(t, i)
  {
    if !Quoted(t, i) { TrimEndCuts(Strippable, t[i + 1..RunEnd(t, i + 1)]); }
  }

  lemma QuotedSpan(t: string, i: nat)
    requires Quoted(t, i) && MentionAt(t, i).Some?
    ensures var m := MentionAt(t, i).value;
      && m.end <= |t| && m.path != "" && '"' !in m.path
      && t[m.start..m.end] == "@\"" + m.path + "\""
  {
    hide QuoteEnd;
    var j := QuoteEnd(t, i + 2);
    QuoteIsFirst(t, i + 2);
    assert t[i..j + 1] == "@\"" + t[i + 2..j] + "\"";
  }

  lemma BareSpan(t: string, i: nat)
    requires Opens(t, i) && !Quoted(t, i) && MentionAt(t, i).Some?
    ensures var m := MentionAt(t, i).value; var e := RunEnd(t, i + 1);
      && m.end <= e && m.path != "" && !Strippable(m.path[|m.path| - 1])
      && t[m.start..m.end] == "@" + m.path
      && (forall c :: c in m.path ==> !IsWhitespace(c))
      && (forall k :: m.end <= k < e ==> Strippable(t[k]))
  {
    var e := RunEnd(t, i + 1);
    var token := t[i + 1..e];
    TrimEndCuts(Strippable, token);
    hide RunEnd, TrimEnd, IsWhitespace, Strippable;
    var m := MentionAt(t, i).value;
    assert t[i..m.end] == "@" + m.path;
    forall k | m.end <= k < e ensures Strippable(t[k]) { assert t[k] == token[k - i - 1]; }
    forall k | 0 <= k < |m.path| ensures !IsWhitespace(m.path[k]) {
      assert t[i + 1 + k] == m.path[k];
      RunHasNoBlank(t, i + 1, i + 1 + k);
    }
  }

  /** The marks taken off the end of a bare path. */
  const STRIPPED: set<char> := {',', '.', ';', ':', '!', '?', ')', ']'}

  lemma StrippedAre()
    ensures forall c :: Strippable(c) <==> c in STRIPPED
  {
  }

  /** What a mention's span holds: the `@` and the path, bare or between quotes; a bare path
      has no whitespace, is not empty, ends in no strippable mark, and only strippable marks
      stand between it and the end of the run. */
  lemma SpanHoldsPath(t: string, i: nat)
    requires Opens(t, i) && MentionAt(t, i).Some?
    ensures var m := MentionAt(t, i).value;
      && m.end <= |t| && m.path != ""
      && t[m.start..m.end] == (if Quoted(t, i) then "@\"" + m.path + "\"" else "@" + m.path)
      && (Quoted(t, i) ==> '"' !in m.path)
      && (!Quoted(t, i) ==>
            && m.path[|m.path| - 1] !in STRIPPED && (forall c :: c in m.path ==> !IsWhitespace(c))
            && forall k :: m.end <= k < RunEnd(t, i + 1) ==> t[k] in STRIPPED)
  {
    StrippedAre();
    hide Quoted, MentionAt, RunEnd, IsWhitespace, Strippable;
    if Quoted(t, i) { QuotedSpan(t, i); } else { BareSpan(t, i); }
  }

  lemma {:induction false} QuoteIsFirst(t: string, i: nat)
    requires i <= |t|
    ensures var j := QuoteEnd(t, i);
      (j < |t| ==> t[j] == '"') && forall k :: i <= k < j ==> t[k] != '"'
    decreases |t| - i
  {
    if i < |t| && t[i] != '"' { QuoteIsFirst(t, i + 1); }
  }

  // ----- the unterminated quote -----

  /** The documented reading: a quote that never closes is not a mention, and the text behind
      it is read like any other. */
  function Documented(t: string, i: nat): seq<Mention>
    requires i <= |t|
    decreases |t| - i
  {
    if i == |t| then []
    else if Opens(t, i) && !Unclosed(t, i) then
      (match MentionAt(t, i) case None => [] case Some(m) => [m]) + Documented(t, PieceEnd(t, i))
    else Documented(t, i + 1)
  }

  /** The first counting opening from i on whose quote never closes, or |t|. */
  function FirstUnclosed(t: string, i: nat): (k: nat)
    requires i <= |t|
    ensures i <= k <= |t| && (k < |t| ==> Unclosed(t, k))
    decreases |t| - i
  {
    if i == |t| || Unclosed(t, i) then i
    else if Opens(t, i) then FirstUnclosed(t, PieceEnd(t, i))
    else FirstUnclosed(t, i + 1)
  }

  /** Behind an unclosed quote every opening is a bare one. */
  lemma BareBehind(t: string, i: nat, k: nat)
    requires Unclosed(t, i) && i < k && Opens(t, k)
    ensures !Quoted(t, k)
  {
    QuoteIsFirst(t, i + 2);
  }

  lemma BareIsOpen(t: string, i: nat, k: nat)
    requires Unclosed(t, i) && i < k && Opens(t, k)
    ensures !Unclosed(t, k) && (BarePath(t, k) == "" <==> MentionAt(t, k) == None)
    ensures forall p :: k < p < PieceEnd(t, k) ==> !Opens(t, p)
  {
    BareBehind(t, i, k);
    hide BarePath, Opens;
    forall p | k < p < PieceEnd(t, k) ensures !Opens(t, p) { BareSpansNothing(t, k, p); }
  }

  lemma {:induction false} BareOnly(t: string, i: nat, k: nat)
    requires k <= |t| && Unclosed(t, i) && i < k
    ensures Documented(t, k) == [] <==> forall p :: k <= p < |t| && Opens(t, p) ==> BarePath(t, p) == ""
    decreases |t| - k
  {
    hide BarePath, Opens, Unclosed, MentionAt, PieceEnd;
    if k < |t| {
      if Opens(t, k) {
        BareIsOpen(t, i, k);
        BareOnly(t, i, PieceEnd(t, k));
      } else {
        assert !Unclosed(t, k) by { UnclosedOpens(t, k); }
        BareOnly(t, i, k + 1);
      }
    }
  }

  lemma UnclosedOpens(t: string, i: nat)
    ensures Unclosed(t, i) ==> Opens(t, i)
  {}

  lemma PrefixCancels<T>(x: seq<T>, a: seq<T>, b: seq<T>)
    ensures x + a == x + b <==> a == b
  {
    assert (x + a)[|x|..] == a && (x + b)[|x|..] == b;
  }

  lemma {:induction false} UpToUnclosed(t: string, i: nat)
    requires i <= |t|
    ensures var k := FirstUnclosed(t, i);
      From(t, i) == Documented(t, i) <==> k == |t| || Documented(t, k + 1) == []
    decreases |t| - i
  {
    hide MentionAt, PieceEnd, Unclosed, Opens;
    if i < |t| {
      if Unclosed(t, i) {
        UnclosedIsNone(t, i);
        FromOpens(t, i);
        assert From(t, |t|) == [];
      } else if Opens(t, i) {
        var e := PieceEnd(t, i);
        UpToUnclosed(t, e);
        var x := match MentionAt(t, i) case None => [] case Some(m) => [m];
        PrefixCancels(x, From(t, e), Documented(t, e));
      } else {
        UpToUnclosed(t, i + 1);
      }
    }
  }

  lemma UnclosedIsNone(t: string, i: nat)
    requires Unclosed(t, i)
    ensures Opens(t, i) && MentionAt(t, i) == None && PieceEnd(t, i) == |t|
  {}

  /** The tokenizer gives the documented mentions exactly when no quote stays unclosed or no
      later `@` opens a non-empty path: an unclosed quote takes the rest of the text with it. */
  lemma DocumentedIff(t: string)
    ensures var k := FirstUnclosed(t, 0);
      From(t, 0) == Documented(t, 0)
      <==> forall p :: k < p < |t| && Opens(t, p) ==> BarePath(t, p) == ""
  {
    var k := FirstUnclosed(t, 0);
    UpToUnclosed(t, 0);
    if k < |t| { BareOnly(t, k, k + 1); }
  }

  /** The shortest kind of message that loses a mention. */
  lemma UnclosedQuoteSwallows()
    ensures From("@\" @x", 0) == [] && Documented("@\" @x", 0) == [Mention(3, 5, "x")]
  {
    var t := "@\" @x";
    assert |t| == 5 && t[0] == '@' && t[1] == '"' && t[2] == ' ' && t[3] == '@' && t[4] == 'x';
    assert QuoteEnd(t, 5) == 5 && QuoteEnd(t, 4) == 5 && QuoteEnd(t, 3) == 5 && QuoteEnd(t, 2) == 5;
    assert Unclosed(t, 0);
    FromOpens(t, 0);
    UnclosedIsNone(t, 0);
    assert From(t, 5) == [];
    assert !Opens(t, 1) && !Opens(t, 2);
    assert RunEnd(t, 5) == 5 && RunEnd(t, 4) == 5;
    assert t[4..5] == "x";
    assert TrimEnd(Strippable, "x") == "x";
    assert MentionAt(t, 3) == Some(Mention(3, 5, "x"));
    assert PieceEnd(t, 3) == 5 && Documented(t, 5) == [];
    assert Documented(t, 3) == [Mention(3, 5, "x")];
    assert Documented(t, 1) == Documented(t, 2) == Documented(t, 3);
  }

  // ----- expanding a message -----

  datatype Expanded = Expanded(textWithNotes: string, llmMessage: string, attached: seq<string>)

  function Note(path: string): string { "[file not found: " + (path + "]") }

  function Block(path: string, body: string): string {
    "\n\n<file path=\"" + (path + ("\">\n" + (body + "\n</file>")))
  }

  /** Mentions that did not resolve, in order. */
  function Unresolved(lookup: string -> Option<string>, ms: seq<Mention>): seq<Mention> {
    if ms == [] then []
    else
      var rest := Unresolved(lookup, ms[1..]);
      if lookup(ms[0].path).None? then [ms[0]] + rest else rest
  }

  /** Paths that resolved, in order. */
  function Attached(lookup: string -> Option<string>, ms: seq<Mention>): seq<string> {
    if ms == [] then []
    else
      var rest := Attached(lookup, ms[1..]);
      if lookup(ms[0].path).Some? then [ms[0].path] + rest else rest
  }

  function Blocks(lookup: string -> Option<string>, ms: seq<Mention>): string {
    if ms == [] then ""
    else
      var rest := Blocks(lookup, ms[1..]);
      match lookup(ms[0].path)
      case None => rest
      case Some(body) => Block(ms[0].path, body) + rest
  }

  /** The text from i on with the spans of `gone` replaced by notes. */
  function Noted(t: string, gone: seq<Mention>, i: nat): string
    requires Ordered(t, gone, i)
    decreases |gone|
  {
    if gone == [] then t[i..]
    else
      TailOrdered(t, gone, i);
      t[i..gone[0].start] + (Note(gone[0].path) + Noted(t, gone[1..], gone[0].end))
  }

  lemma FirstInside(t: string, ms: seq<Mention>, i: nat)
    requires ms != [] && Ordered(t, ms, i)
    ensures i <= ms[0].start < ms[0].end <= |t|
  {}

  lemma TailOrdered(t: string, ms: seq<Mention>, i: nat)
    requires ms != [] && Ordered(t, ms, i)
    ensures Ordered(t, ms[1..], ms[0].end) && Ordered(t, ms[1..], i)
  {
    var rest := ms[1..];
    assert forall k {:trigger rest[k]} :: 0 <= k < |rest| ==> rest[k] == ms[k + 1];
  }

  lemma {:induction false} UnresolvedOrdered(lookup: string -> Option<string>, t: string, ms: seq<Mention>, i: nat)
    requires Ordered(t, ms, i)
    ensures Ordered(t, Unresolved(lookup, ms), i)
    decreases |ms|
  {
    if ms != [] {
      TailOrdered(t, ms, i);
      UnresolvedOrdered(lookup, t, ms[1..], ms[0].end);
      UnresolvedOrdered(lookup, t, ms[1..], i);
      var rest := Unresolved(lookup, ms[1..]);
      var all := [ms[0]] + rest;
      assert forall k {:trigger all[k]} :: 0 < k < |all| ==> all[k] == rest[k - 1];
    }
  }

  function Expansion(lookup: string -> Option<string>, t: string): Expanded {
    var ms := From(t, 0);
    InOrder(t, 0);
    UnresolvedOrdered(lookup, t, ms, 0);
    var noted := Noted(t, Unresolved(lookup, ms), 0);
    Expanded(noted, noted + Blocks(lookup, ms), Attached(lookup, ms))
  }

  /** The mentions from the k-th on still to be expanded, and the text from `last` on. */
  ghost predicate ToDo(lookup: string -> Option<string>, t: string, ms: seq<Mention>, last: nat) {
    Ordered(t, ms, last) && Ordered(t, Unresolved(lookup, ms), last)
  }

  lemma StepResolved(lookup: string -> Option<string>, t: string, ms: seq<Mention>, last: nat)
    requires ms != [] && ToDo(lookup, t, ms, last) && lookup(ms[0].path).Some?
    ensures ToDo(lookup, t, ms[1..], last)
    ensures Unresolved(lookup, ms) == Unresolved(lookup, ms[1..])
    ensures Blocks(lookup, ms) == Block(ms[0].path, lookup(ms[0].path).value) + Blocks(lookup, ms[1..])
    ensures Attached(lookup, ms) == [ms[0].path] + Attached(lookup, ms[1..])
  {
    hide Ordered;
    TailOrdered(t, ms, last);
  }

  lemma StepLost(lookup: string -> Option<string>, t: string, ms: seq<Mention>, last: nat)
    requires ms != [] && ToDo(lookup, t, ms, last) && lookup(ms[0].path).None?
    ensures last <= ms[0].start < ms[0].end <= |t| && ToDo(lookup, t, ms[1..], ms[0].end)
    ensures Noted(t, Unresolved(lookup, ms), last)
         == t[last..ms[0].start] + (Note(ms[0].path) + Noted(t, Unresolved(lookup, ms[1..]), ms[0].end))
    ensures Blocks(lookup, ms) == Blocks(lookup, ms[1..])
    ensures Attached(lookup, ms) == Attached(lookup, ms[1..])
  {
    hide Ordered, Note;
    FirstInside(t, ms, last);
    TailOrdered(t, ms, last);
    UnresolvedOrdered(lookup, t, ms[1..], ms[0].end);
    var gone := Unresolved(lookup, ms);
    assert gone[0] == ms[0] && gone[1..] == Unresolved(lookup, ms[1..]);
  }

  lemma Assoc<T>(a: seq<T>, b: seq<T>, c: seq<T>)
    ensures a + (b + c) == (a + b) + c
  {}

  lemma StartToDo(lookup: string -> Option<string>, t: string)
    ensures ToDo(lookup, t, From(t, 0), 0)
  {
    InOrder(t, 0);
    UnresolvedOrdered(lookup, t, From(t, 0), 0);
  }

  /** `expand_message`; `lookup` stands for reading the file or listing the directory. */
  method ExpandMessage(lookup: string -> Option<string>, t: string) returns (r: Expanded)
    ensures r == Expansion(lookup, t)
  {
    var mentions := Tokenize(t);
    StartToDo(lookup, t);
    if mentions == [] {
      assert t[0..] == t && t + "" == t;
      return Expanded(t, t, []);
    }
    hide From, Note, Block, Ordered, Noted, Unresolved, Blocks, Attached;
    var text, blocks, attached := "", "", [];
    var last: nat := 0;
    var k := 0;
    assert mentions[0..] == mentions;
    while k < |mentions|
      invariant k <= |mentions| && last <= |t| && ToDo(lookup, t, mentions[k..], last)
      invariant text + Noted(t, Unresolved(lookup, mentions[k..]), last) == Noted(t, Unresolved(lookup, mentions), 0)
      invariant blocks + Blocks(lookup, mentions[k..]) == Blocks(lookup, mentions)
      invariant attached + Attached(lookup, mentions[k..]) == Attached(lookup, mentions)
      invariant (attached == []) == (blocks == "")
    {
      var mention := mentions[k];
      ghost var rest := mentions[k + 1..];
      assert mentions[k..][0] == mention && mentions[k..][1..] == rest;
      match lookup(mention.path) {
        case Some(body) =>
          StepResolved(lookup, t, mentions[k..], last);
          Assoc(attached, [mention.path], Attached(lookup, rest));
          Assoc(blocks, Block(mention.path, body), Blocks(lookup, rest));
          BlockIsSome(mention.path, body);
          attached := attached + [mention.path];
          blocks := blocks + Block(mention.path, body);
        case None =>
          StepLost(lookup, t, mentions[k..], last);
          ghost var after := Noted(t, Unresolved(lookup, rest), mention.end);
          Assoc(text, t[last..mention.start], Note(mention.path) + after);
          text := text + t[last..mention.start];
          Assoc(text, Note(mention.path), after);
          text := text + Note(mention.path);
          last := mention.end;
      }
      k := k + 1;
    }
    Finished(lookup, t, last);
    assert mentions[|mentions|..] == [];
    text := text + t[last..];
    assert blocks + "" == blocks && attached + [] == attached && text + "" == text;
    if attached == [] {
      return Expanded(text, text, attached);
    }
    return Expanded(text, text + blocks, attached);
  }

  lemma Finished(lookup: string -> Option<string>, t: string, last: nat)
    requires last <= |t|
    ensures Unresolved(lookup, []) == [] && Blocks(lookup, []) == "" && Attached(lookup, []) == []
    ensures Ordered(t, [], last) && Noted(t, [], last) == t[last..]
  {}

  lemma BlockIsSome(path: string, body: string)
    ensures Block(path, body) != ""
  {
    assert Block(path, body)[0] == '\n';
  }

  // ----- what expanding keeps -----

  /** A stretch of the message: kept as typed, or an unresolved mention. */
  datatype Stretch = Kept(text: string) | Lost(mention: Mention)

  function Typed(t: string, s: Stretch): string
    requires s.Lost? ==> s.mention.start <= s.mention.end <= |t|
  {
    match s case Kept(text) => text case Lost(m) => t[m.start..m.end]
  }

  function Shown(s: Stretch): string {
    match s case Kept(text) => text case Lost(m) => "[file not found: " + m.path + "]"
  }

  ghost predicate Within(t: string, ss: seq<Stretch>) {
    forall k :: 0 <= k < |ss| && ss[k].Lost? ==> ss[k].mention.start <= ss[k].mention.end <= |t|
  }

  function AllTyped(t: string, ss: seq<Stretch>): string
    requires Within(t, ss)
  {
    if ss == [] then "" else Typed(t, ss[0]) + AllTyped(t, ss[1..])
  }

  function AllShown(ss: seq<Stretch>): string {
    if ss == [] then "" else Shown(ss[0]) + AllShown(ss[1..])
  }

  function Losses(ss: seq<Stretch>): seq<Mention> {
    if ss == [] then [] else (if ss[0].Lost? then [ss[0].mention] else []) + Losses(ss[1..])
  }

  lemma SplitThree(t: string, i: nat, a: nat, b: nat)
    requires i <= a <= b <= |t|
    ensures t[i..] == t[i..a] + (t[a..b] + t[b..])
  {
    assert t[a..] == t[a..b] + t[b..];
    assert t[i..] == t[i..a] + t[a..];
  }

  lemma ConsStretches(t: string, a: string, m: Mention, rest: seq<Stretch>)
    requires Within(t, rest) && m.start <= m.end <= |t|
    ensures var ss := [Kept(a), Lost(m)] + rest;
      && Within(t, ss) && Losses(ss) == [m] + Losses(rest)
      && AllTyped(t, ss) == a + (t[m.start..m.end] + AllTyped(t, rest))
      && AllShown(ss) == a + (Note(m.path) + AllShown(rest))
  {
    assert Note(m.path) == "[file not found: " + m.path + "]";
    hide Note;
    var ss := [Kept(a), Lost(m)] + rest;
    assert forall k {:trigger ss[k]} :: 1 < k < |ss| ==> ss[k] == rest[k - 2];
    assert ss[1..] == [Lost(m)] + rest && ss[1..][1..] == rest;
  }

  lemma {:induction false} NotedStretches(t: string, gone: seq<Mention>, i: nat) returns (ss: seq<Stretch>)
    requires Ordered(t, gone, i)
    ensures Within(t, ss) && Losses(ss) == gone
    ensures AllTyped(t, ss) == t[i..] && AllShown(ss) == Noted(t, gone, i)
    decreases |gone|
  {
    if gone == [] {
      ss := [Kept(t[i..])];
      assert ss[1..] == [] && t[i..] + "" == t[i..];
    } else {
      hide Note, Ordered;
      TailOrdered(t, gone, i);
      FirstInside(t, gone, i);
      var m := gone[0];
      var rest := NotedStretches(t, gone[1..], m.end);
      ss := [Kept(t[i..m.start]), Lost(m)] + rest;
      ConsStretches(t, t[i..m.start], m, rest);
      hide AllTyped, AllShown, Losses, Within;
      SplitThree(t, i, m.start, m.end);
      assert gone == [m] + gone[1..];
    }
  }

  /** The message splits into stretches that spell the typed text; the shown text keeps every
      stretch but the unresolved mentions, which become notes, in order and nothing else. */
  lemma OnlyUnresolvedSpansChange(lookup: string -> Option<string>, t: string)
    ensures exists ss ::
      && Within(t, ss) && AllTyped(t, ss) == t
      && AllShown(ss) == Expansion(lookup, t).textWithNotes
      && Losses(ss) == Unresolved(lookup, From(t, 0))
  {
    InOrder(t, 0);
    UnresolvedOrdered(lookup, t, From(t, 0), 0);
    hide From, Noted, Unresolved;
    var ss := NotedStretches(t, Unresolved(lookup, From(t, 0)), 0);
    assert t[0..] == t;
  }

  /** When every mention resolves the shown text is the typed text. */
  lemma AllResolved(lookup: string -> Option<string>, t: string)
    requires forall m :: m in From(t, 0) ==> lookup(m.path).Some?
    ensures Expansion(lookup, t).textWithNotes == t
    ensures |Expansion(lookup, t).attached| == |From(t, 0)|
  {
    NoneUnresolved(lookup, From(t, 0));
    InOrder(t, 0);
    hide From;
    assert t[0..] == t;
  }

  lemma {:induction false} NoneUnresolved(lookup: string -> Option<string>, ms: seq<Mention>)
    requires forall m :: m in ms ==> lookup(m.path).Some?
    ensures Unresolved(lookup, ms) == [] && |Attached(lookup, ms)| == |ms|
  {
    if ms != [] {
      assert ms[0] in ms;
      NoneUnresolved(lookup, ms[1..]);
    }
  }

  // ----- what the model reads -----

  /** The files behind the text, in mention order. */
  function Files(lookup: string -> Option<string>, paths: seq<string>): string {
    if paths == [] then ""
    else
      (match lookup(paths[0])
       case None => ""
       case Some(body) => "\n\n<file path=\"" + paths[0] + "\">\n" + body + "\n</file>")
      + Files(lookup, paths[1..])
  }

  lemma {:induction false} BlocksAreFiles(lookup: string -> Option<string>, ms: seq<Mention>)
    ensures Blocks(lookup, ms) == Files(lookup, Attached(lookup, ms))
  {
    if ms != [] {
      BlocksAreFiles(lookup, ms[1..]);
      var rest := Attached(lookup, ms[1..]);
      match lookup(ms[0].path)
      case None =>
      case Some(body) =>
        assert ([ms[0].path] + rest)[1..] == rest;
        assert Block(ms[0].path, body) == "\n\n<file path=\"" + ms[0].path + "\">\n" + body + "\n</file>";
    }
  }

  /** The model reads what is shown and behind it each attached file's text under its path. */
  lemma ModelReadsFiles(lookup: string -> Option<string>, t: string)
    ensures var e := Expansion(lookup, t);
      e.llmMessage == e.textWithNotes + Files(lookup, e.attached)
  {
    hide From, Noted, Unresolved;
    BlocksAreFiles(lookup, From(t, 0));
  }
}
