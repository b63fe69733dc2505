/** What the streamed response means: the round trip of an encoded response, the verdict on
    every truncation, where each block of an accepted body came from, and the usage counts. */
module StreamTheorems {
  import opened Text
  import opened Utf8
  import opened Sse
  import opened Stream
  import opened Accumulator

  // ----- typed events -----

  function FoldStep(parse: JsonParser, c: Core, e: Event): Core {
    if c.error.Some? then c else Apply(parse, c, e)
  }

  function Fold(parse: JsonParser, c: Core, es: seq<Event>): Core {
    if es == [] then c else FoldStep(parse, Fold(parse, c, es[..|es| - 1]), es[|es| - 1])
  }

  lemma {:induction false} FoldConcat(parse: JsonParser, c: Core, a: seq<Event>, b: seq<Event>)
    ensures Fold(parse, c, a + b) == Fold(parse, Fold(parse, c, a), b)
  {
    hide FoldStep;
    if b == [] {
      assert a + b == a;
    } else {
      assert (a + b)[..|a + b| - 1] == a + b[..|b| - 1];
      FoldConcat(parse, c, a, b[..|b| - 1]);
    }
  }

  /** An error anywhere is an error at the end. */
  lemma {:induction false} NoErrorBefore(parse: JsonParser, c: Core, es: seq<Event>, n: nat)
    requires n <= |es| && Fold(parse, c, es).error == None
    ensures Fold(parse, c, es[..n]).error == None
  {
    if n == |es| {
      assert es[..n] == es;
    } else {
      assert es[..|es| - 1][..n] == es[..n];
      NoErrorBefore(parse, c, es[..|es| - 1], n);
    }
  }

  /** The server-sent events carry these typed events as their payloads. */
  ghost predicate Carry(parse: JsonParser, sses: seq<SseEvent>, es: seq<Event>) {
    |sses| == |es| && forall i :: 0 <= i < |es| ==> Payload(parse, sses[i].data) == Some(es[i])
  }

  lemma {:induction false} RunIsFold(parse: JsonParser, c: Core, sses: seq<SseEvent>, es: seq<Event>)
    requires Carry(parse, sses, es)
    ensures Run(parse, c, sses) == Fold(parse, c, es)
  {
    hide Payload, Apply;
    if sses != [] {
      RunIsFold(parse, c, sses[..|sses| - 1], es[..|es| - 1]);
    }
  }

  // ----- what a body shows -----

  datatype Content = TextContent(text: string) | ToolContent(id: string, name: string, input: Json)
    | ThinkingContent(thinking: string, signature: string)

  ghost predicate HasKeys(v: Json, keys: set<string>) { v.Obj? && v.fields.Keys == keys }

  /** The block read field by field: these fields, these values, and no others. */
  ghost predicate Shows(v: Json, x: Content) {
    match x
    case TextContent(text) =>
      HasKeys(v, {"type", "text"}) && GetStr(v, "type") == Some("text") && GetStr(v, "text") == Some(text)
    case ToolContent(id, name, input) =>
      HasKeys(v, {"type", "id", "name", "input"}) && GetStr(v, "type") == Some("tool_use")
      && GetStr(v, "id") == Some(id) && GetStr(v, "name") == Some(name) && Get(v, "input") == Some(input)
    case ThinkingContent(thinking, signature) =>
      HasKeys(v, if signature == "" then {"type", "thinking"} else {"type", "thinking", "signature"})
      && GetStr(v, "type") == Some("thinking") && GetStr(v, "thinking") == Some(thinking)
      && (signature != "" ==> GetStr(v, "signature") == Some(signature))
  }

  ghost predicate ShowsAll(vs: seq<Json>, xs: seq<Content>) {
    |vs| == |xs| && forall i :: 0 <= i < |vs| ==> Shows(vs[i], xs[i])
  }

  /** The input a tool's joined partials stand for: their parse, and `{}` for none. */
  predicate InputIs(parse: JsonParser, partials: string, input: Json) {
    if partials == "" then input == Obj(map[]) else parse(partials) == Some(input)
  }

  lemma TextShows(text: string)
    ensures Shows(TextJson(text), TextContent(text))
  {
  }

  lemma ToolShows(id: string, name: string, input: Json)
    ensures Shows(ToolJson(id, name, input), ToolContent(id, name, input))
  {
  }

  lemma ThinkingShows(thinking: string, signature: string)
    ensures Shows(ThinkingJson(thinking, signature), ThinkingContent(thinking, signature))
  {
  }

  // ----- where blocks come from -----

  predicate IsMark(e: Event) { e.BlockStart? || e.BlockStop? }

  /** es[a] opens a block of a known kind, es[b] stops it, nothing between opens or stops one. */
  ghost predicate Bracket(es: seq<Event>, a: nat, b: nat) {
    && a < b < |es| && es[a].BlockStart? && !es[a].kind.UnknownKind? && es[b].BlockStop?
    && forall i :: a < i < b ==> !IsMark(es[i])
  }

  datatype Channel = Texts | Inputs | Thoughts | Signatures

  function Piece(d: Delta, channel: Channel): string {
    match (channel, d)
    case (Texts, TextDelta(t)) => t
    case (Inputs, InputDelta(p)) => p
    case (Thoughts, ThinkingDelta(t)) => t
    case (Signatures, SignatureDelta(s)) => s
    case _ => ""
  }

  /** Concatenation of the channel's pieces strictly between a and b that carry the index
      es[a] opened: no other index, no other kind of delta, nothing outside the segment. */
  function Joined(es: seq<Event>, a: nat, b: nat, channel: Channel): string
    requires a < b <= |es| && es[a].BlockStart?
    decreases b
  {
    if b == a + 1 then ""
    else
      var last := es[b - 1];
      Joined(es, a, b - 1, channel)
      + if last.BlockDelta? && last.index == es[a].index then Piece(last.delta, channel) else ""
  }

  /** The open block that the segment from a, read up to n, amounts to. */
  function SegmentOpen(es: seq<Event>, a: nat, n: nat): Option<OpenBlock>
    requires a < n <= |es| && es[a].BlockStart?
  {
    match es[a].kind
    case TextKind => Some(TextBlock(es[a].index, Joined(es, a, n, Texts)))
    case ToolKind(id, name) => Some(ToolBlock(es[a].index, id, name, Joined(es, a, n, Inputs)))
    case ThinkingKind => Some(ThinkingBlock(es[a].index, Joined(es, a, n, Thoughts), Joined(es, a, n, Signatures)))
    case UnknownKind => None
  }

  /** The finished block of the segment from a to b; None when a tool's partials are not JSON. */
  function SegmentBlock(parse: JsonParser, es: seq<Event>, a: nat, b: nat): Option<Json>
    requires a < b <= |es| && es[a].BlockStart?
  {
    match SegmentOpen(es, a, b) case Some(o) => Render(parse, o) case None => None
  }

  /** v is the block of the segment: its kind's fields, and the pieces of its channel joined. */
  ghost predicate SegmentShows(parse: JsonParser, es: seq<Event>, a: nat, b: nat, v: Json)
    requires a < b <= |es| && es[a].BlockStart?
  {
    match es[a].kind
    case TextKind => Shows(v, TextContent(Joined(es, a, b, Texts)))
    case ToolKind(id, name) =>
      exists input :: InputIs(parse, Joined(es, a, b, Inputs), input) && Shows(v, ToolContent(id, name, input))
    case ThinkingKind => Shows(v, ThinkingContent(Joined(es, a, b, Thoughts), Joined(es, a, b, Signatures)))
    case UnknownKind => false
  }

  lemma SegmentIsShown(parse: JsonParser, es: seq<Event>, a: nat, b: nat)
    requires a < b <= |es| && es[a].BlockStart? && SegmentBlock(parse, es, a, b).Some?
    ensures SegmentShows(parse, es, a, b, SegmentBlock(parse, es, a, b).value)
  {
    hide Joined, Shows, TextJson, ToolJson, ThinkingJson;
    match es[a].kind
    case TextKind => TextShows(Joined(es, a, b, Texts));
    case ToolKind(id, name) =>
      var input := ToolInput(parse, Joined(es, a, b, Inputs)).value;
      assert InputIs(parse, Joined(es, a, b, Inputs), input);
      ToolShows(id, name, input);
    case ThinkingKind => ThinkingShows(Joined(es, a, b, Thoughts), Joined(es, a, b, Signatures));
    case UnknownKind =>
  }

  /** The last position below n that opens or stops a block. */
  function MarkBefore(es: seq<Event>, n: nat): (r: Option<nat>)
    requires n <= |es|
    ensures r.Some? ==> r.value < n && IsMark(es[r.value]) && forall i :: r.value < i < n ==> !IsMark(es[i])
    ensures r.None? ==> forall i :: 0 <= i < n ==> !IsMark(es[i])
  {
    if n == 0 then None else if IsMark(es[n - 1]) then Some(n - 1) else MarkBefore(es, n - 1)
  }

  /** What is open after n events: the segment since the last start, if no stop came since. */
  function OpenAfter(es: seq<Event>, n: nat): Option<OpenBlock>
    requires n <= |es|
  {
    match MarkBefore(es, n)
    case None => None
    case Some(a) => if es[a].BlockStart? then SegmentOpen(es, a, n) else None
  }

  lemma OpenStops(es: seq<Event>, b: nat)
    requires b < |es| && es[b].BlockStop?
    ensures OpenAfter(es, b).Some? ==> MarkBefore(es, b).Some? && Bracket(es, MarkBefore(es, b).value, b)
    ensures forall a: nat {:trigger Bracket(es, a, b)} :: Bracket(es, a, b) ==> OpenAfter(es, b).Some? && MarkBefore(es, b) == Some(a)
  {
    hide Joined;
    forall a: nat | Bracket(es, a, b) ensures MarkBefore(es, b) == Some(a) {
      assert IsMark(es[a]);
    }
  }

  /** The accumulator's `open` is the reference's, one event later. */
  lemma OpenStep(parse: JsonParser, es: seq<Event>, n: nat, c: Core)
    requires n < |es| && c.open == OpenAfter(es, n)
    ensures Apply(parse, c, es[n]).open == OpenAfter(es, n + 1)
  {
    hide MergeCounts, Render;
    var e := es[n];
    if !IsMark(e) && c.open.Some? {
      var a := MarkBefore(es, n).value;
      if e.BlockDelta? { DeltaStep(es, a, n); } else { OtherStep(es, a, n); }
    }
  }

  lemma OtherStep(es: seq<Event>, a: nat, n: nat)
    requires a < n < |es| && es[a].BlockStart? && !es[n].BlockDelta?
    ensures SegmentOpen(es, a, n + 1) == SegmentOpen(es, a, n)
  {
    forall ch: Channel ensures Joined(es, a, n + 1, ch) == Joined(es, a, n, ch) {}
  }

  lemma DeltaStep(es: seq<Event>, a: nat, n: nat)
    requires a < n < |es| && es[a].BlockStart? && es[n].BlockDelta? && SegmentOpen(es, a, n).Some?
    ensures SegmentOpen(es, a, n + 1) == Some(Lengthened(SegmentOpen(es, a, n).value, es[n].index, es[n].delta))
  {
    forall ch: Channel ensures Joined(es, a, n + 1, ch) == Joined(es, a, n, ch)
      + if es[n].index == es[a].index then Piece(es[n].delta, ch) else ""
    {
    }
    forall x: string ensures x + "" == x {}
  }

  /** Brackets below n, in the order of their stops. */
  ghost predicate AreBrackets(es: seq<Event>, n: nat, marks: seq<(nat, nat)>) {
    && (forall k :: 0 <= k < |marks| ==> marks[k].1 < n && Bracket(es, marks[k].0, marks[k].1))
    && (forall j, k :: 0 <= j < k < |marks| ==> marks[j].1 < marks[k].1)
    && (forall a: nat, b: nat :: b < n && Bracket(es, a, b) ==> (a, b) in marks)
  }

  ghost predicate BlocksAre(parse: JsonParser, es: seq<Event>, marks: seq<(nat, nat)>, blocks: seq<Json>) {
    && |marks| == |blocks|
    && forall k :: 0 <= k < |marks| ==>
         && Bracket(es, marks[k].0, marks[k].1)
         && SegmentShows(parse, es, marks[k].0, marks[k].1, blocks[k])
  }

  lemma {:induction false} Traced(parse: JsonParser, es: seq<Event>, n: nat) returns (marks: seq<(nat, nat)>)
    requires n <= |es| && Fold(parse, EMPTY, es[..n]).error == None
    ensures Fold(parse, EMPTY, es[..n]).open == OpenAfter(es, n)
    ensures AreBrackets(es, n, marks) && BlocksAre(parse, es, marks, Fold(parse, EMPTY, es[..n]).blocks)
  {
    hide Apply, Bracket, SegmentBlock, SegmentShows, OpenAfter;
    if n == 0 {
      marks := [];
      assert OpenAfter(es, 0) == None by { NothingOpen(es); }
    } else {
      var m := n - 1;
      assert es[..n][..m] == es[..m] && es[..n][m] == es[m];
      marks := Traced(parse, es, m);
      var c := Fold(parse, EMPTY, es[..m]);
      OpenStep(parse, es, m, c);
      BracketsEndInStops(es, m);
      if es[m].BlockStop? { OpenStops(es, m); }
      if es[m].BlockStop? && c.open.Some? {
        var a := MarkBefore(es, m).value;
        StopRenders(parse, es, m, c);
        SegmentIsShown(parse, es, a, m);
        MarksGrow(es, m, marks, a);
        marks := marks + [(a, m)];
      } else {
        OthersKeepBlocks(parse, c, es[m]);
        MarksStay(es, m, marks);
      }
    }
  }

  lemma BracketsEndInStops(es: seq<Event>, m: nat)
    ensures forall a: nat {:trigger Bracket(es, a, m)} :: Bracket(es, a, m) ==> m < |es| && es[m].BlockStop?
  {
  }

  lemma NothingOpen(es: seq<Event>)
    ensures OpenAfter(es, 0) == None
  {
  }

  lemma StopRenders(parse: JsonParser, es: seq<Event>, m: nat, c: Core)
    requires m < |es| && es[m].BlockStop? && c.open.Some? && c.open == OpenAfter(es, m)
    requires c.error == None && Apply(parse, c, es[m]).error == None
    ensures MarkBefore(es, m).Some? && es[MarkBefore(es, m).value].BlockStart?
    ensures var r := SegmentBlock(parse, es, MarkBefore(es, m).value, m);
            r.Some? && Apply(parse, c, es[m]).blocks == c.blocks + [r.value]
  {
    hide Render;
  }

  lemma OthersKeepBlocks(parse: JsonParser, c: Core, e: Event)
    requires !(e.BlockStop? && c.open.Some?)
    ensures Apply(parse, c, e).blocks == c.blocks
  {
    hide MergeCounts;
  }

  lemma MarksGrow(es: seq<Event>, m: nat, marks: seq<(nat, nat)>, a: nat)
    requires AreBrackets(es, m, marks) && Bracket(es, a, m)
    requires forall a': nat {:trigger Bracket(es, a', m)} :: Bracket(es, a', m) ==> a' == a
    ensures AreBrackets(es, m + 1, marks + [(a, m)])
  {
    hide Bracket;
    var more := marks + [(a, m)];
    forall x: nat, y: nat | y < m + 1 && Bracket(es, x, y) ensures (x, y) in more {
      if y < m { assert (x, y) in marks; } else { assert more[|marks|] == (x, y); }
    }
  }

  lemma MarksStay(es: seq<Event>, m: nat, marks: seq<(nat, nat)>)
    requires AreBrackets(es, m, marks)
    requires forall a: nat {:trigger Bracket(es, a, m)} :: !Bracket(es, a, m)
    ensures AreBrackets(es, m + 1, marks)
  {
    hide Bracket;
  }

  lemma StopSeenStep(parse: JsonParser, c: Core, e: Event)
    ensures FoldStep(parse, c, e).error == None ==> FoldStep(parse, c, e).stopSeen == (c.stopSeen || e.MessageStop?)
  {
    hide Render, MergeCounts;
  }

  lemma {:induction false} StopSeenIs(parse: JsonParser, es: seq<Event>)
    requires Fold(parse, EMPTY, es).error == None
    ensures Fold(parse, EMPTY, es).stopSeen <==> exists i :: 0 <= i < |es| && es[i].MessageStop?
  {
    hide FoldStep;
    if es != [] {
      var m := |es| - 1;
      NoErrorBefore(parse, EMPTY, es, m);
      StopSeenIs(parse, es[..m]);
      StopSeenStep(parse, Fold(parse, EMPTY, es[..m]), es[m]);
      assert forall i :: 0 <= i < m ==> es[..m][i] == es[i];
    }
  }

  /** Exactly which event streams are accepted: nothing left open, and the terminal event came. */
  lemma AcceptedExactly(parse: JsonParser, es: seq<Event>)
    requires Fold(parse, EMPTY, es).error == None
    ensures Finish(Fold(parse, EMPTY, es)).Body?
       <==> OpenAfter(es, |es|) == None && exists i :: 0 <= i < |es| && es[i].MessageStop?
  {
    hide Fold, OpenAfter;
    assert es[..|es|] == es;
    var marks := Traced(parse, es, |es|);
    StopSeenIs(parse, es);
  }

  lemma {:induction false} PayloadsOf(parse: JsonParser, sses: seq<SseEvent>) returns (es: seq<Event>)
    requires Run(parse, EMPTY, sses).error == None
    ensures Carry(parse, sses, es)
  {
    hide Payload, Apply;
    if sses == [] {
      es := [];
    } else {
      es := PayloadsOf(parse, sses[..|sses| - 1]);
      es := es + [Payload(parse, sses[|sses| - 1].data).value];
    }
  }

  lemma ContentOfBody(c: Core)
    ensures Get(BodyJson(c), "content") == Some(Arr(c.blocks))
  {
  }

  /** However the body was cut: in an accepted body, block k is the k-th start/stop bracket of
      the event stream, its content is the concatenation of exactly the matching pieces in
      between (a tool's input is their parse), and no bracket is missing. */
  lemma EveryBlockIsBracketed(parse: JsonParser, chunks: seq<seq<byte>>)
    returns (es: seq<Event>, marks: seq<(nat, nat)>)
    requires PrefixOfValid(Concat(chunks))
    ensures Finish(FeedAll(parse, chunks).core).Body? ==>
      && Carry(parse, Events(Decode(Concat(chunks)).0), es)
      && AreBrackets(es, |es|, marks)
      && BlocksAre(parse, es, marks, FeedAll(parse, chunks).core.blocks)
      && Get(Finish(FeedAll(parse, chunks).core).value, "content") == Some(Arr(FeedAll(parse, chunks).core.blocks))
  {
    es, marks := [], [];
    if !Finish(FeedAll(parse, chunks).core).Body? { return; }
    hide BodyJson, Fold, Run, AreBrackets, BlocksAre, PrefixOfValid, Decode, Parse, FeedAll, Concat;
    ContentOfBody(FeedAll(parse, chunks).core);
    ChunkIndependence(parse, chunks, chunks);
    var sses := Events(Decode(Concat(chunks)).0);
    es := PayloadsOf(parse, sses);
    RunIsFold(parse, EMPTY, sses, es);
    assert es[..|es|] == es;
    marks := Traced(parse, es, |es|);
  }

  // ----- the round trip -----

  function ContentJson(c: Content): Json {
    match c
    case TextContent(text) => TextJson(text)
    case ToolContent(id, name, input) => ToolJson(id, name, input)
    case ThinkingContent(thinking, signature) => ThinkingJson(thinking, signature)
  }

  /** One block as sent: opened at an index, its payload cut into deltas, stopped. */
  datatype Sent = Sent(index: nat, kind: BlockKind, deltas: seq<Delta>)

  function Channeled(ds: seq<Delta>, channel: Channel): string {
    if ds == [] then "" else Channeled(ds[..|ds| - 1], channel) + Piece(ds[|ds| - 1], channel)
  }

  /** The deltas carry the content, however it was cut. A tool without input may send nothing. */
  predicate Sends(parse: JsonParser, b: Sent, c: Content) {
    match c
    case TextContent(text) => b.kind == TextKind && Channeled(b.deltas, Texts) == text
    case ToolContent(id, name, input) =>
      b.kind == ToolKind(id, name) && InputIs(parse, Channeled(b.deltas, Inputs), input)
    case ThinkingContent(thinking, signature) =>
      b.kind == ThinkingKind && Channeled(b.deltas, Thoughts) == thinking && Channeled(b.deltas, Signatures) == signature
  }

  function Deltas(index: nat, ds: seq<Delta>): seq<Event> {
    if ds == [] then [] else Deltas(index, ds[..|ds| - 1]) + [BlockDelta(index, ds[|ds| - 1])]
  }

  function SentEvents(b: Sent): seq<Event> {
    [BlockStart(b.index, b.kind)] + Deltas(b.index, b.deltas) + [BlockStop]
  }

  function AllEvents(bs: seq<Sent>): seq<Event> {
    if bs == [] then [] else AllEvents(bs[..|bs| - 1]) + SentEvents(bs[|bs| - 1])
  }

  function WithoutPings(es: seq<Event>): seq<Event> {
    if es == [] then []
    else WithoutPings(es[..|es| - 1]) + if es[|es| - 1].Ping? then [] else [es[|es| - 1]]
  }

  lemma {:induction false} PingsChangeNothing(parse: JsonParser, c: Core, es: seq<Event>)
    ensures Fold(parse, c, WithoutPings(es)) == Fold(parse, c, es)
  {
    hide Apply;
    if es != [] {
      var rest, e := es[..|es| - 1], es[|es| - 1];
      PingsChangeNothing(parse, c, rest);
      if e.Ping? {
        assert WithoutPings(rest) + [] == WithoutPings(rest);
        PingIsIgnored(parse, Fold(parse, c, rest));
      } else {
        FoldOne(parse, c, WithoutPings(rest), e);
      }
    }
  }

  lemma PingIsIgnored(parse: JsonParser, c: Core)
    ensures FoldStep(parse, c, Ping) == c
  {
  }

  lemma FoldOne(parse: JsonParser, c: Core, es: seq<Event>, e: Event)
    ensures Fold(parse, c, es + [e]) == FoldStep(parse, Fold(parse, c, es), e)
  {
    assert (es + [e])[..|es|] == es;
  }

  function OpenWith(index: nat, kind: BlockKind, ds: seq<Delta>): Option<OpenBlock> {
    match kind
    case TextKind => Some(TextBlock(index, Channeled(ds, Texts)))
    case ToolKind(id, name) => Some(ToolBlock(index, id, name, Channeled(ds, Inputs)))
    case ThinkingKind => Some(ThinkingBlock(index, Channeled(ds, Thoughts), Channeled(ds, Signatures)))
    case UnknownKind => None
  }

  /** The hook hears exactly the text pieces of text blocks. */
  function Heard(kind: BlockKind, ds: seq<Delta>): seq<string> {
    if ds == [] || !kind.TextKind? then []
    else Heard(kind, ds[..|ds| - 1]) + if ds[|ds| - 1].TextDelta? then [ds[|ds| - 1].text] else []
  }

  lemma {:induction false} DeltasFold(parse: JsonParser, c: Core, index: nat, kind: BlockKind, ds: seq<Delta>)
    requires c.error == None && c.open == OpenWith(index, kind, []) && !kind.UnknownKind?
    ensures Fold(parse, c, Deltas(index, ds)) ==
            c.(open := OpenWith(index, kind, ds), deltas := c.deltas + Heard(kind, ds))
  {
    if ds == [] {
      assert c.deltas + [] == c.deltas;
    } else {
      var m := |ds| - 1;
      DeltasFold(parse, c, index, kind, ds[..m]);
      FoldOne(parse, c, Deltas(index, ds[..m]), BlockDelta(index, ds[m]));
      OpenGrows(parse, c.(open := OpenWith(index, kind, ds[..m]), deltas := c.deltas + Heard(kind, ds[..m])), index, kind, ds);
      assert c.deltas + Heard(kind, ds[..m]) + (if kind.TextKind? && ds[m].TextDelta? then [ds[m].text] else [])
          == c.deltas + Heard(kind, ds);
    }
  }

  lemma OpenGrows(parse: JsonParser, c: Core, index: nat, kind: BlockKind, ds: seq<Delta>)
    requires ds != [] && c.error == None && c.open == OpenWith(index, kind, ds[..|ds| - 1]) && !kind.UnknownKind?
    ensures var d := ds[|ds| - 1];
            FoldStep(parse, c, BlockDelta(index, d)) ==
            c.(open := OpenWith(index, kind, ds),
               deltas := c.deltas + if kind.TextKind? && d.TextDelta? then [d.text] else [])
  {
    assert c.deltas + [] == c.deltas;
    forall x: string ensures x + "" == x {}
  }

  lemma SentFold(parse: JsonParser, c: Core, b: Sent, x: Content)
    requires c.error == None && c.open == None && Sends(parse, b, x)
    ensures Fold(parse, c, SentEvents(b)) ==
            c.(blocks := c.blocks + [ContentJson(x)], deltas := c.deltas + Heard(b.kind, b.deltas))
  {
    hide Apply, Fold, Channeled, Heard, TextJson, ToolJson, ThinkingJson;
    var start, middle := [BlockStart(b.index, b.kind)], Deltas(b.index, b.deltas);
    FoldConcat(parse, c, start, middle);
    var c1 := c.(open := OpenWith(b.index, b.kind, []));
    assert Fold(parse, c, start) == c1 by { StartFold(parse, c, b.index, b.kind); }
    DeltasFold(parse, c1, b.index, b.kind, b.deltas);
    FoldOne(parse, c, start + middle, BlockStop);
    var c2 := c1.(open := OpenWith(b.index, b.kind, b.deltas), deltas := c.deltas + Heard(b.kind, b.deltas));
    StopFold(parse, c2, b, x);
    assert c2.(open := None, blocks := c.blocks + [ContentJson(x)])
        == c.(blocks := c.blocks + [ContentJson(x)], deltas := c.deltas + Heard(b.kind, b.deltas));
  }

  lemma StartFold(parse: JsonParser, c: Core, index: nat, kind: BlockKind)
    requires c.error == None
    ensures Fold(parse, c, [BlockStart(index, kind)]) == c.(open := OpenWith(index, kind, []))
  {
    assert [BlockStart(index, kind)][..0] == [];
  }

  lemma StopFold(parse: JsonParser, c: Core, b: Sent, x: Content)
    requires c.error == None && c.open == OpenWith(b.index, b.kind, b.deltas) && Sends(parse, b, x)
    ensures FoldStep(parse, c, BlockStop) == c.(open := None, blocks := c.blocks + [ContentJson(x)])
  {
    hide Channeled, TextJson, ToolJson, ThinkingJson;
  }

  ghost predicate SendsAll(parse: JsonParser, bs: seq<Sent>, xs: seq<Content>) {
    |bs| == |xs| && forall i :: 0 <= i < |bs| ==> Sends(parse, bs[i], xs[i])
  }

  function Jsons(xs: seq<Content>): seq<Json> { seq(|xs|, i requires 0 <= i < |xs| => ContentJson(xs[i])) }

  function HeardAll(bs: seq<Sent>): seq<string> {
    if bs == [] then [] else HeardAll(bs[..|bs| - 1]) + Heard(bs[|bs| - 1].kind, bs[|bs| - 1].deltas)
  }

  lemma {:induction false} AllFold(parse: JsonParser, c: Core, bs: seq<Sent>, xs: seq<Content>)
    requires c.error == None && c.open == None && c.blocks == [] && c.deltas == [] && SendsAll(parse, bs, xs)
    ensures Fold(parse, c, AllEvents(bs)) == c.(blocks := Jsons(xs), deltas := HeardAll(bs))
  {
    hide Sends, SentEvents, ContentJson, Heard;
    if bs == [] {
      assert Fold(parse, c, []) == c;
      assert Jsons(xs) == [];
    } else {
      var m := |bs| - 1;
      AllFold(parse, c, bs[..m], xs[..m]);
      FoldConcat(parse, c, AllEvents(bs[..m]), SentEvents(bs[m]));
      SentFold(parse, c.(blocks := Jsons(xs[..m]), deltas := HeardAll(bs[..m])), bs[m], xs[m]);
      assert Jsons(xs[..m]) + [ContentJson(xs[m])] == Jsons(xs);
    }
  }

  /** The body a non-streaming response would have had, with exactly these blocks in order. */
  ghost predicate IsResponse(v: Json, id: Option<string>, model: Option<string>, content: seq<Content>,
                             reason: Option<string>, usage: Json) {
    && GetStr(v, "id") == id && GetStr(v, "model") == model
    && GetStr(v, "type") == Some("message") && GetStr(v, "role") == Some("assistant")
    && (exists blocks :: Get(v, "content") == Some(Arr(blocks)) && ShowsAll(blocks, content))
    && Get(v, "stop_sequence") == Some(Null)
    && Get(v, "stop_reason") == Some(if reason.Some? then Str(reason.value) else Null)
    && Get(v, "usage") == Some(usage)
  }

  lemma BodyIsResponse(c: Core, xs: seq<Content>)
    requires ShowsAll(c.blocks, xs)
    ensures IsResponse(BodyJson(c), c.messageId, c.model, xs, c.stopReason, c.usage)
  {
    hide ShowsAll;
    assert Get(BodyJson(c), "content") == Some(Arr(c.blocks));
  }

  lemma JsonsShow(xs: seq<Content>)
    ensures ShowsAll(Jsons(xs), xs)
  {
    hide Shows, TextJson, ToolJson, ThinkingJson;
    forall i | 0 <= i < |xs| ensures Shows(Jsons(xs)[i], xs[i]) {
      match xs[i]
      case TextContent(text) => TextShows(text);
      case ToolContent(id, name, input) => ToolShows(id, name, input);
      case ThinkingContent(thinking, signature) => ThinkingShows(thinking, signature);
    }
  }

  /** Any response of text, tool and thinking blocks, each payload cut into any deltas and
      pings anywhere, comes back whole: same blocks in order, same stop reason and usage. */
  lemma RoundTrip(parse: JsonParser, es: seq<Event>, id: Option<string>, model: Option<string>, usage: Json,
                  bs: seq<Sent>, xs: seq<Content>, reason: string, counts: Counts)
    requires SendsAll(parse, bs, xs) && MergeCounts(usage, counts).Some?
    requires WithoutPings(es) ==
             [MessageStart(id, model, Some(usage))] + AllEvents(bs) + [MessageDelta(Some(reason), counts), MessageStop]
    ensures var c := Fold(parse, EMPTY, es);
         && Finish(c).Body?
         && IsResponse(Finish(c).value, id, model, xs, Some(reason), MergeCounts(usage, counts).value)
         && c.deltas == HeardAll(bs)
  {
    hide Fold, IsResponse, ShowsAll, MergeCounts, BodyJson, SendsAll, AllEvents, WithoutPings, HeardAll;
    PingsChangeNothing(parse, EMPTY, es);
    var start, middle := [MessageStart(id, model, Some(usage))], AllEvents(bs);
    var last := MessageDelta(Some(reason), counts);
    assert start + middle + [last, MessageStop] == start + middle + [last] + [MessageStop];
    FoldOne(parse, EMPTY, start + middle + [last], MessageStop);
    FoldOne(parse, EMPTY, start + middle, last);
    FoldConcat(parse, EMPTY, start, middle);
    assert [] + start == start;
    FoldOne(parse, EMPTY, [], start[0]);
    FoldNothing(parse, EMPTY);
    AllFold(parse, EMPTY.(messageId := id, model := model, usage := usage), bs, xs);
    JsonsShow(xs);
    BodyIsResponse(Fold(parse, EMPTY, es), xs);
  }

  lemma FoldNothing(parse: JsonParser, c: Core)
    ensures Fold(parse, c, []) == c
  {
  }

  // ----- usage -----

  /** The value of a count as the stream last gave it: a message_start replaces them all. */
  function LastSeen(es: seq<Event>, field: string): Option<nat> {
    if es == [] then None
    else
      var e := es[|es| - 1];
      if e.MessageStart? && e.usage.Some? then GetU64(e.usage.value, field)
      else if e.MessageDelta? && CountOf(e.counts, field).Some? then CountOf(e.counts, field)
      else LastSeen(es[..|es| - 1], field)
  }

  function CountOf(c: Counts, field: string): Option<nat> {
    if field == "output_tokens" then c.output
    else if field == "input_tokens" then c.input
    else if field == "cache_read_input_tokens" then c.cacheRead
    else if field == "cache_creation_input_tokens" then c.cacheCreation
    else None
  }

  ghost predicate CountsFit(e: Event) {
    e.MessageDelta? ==> forall field :: CountOf(e.counts, field).Some? ==> CountOf(e.counts, field).value < U64_LIMIT
  }

  lemma MergedCounts(usage: Json, c: Counts, field: string)
    requires MergeCounts(usage, c).Some?
    requires CountOf(c, field).Some? ==> CountOf(c, field).value < U64_LIMIT
    ensures GetU64(MergeCounts(usage, c).value, field) ==
            if CountOf(c, field).Some? then CountOf(c, field) else GetU64(usage, field)
  {
    hide SetCount;
    var u1 := SetCount(usage, "output_tokens", c.output).value;
    var u2 := SetCount(u1, "input_tokens", c.input).value;
    var u3 := SetCount(u2, "cache_read_input_tokens", c.cacheRead).value;
    SetCountReads(usage, "output_tokens", c.output, field);
    SetCountReads(u1, "input_tokens", c.input, field);
    SetCountReads(u2, "cache_read_input_tokens", c.cacheRead, field);
    SetCountReads(u3, "cache_creation_input_tokens", c.cacheCreation, field);
  }

  lemma SetCountReads(usage: Json, key: string, count: Option<nat>, field: string)
    requires SetCount(usage, key, count).Some?
    ensures GetU64(SetCount(usage, key, count).value, field) ==
            if key == field && count.Some? then (if count.value < U64_LIMIT then count else None) else GetU64(usage, field)
  {
  }

  /** In every stream, each usage count of the result is the last value the stream gave it. */
  lemma {:induction false} UsageIsLastSeen(parse: JsonParser, es: seq<Event>, field: string)
    requires Fold(parse, EMPTY, es).error == None
    requires forall e :: e in es ==> CountsFit(e)
    ensures GetU64(Fold(parse, EMPTY, es).usage, field) == LastSeen(es, field)
  {
    hide MergeCounts, Render, CountOf, GetU64;
    if es == [] {
      assert GetU64(Null, field) == None by { NullHasNoCounts(field); }
    } else {
      var m := |es| - 1;
      NoErrorBefore(parse, EMPTY, es, m);
      UsageIsLastSeen(parse, es[..m], field);
      var c := Fold(parse, EMPTY, es[..m]);
      UsageStep(parse, c, es[m], field);
    }
  }

  lemma NullHasNoCounts(field: string)
    ensures GetU64(Null, field) == None
  {
  }

  lemma UsageStep(parse: JsonParser, c: Core, e: Event, field: string)
    requires c.error == None && Apply(parse, c, e).error == None && CountsFit(e)
    ensures GetU64(Apply(parse, c, e).usage, field) ==
      if e.MessageStart? && e.usage.Some? then GetU64(e.usage.value, field)
      else if e.MessageDelta? && CountOf(e.counts, field).Some? then CountOf(e.counts, field)
      else GetU64(c.usage, field)
  {
    hide MergeCounts, Render, CountOf, GetU64;
    if e.MessageDelta? { MergedCounts(c.usage, e.counts, field); }
  }

  /** What a response reports of its usage. */
  datatype Usage = Usage(input: nat, output: nat, total: nat, cacheRead: Option<nat>)

  function OrZero(n: Option<nat>): nat { match n case Some(x) => x case None => 0 }

  /** Absent counts are zero, an absent total is the sum, in 64 bits. */
  function UsageFrom(body: Json): Usage {
    var usage := GetOrNull(body, "usage");
    var input, output := OrZero(GetU64(usage, "input_tokens")), OrZero(GetU64(usage, "output_tokens"));
    Usage(input, output,
      match GetU64(usage, "total_tokens") case Some(n) => n case None => (input + output) % U64_LIMIT,
      GetU64(usage, "cache_read_input_tokens"))
  }

  lemma UsageOfBody(c: Core)
    ensures GetOrNull(BodyJson(c), "usage") == c.usage
  {
  }

  /** The total of the last message_start that brings a usage object along, if it has one. */
  function StartTotal(es: seq<Event>): Option<nat> {
    if es == [] then None
    else
      var e := es[|es| - 1];
      if e.MessageStart? && e.usage.Some? then GetU64(e.usage.value, "total_tokens")
      else StartTotal(es[..|es| - 1])
  }

  lemma {:induction false} TotalComesFromStarts(es: seq<Event>)
    ensures LastSeen(es, "total_tokens") == StartTotal(es)
  {
    if es != [] { TotalComesFromStarts(es[..|es| - 1]); }
  }

  /** The four figures of every streamed response, from its events: each count is the last the
      stream gave, else zero; the total is the one the last message_start brought, whatever the
      counts became since, else the sum of the last counts. */
  lemma StreamedUsage(parse: JsonParser, es: seq<Event>)
    requires Finish(Fold(parse, EMPTY, es)).Body?
    requires forall e :: e in es ==> CountsFit(e)
    ensures var u := UsageFrom(Finish(Fold(parse, EMPTY, es)).value);
      && u.input == OrZero(LastSeen(es, "input_tokens"))
      && u.output == OrZero(LastSeen(es, "output_tokens"))
      && u.cacheRead == LastSeen(es, "cache_read_input_tokens")
      && (StartTotal(es).Some? ==> u.total == StartTotal(es).value)
      && (StartTotal(es).None? ==> u.total == (u.input + u.output) % U64_LIMIT)
  {
    hide Fold, BodyJson, LastSeen, StartTotal, GetU64;
    UsageOfBody(Fold(parse, EMPTY, es));
    UsageIsLastSeen(parse, es, "input_tokens");
    UsageIsLastSeen(parse, es, "output_tokens");
    UsageIsLastSeen(parse, es, "total_tokens");
    UsageIsLastSeen(parse, es, "cache_read_input_tokens");
    TotalComesFromStarts(es);
  }

  /** A response without blocks. */
  function ShortStream(usage: Json, counts: Counts): seq<Event> {
    [MessageStart(None, None, Some(usage)), MessageDelta(None, counts), MessageStop]
  }

  lemma ShortStreamFolds(parse: JsonParser, usage: Json, counts: Counts)
    requires MergeCounts(usage, counts).Some?
    ensures Finish(Fold(parse, EMPTY, ShortStream(usage, counts))).Body?
  {
    hide MergeCounts, Fold, BodyJson;
    var start, last := MessageStart(None, None, Some(usage)), MessageDelta(None, counts);
    FoldNothing(parse, EMPTY);
    FoldOne(parse, EMPTY, [], start);
    FoldOne(parse, EMPTY, [start], last);
    FoldOne(parse, EMPTY, [start, last], MessageStop);
    assert [] + [start] == [start] && [start] + [last] == [start, last];
    assert [start, last] + [MessageStop] == ShortStream(usage, counts);
  }

  lemma ShortStreamLasts(usage: Json, counts: Counts, field: string)
    ensures LastSeen(ShortStream(usage, counts), field)
         == if CountOf(counts, field).Some? then CountOf(counts, field) else GetU64(usage, field)
    ensures StartTotal(ShortStream(usage, counts)) == GetU64(usage, "total_tokens")
  {
    hide CountOf, GetU64;
    var es := ShortStream(usage, counts);
    var two, one := [es[0], es[1]], [es[0]];
    assert es[..2] == two && two[..1] == one;
    assert LastSeen(one, field) == GetU64(usage, field) && StartTotal(one) == GetU64(usage, "total_tokens");
    assert LastSeen(es, field) == LastSeen(two, field) && StartTotal(two) == StartTotal(one);
  }

  function ZeroUsage(): Json {
    Obj(map["input_tokens" := Int(0), "output_tokens" := Int(0), "total_tokens" := Int(0)])
  }

  lemma MergeIntoObject(m: map<string, Json>, counts: Counts)
    ensures MergeCounts(Obj(m), counts).Some?
  {
  }

  lemma ZeroUsageReads()
    ensures GetU64(ZeroUsage(), "total_tokens") == Some(0) && GetU64(ZeroUsage(), "cache_read_input_tokens") == None
  {
  }

  /** A skeleton total outlives the merge: the closing counts replace the zeros of
      message_start, the total it brought stays. */
  lemma SkeletonTotalStays(parse: JsonParser)
    ensures var es := ShortStream(ZeroUsage(), Counts(Some(1), Some(257), None, None));
      && Finish(Fold(parse, EMPTY, es)).Body?
      && UsageFrom(Finish(Fold(parse, EMPTY, es)).value) == Usage(257, 1, 0, None)
  {
    hide Fold, Finish, UsageFrom, GetU64, MergeCounts, LastSeen, StartTotal, ZeroUsage;
    var counts := Counts(Some(1), Some(257), None, None);
    assert ZeroUsage().Obj? by { ZeroUsageIsObject(); }
    MergeIntoObject(ZeroUsage().fields, counts);
    ShortStreamFolds(parse, ZeroUsage(), counts);
    ShortStreamLasts(ZeroUsage(), counts, "input_tokens");
    ShortStreamLasts(ZeroUsage(), counts, "output_tokens");
    ShortStreamLasts(ZeroUsage(), counts, "cache_read_input_tokens");
    ZeroUsageReads();
    StreamedUsage(parse, ShortStream(ZeroUsage(), counts));
  }

  lemma ZeroUsageIsObject()
    ensures ZeroUsage().Obj?
  {
  }

  // ----- the events as JSON and as text -----

  function KindJson(kind: BlockKind): Json {
    match kind
    case TextKind => Obj(map["type" := Str("text"), "text" := Str("")])
    case ToolKind(id, name) =>
      Obj(map["type" := Str("tool_use"), "id" := Str(id), "name" := Str(name), "input" := Obj(map[])])
    case ThinkingKind => Obj(map["type" := Str("thinking"), "thinking" := Str("")])
    case UnknownKind => Null
  }

  function DeltaJson(d: Delta): Json {
    match d
    case TextDelta(t) => Obj(map["type" := Str("text_delta"), "text" := Str(t)])
    case InputDelta(p) => Obj(map["type" := Str("input_json_delta"), "partial_json" := Str(p)])
    case ThinkingDelta(t) => Obj(map["type" := Str("thinking_delta"), "thinking" := Str(t)])
    case SignatureDelta(s) => Obj(map["type" := Str("signature_delta"), "signature" := Str(s)])
    case OtherDelta => Null
  }

  function WithField(m: map<string, Json>, key: string, v: Option<Json>): map<string, Json> {
    match v case Some(x) => m[key := x] case None => m
  }

  function StrField(s: Option<string>): Option<Json> {
    match s case Some(x) => Some(Str(x)) case None => None
  }

  function CountField(n: Option<nat>): Option<Json> {
    match n case Some(x) => Some(Int(x)) case None => None
  }

  function CountsJson(c: Counts): Json {
    Obj(WithField(WithField(WithField(WithField(map[],
      "output_tokens", CountField(c.output)), "input_tokens", CountField(c.input)),
      "cache_read_input_tokens", CountField(c.cacheRead)), "cache_creation_input_tokens", CountField(c.cacheCreation)))
  }

  function EventJson(e: Event): Json {
    match e
    case MessageStart(id, model, usage) =>
      Obj(map["type" := Str("message_start"),
              "message" := Obj(WithField(WithField(WithField(map[], "id", StrField(id)), "model", StrField(model)), "usage", usage))])
    case BlockStart(index, kind) =>
      Obj(map["type" := Str("content_block_start"), "index" := Int(index), "content_block" := KindJson(kind)])
    case BlockDelta(index, delta) =>
      Obj(map["type" := Str("content_block_delta"), "index" := Int(index), "delta" := DeltaJson(delta)])
    case BlockStop => Obj(map["type" := Str("content_block_stop")])
    case MessageDelta(reason, counts) =>
      Obj(map["type" := Str("message_delta"), "delta" := Obj(WithField(map[], "stop_reason", StrField(reason))),
              "usage" := CountsJson(counts)])
    case MessageStop => Obj(map["type" := Str("message_stop")])
    case Ping => Obj(map["type" := Str("ping")])
    case ErrorEvent(t, message) =>
      Obj(map["type" := Str("error"), "error" := Obj(map["type" := Str(t), "message" := Str(message)])])
    case OtherEvent => Null
  }

  ghost predicate Encodable(e: Event) {
    && CountsFit(e)
    && (e.BlockStart? || e.BlockDelta? ==> e.index < U64_LIMIT)
  }

  lemma KindReadsBack(kind: BlockKind)
    ensures ReadKind(KindJson(kind)) == kind
  {
  }

  lemma DeltaReadsBack(d: Delta)
    ensures ReadDelta(DeltaJson(d)) == d
  {
  }

  lemma CountsReadBack(c: Counts, data: Json)
    requires Get(data, "usage") == Some(CountsJson(c))
    requires forall field :: CountOf(c, field).Some? ==> CountOf(c, field).value < U64_LIMIT
    ensures ReadCounts(data) == c
  {
    assert CountOf(c, "output_tokens") == c.output && CountOf(c, "input_tokens") == c.input;
    assert CountOf(c, "cache_read_input_tokens") == c.cacheRead;
    assert CountOf(c, "cache_creation_input_tokens") == c.cacheCreation;
  }

  lemma BlockEventReadsBack(e: Event)
    requires Encodable(e) && (e.BlockStart? || e.BlockDelta? || e.BlockStop?)
    ensures ReadEvent(EventJson(e)) == e
  {
    hide ReadKind, KindJson, ReadDelta, DeltaJson, ReadCounts, CountsJson, CountsFit;
    match e
    case BlockStart(_, kind) => KindReadsBack(kind);
    case BlockDelta(_, delta) => DeltaReadsBack(delta);
    case _ =>
  }

  lemma MessageEventReadsBack(e: Event)
    requires Encodable(e) && (e.MessageStart? || e.MessageDelta?)
    ensures ReadEvent(EventJson(e)) == e
  {
    hide ReadKind, ReadDelta, ReadCounts, CountsJson, CountOf;
    match e
    case MessageDelta(_, counts) => CountsReadBack(counts, EventJson(e));
    case _ =>
  }

  lemma OtherEventReadsBack(e: Event)
    requires !e.BlockStart? && !e.BlockDelta? && !e.BlockStop? && !e.MessageStart? && !e.MessageDelta?
    ensures ReadEvent(EventJson(e)) == e
  {
    hide ReadKind, ReadDelta, ReadCounts;
  }

  /** Every event's JSON is read back as that event. */
  lemma EventReadsBack(e: Event)
    requires Encodable(e)
    ensures ReadEvent(EventJson(e)) == e
  {
    hide ReadEvent, EventJson, Encodable;
    match e
    case BlockStart(_, _) | BlockDelta(_, _) | BlockStop => BlockEventReadsBack(e);
    case MessageStart(_, _, _) | MessageDelta(_, _) => MessageEventReadsBack(e);
    case _ => OtherEventReadsBack(e);
  }

  // ----- what is missing -----

  function Typed(kind: string): Json { Obj(map["type" := Str(kind)]) }

  function DeltaOnly(kind: string): Json {
    Obj(map["type" := Str("content_block_delta"), "delta" := Typed(kind)])
  }

  lemma AbsentTextsRead()
    ensures ReadDelta(Typed("text_delta")) == TextDelta("") && ReadDelta(Typed("input_json_delta")) == InputDelta("")
    ensures ReadDelta(Typed("thinking_delta")) == ThinkingDelta("")
    ensures ReadDelta(Typed("signature_delta")) == SignatureDelta("")
    ensures ReadKind(Typed("tool_use")) == ToolKind("", "")
  {
  }

  lemma AbsentIndexReads(kind: string)
    ensures ReadEvent(DeltaOnly(kind)) == BlockDelta(0, ReadDelta(Typed(kind)))
  {
    hide ReadDelta;
  }

  /** Absent fields read as index 0, empty texts and the named error defaults; an event without
      a type is no event. */
  lemma AbsentFieldsRead()
    ensures ReadEvent(Obj(map[])) == OtherEvent
    ensures ReadEvent(DeltaOnly("text_delta")) == BlockDelta(0, TextDelta(""))
    ensures ReadEvent(DeltaOnly("input_json_delta")) == BlockDelta(0, InputDelta(""))
    ensures ReadEvent(DeltaOnly("thinking_delta")) == BlockDelta(0, ThinkingDelta(""))
    ensures ReadEvent(DeltaOnly("signature_delta")) == BlockDelta(0, SignatureDelta(""))
  {
    assert ReadEvent(Obj(map[])) == OtherEvent;
    hide ReadEvent, ReadDelta, DeltaOnly, Typed;
    AbsentTextsRead();
    AbsentIndexReads("text_delta");
    AbsentIndexReads("input_json_delta");
    AbsentIndexReads("thinking_delta");
    AbsentIndexReads("signature_delta");
  }

  lemma AbsentErrorRead()
    ensures ReadEvent(Typed("error")) == ErrorEvent("unknown", "(no message)")
  {
  }

  /** Counts and indexes are whole numbers of 64 bits; all else reads as absent. */
  lemma CountsAreU64(key: string, n: int)
    ensures GetU64(Obj(map[key := Int(n)]), key) == if 0 <= n <= 18_446_744_073_709_551_615 then Some(n) else None
  {
  }
}
