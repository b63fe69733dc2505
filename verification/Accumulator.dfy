/** The streaming accumulator as the class it is, each method proved against Stream, and the
    chunk-independence theorem. */
module Accumulator {
  import opened Text
  import opened Utf8
  import opened Sse
  import opened Stream

  /** What one `feed_bytes` call computes, error latch and all. */
  datatype Acc = Acc(core: Core, sse: SseState, carry: seq<byte>)

  /** At most one invalid sequence is dropped per call. */
  function DropInvalid(rest: seq<byte>): seq<byte> {
    if rest == [] then rest
    else match FirstUnit(rest) case Invalid(len) => rest[len..] case _ => rest
  }

  function FeedBytesSpec(parse: JsonParser, a: Acc, bytes: seq<byte>): Acc {
    if a.core.error.Some? then a
    else
      var (text, rest) := Decode(a.carry + bytes);
      var (sse, events) := Parse(a.sse, text);
      Acc(Run(parse, a.core, events), sse, DropInvalid(rest))
  }

  class StreamAccumulator {
    const parse: JsonParser
    const parser: SseParser
    var carry: seq<byte>
    var messageId: Option<string>
    var model: Option<string>
    var blocks: seq<Json>
    var open: Option<OpenBlock>
    var messageStopSeen: bool
    var stopReason: Option<string>
    var usage: Json
    var error: Option<StreamError>
    /** Every argument the text-delta hook has been called with, in order. */
    var deltas: seq<string>

    ghost function View(): Core
      reads this
    {
      Core(messageId, model, blocks, open, messageStopSeen, stopReason, usage, error, deltas)
    }

    ghost function State(): Acc
      reads this, parser
    {
      Acc(View(), parser.State(), carry)
    }

    ghost predicate Valid()
      reads this, parser
    {
      parser.Valid()
    }

    constructor (parse: JsonParser)
      ensures Valid() && fresh(parser) && this.parse == parse
      ensures State() == Acc(EMPTY, FRESH, [])
    {
      this.parse := parse;
      parser := new SseParser();
      carry, messageId, model, blocks, open := [], None, None, [], None;
      messageStopSeen, stopReason, usage, error, deltas := false, None, Null, None, [];
    }

    method FeedBytes(bytes: seq<byte>)
      requires Valid()
      modifies this, parser
      ensures Valid() && State() == FeedBytesSpec(parse, old(State()), bytes)
    {
      hide Decode, FirstUnit, Parse, Run, Step;
      if error.Some? { return; }
      carry := carry + bytes;
      var (text, rest) := Decode(carry);
      if text != "" {
        FeedText(text);
      } else {
        ParseNothing(parser.State());
        RunNothing(parse, View());
      }
      carry := rest;
      if carry != [] {
        match FirstUnit(carry)
        case Invalid(len) => carry := carry[len..];
        case _ =>
      }
    }

    method FeedText(text: string)
      requires Valid() && error == None
      modifies this, parser
      ensures Valid() && carry == old(carry)
      ensures parser.State() == Parse(old(parser.State()), text).0
      ensures View() == Run(parse, old(View()), Parse(old(parser.State()), text).1)
    {
      hide Parse, Run, Step;
      var events := parser.Feed(text);
      ghost var before := View();
      RunNothing(parse, before);
      for i := 0 to |events|
        invariant error == None && carry == old(carry)
        invariant View() == Run(parse, before, events[..i])
        invariant parser.State() == Parse(old(parser.State()), text).0 && Valid()
      {
        RunNext(parse, before, events, i);
        var failed := ApplyEvent(events[i]);
        if failed.Some? {
          error := failed;
          StopAtError(parse, before, events, i + 1);
          return;
        }
      }
      assert events[..|events|] == events;
    }

    method AppendText(index: nat, text: string)
      modifies this`open, this`deltas
      ensures View() == AppendDelta(old(View()), index, TextDelta(text))
    {
      if open.Some? && open.value.TextBlock? && open.value.index == index {
        open := Some(open.value.(text := open.value.text + text));
        deltas := deltas + [text];
      }
    }

    method AppendToolJson(index: nat, partial: string)
      modifies this`open
      ensures View() == AppendDelta(old(View()), index, InputDelta(partial))
    {
      if open.Some? && open.value.ToolBlock? && open.value.index == index {
        open := Some(open.value.(inputJson := open.value.inputJson + partial));
      }
    }

    method AppendThinking(index: nat, piece: string)
      modifies this`open
      ensures View() == AppendDelta(old(View()), index, ThinkingDelta(piece))
    {
      if open.Some? && open.value.ThinkingBlock? && open.value.index == index {
        open := Some(open.value.(thinking := open.value.thinking + piece));
      }
    }

    method AppendSignature(index: nat, piece: string)
      modifies this`open
      ensures View() == AppendDelta(old(View()), index, SignatureDelta(piece))
    {
      if open.Some? && open.value.ThinkingBlock? && open.value.index == index {
        open := Some(open.value.(signature := open.value.signature + piece));
      }
    }

    method CloseOpenBlock() returns (failed: Option<StreamError>)
      requires error == None
      modifies this`open, this`blocks
      ensures View().(error := failed) == Close(parse, old(View()))
    {
      failed := None;
      if open.None? { return; }
      var closing := open.value;
      open := None;
      match closing
      case TextBlock(_, text) => blocks := blocks + [TextJson(text)];
      case ToolBlock(_, id, name, inputJson) =>
        var input := ToolInput(parse, inputJson);
        if input.None? { return Some(Malformed(BadToolInput)); }
        blocks := blocks + [ToolJson(id, name, input.value)];
      case ThinkingBlock(_, thinking, signature) => blocks := blocks + [ThinkingJson(thinking, signature)];
    }

    method MergeUsage(counts: Counts) returns (failed: Option<StreamError>)
      modifies this`usage
      ensures failed == if MergeCounts(old(usage), counts).Some? then None else Some(Panicked)
      ensures usage == if failed.None? then MergeCounts(old(usage), counts).value else old(usage)
    {
      hide SetCount;
      var fields := [("output_tokens", counts.output), ("input_tokens", counts.input),
                     ("cache_read_input_tokens", counts.cacheRead), ("cache_creation_input_tokens", counts.cacheCreation)];
      var merged := usage;
      var u1 := SetCount(merged, fields[0].0, fields[0].1);
      if u1.None? { return Some(Panicked); }
      var u2 := SetCount(u1.value, fields[1].0, fields[1].1);
      if u2.None? { return Some(Panicked); }
      var u3 := SetCount(u2.value, fields[2].0, fields[2].1);
      if u3.None? { return Some(Panicked); }
      var u4 := SetCount(u3.value, fields[3].0, fields[3].1);
      if u4.None? { return Some(Panicked); }
      usage := u4.value;
      failed := None;
    }

    method ApplyEvent(sse: SseEvent) returns (failed: Option<StreamError>)
      requires error == None
      modifies this`messageId, this`model, this`blocks, this`open, this`messageStopSeen,
               this`stopReason, this`usage, this`deltas
      ensures View().(error := failed) == Step(parse, old(View()), sse)
    {
      hide Payload, ReadEvent, Lengthened, MergeCounts, Render;
      failed := None;
      var event := Payload(parse, sse.data);
      if event.None? { return Some(Malformed(BadPayload)); }
      match event.value {
        case MessageStart(id, m, u) =>
          messageId, model := id, m;
          if u.Some? { usage := u.value; }
        case BlockStart(index, kind) => open := Opened(index, kind);
        case BlockDelta(index, delta) =>
          match delta {
            case TextDelta(text) => AppendText(index, text);
            case InputDelta(partial) => AppendToolJson(index, partial);
            case ThinkingDelta(piece) => AppendThinking(index, piece);
            case SignatureDelta(piece) => AppendSignature(index, piece);
            case OtherDelta => UnknownDeltaIsIgnored(View(), index);
          }
        case BlockStop => failed := CloseOpenBlock();
        case MessageDelta(reason, counts) =>
          if reason.Some? { stopReason := reason; }
          failed := MergeUsage(counts);
        case MessageStop => messageStopSeen := true;
        case ErrorEvent(t, message) => failed := Some(Retryable(StreamErrorEvent(t, message)));
        case Ping =>
        case OtherEvent =>
      }
    }

    method Done() returns (out: Outcome)
      ensures out == Finish(View())
    {
      if error.Some? { return Failed(error.value); }
      if open.Some? { return Failed(Retryable(BlockLeftOpen(open.value.index))); }
      if !messageStopSeen { return Failed(Retryable(NoMessageStop)); }
      return Body(BodyJson(Core(messageId, model, blocks, open, messageStopSeen, stopReason, usage, error, deltas)));
    }
  }

  lemma UnknownDeltaIsIgnored(c: Core, index: nat)
    ensures AppendDelta(c, index, OtherDelta) == c
  {
  }

  lemma RunNothing(parse: JsonParser, c: Core)
    ensures Run(parse, c, []) == c
  {
  }

  lemma RunNext(parse: JsonParser, c: Core, events: seq<SseEvent>, i: nat)
    requires i < |events|
    ensures Run(parse, c, events[..i + 1]) == Step(parse, Run(parse, c, events[..i]), events[i])
  {
    assert events[..i + 1][..i] == events[..i];
  }

  lemma StopAtError(parse: JsonParser, c: Core, events: seq<SseEvent>, i: nat)
    requires i <= |events| && Run(parse, c, events[..i]).error.Some?
    ensures Run(parse, c, events) == Run(parse, c, events[..i])
  {
    assert events == events[..i] + events[i..];
    RunConcat(parse, c, events[..i], events[i..]);
    ErrorIsSticky(parse, Run(parse, c, events[..i]), events[i..]);
  }

  // ----- chunks -----

  function Concat(chunks: seq<seq<byte>>): seq<byte> {
    if chunks == [] then [] else Concat(chunks[..|chunks| - 1]) + chunks[|chunks| - 1]
  }

  function FeedAll(parse: JsonParser, chunks: seq<seq<byte>>): Acc {
    if chunks == [] then Acc(EMPTY, FRESH, [])
    else FeedBytesSpec(parse, FeedAll(parse, chunks[..|chunks| - 1]), chunks[|chunks| - 1])
  }

  /** The transport's progress callback: every chunk is fed as it arrives. */
  method Deliver(acc: StreamAccumulator, chunks: seq<seq<byte>>)
    requires acc.Valid() && acc.State() == Acc(EMPTY, FRESH, [])
    modifies acc, acc.parser
    ensures acc.Valid() && acc.State() == FeedAll(acc.parse, chunks)
  {
    hide FeedBytesSpec;
    for i := 0 to |chunks|
      invariant acc.Valid() && acc.State() == FeedAll(acc.parse, chunks[..i])
    {
      assert chunks[..i + 1][..i] == chunks[..i];
      acc.FeedBytes(chunks[i]);
    }
    assert chunks[..|chunks|] == chunks;
  }

  /** Feeding the chunks one by one is what the class does. */
  method Feed(parse: JsonParser, chunks: seq<seq<byte>>) returns (out: Outcome, deltas: seq<string>)
    ensures out == Finish(FeedAll(parse, chunks).core) && deltas == FeedAll(parse, chunks).core.deltas
  {
    hide FeedAll, Finish;
    var acc := new StreamAccumulator(parse);
    Deliver(acc, chunks);
    out := acc.Done();
    deltas := acc.deltas;
  }

  /** Between feeds: as long as nothing is latched, the bytes seen so far are the text parsed
      so far, which is the longest decodable prefix, and a carry of at most 3 bytes. */
  ghost predicate Caught(parse: JsonParser, a: Acc, body: seq<byte>) {
    && a.core == Decoded(parse, body)
    && (a.core.error == None ==> a.carry == Decode(body).1 && a.sse == Parse(FRESH, Decode(body).0).0)
  }

  lemma {:induction false} FeedAllIsDecoded(parse: JsonParser, chunks: seq<seq<byte>>)
    requires PrefixOfValid(Concat(chunks))
    ensures Caught(parse, FeedAll(parse, chunks), Concat(chunks))
  {
    hide Decode, Parse, Run, Step, FeedBytesSpec, PrefixOfValid;
    if chunks == [] {
      EmptyIsCaught(parse);
    } else {
      var before, last := chunks[..|chunks| - 1], chunks[|chunks| - 1];
      PrefixOfPrefix(Concat(before), last);
      FeedAllIsDecoded(parse, before);
      FeedStep(parse, FeedAll(parse, before), Concat(before), last);
    }
  }

  lemma EmptyIsCaught(parse: JsonParser)
    ensures Caught(parse, Acc(EMPTY, FRESH, []), [])
  {
    hide Step, FirstUnit;
    assert Decode([]) == ("", []);
    assert Parse(FRESH, "") == (FRESH, []);
    RunNothing(parse, EMPTY);
  }

  lemma PrefixOfPrefix(a: seq<byte>, b: seq<byte>)
    requires PrefixOfValid(a + b)
    ensures PrefixOfValid(a)
  {
    var s :| a + b <= Encode(s);
    assert a <= a + b <= Encode(s);
  }

  lemma FeedStep(parse: JsonParser, a: Acc, body: seq<byte>, chunk: seq<byte>)
    requires Caught(parse, a, body) && PrefixOfValid(body + chunk)
    ensures Caught(parse, FeedBytesSpec(parse, a, chunk), body + chunk)
  {
    hide Decode, Parse, Run, Step, PrefixOfValid, FirstUnit;
    var text, more := Decode(body).0, Decode(Decode(body).1 + chunk).0;
    DecodeAppend(body, chunk);
    ParseConcat(FRESH, text, more);
    var (s1, e1) := Parse(FRESH, text);
    var (s2, e2) := Parse(s1, more);
    RunConcat(parse, EMPTY, e1, e2);
    if a.core.error.Some? {
      ErrorIsSticky(parse, a.core, e2);
    } else {
      PrefixLeavesIncomplete(body + chunk);
    }
  }

  /** Any two ways of cutting one body give the same result, the same delta-hook calls and
      the same latched error. */
  lemma ChunkIndependence(parse: JsonParser, chunks: seq<seq<byte>>, others: seq<seq<byte>>)
    requires Concat(chunks) == Concat(others) && PrefixOfValid(Concat(chunks))
    ensures FeedAll(parse, chunks).core == FeedAll(parse, others).core == Decoded(parse, Concat(chunks))
    ensures Finish(FeedAll(parse, chunks).core) == Finish(FeedAll(parse, others).core)
  {
    hide *;
    FeedAllIsDecoded(parse, chunks);
    FeedAllIsDecoded(parse, others);
    CaughtMeans(parse, FeedAll(parse, chunks), Concat(chunks));
    CaughtMeans(parse, FeedAll(parse, others), Concat(others));
  }

  lemma CaughtMeans(parse: JsonParser, a: Acc, body: seq<byte>)
    requires Caught(parse, a, body)
    ensures a.core == Decoded(parse, body)
    ensures a.core.error == None ==> a.carry == Decode(body).1
  {
  }

  /** Between feeds the carry is an unfinished character of at most 3 bytes. */
  lemma CarryIsUnfinished(parse: JsonParser, chunks: seq<seq<byte>>)
    requires PrefixOfValid(Concat(chunks))
    ensures FeedAll(parse, chunks).core.error == None ==>
      var carry := FeedAll(parse, chunks).carry;
      && |carry| <= 3 && (carry != [] ==> FirstUnit(carry).Incomplete?)
      && exists text: string :: Concat(chunks) == Encode(text) + carry
           && forall s: string :: Encode(s) <= Concat(chunks) ==> s <= text
  {
    hide *;
    if FeedAll(parse, chunks).core.error != None { return; }
    var body := Concat(chunks);
    FeedAllIsDecoded(parse, chunks);
    CaughtMeans(parse, FeedAll(parse, chunks), body);
    PrefixLeavesIncomplete(body);
    EncodeDecode(body);
    forall s: string | Encode(s) <= body ensures s <= Decode(body).0 {
      DecodeIsLongest(body, s);
    }
  }
}
