/** From bytes to response: a stream as the server frames it, cut into any chunks, and cut
    short anywhere. */
module StreamBytes {
  import opened Text
  import opened Utf8
  import opened Sse
  import opened Stream
  import opened Accumulator
  import opened StreamTheorems

  /** One server-sent event: an event line, a data line, a blank line. */
  datatype Frame = Frame(name: string, data: string)

  /** JSON text is one line that starts and ends with a visible character. */
  predicate OneLine(f: Frame) {
    && '\n' !in f.name && '\n' !in f.data && f.data != ""
    && !IsWhitespace(f.data[0]) && f.data[|f.data| - 1] != '\r'
  }

  function Unfinished(f: Frame): string {
    "event: " + f.name + "\n" + ("data: " + f.data + "\n")
  }

  function Framed(fs: seq<Frame>): string {
    if fs == [] then "" else Framed(fs[..|fs| - 1]) + (Unfinished(fs[|fs| - 1]) + "\n")
  }

  /** The events as their data lines only; names do not matter to the accumulator. */
  ghost predicate DataIs(sses: seq<SseEvent>, fs: seq<Frame>) {
    |sses| == |fs| && forall i :: 0 <= i < |fs| ==> sses[i].data == fs[i].data
  }

  lemma EventLine(name: string)
    ensures LineStep(FRESH, "event: " + name).0.(event := None) == FRESH && LineStep(FRESH, "event: " + name).1 == []
  {
    var line := StripSuffixCr("event: " + name);
    assert "event:" <= line;
    assert line[0] == 'e';
  }

  lemma DataLine(st: SseState, data: string)
    requires st.(event := None) == FRESH
    requires data != "" && !IsWhitespace(data[0]) && data[|data| - 1] != '\r'
    ensures LineStep(st, "data: " + data) == (st.(data := data, hasData := true), [])
  {
    var line := "data: " + data;
    assert StripSuffixCr(line) == line && "data:" <= line && line[0] == 'd';
    assert EventField(line) == None;
    assert line[|"data:"|..] == " " + data;
    assert (" " + data)[1..] == data;
    assert TrimStart(IsWhitespace, data) == data;
  }

  /** Up to its blank line a frame dispatches nothing and leaves its data waiting. */
  lemma UnfinishedFrame(f: Frame)
    requires OneLine(f)
    ensures var (st, events) := Parse(FRESH, Unfinished(f));
            events == [] && st.hasData && st.data == f.data && st.buffer == "" && st.id == None
  {
    hide LineStep, Parse;
    var first, second := "event: " + f.name, "data: " + f.data;
    ParseLine(FRESH, first);
    assert "" + first == first && FRESH.(buffer := "") == FRESH;
    EventLine(f.name);
    var st := Parse(FRESH, first + "\n").0;
    ParseLine(st, second);
    assert "" + second == second && st.(buffer := "") == st;
    DataLine(st, f.data);
    ParseConcat(FRESH, first + "\n", second + "\n");
    assert Unfinished(f) == (first + "\n") + (second + "\n");
  }

  lemma FinishedFrame(f: Frame)
    requires OneLine(f)
    ensures var (st, events) := Parse(FRESH, Unfinished(f) + "\n");
            st == FRESH && |events| == 1 && events[0].data == f.data
  {
    hide Parse, Unfinished;
    UnfinishedFrame(f);
    var st := Parse(FRESH, Unfinished(f)).0;
    ParseConcat(FRESH, Unfinished(f), "\n");
    ParseLine(st, "");
    assert "" + "\n" == "\n" && st.buffer + "" == "";
  }

  lemma {:induction false} FramedEvents(fs: seq<Frame>)
    requires forall f :: f in fs ==> OneLine(f)
    ensures Parse(FRESH, Framed(fs)).0 == FRESH && DataIs(Events(Framed(fs)), fs)
  {
    hide Parse, Unfinished, OneLine;
    if fs == [] {
      ParseNothing(FRESH);
    } else {
      var m := |fs| - 1;
      FramedEvents(fs[..m]);
      FinishedFrame(fs[m]);
      ParseConcat(FRESH, Framed(fs[..m]), Unfinished(fs[m]) + "\n");
    }
  }

  /** Without its last character the stream has not dispatched its last event. */
  lemma AllButTheLast(fs: seq<Frame>)
    requires fs != [] && forall f :: f in fs ==> OneLine(f)
    ensures Framed(fs) != "" && Events(Framed(fs)[..|Framed(fs)| - 1]) == Events(Framed(fs[..|fs| - 1]))
  {
    hide Parse, Unfinished, OneLine;
    var m := |fs| - 1;
    var before := Framed(fs[..m]);
    assert Framed(fs)[..|Framed(fs)| - 1] == before + Unfinished(fs[m]);
    FramedEvents(fs[..m]);
    UnfinishedFrame(fs[m]);
    ParseConcat(FRESH, before, Unfinished(fs[m]));
    assert Events(before) + [] == Events(before);
  }

  ghost predicate FramesCarry(parse: JsonParser, fs: seq<Frame>, es: seq<Event>) {
    |fs| == |es| && forall i :: 0 <= i < |fs| ==> OneLine(fs[i]) && Encodable(es[i]) && parse(fs[i].data) == Some(EventJson(es[i]))
  }

  lemma CarriedByFrames(parse: JsonParser, fs: seq<Frame>, es: seq<Event>)
    requires FramesCarry(parse, fs, es)
    ensures Carry(parse, Events(Framed(fs)), es)
  {
    hide Parse, Framed, EventJson, ReadEvent, OneLine, Encodable;
    forall f | f in fs ensures OneLine(f) {
      var i :| 0 <= i < |fs| && fs[i] == f;
    }
    FramedEvents(fs);
    forall i | 0 <= i < |fs| ensures Payload(parse, Events(Framed(fs))[i].data) == Some(es[i]) {
      EventReadsBack(es[i]);
    }
  }

  lemma DecodedStream(parse: JsonParser, fs: seq<Frame>, es: seq<Event>)
    requires FramesCarry(parse, fs, es)
    ensures Decoded(parse, Encode(Framed(fs))) == Fold(parse, EMPTY, es)
  {
    hide Parse, Framed, FramesCarry, Decode, Encode;
    var text := Framed(fs);
    DecodeWhole(text);
    CarriedByFrames(parse, fs, es);
    RunIsFold(parse, EMPTY, Events(text), es);
  }

  /** The round trip on bytes: encode any response as a stream, deliver it in any chunks, and
      the decoder returns that response; the hook hears the text pieces in order. */
  lemma ResponseSurvivesTheWire(parse: JsonParser, chunks: seq<seq<byte>>, fs: seq<Frame>, es: seq<Event>,
      id: Option<string>, model: Option<string>, usage: Json, bs: seq<Sent>, xs: seq<Content>, reason: string, counts: Counts)
    requires FramesCarry(parse, fs, es) && Concat(chunks) == Encode(Framed(fs))
    requires SendsAll(parse, bs, xs) && MergeCounts(usage, counts).Some?
    requires WithoutPings(es) ==
             [MessageStart(id, model, Some(usage))] + AllEvents(bs) + [MessageDelta(Some(reason), counts), MessageStop]
    ensures var c := FeedAll(parse, chunks).core;
         && Finish(c).Body?
         && IsResponse(Finish(c).value, id, model, xs, Some(reason), MergeCounts(usage, counts).value)
         && c.deltas == HeardAll(bs)
  {
    hide *;
    EncodedIsValid(Framed(fs));
    ChunkIndependence(parse, chunks, chunks);
    DecodedStream(parse, fs, es);
    RoundTrip(parse, es, id, model, usage, bs, xs, reason, counts);
  }

  lemma EncodedIsValid(text: string)
    ensures PrefixOfValid(Encode(text))
  {
    assert Encode(text) <= Encode(text);
  }

  // ----- truncation -----

  /** Fewer bytes than the whole stream decode to fewer characters. */
  lemma ShorterText(text: string, body: seq<byte>)
    requires body < Encode(text)
    ensures PrefixOfValid(body) && Decode(body).0 < text
  {
    hide *;
    var t, rest := Decode(body).0, Decode(body).1;
    EncodeDecode(body);
    assert Encode(t) <= body by { assert body == Encode(t) + rest; }
    assert Encode(t) <= Encode(text);
    DecodeIsLongest(Encode(text), t);
    DecodeWhole(text);
    ValidBy(body, text);
    assert t == text ==> Encode(t) == Encode(text);
  }

  lemma ValidBy(body: seq<byte>, text: string)
    requires body <= Encode(text)
    ensures PrefixOfValid(body)
  {
  }

  /** Every proper byte prefix of a well-formed stream whose only message_stop ends it is
      rejected as retryable, however it was delivered. */
  lemma TruncationIsRetryable(parse: JsonParser, chunks: seq<seq<byte>>, fs: seq<Frame>, es: seq<Event>)
    requires FramesCarry(parse, fs, es) && fs != [] && Fold(parse, EMPTY, es).error == None
    requires forall i :: 0 <= i < |es| - 1 ==> !es[i].MessageStop?
    requires Concat(chunks) < Encode(Framed(fs))
    ensures var r := Finish(FeedAll(parse, chunks).core);
            r.Failed? && r.error.Retryable?
  {
    hide FramesCarry, Encode, Decode, Parse, Framed, Fold, Run, FeedAll, Concat, PrefixOfValid;
    var body := Concat(chunks);
    ShorterText(Framed(fs), body);
    ChunkIndependence(parse, chunks, chunks);
    var n := DispatchedPrefix(parse, fs, es, Decode(body).0);
    RunIsFold(parse, EMPTY, Events(Decode(body).0), es[..n]);
    NoErrorBefore(parse, EMPTY, es, n);
    StopSeenIs(parse, es[..n]);
  }

  /** A proper beginning of the text dispatches n events, the terminal one not among them. */
  lemma DispatchedPrefix(parse: JsonParser, fs: seq<Frame>, es: seq<Event>, text: string) returns (n: nat)
    requires FramesCarry(parse, fs, es) && fs != [] && text < Framed(fs)
    ensures n < |es| && Carry(parse, Events(text), es[..n])
  {
    hide Parse, Framed, EventJson, Encodable, OneLine, Payload;
    var m := |fs| - 1;
    forall f | f in fs ensures OneLine(f) {
      var i :| 0 <= i < |fs| && fs[i] == f;
    }
    AllButTheLast(fs);
    var cut := Framed(fs)[..|Framed(fs)| - 1];
    assert text <= cut;
    EventsGrow(cut, text);
    CarriedByFrames(parse, fs[..m], es[..m]);
    n := |Events(text)|;
    assert forall i :: 0 <= i < n ==> Events(text)[i] == Events(Framed(fs[..m]))[i] && es[..n][i] == es[..m][i];
  }

  // ----- bytes that are not UTF-8 -----

  /** With one stray byte in front, a body delivered whole is never parsed, and delivered in
      two pieces it is parsed to the end: a feed drops one invalid sequence, and what follows
      it waits in the carry for the next feed. */
  lemma InvalidBytesBreakChunkIndependence(parse: JsonParser, rest: seq<byte>)
    ensures Concat([[0xFF] + rest]) == Concat([[0xFF], rest])
    ensures FeedAll(parse, [[0xFF] + rest]).core == EMPTY
    ensures FeedAll(parse, [[0xFF], rest]).core == Decoded(parse, rest)
  {
    hide *;
    var stray: seq<byte> := [0xFF];
    FeedNone(parse);
    FeedOne(parse, [], stray + rest);
    FeedOne(parse, [], stray);
    FeedOne(parse, [stray], rest);
    assert [] + [stray + rest] == [stray + rest] && [] + [stray] == [stray] && [stray] + [rest] == [stray, rest];
    FeedStray(parse, rest);
    FeedStray(parse, []);
    assert stray + [] == stray && [] + stray == stray && [] + (stray + rest) == stray + rest;
    FeedFresh(parse, rest);
  }

  lemma FeedNone(parse: JsonParser)
    ensures Concat([]) == [] && FeedAll(parse, []) == Acc(EMPTY, FRESH, [])
  {
  }

  lemma FeedOne(parse: JsonParser, chunks: seq<seq<byte>>, chunk: seq<byte>)
    ensures Concat(chunks + [chunk]) == Concat(chunks) + chunk
    ensures FeedAll(parse, chunks + [chunk]) == FeedBytesSpec(parse, FeedAll(parse, chunks), chunk)
  {
    hide FeedBytesSpec;
    assert (chunks + [chunk])[..|chunks|] == chunks;
  }

  lemma FeedStray(parse: JsonParser, rest: seq<byte>)
    ensures FeedBytesSpec(parse, Acc(EMPTY, FRESH, []), [0xFF] + rest) == Acc(EMPTY, FRESH, rest)
  {
    hide Decode, FirstUnit, Parse, Run;
    StrayByte(rest);
    ParseNothing(FRESH);
    RunNothing(parse, EMPTY);
    assert [] + ([0xFF] + rest) == [0xFF] + rest;
    assert ([0xFF] + rest)[1..] == rest;
  }

  lemma FeedFresh(parse: JsonParser, rest: seq<byte>)
    ensures FeedBytesSpec(parse, Acc(EMPTY, FRESH, []), rest).core == Decoded(parse, rest)
  {
    assert [] + rest == rest;
  }

  lemma StrayByte(rest: seq<byte>)
    ensures Decode([0xFF] + rest) == ("", [0xFF] + rest) && FirstUnit([0xFF] + rest) == Invalid(1)
  {
  }
}
