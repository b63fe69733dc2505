/** The incremental SSE line parser: a class that buffers an unfinished line, against a fold
    of one step per character. */
module Sse {
  import opened Text

  datatype SseEvent = SseEvent(event: Option<string>, data: string, id: Option<string>)

  datatype SseState = SseState(event: Option<string>, id: Option<string>, data: string, hasData: bool, buffer: string)

  const FRESH := SseState(None, None, "", false, "")

  function StripSuffixCr(raw: string): string {
    if raw != "" && raw[|raw| - 1] == '\r' then raw[..|raw| - 1] else raw
  }

  /** `strip_prefix` followed by `trim_start`. */
  function FieldValue(line: string, prefix: string): Option<string> {
    if prefix <= line then Some(TrimStart(IsWhitespace, line[|prefix|..])) else None
  }

  function EventField(line: string): Option<string> { FieldValue(line, "event:") }

  function DataField(line: string): Option<string> { FieldValue(line, "data:") }

  function IdField(line: string): Option<string> { FieldValue(line, "id:") }

  /** One finished line: a blank one dispatches the collected data, if there is any. */
  function LineStep(st: SseState, raw: string): (SseState, seq<SseEvent>) {
    var line := StripSuffixCr(raw);
    if line == "" then
      if !st.hasData then (st, [])
      else (SseState(None, None, "", false, st.buffer), [SseEvent(st.event, st.data, st.id)])
    else if line[0] == ':' then (st, [])
    else if EventField(line).Some? then (st.(event := EventField(line)), [])
    else if DataField(line).Some? then
      var value := DataField(line).value;
      (st.(data := if st.hasData then st.data + "\n" + value else value, hasData := true), [])
    else if IdField(line).Some? then (st.(id := IdField(line)), [])
    else (st, [])
  }

  function CharStep(st: SseState, c: char): (SseState, seq<SseEvent>) {
    if c == '\n' then LineStep(st.(buffer := ""), st.buffer)
    else (st.(buffer := st.buffer + [c]), [])
  }

  /** The parser's meaning: state and events after a text, one character at a time. */
  function Parse(st: SseState, text: string): (SseState, seq<SseEvent>) {
    if text == "" then (st, [])
    else
      var (s1, e1) := Parse(st, text[..|text| - 1]);
      var (s2, e2) := CharStep(s1, text[|text| - 1]);
      (s2, e1 + e2)
  }

  function Events(text: string): seq<SseEvent> { Parse(FRESH, text).1 }

  /** Cutting the text anywhere changes neither the state nor the events. */
  lemma {:induction false} ParseConcat(st: SseState, a: string, b: string)
    ensures Parse(st, a + b) == (Parse(Parse(st, a).0, b).0, Parse(st, a).1 + Parse(Parse(st, a).0, b).1)
  {
    hide CharStep;
    if b == "" {
      assert a + b == a;
      assert Parse(st, a).1 + [] == Parse(st, a).1;
    } else {
      var b' := b[..|b| - 1];
      assert (a + b)[..|a + b| - 1] == a + b';
      ParseConcat(st, a, b');
      var (s1, e1) := Parse(st, a);
      var (s2, e2) := Parse(s1, b');
      var (s3, e3) := CharStep(s2, b[|b| - 1]);
      assert (e1 + e2) + e3 == e1 + (e2 + e3);
    }
  }

  /** The events of a beginning are a beginning of the events. */
  lemma EventsGrow(text: string, prefix: string)
    requires prefix <= text
    ensures Events(prefix) <= Events(text)
  {
    hide *;
    assert text == prefix + text[|prefix|..];
    ParseConcat(FRESH, prefix, text[|prefix|..]);
    EventsAre(text); EventsAre(prefix);
  }

  lemma EventsAre(text: string)
    ensures Events(text) == Parse(FRESH, text).1
  {
  }

  /** A text without a line break only lengthens the buffered line. */
  lemma {:induction false} ParseWithinLine(st: SseState, text: string)
    requires '\n' !in text
    ensures Parse(st, text) == (st.(buffer := st.buffer + text), [])
  {
    if text == "" {
      assert st.buffer + text == st.buffer;
    } else {
      var t := text[..|text| - 1];
      ParseWithinLine(st, t);
      assert st.buffer + t + [text[|text| - 1]] == st.buffer + text;
      assert text[|text| - 1] in text;
      var (s1, e1) := Parse(st, t);
      var (s2, e2) := CharStep(s1, text[|text| - 1]);
      assert s2 == st.(buffer := st.buffer + text) && e1 + e2 == [];
    }
  }

  /** A whole line is one line step over buffer and text together. */
  lemma ParseLine(st: SseState, line: string)
    requires '\n' !in line
    ensures Parse(st, line + "\n") == LineStep(st.(buffer := ""), st.buffer + line)
  {
    hide LineStep;
    ParseWithinLine(st, line);
    var text := line + "\n";
    assert text[..|text| - 1] == line;
    var r := LineStep(st.(buffer := ""), st.buffer + line);
    assert [] + r.1 == r.1;
  }

  class SseParser {
    var event: Option<string>
    var id: Option<string>
    var data: string
    var hasData: bool
    var buffer: string

    ghost function State(): SseState
      reads this
    {
      SseState(event, id, data, hasData, buffer)
    }

    /** Only an unfinished line is buffered. */
    ghost predicate Valid()
      reads this
    {
      '\n' !in buffer
    }

    constructor ()
      ensures State() == FRESH && Valid()
    {
      event, id, data, hasData, buffer := None, None, "", false, "";
    }

    method FeedLine(raw: string) returns (out: Option<SseEvent>)
      modifies this
      ensures State() == LineStep(old(State()), raw).0
      ensures (if out.Some? then [out.value] else []) == LineStep(old(State()), raw).1
      ensures buffer == old(buffer)
    {
      hide FieldValue, EventField, DataField, IdField;
      out := None;
      var line := StripSuffixCr(raw);
      if line == "" {
        if !hasData { return; }
        out := Some(SseEvent(event, data, id));
        event, id := None, None;
        hasData := false;
        data := "";
        return;
      }
      if line[0] == ':' { return; }
      var eventValue, dataValue, idValue := EventField(line), DataField(line), IdField(line);
      if eventValue.Some? {
        event := eventValue;
      } else if dataValue.Some? {
        if !hasData {
          data, hasData := dataValue.value, true;
        } else {
          data := data + "\n" + dataValue.value;
        }
      } else if idValue.Some? {
        id := idValue;
      }
    }

    /** Prepends the leftover, walks the text line by line, keeps the remainder. */
    method Feed(chunk: string) returns (out: seq<SseEvent>)
      requires Valid()
      modifies this
      ensures Valid()
      ensures (State(), out) == Parse(old(State()), chunk)
    {
      hide LineStep, Parse;
      out := [];
      var text := buffer + chunk;
      ghost var blank := State().(buffer := "");
      buffer := "";
      var start := 0;
      ParseNothing(blank);
      for i := 0 to |text|
        invariant 0 <= start <= i && '\n' !in text[start..i]
        invariant buffer == "" && (State(), out) == Parse(blank, text[..start])
      {
        if text[i] == '\n' {
          var line := text[start..i];
          LineBreak(blank, text, start, i);
          var ev := FeedLine(line);
          assert out + [] == out;
          if ev.Some? { out := out + [ev.value]; }
          start := i + 1;
        }
      }
      buffer := text[start..];
      Leftover(blank, text, start);
      ParseResumes(old(State()), chunk);
    }
  }

  lemma ParseNothing(st: SseState)
    ensures Parse(st, "") == (st, [])
  {
  }

  /** The line that ends at i carries the parse from `start` to i + 1. */
  lemma LineBreak(blank: SseState, text: string, start: nat, i: nat)
    requires start <= i < |text| && text[i] == '\n' && '\n' !in text[start..i]
    requires Parse(blank, text[..start]).0.buffer == ""
    ensures var (s1, e1) := Parse(blank, text[..start]);
            var (s2, e2) := LineStep(s1, text[start..i]);
            Parse(blank, text[..i + 1]) == (s2, e1 + e2)
  {
    hide *;
    var line := text[start..i];
    var mid := Parse(blank, text[..start]).0;
    assert text[..i + 1] == text[..start] + (line + "\n");
    ParseConcat(blank, text[..start], line + "\n");
    ParseLine(mid, line);
    assert "" + line == line && mid.(buffer := "") == mid;
  }

  lemma Leftover(blank: SseState, text: string, start: nat)
    requires start <= |text| && '\n' !in text[start..]
    requires Parse(blank, text[..start]).0.buffer == ""
    ensures var (s1, e1) := Parse(blank, text[..start]);
            Parse(blank, text) == (s1.(buffer := text[start..]), e1)
  {
    hide *;
    var (s1, e1) := Parse(blank, text[..start]);
    assert text == text[..start] + text[start..];
    ParseConcat(blank, text[..start], text[start..]);
    ParseWithinLine(s1, text[start..]);
    assert "" + text[start..] == text[start..] && e1 + [] == e1;
  }

  /** Resuming with a buffered line is starting blank with that line in front. */
  lemma ParseResumes(st: SseState, chunk: string)
    requires '\n' !in st.buffer
    ensures Parse(st, chunk) == Parse(st.(buffer := ""), st.buffer + chunk)
  {
    hide *;
    var blank := st.(buffer := "");
    ParseWithinLine(blank, st.buffer);
    assert "" + st.buffer == st.buffer && blank.(buffer := st.buffer) == st;
    ParseConcat(blank, st.buffer, chunk);
    assert [] + Parse(st, chunk).1 == Parse(st, chunk).1;
  }

  // ----- what the lines mean -----

  /** A value as it stands behind a field name: it has no leading blank. */
  ghost predicate IsValue(v: string) { v == "" || !IsWhitespace(v[0]) }

  /** A line may end in one carriage return. */
  lemma ReturnIsStripped(st: SseState, line: string)
    requires line == "" || line[|line| - 1] != '\r'
    ensures LineStep(st, line + "\r") == LineStep(st, line)
  {
    assert (line + "\r")[..|line|] == line;
  }

  lemma FieldReads(prefix: string, pad: string, v: string)
    requires All(IsWhitespace, pad) && IsValue(v)
    ensures FieldValue(prefix + pad + v, prefix) == Some(v)
  {
    TrimStartPadded(IsWhitespace, pad, v);
    assert (prefix + pad + v)[|prefix|..] == pad + v;
  }

  /** What may stand behind a field name: blanks and a value, and no carriage return at the end. */
  ghost predicate Behind(rest: string, v: string) {
    && (exists pad :: All(IsWhitespace, pad) && rest == pad + v)
    && IsValue(v) && (rest == "" || rest[|rest| - 1] != '\r')
  }

  lemma FieldLine(prefix: string, rest: string, v: string)
    requires Behind(rest, v) && prefix != "" && prefix[|prefix| - 1] == ':'
    ensures FieldValue(prefix + rest, prefix) == Some(v) && StripSuffixCr(prefix + rest) == prefix + rest
  {
    hide FieldValue, StripSuffixCr, IsValue;
    var pad :| All(IsWhitespace, pad) && rest == pad + v;
    FieldReads(prefix, pad, v);
    assert prefix + pad + v == prefix + rest;
    Unstripped(prefix, rest);
  }

  lemma EventLineReads(st: SseState, rest: string, v: string)
    requires Behind(rest, v)
    ensures LineStep(st, "event:" + rest) == (st.(event := Some(v)), [])
  {
    FieldLine("event:", rest, v);
    assert ("event:" + rest)[0] == 'e';
    hide FieldValue, StripSuffixCr, Behind;
  }

  lemma DataLineReads(st: SseState, rest: string, v: string)
    requires Behind(rest, v)
    ensures LineStep(st, "data:" + rest)
         == (st.(data := if st.hasData then st.data + "\n" + v else v, hasData := true), [])
  {
    FieldLine("data:", rest, v);
    FirstLetters(rest);
    assert ("data:" + rest)[0] == 'd';
    hide FieldValue, StripSuffixCr, Behind;
  }

  lemma IdLineReads(st: SseState, rest: string, v: string)
    requires Behind(rest, v)
    ensures LineStep(st, "id:" + rest) == (st.(id := Some(v)), [])
  {
    FieldLine("id:", rest, v);
    FirstLetters(rest);
    assert ("id:" + rest)[0] == 'i';
    hide FieldValue, StripSuffixCr, Behind;
  }

  /** `event:`, `data:` and `id:` set their field to what follows the blanks, a second `data:`
      adds a line to the first, and a line that begins with a colon does nothing. */
  lemma LinesMean(st: SseState, rest: string, v: string)
    requires Behind(rest, v)
    ensures LineStep(st, "event:" + rest) == (st.(event := Some(v)), [])
    ensures LineStep(st, "id:" + rest) == (st.(id := Some(v)), [])
    ensures LineStep(st, "data:" + rest)
         == (st.(data := if st.hasData then st.data + "\n" + v else v, hasData := true), [])
    ensures LineStep(st, ":" + rest) == (st, [])
  {
    assert LineStep(st, ":" + rest) == (st, []) by { Unstripped(":", rest); }
    hide LineStep, Behind;
    EventLineReads(st, rest, v);
    DataLineReads(st, rest, v);
    IdLineReads(st, rest, v);
  }

  lemma Unstripped(prefix: string, rest: string)
    requires prefix != "" && prefix[|prefix| - 1] == ':' && (rest == "" || rest[|rest| - 1] != '\r')
    ensures StripSuffixCr(prefix + rest) == prefix + rest
  {
  }

  lemma FirstLetters(rest: string)
    ensures FieldValue("data:" + rest, "event:").None?
    ensures FieldValue("id:" + rest, "event:").None? && FieldValue("id:" + rest, "data:").None?
  {
    assert ("data:" + rest)[0] == 'd' && ("id:" + rest)[0] == 'i' && "event:"[0] == 'e' && "data:"[0] == 'd';
  }

  /** A blank line hands on what was collected, if any data came, and starts afresh. */
  lemma BlankLineDispatches(st: SseState)
    ensures LineStep(st, "") == if st.hasData
      then (SseState(None, None, "", false, st.buffer), [SseEvent(st.event, st.data, st.id)]) else (st, [])
  {
  }
}
