/** What the streaming accumulator computes: JSON events folded into blocks, stop reason and
    usage, and the body synthesized at the end. The class in Accumulator is proved against it. */
module Stream {
  import opened Text
  import opened Utf8
  import opened Sse

  const U64_LIMIT: nat := 0x1_0000_0000_0000_0000

  // ----- JSON values and their accessors -----

  datatype Json = Null | Bool(b: bool) | Int(n: int) | Float(r: real) | Str(s: string)
    | Arr(items: seq<Json>) | Obj(fields: map<string, Json>)

  /** `Value::get`: absent on anything but an object. */
  function Get(v: Json, key: string): Option<Json> {
    if v.Obj? && key in v.fields then Some(v.fields[key]) else None
  }

  /** `get(..).cloned().unwrap_or(Null)`. */
  function GetOrNull(v: Json, key: string): Json {
    match Get(v, key) case Some(x) => x case None => Null
  }

  function GetStr(v: Json, key: string): Option<string> {
    match Get(v, key) case Some(Str(s)) => Some(s) case _ => None
  }

  function GetStrOr(v: Json, key: string, default: string): string {
    match GetStr(v, key) case Some(s) => s case None => default
  }

  /** `as_u64`: integers of the unsigned 64-bit range, nothing else. */
  function GetU64(v: Json, key: string): Option<nat> {
    match Get(v, key) case Some(Int(n)) => if 0 <= n < U64_LIMIT then Some(n) else None case _ => None
  }

  /** The text-to-value function of the JSON library; None is a syntax error. */
  type JsonParser = string -> Option<Json>

  // ----- stream events -----

  datatype BlockKind = TextKind | ToolKind(id: string, name: string) | ThinkingKind | UnknownKind

  datatype Delta = TextDelta(text: string) | InputDelta(partial: string) | ThinkingDelta(thinking: string)
    | SignatureDelta(signature: string) | OtherDelta

  /** Counts a usage object carries; None where the field is absent or not a u64. */
  datatype Counts = Counts(output: Option<nat>, input: Option<nat>, cacheRead: Option<nat>, cacheCreation: Option<nat>)

  datatype Event =
    | MessageStart(id: Option<string>, model: Option<string>, usage: Option<Json>)
    | BlockStart(index: nat, kind: BlockKind)
    | BlockDelta(index: nat, delta: Delta)
    | BlockStop
    | MessageDelta(stopReason: Option<string>, counts: Counts)
    | MessageStop
    | Ping
    | ErrorEvent(errorType: string, message: string)
    | OtherEvent

  function IndexOfEvent(data: Json): nat {
    match GetU64(data, "index") case Some(n) => n case None => 0
  }

  function ReadKind(block: Json): BlockKind {
    var t := GetStrOr(block, "type", "");
    if t == "text" then TextKind
    else if t == "tool_use" then ToolKind(GetStrOr(block, "id", ""), GetStrOr(block, "name", ""))
    else if t == "thinking" then ThinkingKind
    else UnknownKind
  }

  function ReadDelta(delta: Json): Delta {
    var t := GetStrOr(delta, "type", "");
    if t == "text_delta" then TextDelta(GetStrOr(delta, "text", ""))
    else if t == "input_json_delta" then InputDelta(GetStrOr(delta, "partial_json", ""))
    else if t == "thinking_delta" then ThinkingDelta(GetStrOr(delta, "thinking", ""))
    else if t == "signature_delta" then SignatureDelta(GetStrOr(delta, "signature", ""))
    else OtherDelta
  }

  /** `usage` counts only when it is an object. */
  function ReadCounts(data: Json): Counts {
    var u := GetOrNull(data, "usage");
    Counts(GetU64(u, "output_tokens"), GetU64(u, "input_tokens"),
           GetU64(u, "cache_read_input_tokens"), GetU64(u, "cache_creation_input_tokens"))
  }

  /** The dispatch of `apply_event` on the payload's `type`. */
  function ReadEvent(data: Json): Event {
    var t := GetStrOr(data, "type", "");
    if t == "message_start" then
      var message := GetOrNull(data, "message");
      MessageStart(GetStr(message, "id"), GetStr(message, "model"), Get(message, "usage"))
    else if t == "content_block_start" then BlockStart(IndexOfEvent(data), ReadKind(GetOrNull(data, "content_block")))
    else if t == "content_block_delta" then BlockDelta(IndexOfEvent(data), ReadDelta(GetOrNull(data, "delta")))
    else if t == "content_block_stop" then BlockStop
    else if t == "message_delta" then
      MessageDelta(GetStr(GetOrNull(data, "delta"), "stop_reason"), ReadCounts(data))
    else if t == "message_stop" then MessageStop
    else if t == "ping" then Ping
    else if t == "error" then
      var err := GetOrNull(data, "error");
      ErrorEvent(GetStrOr(err, "type", "unknown"), GetStrOr(err, "message", "(no message)"))
    else OtherEvent
  }

  // ----- the accumulator's state -----

  datatype Cut = StreamErrorEvent(errorType: string, message: string) | BlockLeftOpen(index: nat) | NoMessageStop

  datatype Malformation = BadPayload | BadToolInput

  /** Why a streamed attempt failed. `Panicked`: assigning a count into a usage value that is
      neither null nor an object unwinds out of the call. */
  datatype StreamError = Retryable(cut: Cut) | Malformed(what: Malformation) | Panicked

  datatype OpenBlock =
    | TextBlock(index: nat, text: string)
    | ToolBlock(index: nat, id: string, name: string, inputJson: string)
    | ThinkingBlock(index: nat, thinking: string, signature: string)

  datatype Core = Core(
    messageId: Option<string>, model: Option<string>, blocks: seq<Json>, open: Option<OpenBlock>,
    stopSeen: bool, stopReason: Option<string>, usage: Json, error: Option<StreamError>, deltas: seq<string>)

  const EMPTY := Core(None, None, [], None, false, None, Null, None, [])

  function TextJson(text: string): Json { Obj(map["type" := Str("text"), "text" := Str(text)]) }

  function ToolJson(id: string, name: string, input: Json): Json {
    Obj(map["type" := Str("tool_use"), "id" := Str(id), "name" := Str(name), "input" := input])
  }

  function ThinkingJson(thinking: string, signature: string): Json {
    var block := map["type" := Str("thinking"), "thinking" := Str(thinking)];
    Obj(if signature == "" then block else block["signature" := Str(signature)])
  }

  /** A tool's input: the parsed partials; none at all is the empty object. */
  function ToolInput(parse: JsonParser, text: string): Option<Json> {
    if text == "" then Some(Obj(map[])) else parse(text)
  }

  function Render(parse: JsonParser, open: OpenBlock): Option<Json> {
    match open
    case TextBlock(_, text) => Some(TextJson(text))
    case ToolBlock(_, id, name, inputJson) =>
      (match ToolInput(parse, inputJson) case Some(v) => Some(ToolJson(id, name, v)) case None => None)
    case ThinkingBlock(_, thinking, signature) => Some(ThinkingJson(thinking, signature))
  }

  function Close(parse: JsonParser, c: Core): Core {
    match c.open
    case None => c
    case Some(open) =>
      match Render(parse, open)
      case Some(v) => c.(open := None, blocks := c.blocks + [v])
      case None => c.(open := None, error := Some(Malformed(BadToolInput)))
  }

  function Opened(index: nat, kind: BlockKind): Option<OpenBlock> {
    match kind
    case TextKind => Some(TextBlock(index, ""))
    case ToolKind(id, name) => Some(ToolBlock(index, id, name, ""))
    case ThinkingKind => Some(ThinkingBlock(index, "", ""))
    case UnknownKind => None
  }

  /** A delta lengthens the open block only if index and kind agree; otherwise it is ignored. */
  function Lengthened(open: OpenBlock, index: nat, delta: Delta): OpenBlock {
    if open.index != index then open
    else
      match (open, delta)
      case (TextBlock(_, _), TextDelta(t)) => open.(text := open.text + t)
      case (ToolBlock(_, _, _, _), InputDelta(p)) => open.(inputJson := open.inputJson + p)
      case (ThinkingBlock(_, _, _), ThinkingDelta(t)) => open.(thinking := open.thinking + t)
      case (ThinkingBlock(_, _, _), SignatureDelta(s)) => open.(signature := open.signature + s)
      case _ => open
  }

  function AppendDelta(c: Core, index: nat, delta: Delta): Core {
    match c.open
    case None => c
    case Some(open) =>
      c.(open := Some(Lengthened(open, index, delta)),
         deltas := if open.TextBlock? && open.index == index && delta.TextDelta? then c.deltas + [delta.text] else c.deltas)
  }

  /** `self.usage[field] = count`, creating the object when there is none. None: it panics. */
  function SetCount(usage: Json, field: string, count: Option<nat>): Option<Json> {
    match count
    case None => Some(usage)
    case Some(n) =>
      match usage
      case Null => Some(Obj(map[field := Int(n)]))
      case Obj(m) => Some(Obj(m[field := Int(n)]))
      case _ => None
  }

  function MergeCounts(usage: Json, c: Counts): Option<Json> {
    match SetCount(usage, "output_tokens", c.output) case None => None case Some(u1) =>
    match SetCount(u1, "input_tokens", c.input) case None => None case Some(u2) =>
    match SetCount(u2, "cache_read_input_tokens", c.cacheRead) case None => None case Some(u3) =>
    SetCount(u3, "cache_creation_input_tokens", c.cacheCreation)
  }

  function Apply(parse: JsonParser, c: Core, e: Event): Core {
    match e
    case MessageStart(id, model, usage) =>
      c.(messageId := id, model := model, usage := if usage.Some? then usage.value else c.usage)
    case BlockStart(index, kind) => c.(open := Opened(index, kind))
    case BlockDelta(index, delta) => AppendDelta(c, index, delta)
    case BlockStop => Close(parse, c)
    case MessageDelta(reason, counts) =>
      var d := c.(stopReason := if reason.Some? then reason else c.stopReason);
      (match MergeCounts(d.usage, counts) case Some(u) => d.(usage := u) case None => d.(error := Some(Panicked)))
    case MessageStop => c.(stopSeen := true)
    case ErrorEvent(kind, message) => c.(error := Some(Retryable(StreamErrorEvent(kind, message))))
    case _ => c
  }

  /** The payload as an event; None is a payload that is not JSON. */
  function Payload(parse: JsonParser, data: string): Option<Event> {
    match parse(data) case Some(v) => Some(ReadEvent(v)) case None => None
  }

  /** One server-sent event. After the first latched error everything is ignored. */
  function Step(parse: JsonParser, c: Core, sse: SseEvent): Core {
    if c.error.Some? then c
    else
      match Payload(parse, sse.data)
      case Some(e) => Apply(parse, c, e)
      case None => c.(error := Some(Malformed(BadPayload)))
  }

  function Run(parse: JsonParser, c: Core, sses: seq<SseEvent>): Core {
    if sses == [] then c else Step(parse, Run(parse, c, sses[..|sses| - 1]), sses[|sses| - 1])
  }

  /** The non-streaming body shape, or why there is none. */
  datatype Outcome = Body(value: Json) | Failed(error: StreamError)

  function BodyJson(c: Core): Json {
    var b0: map<string, Json> := if c.messageId.Some? then map["id" := Str(c.messageId.value)] else map[];
    var b1 := b0["type" := Str("message")]["role" := Str("assistant")];
    var b2 := if c.model.Some? then b1["model" := Str(c.model.value)] else b1;
    Obj(b2["content" := Arr(c.blocks)]
          ["stop_reason" := if c.stopReason.Some? then Str(c.stopReason.value) else Null]
          ["stop_sequence" := Null]["usage" := c.usage])
  }

  function Finish(c: Core): Outcome {
    if c.error.Some? then Failed(c.error.value)
    else if c.open.Some? then Failed(Retryable(BlockLeftOpen(c.open.value.index)))
    else if !c.stopSeen then Failed(Retryable(NoMessageStop))
    else Body(BodyJson(c))
  }

  /** The whole decoder on a whole body. */
  function Decoded(parse: JsonParser, body: seq<byte>): Core {
    Run(parse, EMPTY, Events(Decode(body).0))
  }

  // ----- folds -----

  lemma {:induction false} RunConcat(parse: JsonParser, c: Core, a: seq<SseEvent>, b: seq<SseEvent>)
    ensures Run(parse, c, a + b) == Run(parse, Run(parse, c, a), b)
  {
    hide Step;
    if b == [] {
      assert a + b == a;
    } else {
      assert (a + b)[..|a + b| - 1] == a + b[..|b| - 1];
      RunConcat(parse, c, a, b[..|b| - 1]);
    }
  }

  lemma {:induction false} ErrorIsSticky(parse: JsonParser, c: Core, sses: seq<SseEvent>)
    requires c.error.Some?
    ensures Run(parse, c, sses) == c
  {
    if sses != [] { ErrorIsSticky(parse, c, sses[..|sses| - 1]); }
  }
}
