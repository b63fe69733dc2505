/** `Client::complete`: the retry loop over a transport, one fresh accumulator an attempt, and
    the once-per-run latch that reports a downgraded response. */
module Retry {
  import opened Text
  import opened Utf8
  import opened Stream
  import opened Accumulator

  const RETRY_AFTER_CAP_SECS: nat := 120

  type Millis = nat

  /** What one transport call came back with, and the body bytes it delivered on the way, in
      the chunks they arrived in; a connection can break after any of them. */
  datatype Reply =
    | ConnectionError(chunks: seq<seq<byte>>)
    | FatalError(chunks: seq<seq<byte>>)
    | Http(status: nat, eventStream: bool, retryAfter: Option<string>, chunks: seq<seq<byte>>)

  datatype Failure = Fatal | BadStatus(status: nat) | BadBody | BadStream | Panic | GaveUp(attempts: nat)

  datatype Result = Ok(body: Json) | Err(failure: Failure)

  predicate IsSuccess(status: nat) { 200 <= status < 300 }

  predicate IsRetryableStatus(status: nat) {
    status == 429 || status == 502 || status == 503 || status == 504 || status == 529
  }

  /** `String::from_utf8_lossy`: every invalid sequence, and an unfinished character at the
      end, becomes one replacement character. */
  function Lossy(bytes: seq<byte>): string
    decreases |bytes|
  {
    var (text, rest) := Decode(bytes);
    if rest == [] then text
    else
      match FirstUnit(rest)
      case Invalid(len) => text + "\U{FFFD}" + Lossy(rest[len..])
      case _ => text + "\U{FFFD}"
  }

  /** The accumulator's verdict on the bytes of one attempt. */
  function Verdict(parse: JsonParser, r: Reply): Outcome { Finish(FeedAll(parse, r.chunks).core) }

  /** Feeding happens while the body arrives, whatever the status and content type: a panic
      there unwinds out of the whole call. */
  predicate Panics(parse: JsonParser, streaming: bool, r: Reply) {
    streaming && FeedAll(parse, r.chunks).core.error == Some(Panicked)
  }

  /** The attempts after which another one may follow. */
  predicate WantsRetry(parse: JsonParser, streaming: bool, r: Reply) {
    && !Panics(parse, streaming, r)
    && match r
       case ConnectionError(_) => true
       case FatalError(_) => false
       case Http(status, eventStream, _, _) =>
         if IsSuccess(status) then
           var v := Verdict(parse, r);
           streaming && eventStream && v.Failed? && v.error.Retryable?
         else IsRetryableStatus(status)
  }

  /** Streaming was asked for and a plain success came back. */
  predicate Downgrades(parse: JsonParser, streaming: bool, r: Reply) {
    streaming && !Panics(parse, streaming, r) && r.Http? && IsSuccess(r.status) && !r.eventStream
  }

  /** The result when `r` is the last attempt, the n-th: nothing but its own bytes counts. */
  function Final(parse: JsonParser, streaming: bool, r: Reply, n: nat): Result {
    if Panics(parse, streaming, r) then Err(Panic)
    else if WantsRetry(parse, streaming, r) then Err(GaveUp(n))
    else
      match r
      case Http(status, eventStream, _, chunks) =>
        if !IsSuccess(status) then Err(BadStatus(status))
        else if streaming && eventStream then
          (match Verdict(parse, r) case Body(v) => Ok(v) case Failed(_) => Err(BadStream))
        else (match parse(Lossy(Concat(chunks))) case Some(v) => Ok(v) case None => Err(BadBody))
      case _ => Err(Fatal)
  }

  function RetryAfterMillis(header: Option<string>): Option<Millis> {
    match header
    case None => None
    case Some(s) =>
      match ParseUnsigned(Trim(IsWhitespace, s), U64_LIMIT)
      case None => None
      case Some(secs) => Some(1000 * if secs < RETRY_AFTER_CAP_SECS then secs else RETRY_AFTER_CAP_SECS)
  }

  /** The header speaks only for refused requests; a cut stream waits as scheduled. */
  function Pause(scheduled: Millis, r: Reply): Millis {
    if r.Http? && !IsSuccess(r.status) && RetryAfterMillis(r.retryAfter).Some?
    then RetryAfterMillis(r.retryAfter).value
    else scheduled
  }

  /** What a whole call does: attempts that want another one and at most one that does not,
      a pause behind each but the last, and the last one's result. */
  ghost predicate Completes(parse: JsonParser, streaming: bool, delays: seq<Millis>, transport: nat -> Reply,
                            result: Result, calls: nat, sleeps: seq<Millis>) {
    && 1 <= calls <= |delays| + 1
    && (forall i :: 0 <= i < calls - 1 ==> WantsRetry(parse, streaming, transport(i)))
    && (WantsRetry(parse, streaming, transport(calls - 1)) ==> calls == |delays| + 1)
    && |sleeps| == calls - 1
    && (forall i :: 0 <= i < |sleeps| ==> sleeps[i] == Pause(delays[i], transport(i)))
    && result == Final(parse, streaming, transport(calls - 1), calls)
  }

  datatype Latch = Fresh | Pending | Consumed

  class Client {
    const retryDelays: seq<Millis>
    var fallbackLatch: Latch

    constructor (delays: seq<Millis>)
      ensures retryDelays == delays && fallbackLatch == Fresh
    {
      retryDelays := delays;
      fallbackLatch := Fresh;
    }

    /** `transport(i)` answers the i-th call. */
    method Complete(parse: JsonParser, streaming: bool, transport: nat -> Reply)
      returns (result: Result, calls: nat, sleeps: seq<Millis>)
      modifies this`fallbackLatch
      ensures Completes(parse, streaming, retryDelays, transport, result, calls, sleeps)
      ensures fallbackLatch == AfterComplete(old(fallbackLatch), Downgrades(parse, streaming, transport(calls - 1)))
    {
      hide FeedAll, Lossy, RetryAfterMillis;
      var totalAttempts := |retryDelays| + 1;
      calls, sleeps := 0, [];
      for attempt := 0 to totalAttempts
        invariant calls == attempt && |sleeps| == attempt
        invariant forall i :: 0 <= i < attempt ==> WantsRetry(parse, streaming, transport(i))
        invariant attempt < totalAttempts || attempt == 0
        invariant forall i :: 0 <= i < |sleeps| ==> sleeps[i] == Pause(retryDelays[i], transport(i))
        invariant fallbackLatch == old(fallbackLatch)
      {
        calls := calls + 1;
        var reply := transport(attempt);
        var acc: StreamAccumulator? := null;
        if streaming {
          acc := new StreamAccumulator(parse);
          Deliver(acc, reply.chunks);
          if acc.error == Some(Panicked) { result := Err(Panic); return; }
        }
        var delay: Millis;
        match reply {
          case ConnectionError(_) =>
            if attempt + 1 == totalAttempts { break; }
            delay := retryDelays[attempt];
          case FatalError(_) => result := Err(Fatal); return;
          case Http(status, eventStream, retryAfter, chunks) =>
            if IsSuccess(status) {
              if acc != null {
                if eventStream {
                  var verdict := acc.Done();
                  match verdict
                  case Body(v) => result := Ok(v); return;
                  case Failed(Retryable(_)) =>
                    if attempt + 1 == totalAttempts { break; }
                    sleeps := sleeps + [retryDelays[attempt]];
                    continue;
                  case Failed(_) => result := Err(BadStream); return;
                }
                if fallbackLatch == Fresh { fallbackLatch := Pending; }
              }
              var plain := parse(Lossy(Concat(chunks)));
              result := if plain.Some? then Ok(plain.value) else Err(BadBody);
              return;
            }
            if !IsRetryableStatus(status) { result := Err(BadStatus(status)); return; }
            if attempt + 1 == totalAttempts { break; }
            delay := DelayFor(retryDelays[attempt], retryAfter);
        }
        sleeps := sleeps + [delay];
      }
      result := Err(GaveUp(calls));
    }

    method TakeStreamFallback() returns (fired: bool)
      modifies this`fallbackLatch
      ensures fired <==> old(fallbackLatch) == Pending
      ensures fallbackLatch == AfterTake(old(fallbackLatch))
    {
      if fallbackLatch == Pending {
        fallbackLatch := Consumed;
        fired := true;
      } else {
        fired := false;
      }
    }
  }

  function DelayFor(scheduled: Millis, retryAfter: Option<string>): Millis {
    match RetryAfterMillis(retryAfter) case Some(ms) => ms case None => scheduled
  }

  // ----- how long a pause is -----

  /** A count of seconds: whitespace, perhaps a plus sign, digits, whitespace. */
  ghost predicate Spells(s: string, before: string, sign: string, digits: string, after: string) {
    && s == before + (sign + digits) + after
    && All(IsWhitespace, before) && All(IsWhitespace, after) && (sign == "" || sign == "+")
    && digits != "" && AllDigits(digits) && DecVal(digits) < 0x1_0000_0000_0000_0000
  }

  ghost predicate IsSeconds(s: string) {
    exists before, sign, digits, after :: Spells(s, before, sign, digits, after)
  }

  lemma SignedDigits(sign: string, digits: string)
    requires (sign == "" || sign == "+") && digits != "" && AllDigits(digits)
    ensures Trimmed(IsWhitespace, sign + digits)
    ensures ParseUnsigned(sign + digits, U64_LIMIT) == if DecVal(digits) < U64_LIMIT then Some(DecVal(digits)) else None
  {
    hide DecVal;
    var t := sign + digits;
    assert digits[0] in digits && digits[|digits| - 1] in digits && t[|t| - 1] == digits[|digits| - 1];
    if sign == "+" {
      assert t[1..] == digits;
    } else {
      assert t == digits;
    }
  }

  lemma SpelledPause(scheduled: Millis, status: nat, eventStream: bool, chunks: seq<seq<byte>>,
                     s: string, before: string, sign: string, digits: string, after: string)
    requires !(200 <= status < 300) && Spells(s, before, sign, digits, after)
    ensures Pause(scheduled, Http(status, eventStream, Some(s), chunks))
         == if DecVal(digits) < 120 then 1000 * DecVal(digits) else 120_000
  {
    SignedDigits(sign, digits);
    hide Trim, Trimmed, ParseUnsigned, DecVal, AllDigits;
    TrimPadded(IsWhitespace, before, sign + digits, after);
  }

  /** A refused request pauses as many seconds as the server asks for, two minutes at most. */
  lemma ServerSetsPause(scheduled: Millis, status: nat, eventStream: bool, chunks: seq<seq<byte>>,
                        before: string, n: nat, after: string)
    requires !(200 <= status < 300) && n < 0x1_0000_0000_0000_0000
    requires All(IsWhitespace, before) && All(IsWhitespace, after)
    ensures Pause(scheduled, Http(status, eventStream, Some(before + Dec(n) + after), chunks))
         == if n < 120 then 1000 * n else 120_000
  {
    DecRoundTrip(n);
    assert "" + Dec(n) == Dec(n);
    assert Spells(before + Dec(n) + after, before, "", Dec(n), after);
    SpelledPause(scheduled, status, eventStream, chunks, before + Dec(n) + after, before, "", Dec(n), after);
  }

  lemma NumberIsSpelled(s: string)
    requires ParseUnsigned(Trim(IsWhitespace, s), U64_LIMIT).Some?
    ensures IsSeconds(s)
  {
    var t := Trim(IsWhitespace, s);
    var before, after := TrimCuts(IsWhitespace, s);
    hide Trim, IsWhitespace, AllDigits, DecVal;
    var sign, digits := if t != "" && t[0] == '+' then "+" else "", if t != "" && t[0] == '+' then t[1..] else t;
    assert sign + digits == t;
    assert Spells(s, before, sign, digits, after);
  }

  /** Whatever else comes back, the pause is the scheduled one: a cut connection, a failed
      stream, no header, or a header that is no count of seconds. */
  lemma ElseAsScheduled(scheduled: Millis, r: Reply)
    requires r.Http? && !(200 <= r.status < 300) && r.retryAfter.Some? ==> !IsSeconds(r.retryAfter.value)
    ensures Pause(scheduled, r) == scheduled
  {
    hide IsSeconds, Trim, ParseUnsigned;
    if r.Http? && r.retryAfter.Some? && ParseUnsigned(Trim(IsWhitespace, r.retryAfter.value), U64_LIMIT).Some? {
      NumberIsSpelled(r.retryAfter.value);
    }
  }

  // ----- what a whole call comes to -----

  lemma RefusalDecides(parse: JsonParser, streaming: bool, r: Reply, n: nat)
    requires r.Http? && !(200 <= r.status < 300) && !Panics(parse, streaming, r)
    ensures WantsRetry(parse, streaming, r) <==> r.status in {429, 502, 503, 504, 529}
    ensures Final(parse, streaming, r, n) == if WantsRetry(parse, streaming, r) then Err(GaveUp(n)) else Err(BadStatus(r.status))
  {
    hide Panics, FeedAll, Lossy;
  }

  /** An overloaded server is asked again as long as a delay is left, after the pause it set
      or the scheduled one; every other refusal ends the call with its status. */
  lemma OverloadIsTriedAgain(parse: JsonParser, streaming: bool, delays: seq<Millis>, transport: nat -> Reply,
                             result: Result, calls: nat, sleeps: seq<Millis>, i: nat)
    requires Completes(parse, streaming, delays, transport, result, calls, sleeps)
    requires i < calls && transport(i).Http? && !(200 <= transport(i).status < 300)
    requires !Panics(parse, streaming, transport(i))
    ensures transport(i).status in {429, 502, 503, 504, 529} && i < |delays| ==>
      calls > i + 1 && sleeps[i] == Pause(delays[i], transport(i))
    ensures transport(i).status in {429, 502, 503, 504, 529} && i == |delays| ==>
      calls == i + 1 && result == Err(GaveUp(i + 1))
    ensures transport(i).status !in {429, 502, 503, 504, 529} ==>
      calls == i + 1 && result == Err(BadStatus(transport(i).status))
  {
    hide Panics, Pause, WantsRetry, Final;
    RefusalDecides(parse, streaming, transport(i), calls);
  }

  lemma LossyOfText(text: string)
    ensures Lossy(Encode(text)) == text
  {
    DecodeWhole(text);
  }

  lemma LossyUnfold(bytes: seq<byte>, text: string, rest: seq<byte>)
    requires Decode(bytes) == (text, rest) && rest != [] && !FirstUnit(rest).Char?
    ensures Lossy(bytes) == text + if FirstUnit(rest).Invalid? then "\U{FFFD}" + Lossy(rest[FirstUnit(rest).len..]) else "\U{FFFD}"
  {
    hide Decode, FirstUnit;
    if FirstUnit(rest).Invalid? {
      var more := Lossy(rest[FirstUnit(rest).len..]);
      assert text + ("\U{FFFD}" + more) == text + "\U{FFFD}" + more;
    }
  }

  lemma DecodeFront(text: string, r: seq<byte>)
    requires Decode(r) == ("", r)
    ensures Decode(Encode(text) + r) == (text, r)
  {
    hide *;
    DecodeEncode(text, r);
    NothingBehind(text);
  }

  lemma NothingBehind(text: string)
    ensures text + "" == text
  {
  }

  /** Valid text stays, each invalid sequence behind it and an unfinished end become U+FFFD. */
  lemma LossyReplaces(text: string, r: seq<byte>)
    requires r != [] && !FirstUnit(r).Char?
    ensures Lossy(Encode(text) + r)
         == text + if FirstUnit(r).Invalid? then "\U{FFFD}" + Lossy(r[FirstUnit(r).len..]) else "\U{FFFD}"
  {
    hide *;
    DecodeStops(r);
    DecodeFront(text, r);
    LossyUnfold(Encode(text) + r, text, r);
  }

  /** A success that is not an event stream is its body's text, parsed, and ends the call. */
  lemma PlainBodyIsParsed(parse: JsonParser, streaming: bool, delays: seq<Millis>, transport: nat -> Reply,
                          result: Result, calls: nat, sleeps: seq<Millis>, i: nat, text: string)
    requires Completes(parse, streaming, delays, transport, result, calls, sleeps)
    requires i < calls && transport(i).Http? && 200 <= transport(i).status < 300
    requires !(streaming && transport(i).eventStream) && !Panics(parse, streaming, transport(i))
    requires Concat(transport(i).chunks) == Encode(text)
    ensures calls == i + 1
    ensures result == match parse(text) case Some(v) => Ok(v) case None => Err(BadBody)
  {
    hide Panics, Pause, Lossy, Encode;
    LossyOfText(text);
    assert !WantsRetry(parse, streaming, transport(i));
  }

  /** A streamed success is the accumulated body; an unfinished one is tried again. */
  lemma StreamedBodyIsServed(parse: JsonParser, delays: seq<Millis>, transport: nat -> Reply,
                             result: Result, calls: nat, sleeps: seq<Millis>, i: nat)
    requires Completes(parse, true, delays, transport, result, calls, sleeps)
    requires i < calls && transport(i).Http? && 200 <= transport(i).status < 300 && transport(i).eventStream
    requires PrefixOfValid(Concat(transport(i).chunks))
    ensures var v := Finish(Decoded(parse, Concat(transport(i).chunks)));
      && (v.Body? ==> calls == i + 1 && result == Ok(v.value))
      && (v.Failed? && v.error.Retryable? && i < |delays| ==> calls > i + 1 && sleeps[i] == delays[i])
  {
    hide FeedAll, Decoded, Concat, PrefixOfValid, Lossy, RetryAfterMillis;
    ChunkIndependence(parse, transport(i).chunks, transport(i).chunks);
  }

  /** The same reply, its bytes cut into other chunks. */
  ghost predicate SameBytes(r: Reply, q: Reply) {
    && Concat(r.chunks) == Concat(q.chunks)
    && match (r, q)
       case (ConnectionError(_), ConnectionError(_)) => true
       case (FatalError(_), FatalError(_)) => true
       case (Http(s, e, a, _), Http(s', e', a', _)) => s == s' && e == e' && a == a'
       case _ => false
  }

  /** How the network cuts a body decides nothing: neither whether the call goes on, nor its
      result, nor the latch, as long as the body is a prefix of valid UTF-8. */
  lemma CuttingDecidesNothing(parse: JsonParser, streaming: bool, r: Reply, q: Reply, n: nat)
    requires SameBytes(r, q) && PrefixOfValid(Concat(r.chunks))
    ensures WantsRetry(parse, streaming, r) == WantsRetry(parse, streaming, q)
    ensures Final(parse, streaming, r, n) == Final(parse, streaming, q, n)
    ensures Downgrades(parse, streaming, r) == Downgrades(parse, streaming, q)
    ensures forall scheduled: Millis :: Pause(scheduled, r) == Pause(scheduled, q)
  {
    hide FeedAll, Lossy, Finish, Concat, PrefixOfValid, Decoded, RetryAfterMillis;
    ChunkIndependence(parse, r.chunks, q.chunks);
  }

  // ----- the latch over a run -----

  function AfterComplete(l: Latch, downgraded: bool): Latch {
    if downgraded && l == Fresh then Pending else l
  }

  function AfterTake(l: Latch): Latch { if l == Pending then Consumed else l }

  /** One call of the driver: a `complete` that downgraded or not, or a take. */
  datatype Call = Completed(downgraded: bool) | Take

  function LatchAfter(calls: seq<Call>): Latch {
    if calls == [] then Fresh
    else
      var l := LatchAfter(calls[..|calls| - 1]);
      match calls[|calls| - 1] case Completed(d) => AfterComplete(l, d) case Take => AfterTake(l)
  }

  /** Take number i returned true. */
  ghost predicate Fires(calls: seq<Call>, i: nat) {
    i < |calls| && calls[i].Take? && LatchAfter(calls[..i]) == Pending
  }

  ghost predicate DowngradedBefore(calls: seq<Call>, n: nat) {
    exists i :: 0 <= i < n && i < |calls| && calls[i] == Completed(true)
  }

  /** What the latch remembers: whether a downgrade came, and whether a take came after it. */
  lemma {:induction false} LatchMeaning(calls: seq<Call>, n: nat)
    requires n <= |calls|
    ensures LatchAfter(calls[..n]) == Fresh <==> !DowngradedBefore(calls, n)
    ensures LatchAfter(calls[..n]) == Consumed <==> exists j: nat :: j < n && calls[j].Take? && DowngradedBefore(calls, j)
  {
    if n > 0 {
      var m := n - 1;
      LatchMeaning(calls, m);
      assert calls[..n][..m] == calls[..m];
      assert DowngradedBefore(calls, n) <==> DowngradedBefore(calls, m) || calls[m] == Completed(true);
      if LatchAfter(calls[..n]) == Consumed && LatchAfter(calls[..m]) != Consumed {
        assert calls[m].Take? && DowngradedBefore(calls, m);
      }
    }
  }

  /** Over a whole run exactly one take fires when some downgrade precedes some take, and none
      otherwise; the one that fires is the first take after the first downgrade. */
  lemma FiresOncePerRun(calls: seq<Call>)
    ensures forall i: nat, j: nat :: Fires(calls, i) && Fires(calls, j) ==> i == j
    ensures (exists i: nat :: Fires(calls, i))
       <==> exists j: nat :: j < |calls| && calls[j].Take? && DowngradedBefore(calls, j)
  {
    forall i: nat | i < |calls| && calls[i].Take?
      ensures Fires(calls, i) <==>
        DowngradedBefore(calls, i) && !exists j: nat :: j < i && calls[j].Take? && DowngradedBefore(calls, j)
    {
      LatchMeaning(calls, i);
    }
    forall i: nat, j: nat | Fires(calls, i) && Fires(calls, j) ensures i == j {
      if i < j { LatchMeaning(calls, j); }
      if j < i { LatchMeaning(calls, i); }
    }
    if j: nat :| j < |calls| && calls[j].Take? && DowngradedBefore(calls, j) {
      var i := FirstTake(calls, j);
      assert Fires(calls, i);
    }
  }

  lemma {:induction false} FirstTake(calls: seq<Call>, j: nat) returns (i: nat)
    requires j < |calls| && calls[j].Take? && DowngradedBefore(calls, j)
    ensures i < |calls| && calls[i].Take? && DowngradedBefore(calls, i)
    ensures !exists k: nat :: k < i && calls[k].Take? && DowngradedBefore(calls, k)
  {
    if k: nat :| k < j && calls[k].Take? && DowngradedBefore(calls, k) {
      i := FirstTake(calls, k);
    } else {
      i := j;
    }
  }
}
