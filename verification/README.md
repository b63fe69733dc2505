# Verified models of chug's protocols and gates

chug is a coding-loop harness: a driver process holds a lock, streams model responses,
archives and wraps its state through text gates, and talks to a chat front end. This project
models the parts whose correctness is not visible from any single function and proves what
they promise, for every input, run and interleaving. `dafny verify dfyconfig.toml` checks it.

| file | what it models |
|---|---|
| `DriverLock.dfy` | the driver lock: many starters, holders, releasers, kills and recycled pids |
| `Utf8.dfy`, `Sse.dfy`, `Stream.dfy`, `Accumulator.dfy` | response decoding: bytes, characters, server-sent events, blocks |
| `StreamTheorems.dfy`, `StreamBytes.dfy` | what the decoder guarantees, on events and on bytes |
| `Delivery.dfy` | what a decoder hands on when the body is not UTF-8 |
| `Retry.dfy` | the retry loop and the stream-fallback latch |
| `Calendar.dfy` | civil-from-days arithmetic and the order of archive names |
| `Ring.dfy` | the decisions ring's gates and the byte-carry test |
| `BlockScan.dfy` | the scanner for printed datum blocks |
| `VacuousCheck.dfy`, `Shell.dfy` | vacuous checks, against a shell semantics |
| `FsAtomic.dfy` | crash-safe file replacement by several writers |
| `Chat.dfy` | the chat session machine |
| `Table.dfy`, `TodoFlip.dfy`, `Lane.dfy`, `Filing.dfy`, `Ideate.dfy` | TODO.md rows: parsing, flips, the ratification sweep, filing cycles |
| `Mentions.dfy` | `@path` mentions in chat messages |
| `Completion.dfy` | tab completion |
| `Text.dfy` | shared text helpers |

## How the models are built

Code that updates state in place is a class or a method with loops, proved against a function
of its inputs; the theorems are about that function. `DriverLock`, `FsAtomic` and `Chat` are
transition systems instead, because their claims quantify over interleavings of several
processes; each step is one atomic action of the code (one read, one write, one unlink, one
poll), and writes to a lock or temp file happen character by character.

Assumptions, each stated as a parameter or a precondition:

* **Lock.** `flock` ends with its owner, live pids are distinct. Mutual exclusion assumes that
  acquirers hold the directory mutex, that reads work, and that the probes tell the truth
  about live chug processes; a witness run shows that exclusion fails without each of these.
  An acquirer whose 300 tries are used up is then stuck, and nothing else is
  (`DriverLock.AcquireIsNeverStuckIff`): the code goes on without the mutex there.
  Failing and partial writes are covered without any assumption, and releasers are never
  assumed to hold the mutex.
* **Stream.** The network is an arbitrary cutting of the body into chunks, none of them empty
  where bodies that are not UTF-8 are compared (the body reader passes on no empty chunk). A
  reply that breaks off carries the chunks that came. JSON syntax is a
  parser parameter (every text has a value or is malformed); where text is generated, the
  parser is only assumed to read back what it printed. The event-stream parser strips all
  leading whitespace of a field value where section 9.2.6 of the WHATWG HTML Standard strips
  one space; the model follows the code. Usage values that are not objects make
  the code panic and appear as their own outcome.
* **Files.** `rename` is atomic. In `FsAtomic` distinct writers have distinct pids; the case of
  two threads of one process is a separate lemma.
* **Shell.** The shell fragment has lists, and-or lists, pipelines, comments and simple
  commands without quoting, substitution, redirection, globbing, negation or background jobs;
  the only blanks are spaces and tabs, variables are assignable and HOME is usable as the
  shell starts. Where a bare assignment or an operand of `export` has changed HOME, what a
  later bare `cd` does is the world's to decide.
* **Ideation.** `str.lower` and date validity are parameters; lower-case ASCII names are
  assumed to be unchanged by `str.lower`. The noul gate is a boolean of each candidate, and
  candidate slugs have the shape `slugify` gives them. The operator edits freely between
  cycles, but deletes a proposal's row only while its stub file stays and a stub file only
  while its row stays.
* **Text.** Python strings and Rust `str`s are sequences of characters. Offsets in `Mentions`
  count characters; `Completion` works on UTF-8 bytes.

## Where the code does not meet its own promise

Each of these is proved: a concrete input or run that fails, and the exact condition under
which the code does what it promises.

* **Chunk independence** fails for bodies that are not UTF-8: `feed_bytes` drops at most one
  invalid sequence a call, so one stray byte in front of a response loses it when both come
  in one chunk and not when they come in two (`Delivery.SmallestResponseIsLost`). It holds
  for every prefix of valid UTF-8 (`Accumulator.ChunkIndependence`); behind the first invalid
  sequence it holds exactly if the remaining bytes never decode when delivered one by one
  (`Delivery.InvalidBodiesAgreeIff`, a condition on those bytes).
* **Vacuous checks** can fail: `printf` with no format or with directives, `pwd` with
  options, malformed `export` operands, and a bare `cd` next to a changed HOME, in its own
  leaf or in an earlier one (`Shell.BarePrintfFails`, `Shell.HomeThenCdFails`).
  `Shell.VacuousLeafSucceedsIff` is the exact condition for one leaf, and
  `Shell.VacuousChecksSucceedIff` the one for all checks built from any set of leaves.
* **Archive names** sort by time exactly up to the end of year 9999
  (`Calendar.SortingHoldsExactlyTo`; `Calendar.FiveDigitYears` is the input).
* **`write_atomic`** documents that concurrent writers never collide; two threads of one
  process share the temp name and can leave bytes that no writer wrote
  (`FsAtomic.SharedPidLosesBytes`). Writers of distinct pids do not (`FsAtomic.TargetIsWhole`).
* **`todo_flip`** promises every other line byte-identical; it reads in text mode, so it also
  rewrites every carriage return (`TodoFlip.CarriageReturnIsLost`, `TodoFlip.OtherTextSurvivesIff`).
* **Filed rows** are meant for the `## Proposed` lane; a proposal row elsewhere in the file
  draws new rows to itself (`Filing.FiledOutsideLane`, `Filing.LandsInLaneIff`).
* **Proposal numbers** are reissued once every row and stub of that number and all later
  ones are gone (`Ideate.NumberIsReissued`, `Filing.NextNumberPasses`).
* **Mentions.** An unterminated quote consumes the rest of the message, so later mentions
  that the documented grammar has are lost (`Mentions.UnclosedQuoteSwallows`, `Mentions.DocumentedIff`).
* **Datum blocks.** A digit printed directly before a block joins its count
  (`BlockScan.DigitBeforeJoinsTheCount`), and a timestamp character behind it joins its last
  anchor; otherwise a block is read back as printed (`BlockScan.PrintedIsReadIff`).
* **Usage.** A streamed response should report the run's real totals. A `message_delta` renews
  the counts but not a `total_tokens` that `message_start` brought, which then stays as it was
  (`StreamTheorems.SkeletonTotalStays`); `StreamTheorems.StreamedUsage` says when.

## Model

| member | source | states |
|---|---|---|
| DriverLock.LockTextNamesItsWriter | src/driver_lock.rs:343-349 | whatever the epoch line says, parsing the text a writer leaves gives exactly the writer's pid |
| DriverLock.FirstLineNames | src/driver_lock.rs:219-226 | whatever surrounds it and follows, the number on line 1 names a holder exactly if it lies in 1..2147483647 |
| DriverLock.StepKeepsInv | src/driver_lock.rs:271-329 | every step of every process, releases and kills included, keeps the protocol's invariant |
| DriverLock.MutualExclusion | src/driver_lock.rs:271-377 | in every run at most one live process holds a guard, and the lock file then names exactly that process |
| DriverLock.HoldersFileIsUntouched | src/driver_lock.rs:351-377 | no step of anybody, a releaser without the mutex included, changes the file under a live holder that goes on holding |
| DriverLock.UnlinkIsTheOwners | src/driver_lock.rs:351-377 | the file disappears at no other step than its own owner's unlink, and nobody else owns it then |
| DriverLock.ReleaseRemoves | src/driver_lock.rs:351-377 | a release whose read and unlink work leaves the file alone up to its unlink and then removes it; what lies there afterwards is nothing, or as far as another process got in writing, and under the mutex nothing |
| DriverLock.ReleasedNameIsGone | src/driver_lock.rs:351-377 | afterwards the file names the released pid only as the first digits of a longer pid that is being written |
| DriverLock.ReleasedNameReturns | src/driver_lock.rs:351-377 | a run in which it does: pid 1 has unlinked without the mutex and pid 12 has written one digit |
| DriverLock.StaleLockIsTakenAndReleased | src/driver_lock.rs:271-377 | from any file that does not name the starter itself, a run in which it takes the lock over, holds it and leaves no file |
| DriverLock.FirstPassSecures | src/driver_lock.rs:297-329 | with the mutex, an acquire needs one pass and ends without the lock only by refusing or because the file could not be written |
| DriverLock.AcquireAdvances | src/driver_lock.rs:95-137 | under any faults each of a starter's own steps decreases a rank bounded by 300 mutex tries and 3 passes, and no other process raises it |
| DriverLock.AcquireIsNeverStuckIff | src/driver_lock.rs:119-137 | in whatever state the others are, an unended acquire has a step without failure to take, except after its last mutex try, where it has one exactly if acquirers may go on without the mutex |
| DriverLock.ReleaseAdvances | src/driver_lock.rs:351-377 | under any faults each of a releaser's own steps decreases a rank bounded by 50 mutex tries, and no other process raises it |
| DriverLock.ReleaseIsNeverStuck | src/driver_lock.rs:351-377 | a release always has a step to take |
| DriverLock.StepsTouchTheirOwn | src/driver_lock.rs:271-377 | under any faults only opening, writing and unlinking change the file, nobody frees another's mutex, and nobody moves another process |
| DriverLock.RecycledPidRefusesItself | src/driver_lock.rs:155-173 | a run in which a killed holder's pid is given to a new chug process, which refuses because of itself |
| DriverLock.MutexIsNeeded | src/driver_lock.rs:119-141 | a run in which two starters without the mutex both end up holding |
| DriverLock.ReadsAndProbesAreNeeded | src/driver_lock.rs:155-173 | runs with the mutex in which a failed read, or a probe that denies a live chug process, lets two processes hold |
| Calendar.YearOfEraFinds | src/archive.rs:73-75 | the nested divisions find the year whose day range contains the day |
| Calendar.CivilSteps | src/archive.rs:66-81 | the closed form moves exactly one Gregorian calendar day per day, over month, year, century and era ends |
| Calendar.CivilCountsDays | src/archive.rs:66-81 | for every day number the closed form equals counting day by day from 1970-01-01 |
| Calendar.NamesSortByTime | src/archive.rs:62-81 | up to year 9999 the printed names are in lexicographic order exactly when their times are |
| Calendar.SortingHoldsExactlyTo | src/archive.rs:62-81 | the order claim holds for all times below a bound exactly when the bound is at most the end of year 9999 |
| Calendar.NameSaysWhen | src/archive.rs:66-81 | read back digit by digit the name is the year, month and day counted from 1970-01-01 and the hour, minute and second of the day, four digits of year up to 9999 |
| Calendar.FiveDigitYears | src/archive.rs:80 | the first second of year 10000 sorts before the last of 9999 |
| Utf8.DecodeIsLongest | src/api.rs:686-713 | the text decoded so far is the longest whose encoding the bytes begin with |
| Utf8.DecodeAppend | src/api.rs:686-713 | decoding in two goes, carrying the rest over, equals decoding at once |
| Utf8.EncodeDecode | src/api.rs:686-713 | bytes are the encoding of the decoded text followed by the undecoded rest |
| Utf8.PrefixLeavesIncomplete | src/api.rs:686-713 | valid UTF-8 cut anywhere leaves at most an unfinished character of 1 to 3 bytes |
| Utf8.InvalidIsWhatHadBegun | src/api.rs:686-713 | a dropped invalid sequence is a byte that begins no character, or all of what had begun like one |
| Sse.SseParser.FeedLine | src/sse.rs:38-77 | one line changes the parser's fields and yields an event as the per-line step says |
| Sse.SseParser.Feed | src/sse.rs:79-97 | feeding a chunk equals running the per-character machine over it, leftover included |
| Sse.ParseConcat | src/sse.rs:79-97 | cutting the text anywhere changes neither the final state nor the events |
| Sse.EventsGrow | src/sse.rs:79-97 | the events of a beginning are a beginning of the events |
| Sse.ParseLine | src/sse.rs:38-97 | a complete line acts as one line step over the buffered text and the new text together |
| Sse.LinesMean | src/sse.rs:58-76 | an `event:`, `data:` or `id:` line sets its field to what follows the blanks, a second `data:` adds a line, a comment does nothing |
| Stream.RunConcat | src/api.rs:891-1042 | the block machine run over two event lists is the run over their concatenation |
| Stream.ErrorIsSticky | src/api.rs:717-729 | once latched, the first error stays and later events change nothing |
| Accumulator.StreamAccumulator.FeedBytes | src/api.rs:686-713 | the carry, the drop of one invalid sequence, and the text handed on, as new state from old |
| Accumulator.StreamAccumulator.FeedText | src/api.rs:717-729 | events are applied in order until the first error, which is latched |
| Accumulator.StreamAccumulator.AppendText | src/api.rs:731-746 | text is appended and reported to the hook only for the open text block of that index |
| Accumulator.StreamAccumulator.AppendToolJson | src/api.rs:748-761 | a partial is appended only to the open tool block of that index |
| Accumulator.StreamAccumulator.AppendThinking | src/api.rs:763-775 | a piece is appended only to the open thinking block of that index |
| Accumulator.StreamAccumulator.AppendSignature | src/api.rs:777-790 | a signature is appended only to the open thinking block of that index |
| Accumulator.StreamAccumulator.CloseOpenBlock | src/api.rs:792-834 | the open block is rendered and pushed, tool input parsed with empty as `{}`; what the rendered fields hold is `StreamTheorems.SegmentIsShown` |
| Accumulator.StreamAccumulator.MergeUsage | src/api.rs:891-1042 | each field that an event carries replaces the one before |
| Accumulator.StreamAccumulator.ApplyEvent | src/api.rs:891-1042 | each event kind changes block state, usage, stop reason and hook calls as the block machine says |
| Accumulator.StreamAccumulator.Done | src/api.rs:840-888 | the latched error, then an unfinished stream, then the body |
| Accumulator.Feed | src/api.rs:686-729 | feeding chunk by chunk with the class is feeding them one by one in the specification |
| Accumulator.FeedAllIsDecoded | src/api.rs:686-729 | for prefixes of valid UTF-8, the state after all chunks is the one of the joined bytes |
| Accumulator.ChunkIndependence | src/api.rs:686-888 | any two cuttings of one body give the same result, the same hook calls and the same latched error |
| Accumulator.CarryIsUnfinished | src/api.rs:686-713 | between feeds the carry is an unfinished character of at most 3 bytes and the parsed text the longest decodable prefix |
| StreamTheorems.AcceptedExactly | src/api.rs:840-888 | an event stream is accepted exactly when no event errs, no block is left open and the terminal event came |
| StreamTheorems.SegmentIsShown | src/api.rs:792-834 | a rendered block has exactly the fields of its kind: type, then text; or id, name and the parsed input; or thinking, and signature if there is one |
| StreamTheorems.EveryBlockIsBracketed | src/api.rs:748-977 | in an accepted body block k is the k-th start/stop bracket, read field by field: the start's id and name and exactly the matching pieces in between, and no bracket is missing |
| StreamTheorems.PingsChangeNothing | src/api.rs:891-1042 | pings anywhere leave the result as it is |
| StreamTheorems.RoundTrip | src/api.rs:731-1027 | any response of text, tool and thinking blocks, cut into any deltas with pings anywhere, comes back whole: every block's fields, the order, stop reason and usage |
| StreamTheorems.UsageIsLastSeen | src/api.rs:896-1020 | each usage count in the body is the last value the stream gave it |
| StreamTheorems.StreamedUsage | src/api.rs:1210-1231 | the four reported figures of any streamed response from its events: last counts, zero defaults, and the total of the last message_start or else the 64-bit sum |
| StreamTheorems.SkeletonTotalStays | src/api.rs:983-1020 | a stream whose closing counts are 257 and 1 reports the total 0 its message_start brought |
| StreamTheorems.StopSeenIs | src/api.rs:891-1042 | the terminal flag is set exactly when a message_stop was applied |
| StreamTheorems.EventReadsBack | src/api.rs:891-1042 | the JSON printed for an event is read back as that event |
| StreamTheorems.AbsentFieldsRead | src/api.rs:891-1042 | absent fields of an event read as index 0 and empty texts, and an event without a type as none |
| StreamBytes.DecodedStream | src/sse.rs:38-97 | the events decoded from a framed byte stream are the frames' events |
| StreamBytes.ResponseSurvivesTheWire | src/api.rs:686-1027 | encode any response, deliver the bytes in any chunks: the decoder returns it and the hook hears its text in order |
| StreamBytes.TruncationIsRetryable | src/api.rs:840-888 | every proper byte prefix of a stream whose only message_stop ends it is rejected as retryable, however delivered |
| StreamBytes.InvalidBytesBreakChunkIndependence | src/api.rs:686-713 | one stray byte in front of any body: delivered whole the body is never parsed, delivered in two pieces it is parsed to the end |
| Delivery.CoreIsHanded | src/api.rs:686-729 | for any bytes at all, blocks, usage, hook calls and error depend only on the text the feeds handed on |
| Delivery.DeliveriesLieBetween | src/api.rs:686-713 | any delivery hands on at least the body's decodable front and at most what single bytes hand on, each a beginning of the next |
| Delivery.DeliveriesAgreeIff | src/api.rs:686-713 | all deliveries of a body hand on the same text exactly when byte by byte nothing decodes behind its front |
| Delivery.InvalidBodiesAgreeIff | src/api.rs:686-713 | that is so exactly when the bytes from the first invalid sequence on are inert, a test on those bytes alone |
| Delivery.StrayByteLosesResponse | src/api.rs:686-888 | any accepted body behind a stray byte: a retryable error in one chunk, that response in two |
| Delivery.SmallestResponseIsLost | src/api.rs:686-888 | a concrete body and parser for which the two results differ |
| Accumulator.Deliver | src/api.rs:1393-1398 | feeding a reply's chunks to a fresh accumulator leaves the state the specification gives those chunks |
| Retry.Client.Complete | src/api.rs:1340-1480 | each streaming attempt feeds its chunks to its own accumulator and a panic there ends the call; between 1 and delays+1 attempts, continued only after retryable outcomes, the exact pause each time, the result read from the last reply's own bytes, and the latch's new state |
| Retry.CuttingDecidesNothing | src/api.rs:1376-1480 | replies with the same bytes in other chunks end, continue, pause and downgrade alike |
| Retry.ServerSetsPause | src/api.rs:1482-1492 | a refusal with the header n, whitespace around it or not, pauses 1000 n ms below 120 and 120,000 ms from there on |
| Retry.SpelledPause | src/api.rs:1482-1492 | the same for any digits, leading zeros and a plus sign included |
| Retry.ElseAsScheduled | src/api.rs:1482-1492 | in every other case the pause is the scheduled one |
| Retry.OverloadIsTriedAgain | src/api.rs:1449-1461 | in every call, a 429, 502, 503, 504 or 529 is followed by another attempt as long as a delay is left, then gives up; every other refusal ends the call with its status |
| Retry.PlainBodyIsParsed | src/api.rs:1403-1448 | in every call, a success that is no event stream ends it with the parse of its text |
| Retry.LossyReplaces | src/api.rs:490-505 | in a body that is not UTF-8 each invalid sequence and an unfinished end become one U+FFFD |
| Retry.StreamedBodyIsServed | src/api.rs:1403-1433 | in every call, a streamed success ends it with the decoded body, and an unfinished one is tried again after the scheduled delay |
| Retry.Client.TakeStreamFallback | src/api.rs:1152-1163 | fires exactly on a pending latch and consumes it |
| Retry.LatchMeaning | src/api.rs:580-588 | the latch's value says exactly whether a downgrade came and whether a take came after it |
| Retry.FiresOncePerRun | src/api.rs:1152-1163 | over a run exactly one take fires when some downgrade precedes some take, and none otherwise; it is the first take after the first downgrade |
| Ring.SectionBounds | scripts/wrap_assert.py:524-556 | the body lies between the first ring header and the next heading; no header is the only failure |
| Ring.SectionStands | scripts/wrap_assert.py:524-556 | in a file written out, the section is what stands between the ring's heading and the next |
| Ring.CheckUnique | scripts/wrap_assert.py:689-757 | no failure exactly when no non-blank line and no decision id occurs twice |
| Ring.RingIdReadsBack | scripts/wrap_assert.py:870-873 | the id of a written ring line is what stands before its first colon, whatever follows |
| Ring.SameIdIsRefused | scripts/wrap_assert.py:736-746 | two lines written with one id never pass together, whatever they say |
| Ring.DistinctIdsPass | scripts/wrap_assert.py:689-757 | lines written with distinct ids always pass |
| Ring.NoNumberIsTwelve | scripts/wrap_assert.py:616-672 | a header without a number stands for twelve lines |
| Ring.ProbePrepended | scripts/wrap_assert.py:887-906 | the length of the leading run of lines whose ids the previous ring does not hold |
| Ring.CheckSplice | scripts/wrap_assert.py:761-868 | accepts exactly when the rest of the new ring is the previous ring's beginning, cut at the capacity |
| Ring.ValidateRing | scripts/wrap_assert.py:1109-1124 | the count, uniqueness and splice legs in their order, accepting exactly the rings that pass all three |
| Ring.RingCapacity | scripts/wrap_assert.py:559-583 | the find loop returns the number of the first `last ` that a digit follows, or nothing |
| Ring.HeaderReadsBack | scripts/wrap_assert.py:559-583 | a header printed with a capacity gives that capacity back, whatever stands behind it |
| Ring.ValidateFile | scripts/wrap_assert.py:1109-1124 | a state file passes exactly when it has a ring section and its body passes against the capacity its own header names, 12 if it names none |
| Ring.OtherLinesAreRefused | scripts/wrap_assert.py:616-868 | a body accepted against a previous line holds bullets and blanks only, exactly as many as the capacity |
| Ring.FirstRingIsCounted | scripts/wrap_assert.py:1117-1124 | against no previous line only count and uniqueness decide |
| Ring.GateIsExact | scripts/wrap_assert.py:616-906 | against a previous ring with a line, any body passes exactly when its lines are distinct decisions and a fresh batch rotated onto the previous ring, cut at the capacity, with an old line kept |
| Ring.RingIsNewestHistory | scripts/wrap_assert.py:616-906 | over any run of accepted writes, whatever the first body held, the ring is the newest `capacity` lines of the history: nothing reordered, dropped inside or invented |
| Ring.FilesKeepHistory | scripts/wrap_assert.py:1109-1124 | the same for a run of state files, each accepted against the ring of the one before, at the length its own header names |
| Ring.ByteCarry | scripts/wrap_assert.py:310-341 | greedy matching accepts exactly the subsequences; on failure the index is the first at which no embedding of that prefix exists |
| BlockScan.TakeTs | scripts/wrap_assert.py:1207-1213 | the longest timestamp-shaped run and its end |
| BlockScan.FillDatumBlocks | scripts/wrap_assert.py:1216-1282 | ends on every text and returns the blocks at all markers, in text order; jumping behind a block misses none |
| BlockScan.NoMarkerInside | scripts/wrap_assert.py:1231-1282 | a block that was read holds no further marker |
| BlockScan.ReadExactly | scripts/wrap_assert.py:1216-1282 | at a marker the scanner reads figures d exactly when a block with figures d, in the grammar's concatenated form, stands there |
| BlockScan.StandingIsPrinted | scripts/wrap_assert.py:1216-1282 | what the grammar has standing somewhere is the printed text of those figures |
| BlockScan.PrintedIsFound | scripts/wrap_assert.py:1216-1282 | in any surrounding text a printed block is returned with exactly its figures, between the blocks before it and those behind it |
| BlockScan.PrintedIsReadIff | scripts/wrap_assert.py:1216-1282 | at a printed block's own marker exactly its figures are read if and only if no digit stands before it and no timestamp character behind it |
| BlockScan.PlainText | scripts/wrap_assert.py:1219-1227 | the printed form is `N iters / ~Ws wall [A -> B` |
| BlockScan.DatumLineIsFound | scripts/wrap_assert.py:1216-1282 | a datum line with decimal figures between two `YYYY-MM-DDThh:mm:ssZ` stamps is found with its figures in any text |
| BlockScan.DigitBeforeJoinsTheCount | scripts/wrap_assert.py:1233-1242 | whatever the figures, a digit directly before the block is read as part of its count |
| VacuousCheck.IsVacuousSegment | src/autospec.rs:214-266 | the loop that strips words off a string computes the predicate on its words |
| VacuousCheck.WordsTrim | src/autospec.rs:214-266 | trimming a segment changes none of its words |
| VacuousCheck.VacuousExactly | src/autospec.rs:214-266 | classified vacuous are exactly any assignments and `export`s followed by nothing or by one of the listed idle commands |
| Shell.SegmentsAreLeaves | src/autospec.rs:268-273 | splitting a printed script at the operators gives back exactly the leaves of its list/and-or/pipeline tree, in order |
| Shell.LeafWords | src/autospec.rs:214-266 | a shell cuts a leaf into the words the source cuts it into |
| Shell.VacuousLeafSucceedsIff | src/autospec.rs:214-266 | a leaf classified vacuous, run with the HOME the shell started with, exits 0 in every world exactly when it has none of the operands the predicate does not look at |
| Shell.VacuousChecksSucceedIff | src/autospec.rs:268-273 | all checks built from a set of vacuous leaves exit 0 in every world exactly when each leaf has its operands in order and, if one is a bare `cd`, none leaves HOME changed |
| Shell.VacuousCheckSucceeds | src/autospec.rs:268-273 | a check classified vacuous whose own leaves meet that condition exits 0 whatever the repository holds |
| Shell.HomeThenCdFails | src/autospec.rs:214-273 | `HOME=/x` and then `cd` is classified vacuous, each leaf succeeds alone, and the exit code is the world's |
| Shell.BarePrintfFails | src/autospec.rs:214-266 | `printf` alone is classified vacuous and fails everywhere |
| FsAtomic.TempNamesDiffer | src/fsatomic.rs:21-32 | writers of distinct pids have distinct temp names, none the target's |
| FsAtomic.StepKeepsInv | src/fsatomic.rs:21-48 | every step and crash of every writer keeps the invariant |
| FsAtomic.OnlyRenameChangesTarget | src/fsatomic.rs:21-48 | the target changes only at a writer's rename, and then holds exactly that writer's bytes |
| FsAtomic.TargetIsWhole | src/fsatomic.rs:21-48 | at every moment the target is the original or one writer's complete bytes |
| FsAtomic.OkReplaced | src/fsatomic.rs:21-48 | a writer that returned Ok put its own bytes into the target at its rename |
| FsAtomic.FailureLeavesNothing | src/fsatomic.rs:21-48 | a writer that fails leaves the target alone, and no temp file if its clean-up works |
| FsAtomic.WriterAdvances | src/fsatomic.rs:21-48 | each of a writer's own steps brings it nearer to its return, and it takes the way out only after one of them failed |
| FsAtomic.WriterCanStep | src/fsatomic.rs:21-48 | until it returns a writer has a step to take that does not fail |
| FsAtomic.CrashLeavesTemp | src/fsatomic.rs:21-48 | a run in which a process dies and leaves the temp file behind and the target as it was |
| FsAtomic.SharedPidLosesBytes | src/fsatomic.rs:21-32 | two threads of one process can leave a target that is neither the original nor either writer's bytes |
| Chat.StepKeepsInv | src/chat.rs:263-286 | every step of poll, serve, turn and front end keeps: taken plus queued is what was sent, on each channel |
| Chat.NothingIsLost | src/chat.rs:263-411 | requests and objectives are each taken once, in order; a session that exits has taken everything ever sent |
| Chat.ExitIsFinal | src/chat.rs:263-286 | once exited, always exited, and nothing more can arrive |
| Chat.RequestsAreServed | src/chat.rs:263-411 | what the worker takes is the oldest entry not taken yet, and it starts what that entry asks for |
| Chat.GoneSessionEnds | src/chat.rs:263-286 | once the front end has gone, the steps left are bounded by what is queued |
| Chat.WorkerCanStep | src/chat.rs:330-411 | until the session is over its worker has a step to take |
| Chat.CountersCount | src/chat.rs:454-515 | the machine's counters are the approved turns and the passed drafts of the run |
| Chat.ApprovalsAreBacked | src/chat.rs:454-515 | turns started by approval never outnumber the drafts that passed |
| Chat.SlotIsLatestDraft | src/chat.rs:454-482 | the slot holds x exactly if a draft of x passed and no draft has ended and no approval been accepted since |
| Chat.ApprovalRunsLatestDraft | src/chat.rs:488-515 | an approval starts a turn exactly if the gate accepts and a draft waits, with that draft's text; otherwise the session is idle with the slot as it was |
| Chat.NoDraftNoSecondTurn | src/chat.rs:454-515 | without a passed draft in between, a second approval starts no turn |
| Table.ParsedIsData | scripts/todo_flip.py:60-77 | whatever parses as a data row has trimmed, pipe-free cells, is neither header nor separator, and holds only the line's characters |
| Table.RowParses | scripts/ideate.py:109-116 | a row joined from any pipe-free texts parses into exactly those texts, stripped |
| Table.RebuildParses | scripts/todo_flip.py:179-184 | rebuilding a row from cells and parsing it returns the same cells |
| Table.RowsAreData | scripts/todo_flip.py:60-77 | a rebuilt row is data exactly if its first cell is not `id` and some cell is empty or holds more than dashes |
| Table.RowIsOneLine | scripts/todo_flip.py:186-194 | the rebuilt row is one physical line exactly when no cell holds a line separator |
| Table.LinesAreCounted | scripts/todo_flip.py:186-194 | each of the ten separators of `splitlines` ends a line, a carriage return together with its line feed, and no other character does |
| Table.ReadTextPlain | scripts/todo_flip.py:116-121 | text-mode reading changes a file exactly when it holds a carriage return |
| Table.ReadTextAt | scripts/todo_flip.py:116-121 | a carriage return, with the line feed behind it or without, is read as one line feed |
| Table.LinesJoin | scripts/todo_flip.py:202-204 | lines written joined are read back as the same lines |
| Table.JoinAround | scripts/todo_flip.py:80-85 | replacing one line changes only that line's text |
| TodoFlip.TodoFile.FlipRow | scripts/todo_flip.py:88-205 | the first failing check or the written text, in the code's order; on failure the file is as before |
| TodoFlip.Splice | scripts/todo_flip.py:196-201 | only the target line is replaced, and the carry assertion behind it never fires |
| TodoFlip.FlipAccepts | scripts/todo_flip.py:128-189 | a flip succeeds exactly for one six-cell row of that id, a legal status and cells without pipes or line separators |
| TodoFlip.FlipChangesOneRow | scripts/todo_flip.py:88-205 | all other lines stay, the target keeps its first four cells, and the id still names that row alone |
| TodoFlip.WrittenLines | scripts/todo_flip.py:196-204 | the file written splits into exactly the flipped lines again |
| TodoFlip.FlipAgain | scripts/todo_flip.py:88-205 | flipping again with the same arguments writes the same text |
| TodoFlip.FlipAfter | scripts/todo_flip.py:88-205 | a flip of another row before it changes neither the outcome nor the rebuilt row of a flip |
| TodoFlip.FlipsCommute | scripts/todo_flip.py:88-205 | flips of different rows in either order write the same lines |
| TodoFlip.OtherTextSurvivesIff | scripts/todo_flip.py:116-204 | the text around the row survives exactly when the file holds no carriage return |
| TodoFlip.CarriageReturnIsLost | scripts/todo_flip.py:116-204 | a file on which a flip succeeds and a carriage return outside the row is gone |
| Lane.FlipIsSound | scripts/ideate.py:746-787 | a ratified row keeps its first four cells and its notes, reads `open`, and no later sweep flips it |
| Lane.SweepFlipsExactly | scripts/ideate.py:746-787 | a line changes exactly when it is an eligible proposal; other rows never change |
| Lane.FlipsIff | scripts/ideate.py:746-772 | a line flips exactly if it is a six-cell row `P<digits>` with status `proposed` and neither marker, whose first date is at least seven days past |
| Lane.StampIsAdded | scripts/ideate.py:773-779 | a flipped row keeps four cells, reads `open`, and ends its notes in the day's stamp, added only if it is not there |
| Lane.ReportedInOrder | scripts/ideate.py:781-787 | the reported ids are those of the flipped rows, in order, none missing |
| Lane.SweepIsIdempotent | scripts/ideate.py:746-787 | a second sweep changes nothing and reports nothing |
| Lane.ShapeFailsIff | scripts/ideate.py:154-169 | the shape assertion stops a sweep exactly for a row that already holds a line separator |
| Filing.StubNumberOf | scripts/ideate.py:630-642 | a filed stub's name yields its own number |
| Filing.StubNumberIff | scripts/ideate.py:630-642 | a file counts for the next number exactly if its name is `p<digits>-<slug>.md` |
| Filing.SpecSlugOf | scripts/ideate.py:593-606 | a filed stub's name yields its own slug |
| Filing.FiledSlugsHold | scripts/ideate.py:609-627 | a slug is taken exactly when a row or a stub file holds it |
| Filing.NextNumberPasses | scripts/ideate.py:630-642 | the next number passes n exactly when n or a later number is still held by a row or stub |
| Filing.InsertsBehindHeading | scripts/ideate.py:645-669 | the insertion point is inside the lane's section exactly unless a proposal row stands elsewhere |
| Filing.FirstRowGoes | scripts/ideate.py:645-669 | the lane's first row goes behind the last header or separator row of its own section, or behind the heading |
| Filing.InLaneIs | scripts/ideate.py:645-669 | a line is in the lane exactly if it stands behind the first `## Proposed` and before the next heading |
| Filing.SectionGrows | scripts/ideate.py:645-669 | a row inserted in the lane's section leaves its heading in place and moves its end by one |
| Filing.LandsInLaneIff | scripts/ideate.py:721-730 | a filed row lands in the lane exactly when there is no proposal row yet or the last one stands in the lane |
| Filing.FilingAccepts | scripts/ideate.py:700-743 | a filing goes through exactly when there is a place for the row and title and stamps hold no pipe and no line separator |
| Filing.FiledOutsideLane | scripts/ideate.py:645-669 | a file on which every filing that goes through leaves its row outside the lane |
| Filing.ProposalRowParses | scripts/ideate.py:685-697 | a filed row parses as a six-cell proposal with its number and slug |
| Filing.FiledRowReads | scripts/ideate.py:685-697 | read cell by cell a filed row is its number, title, spec file, priority, `proposed` and the dated notes |
| Filing.FiledRowRipens | scripts/ideate.py:685-787 | filing and sweep together: a filed row is ratified by exactly the sweeps of the seventh day and later |
| Filing.FilingAddsOne | scripts/ideate.py:700-743 | a filing keeps every line in order, adds one row and one stub, and everything held before is still held |
| Ideate.Repository.Ratify | scripts/ideate.py:746-787 | all eligible rows or none; the file is written only when a row flipped, as the swept lines |
| Ideate.Repository.FileProposal | scripts/ideate.py:700-743 | either an assertion fails and nothing is written, or stub and row are |
| Ideate.Repository.Propose | scripts/ideate.py:848-879 | a cycle's filings and files, or the assertion that stopped it with the earlier filings kept |
| Ideate.CycleFiles | scripts/ideate.py:862-878 | at most three filings, consecutive numbers, slugs neither taken nor repeated, each held afterwards |
| Ideate.CyclePassesOverNothing | scripts/ideate.py:862-878 | a cycle files offered candidates only, and unless it was stopped or has filed three, every offered candidate's slug was taken or is filed |
| Ideate.FiledTextReadsBack | scripts/ideate.py:119-127 | the file a filing leaves splits into exactly its lines |
| Ideate.EditKeepsHeld | scripts/ideate.py:609-642 | an operator who deletes a row only beside its stub file, and a stub file only beside its row, makes no number and no slug disappear |
| Ideate.StepKeepsInv | scripts/ideate.py:848-879 | a cycle, a sweep or such an edit keeps issued numbers increasing and issued slugs distinct |
| Ideate.NothingIsFiledTwice | scripts/ideate.py:848-879 | over any run from any repository no number and no slug is issued twice |
| Ideate.NumberIsReissued | scripts/ideate.py:848-879 | a run in which row and stub are both deleted and the next cycle issues number and slug again |
| Ideate.FilingStaysInLane | scripts/ideate.py:700-743 | with all proposals in the lane, a filing keeps them and its own row there |
| Ideate.CycleStaysInLane | scripts/ideate.py:862-878 | so does a whole cycle |
| Ideate.SweepStaysInLane | scripts/ideate.py:746-787 | so does the sweep |
| Mentions.Tokenize | src/attach.rs:170-241 | the iterator loop computes the left-to-right scan of the grammar's forms |
| Mentions.TokensAreTheGrammar | src/attach.rs:7-19 | a mention is returned exactly when it is the grammar's form at an opening `@` that no earlier counting quote spans |
| Mentions.InOrder | src/attach.rs:170-241 | mentions are in text order and disjoint |
| Mentions.SpanHoldsPath | src/attach.rs:7-19 | a span is `@path` or `@"path"`; a bare path is not empty, has no whitespace, and lacks only the strippable marks of its run |
| Mentions.DocumentedIff | src/attach.rs:185-210 | the tokenizer gives the documented mentions exactly when no quote stays open or no later `@` opens a path |
| Mentions.UnclosedQuoteSwallows | src/attach.rs:185-210 | `@" @x` loses its mention |
| Mentions.ExpandMessage | src/attach.rs:65-107 | shown text, model text and attached paths, as functions of the mentions and of what resolves |
| Mentions.OnlyUnresolvedSpansChange | src/attach.rs:65-107 | the message splits into stretches; only the unresolved mentions, in order, are shown as notes, all else as typed |
| Mentions.AllResolved | src/attach.rs:65-107 | when every mention resolves the shown text is the typed text and all are attached |
| Mentions.ModelReadsFiles | src/attach.rs:80-107 | the model reads the shown text and behind it each attached file's text, under its path and in order |
| Completion.PrefixOfBytes | src/complete.rs:277-295 | text prefixes and byte prefixes of UTF-8 strings are the same |
| Completion.BoundaryIsCut | src/complete.rs:289-293 | byte boundaries are exactly the cuts between characters |
| Completion.LongestCommonPrefix | src/complete.rs:277-295 | the byte loop with its back-off computes the common prefix of the characters |
| Completion.LcpIsLongest | src/complete.rs:273-295 | a text is a prefix of all candidates exactly when it is a prefix of the result |
| Completion.TokenAtCursor | src/complete.rs:56-71 | for any byte offset the token is the whole whitespace-free run ending at the boundary the cursor backs off to |
| Completion.CandidatesAre | src/complete.rs:93-112 | the candidates of a slash token are exactly the built-in and pack names it is a prefix of |
| Completion.CandidatesInOrder | src/complete.rs:93-112 | built-ins come before packs, built-ins in their listed order, packs in byte order |
| Completion.OfferedOften | src/complete.rs:93-112 | a built-in is offered once, however many packs collide with it |
| Completion.DiscoveryOrderIsHidden | src/complete.rs:82-112 | the order in which packs are found never shows |
| Completion.SortForgetsOrder | src/complete.rs:109 | with a total order there is one sorted arrangement |
| Completion.SameCandidates | src/complete.rs:93-112 | a longer token that all candidates start with has the same candidates |
| Completion.TabSettles | src/complete.rs:318-331 | an extension starts with the token and keeps the candidates, so the next Tab opens the strip over them; an inline completion stays |
| Completion.StripOpensIff | src/complete.rs:318-331 | the strip opens exactly when at least two names match and no longer text is shared by all |
| Completion.BestMatches | src/complete.rs:256-271 | file candidates are matches, capped and ranked, and every match left out ranks behind every one returned |
| Completion.RankIs | src/complete.rs:256-271 | base names that have the query rank first, then paths of fewer bytes, then byte order |

## Left out

- HTTP, TLS, timeouts, the reader thread, Langfuse and console output: replaced by arbitrary chunkings and replies.
- JSON text syntax and error message wording: a parser parameter; errors keep their class.
- Unknown block types and a block opened over an open one are modelled, but the round trips do not range over them.
- Message contents other than their blocks, and everything `run_turn` does inside a turn: a turn ends well or badly.
- Non-unix branches of the driver lock, and the real `ps`, `kill` and `flock`: steps and oracles.
- DriverLock, FsAtomic and Chat: on values as transition systems rather than classes, because their claims are about interleavings.
- Ring.ValidateFile: the field, drift, eval-commit and corpus-tail legs of the state gate, each one comparison, and which line a failure message names.
- Ring.RingCapacity: `isdigit` and `int` on digits outside ASCII.
- Ideate.Repository.FileProposal: the stub file's text; no property here reads it back.
- The English-prose extractors, count words and the remaining figure scanners of the wrap gates: many cases of the shape `BlockScan` treats once.
- `archive::rotate`: tries ten names and renames to the first free one, which one branch settles.
- Shell: quoting, substitution, redirection, globs, `!`, background jobs and blanks other than space and tab.
- Packet collection, candidate wording and the noul transport in the ideation script; a crash between its two writes.
- Table.RowParses, Lane and Filing: `\d` and `int` also accept decimal digits outside ASCII; the models read ASCII digits.
- Mentions.ExpandMessage: reading files, directory listings, caps and path safety are one lookup function.
- Completion: the file index, its cache, the git call and the strip's highlight.
