# wide-log, modelled and proved

wide-log collects everything one request logs into one JSON object. A guard owns a `WideEvent`, a tree
of values addressed by the keys of a schema; when the guard drops, the event is finalised, printed as
one line and handed to a writer thread. The schema itself is a JSON literal that a macro compiles into
key and path tables.

This project states what that pipeline does and proves it, for all inputs and over whole runs.

## Layout

| file | what it models |
|---|---|
| `WideEvents.dfy`, `EventLaws.dfy`, `Counters.dfy` | the event tree, its mutators, and the laws of path writes and counters |
| `Json.dfy`, `JsonParser.dfy`, `JsonRoundTrip.dfy`, `Utf8.dfy` | RFC 8259 documents with a reference parser, and UTF-8 by section 3 of RFC 3629 |
| `Serializer.dfy`, `EventDocuments.dfy`, `DocumentMeaning.dfy` | the direct serializer, its documents, and what they mean, told without the printer |
| `StringLiterals.dfy`, `RustLiterals.dfy` | the string literal reader of the macro, against JSON and against Rust |
| `ScopedGuards.dfy` | the inlined end of a guard against the simple form |
| `Guards.dfy`, `GuardRuns.dfy`, `GuardEmissions.dfy`, `GuardLogs.dfy`, `GuardPrograms.dfy`, `GuardObjects.dfy` | nested guards of any number of schemas: pointer cells, the hook stack, emissions |
| `Writers.dfy`, `WriterBatches.dfy` | the writer loop with a clock, and when it keeps a batch and when it closes one |
| `StdoutEmit.dfy`, `StdoutProgress.dfy` | the concurrent channel protocol: what it keeps and that no call gets stuck |
| `Pipeline.dfy`, `EmittedStream.dfy` | the delivered byte stream, and whole programs of guards on any number of threads joined to it |
| `Schemas.dfy`, `SchemaParser.dfy`, `SchemaGrammar.dfy`, `SchemaRendering.dfy` | the schema literal and its parser |
| `SchemaCompiler.dfy`, `SchemaContext.dfy`, `SchemaTables.dfy`, `SchemaPaths.dfy`, `SchemaMarkers.dfy`, `SchemaKeys.dfy`, `SchemaDefaults.dfy` | the schema compiler: its tables, paths, keys and defaults |
| `SchemaBuild.dfy`, `SchemaLeaves.dfy`, `SchemaDrops.dfy` | the event that a new guard starts with, leaf by leaf, and what its drop leaves |
| `Wrappers.dfy`, `Sequences.dfy` | option and result types, and one fact about sequences |

Where the source updates objects in place, the model has classes with the same fields, and each method
is proved against a function on values (`WideEvent`, `Sink`, `ScopedGuard`, `BufWriter`,
`ChannelSender`, `Statics`, `ContextCell`, `HookRegistry`, `Thread`, `GenContext`, `TokenIter`). The
theorems are about those functions. Integers of the source are bounded: `i64` and `u64` are subset types
and wrap as a release build does.

## What the proofs found

- `ScopedGuard::drop` (src/guard.rs:182-191) counts a replaced slot again. The printed event is right in
  every state; the cached count is right if and only if neither slot held a value of another type and the
  two slots are not one missing slot (`ScopedGuards.DropWellFormedIff`). For a new event of an accepted
  schema this means: unless the duration key has a default and no marker in the event object takes its place
  (`SchemaDrops.NewEventCountIff`, `SchemaDrops.OvercountWitness`).
- A `duration!` marker on the event's timestamp or id, or below it, is accepted, and the drop then loses the
  duration or the id (`SchemaDrops.ApartByMarker`, `SchemaDrops.LostFieldWitness`).
- The comment at wide-log-macros/src/codegen.rs:1104-1110, in the generated `Drop`, says that the event is
  emitted before the cell is restored. Rust runs the body of `Drop::drop` before it drops the fields, so the
  cell and the hook are back first, as src/context.rs:16-18 says. The model follows the language.
- Guards may drop in any order across schemas. Within one schema the cell is right after a drop if and only
  if the dropped guard was the innermost of its schema (`GuardRuns.DropInOrderIff`); dropping the outer of two
  loses the cell while the inner one is live (`GuardPrograms.OutOfOrderWitness`). The hook counts are right in
  every order (`GuardPrograms.HooksCountGuards`).
- README.md:455-459 of the repository says that without a marker `total_ms` becomes the duration. The code
  uses the only leaf of the duration object instead when there is just one of another name
  (`SchemaPaths.DocumentedDurationIff`): `{"duration": {"wall_ms": null}}` is accepted and sends the duration
  to `wall_ms` (`SchemaMarkers.OtherLeafWitness`).
- README.md:433 of the repository says that a key marked `duration!` is the duration. An accepted schema with
  one marker honours it if and only if the marker is inside the event object or the duration object has
  entries (`SchemaMarkers.MarkerHonouredIff`). `{"took": duration!}` is accepted and sends the duration to
  `duration.total_ms` (`SchemaMarkers.LostMarkerWitness`). README.md:455 wants exactly one marker in the
  duration object; two are accepted and the last one wins (`SchemaMarkers.TwoMarkersWitness`). In general the
  duration goes to some marker if and only if the event object holds one, or there is one anywhere and the
  duration object has entries (`SchemaMarkers.SomeMarkerHonouredIff`).
- Names may hold dots. The defaults and the document of a new event do not depend on that. The path table
  does: a path whose dotted form is taken is not added, so every path resolves to itself if and only if no
  two share a form (`SchemaPaths.KnownExactlyIff`). `{"a.b": null, "a": {"b": null}}` is accepted, and one of
  its two paths resolves to the other (`SchemaPaths.DottedWitness`).
- `unescape_json_string` accepts more than the strings of RFC 8259 section 7: raw control characters and
  quotation marks, a plus sign for a hexadecimal digit, escapes cut short, and surrogates, which become
  replacement characters, one for each half of a pair. It agrees with JSON on a body if and only if the body
  has none of these, or something that the reader rejects (`StringLiterals.UnescapeAgreesIff`). What the
  event writer prints has none of them, so that round trip is exact (`StringLiterals.UnescapeQuote`).
  These are statements about the function on any string. Its callers pass the text of a Rust literal token,
  and in a Rust literal only raw control characters, such as a newline, of all these can occur
  (`RustLiterals.RustAgreesIff`). On Rust literals the reader gives Rust's text or fails, and it fails if and
  only if there is an escape `\x`, `\0`, `\'`, `\u{`, or a line continuation (`RustLiterals.RustLiteralIff`).
- The comment at src/stdout_emit.rs:435-438 says that batches are always flushed inline when `max_interval`
  is zero. It is right for the per-line policy it names. In general, non-empty lines are flushed inline if and
  only if `max_lines <= 1` or `max_bytes` is one (`Writers.InlineIff`); otherwise a line can stay in the
  buffer for as long as nothing else arrives (`Writers.StuckLine`).
- At the largest unsigned value `inc` wraps to zero in a release build, while `add_n` stops there
  (`Counters.UnsignedEnds`).
- A schema may declare a key of the log's name. Its documents then repeat that name if and only if the slot is
  present and there are log entries (`EventDocuments.NamesDistinctIff`); `{"log": null}` is accepted
  (`SchemaDrops.LogKeyWitness`).

## Model

| member | source | states |
|---|---|---|
| WideEvents.WideEvent.EnsureCapacity | src/wide_event.rs:62-68 | the slot vector grows to the index with absent slots and never shrinks |
| WideEvents.WideEvent.Add | src/wide_event.rs:70-80 | the slot is overwritten, and counted when it was absent |
| WideEvents.WideEvent.Object | src/wide_event.rs:82-106 | the slot's object is borrowed; an absent or wrong-typed slot becomes a new object, and only an absent one is counted |
| WideEvents.WideEvent.DescendMut | src/wide_event.rs:141-149 | the borrow reached is the innermost object of the path, each object on the way made where needed |
| WideEvents.WideEvent.AddPath | src/wide_event.rs:119-139 | the 1- and 2-segment branches and the generic descent all perform the one path write |
| WideEvents.WideEvent.Inc | src/wide_event.rs:151-167 | increments the counter in the slot, starting at unsigned one |
| WideEvents.WideEvent.Dec | src/wide_event.rs:169-190 | decrements, saturating when unsigned, starting at signed minus one |
| WideEvents.WideEvent.AddN | src/wide_event.rs:193-219 | adds a signed amount in the regime of the slot, starting by the sign |
| WideEvents.WideEvent.IncPath | src/wide_event.rs:222-237 | both branches are the path write of an increment |
| WideEvents.WideEvent.DecPath | src/wide_event.rs:239-253 | both branches are the path write of a decrement |
| WideEvents.WideEvent.AddNPath | src/wide_event.rs:255-268 | both branches are the path write of an addition |
| WideEvents.WideEvent.AppendLogEntry | src/wide_event.rs:271-276 | one entry is appended and nothing else changes |
| WideEvents.WideEvent.AppendLogEntryStatic | src/wide_event.rs:280-283 | the same with a static message |
| EventLaws.ReadBack | src/wide_event.rs:82-147 | reading a written path gives the value the update leaves there |
| EventLaws.ReadElsewhere | src/wide_event.rs:82-147 | a path incomparable with the written one reads as before |
| EventLaws.ReadAbove | src/wide_event.rs:82-147 | every strict prefix of a written path is an object, with the rest of the write inside |
| EventLaws.ReadBelow | src/wide_event.rs:82-147 | below a written path only what the new value holds can be read |
| EventLaws.WritesCommute | src/wide_event.rs:82-147 | writes to incomparable paths commute, count and slot vector included |
| EventLaws.RunWellFormed | src/wide_event.rs:62-219 | after every run of mutators the cached count is the number of present slots and the slots stay within the keys, at every depth |
| EventLaws.RunReads | src/wide_event.rs:222-284 | a path depends only on its own updates, in order, whatever log entries and incomparable writes lie between |
| Counters.CounterValue | src/wide_event.rs:151-219 | a counter that starts below zero is the exact signed sum; otherwise it is unsigned and is the sum reflected at zero |
| Counters.CounterExact | src/wide_event.rs:151-219 | a counter is the exact sum if and only if its first delta is negative or no prefix sum is |
| Counters.CounterFrom | src/wide_event.rs:151-219 | from any slot: a number there is kept with its sign and counted on, and any other value is replaced as if it were absent |
| Counters.SignedWraps | src/wide_event.rs:151-219 | without any bound a signed counter is its sum up to a multiple of 2 to the 64th |
| Counters.UnsignedEnds | src/wide_event.rs:156-200 | at the ends of the unsigned range an increment wraps, a decrement stops at zero, and an addition stops at both |
| Counters.MinPrefixSumIsLeast | src/wide_event.rs:169-219 | the reflection is taken at the least of all prefix sums, and one of them attains it |
| Counters.CounterAtPath | src/wide_event.rs:222-268 | the same for a counter at any path of any event and run |
| Counters.NewCounterAtPath | src/wide_event.rs:222-268 | in a new event every counter starts from nothing |
| Serializer.WriteJsonStr | src/wide_event.rs:473-502 | the bytes are the UTF-8 of the quoted string with the escapes of RFC 8259 section 7 |
| Serializer.WriteValue | src/wide_event.rs:419-471 | the bytes are the printed JSON of the value's document, which stands for the value by `DocumentMeaning.DocumentMeans` |
| Serializer.WriteEvent | src/wide_event.rs:375-417 | the bytes are the printed JSON of the event's document, which stands for the event by `DocumentMeaning.DocumentMeans`: present slots in key order, then the log array |
| Serializer.SerializeTo | src/wide_event.rs:296-299 | the same from the mutable event |
| JsonRoundTrip.ParsePrint | src/wide_event.rs:375-502 | the reference parser of RFC 8259, run on a printed document and any suffix, gives the document and the suffix |
| EventDocuments.DocumentRoundTrip | src/wide_event.rs:375-502 | for every event tree, decoding and parsing the output followed by anything consumes exactly the output and gives the event's members in order |
| EventDocuments.IntegersAreExact | src/wide_event.rs:419-471 | integers appear as numbers that denote them |
| EventDocuments.MembersInOrder | src/wide_event.rs:375-417 | the members are the present slots in key order, each once, then the log array when there are entries |
| EventDocuments.NamesDistinctIff | src/wide_event.rs:375-417 | no two members have one name if and only if there are no log entries or no present slot has the log's name |
| DocumentMeaning.DocumentMeans | src/wide_event.rs:375-471 | for every event tree: the bytes, followed by anything, parse to a document that stands for it, value by value: equal booleans, numbers that denote the integers, the same strings and float tokens, null for null and non-finite floats, arrays and objects member by member, and log entries level first |
| DocumentMeaning.PathMeans | src/wide_event.rs:375-471 | looking a path up in the parsed document gives something exactly when the event has something there, and then it stands for that |
| DocumentMeaning.EntryMeans | src/wide_event.rs:385-416 | in the parsed document each log entry is at its place, with exactly its level under the level's name and its message under the message's |
| DocumentMeaning.AppendedEntryMeans | src/wide_event.rs:271-276 | after a log call the last element has the call's level and message, and the others are as before |
| EventDocuments.MemberCount | src/wide_event.rs:342-360 | the number of members is the cached count, plus one exactly when there are logs |
| EventDocuments.EventBytesNoControl | src/wide_event.rs:473-502 | a printed event has no control character and no line or paragraph separator, and no byte below 0x20 |
| EventDocuments.EscapeForm | src/wide_event.rs:473-502 | a character is printed as itself unless it is a quotation mark, a backslash, a control character or a separator; the others get their short escape or four lower-case digits |
| Utf8.DecodeEncode | wide-log-macros/src/codegen.rs:717-733 | encoding to UTF-8 is undone by the decoder of RFC 3629, so an emitted line is always valid |
| Utf8.EncodeDecode | wide-log-macros/src/codegen.rs:728-733 | what the decoder accepts is the encoding of what it gives, so the validity check accepts no second form |
| StringLiterals.UnescapeJsonString | wide-log-macros/src/parse.rs:543-578 | the loop computes the literal's text, or the first error in it |
| StringLiterals.UnescapeAcceptsIff | wide-log-macros/src/parse.rs:543-548 | exactly the texts between two quotation marks without a bad unit are accepted, and a text that is not between them is named as such |
| StringLiterals.UnescapeQuote | wide-log-macros/src/parse.rs:543-578 | reading back what the event writer quotes gives the string, for every string of Unicode scalars |
| StringLiterals.UnescapeAgreesIff | wide-log-macros/src/parse.rs:543-578 | for every body: the reader and JSON accept it with the same text, or both reject it, if and only if it has only plain characters and escapes, or a unit that the reader rejects |
| StringLiterals.ReaderFailsIff | wide-log-macros/src/parse.rs:554-575 | the reader fails exactly on a lone backslash, an unknown escape, or four characters after `\u` that are not hexadecimal after an optional plus |
| StringLiterals.ReaderErrorIs | wide-log-macros/src/parse.rs:554-575 | the error names the first bad unit and its characters, with zeros for missing ones |
| StringLiterals.LooseUnit | wide-log-macros/src/parse.rs:551-573 | a body of one loose unit is read as one character and is no JSON string |
| StringLiterals.RawWitness | wide-log-macros/src/parse.rs:551-554 | raw control characters and quotation marks are read as themselves |
| StringLiterals.PlusWitness | wide-log-macros/src/parse.rs:568-573 | a plus sign passes as a hexadecimal digit: `\u+041` is a letter |
| StringLiterals.ShortWitness | wide-log-macros/src/parse.rs:568-573 | an escape cut short is filled up with zeros |
| StringLiterals.SurrogateWitness | wide-log-macros/src/parse.rs:568-573 | half a surrogate pair is a replacement character |
| StringLiterals.PairWitness | wide-log-macros/src/parse.rs:568-573 | an escaped surrogate pair is two replacement characters where JSON reads one character |
| RustLiterals.RustLiteralIff | wide-log-macros/src/parse.rs:543-578 | for every body of a Rust string literal: the reader gives Rust's text or fails, and it fails if and only if the body has an escape foreign to it |
| RustLiterals.RustTokenIff | wide-log-macros/src/parse.rs:516-541 | the same for the whole token |
| RustLiterals.RustAgreesIff | wide-log-macros/src/parse.rs:543-578 | a Rust literal that the reader accepts is read as JSON reads it if and only if it has no raw control character |
| ScopedGuards.FastRefinesSlow | src/guard.rs:160-201 | the inlined path gives the value tree and logs of two path writes in every state, and a count larger by exactly the stated amount |
| ScopedGuards.DropWellFormedIff | src/guard.rs:170-191 | inlined and simple form agree in the count, and the tree stays well formed, if and only if no slot is wrong-typed and the two are not one missing slot |
| ScopedGuards.SameDocument | src/guard.rs:160-205 | the emitted document is that of the simple form in every state |
| ScopedGuards.DropReadsIff | src/guard.rs:192-205 | the timestamp can be read from every emitted event, and the duration if and only if the two paths are incomparable |
| ScopedGuards.DropKeeps | src/guard.rs:160-205 | every path apart from the two reads as before the drop |
| ScopedGuards.ScopedGuard.Drop | src/guard.rs:151-206 | dropping finalises by the branch the path lengths select and emits the finalised event if it was not emitted |
| GuardRuns.AlwaysAgrees | src/context.rs:64-80 | in every orderly run, after every step, each cell holds the innermost live guard of its schema and the hooks are the live guards' schemas in build order |
| GuardRuns.DropInOrderIff | wide-log-macros/src/codegen.rs:1103-1137 | a drop leaves cells and hooks in agreement with the remaining guards if and only if the dropped guard is the innermost of its schema |
| GuardPrograms.HooksCountGuards | src/hook_registry.rs:90-138 | in every order of drops the hooks counted are the live guards' schemas, so a pop always finds one |
| GuardPrograms.HookGoes | src/hook_registry.rs:90-98 | removing a hook succeeds exactly when it is there and takes one occurrence |
| Guards.RemoveHookAt | src/hook_registry.rs:90-98 | the hook removed for a guard is the guard's own place on the stack |
| GuardRuns.EachOnce | wide-log-macros/src/codegen.rs:1009-1041 | every guard built is either live or dropped, never both and never twice |
| GuardEmissions.EmissionsConserve | src/hook_registry.rs:147-163 | in every orderly run the emissions are, in drop order, each guard's initial event with exactly the calls that belonged to it, in call order, finalised |
| GuardEmissions.EmittedLogs | wide-log-macros/src/codegen.rs:759-763 | the log array of an emitted event is what it began with and then the level and message of each of its guard's own log calls, in call order, and no others |
| GuardEmissions.RootCallPlaced | src/hook_registry.rs:147-163 | in every orderly run a crate-root log call is in the innermost guard's emitted event, level as level and message as message, at its place in call order |
| GuardLogs.LogsConserved | src/hook_registry.rs:147-163 | once all guards have dropped, the log arrays of the emitted events hold what the events began with and each log call made under a guard of its own exactly once, and no other |
| GuardPrograms.ProgramOrderly | wide-log-macros/src/codegen.rs:1009-1041 | every well-nested program is an orderly run that leaves the stack as it found it |
| GuardPrograms.ScopeStacks | wide-log-macros/src/codegen.rs:1103-1137 | the body of a scope runs under its guard, and its preset before and its emit closure after run under the enclosing guards |
| GuardPrograms.OutOfOrderWitness | wide-log-macros/src/codegen.rs:1103-1137 | of two guards of one schema the outer one drops first: the cell is empty though the inner one is live |
| GuardPrograms.FormattedCall | src/hook_registry.rs:173-184 | around a formatted call every guard receives what it would if the code rendering the arguments had no formatted calls at any depth, and the innermost guard then receives the entry |
| GuardPrograms.FormattedDirect | src/hook_registry.rs:173-184 | when that code opens no scopes: each guard receives the direct calls on it in order, and the innermost one then the entry |
| GuardPrograms.ProgramConserves | wide-log-macros/src/codegen.rs:1009-1137 | a whole program leaves cells and hooks empty, emits each guard once, and its emitted log arrays together hold each owned log call exactly once |
| GuardObjects.ContextCell.Replace | src/context.rs:64-71 | the pointer is set and the previous one returned |
| GuardObjects.ContextCell.Restore | src/context.rs:75-80 | the pointer is set back |
| GuardObjects.HookRegistry.Position | src/hook_registry.rs:91-91 | the search from the inside finds the last occurrence |
| GuardObjects.HookRegistry.Remove | src/hook_registry.rs:90-98 | the last occurrence is removed, and whether there was one is returned |
| GuardObjects.Thread.Build | wide-log-macros/src/codegen.rs:1029-1041 | the machine's build step: pointer replaced and saved, hook pushed |
| GuardObjects.Thread.AppendLogEntry | src/hook_registry.rs:147-163 | the machine's crate-root log step; the innermost guard's event grows by exactly the entry of this level and message, and nothing else changes |
| GuardObjects.Thread.ByCurrent | wide-log-macros/src/codegen.rs:1170-1178 | the machine's step for a call on the current event of one schema |
| GuardObjects.Thread.Drop | wide-log-macros/src/codegen.rs:1103-1137 | the machine's drop step: pointer restored, hook popped, then the event finalised and emitted |
| Writers.WriterLoop | src/stdout_emit.rs:347-460 | the loop leaves the buffer as the turn function says, whose laws are those of `WriterBatches`, and answers every flush request once, in order |
| Writers.Conservation | src/stdout_emit.rs:384-449 | delivered and buffered bytes are the received lines joined, under every policy, and only the current batch is undelivered |
| Writers.BelowThresholds | src/stdout_emit.rs:384-432 | after each turn the open batch is below the line and byte limits, and empty when flushing per line |
| Writers.Amortised | src/stdout_emit.rs:386-450 | over any run, line-, byte- and time-caused flushes are paid for by the lines, bytes and time gone by, and request-caused ones are the flush jobs |
| WriterBatches.LineIsKept | src/stdout_emit.rs:386-432 | a line below the line, byte and time limits joins the batch, and nothing is written while the buffer has room |
| WriterBatches.LineOverflows | src/stdout_emit.rs:386-392 | a line that the buffer has no room for pushes out all that was pending, and itself if it is as long as the buffer |
| WriterBatches.LineCloses | src/stdout_emit.rs:399-432 | a line that reaches a limit closes the batch with everything written |
| WriterBatches.OtherTurns | src/stdout_emit.rs:433-450 | a request always writes everything out; a timeout does when the batch is due, and otherwise changes nothing |
| WriterBatches.ClosesIff | src/stdout_emit.rs:386-450 | a turn closes a batch of one line or more if and only if its line reaches a limit, or it is a request or a due timeout with lines pending |
| WriterBatches.ClosingsBounded | src/stdout_emit.rs:386-450 | over any run the batches closed are at most the lines over the line limit, the bytes over the byte limit, the time over the interval, and one for each request |
| WriterBatches.PerLineClosings | src/stdout_emit.rs:399-405 | flushing per line closes one batch for each line |
| WriterBatches.BatchIsKept | src/stdout_emit.rs:386-432 | a run of lines below all limits is kept whole: none of it is written |
| WriterBatches.BufferBound | src/stdout_emit.rs:347-392 | the buffer never holds more than 8 KiB |
| WriterBatches.DefaultPolicyIs | src/stdout_emit.rs:153-161 | the default policy is 100 ms, 8 KiB and 1000 lines |
| WriterBatches.DefaultDelivery | src/stdout_emit.rs:137-160 | under the default policy a line reaches the sink within 200 ms |
| WriterBatches.DefaultBatch | src/stdout_emit.rs:137-160 | under the default policy up to 999 lines of less than 8 KiB within 100 ms cost no write |
| WriterBatches.AckAt | src/stdout_emit.rs:433-434 | each request is acknowledged once, in its place among the requests |
| Writers.TimedDelivery | src/stdout_emit.rs:378-455 | with exact timers every line received reaches the sink before twice the interval has passed, for every arrival pattern |
| Writers.IdleDelivery | src/stdout_emit.rs:439-449 | one interval after the last job nothing is left in the buffer |
| Writers.NoIntervalNoTimer | src/stdout_emit.rs:435-449 | a timeout never flushes if and only if the interval is zero or the batch is empty |
| Writers.InlineIff | src/stdout_emit.rs:399-432 | without an interval, every non-empty line leaves no batch open in every run if and only if the policy is per line or flushes at the first byte; every line does if and only if it is per line |
| Writers.PerLineIsInline | src/stdout_emit.rs:435-438 | the per-line policy leaves no batch open after any line |
| Writers.StuckLine | src/stdout_emit.rs:435-449 | under every other policy without an interval a line of one byte stays in the buffer through any number of full waits of 100 ms |
| Writers.SinkIsWhole | src/stdout_emit.rs:386-434 | the sink never holds part of a line |
| StdoutEmit.ExecInv | src/stdout_emit.rs:271-345 | in every interleaving: the queue within its bound, no attempted line unaccounted for, flush jobs in their place |
| StdoutEmit.RunsConserve | src/stdout_emit.rs:271-299 | in every interleaving, what was delivered and buffered is the lines received in queue order, the queue holds no more than the capacity and one at least, and attempted lines are those queued, dropped or in flight |
| StdoutEmit.FlushDelivers | src/stdout_emit.rs:312-322 | when a flush returns from a live writer, everything queued before the call is delivered, in queue order |
| StdoutEmit.FlushReceives | src/stdout_emit.rs:312-322 | a waiting flush can return if and only if the writer has received its queue position plus one jobs |
| StdoutEmit.SubmitQueues | src/stdout_emit.rs:271-299 | when a submit can return from a live writer, or a try can return true, its line is in the queue, behind what was queued before |
| StdoutEmit.FlushLinearises | src/stdout_emit.rs:271-322 | over one run: a line whose submit returned before a flush was called is in the sink when the flush can return, after everything queued before it, with all other lines queued by then; and the flush can return if and only if the writer has received its queue position plus one jobs |
| StdoutProgress.ExecClock | src/stdout_emit.rs:378-450 | in every interleaving the writer's turns are in the order of time |
| StdoutProgress.RunsAmortised | src/stdout_emit.rs:386-450 | in every interleaving line-, byte- and time-caused flushes are paid for by the lines, bytes and time since the writer started, and request-caused ones are the requests received |
| StdoutProgress.RunsClosings | src/stdout_emit.rs:386-450 | in every interleaving the batches closed are bounded by the lines, bytes and requests received and the time since the writer started |
| StdoutProgress.RoomIff | src/stdout_emit.rs:101-123 | a send finds room always in an unbounded channel, and in a bounded one exactly while fewer jobs wait than its size, taken as one at least |
| StdoutProgress.TimeoutCatchesUp | src/stdout_emit.rs:435-449 | at a timeout everything sent is in the buffer or the sink, and in the sink when the batch is due |
| StdoutProgress.DeadWriter | src/stdout_emit.rs:271-299 | once the writer is dead nothing is queued, received or written any more, and every line attempted is dropped |
| StdoutProgress.ReceiveFrees | src/stdout_emit.rs:271-276 | one receive frees a full channel |
| StdoutProgress.NoCallStuck | src/stdout_emit.rs:271-322 | from every reachable state every submit, try and flush can return after receives of the writer and the caller's own send alone, at most one receive for each queued job and two steps more |
| StdoutEmit.ChannelSender.TrySend | src/stdout_emit.rs:112-123 | a full bounded channel or a closed one gives the job back |
| StdoutEmit.Statics.InitSender | src/stdout_emit.rs:324-345 | the first send creates the channel: unbounded when no capacity was set, else of its size, one at least; later ones reuse it |
| StdoutEmit.Statics.Submit | src/stdout_emit.rs:271-276 | the line is queued, or counted as dropped when the channel is closed, or the call blocks with nothing changed when an open channel is full |
| StdoutEmit.Statics.TrySubmit | src/stdout_emit.rs:290-299 | the line is queued and true returned, or it is counted as dropped and false returned |
| StdoutEmit.SubmitInRow | src/stdout_emit.rs:251-276 | from fresh statics all submits in a row are queued in order when no capacity was set, and with a bounded one exactly as many as it has room for before one blocks |
| StdoutEmit.Statics.CurrentFlushPolicy | src/stdout_emit.rs:214-218 | without a policy set it is 100 ms, 8 KiB and 1000 lines |
| StdoutEmit.Statics.SetFlushPolicy | src/stdout_emit.rs:210-212 | the first policy set is kept |
| StdoutEmit.Statics.SetChannelCapacity | src/stdout_emit.rs:245-247 | the first capacity set is kept |
| StdoutEmit.ChannelSender.Send | src/stdout_emit.rs:101-106 | an open channel with room takes the job, a closed one gives it back, and on a full one the call blocks with nothing changed |
| Pipeline.DefaultEmit | wide-log-macros/src/codegen.rs:710-739 | the printed event with one newline is submitted, or dropped and counted, or waits for room |
| Pipeline.SplitStream | wide-log-macros/src/codegen.rs:714-739 | splitting a stream of emitted events, of any schemas, at newlines gives their texts, in order |
| Pipeline.DeliveredEvents | src/stdout_emit.rs:386-392 | in every run, with events of any schemas, the sink holds the first of the queued events, whole, in queue order and nothing else, and splits into exactly their texts |
| Pipeline.FlushedEvents | src/stdout_emit.rs:312-322 | when a flush returns from a live writer, all events queued before it, of any schemas, are in the sink |
| Pipeline.BodyParses | wide-log-macros/src/codegen.rs:714-739 | each of those lines decodes and parses to a document that stands for its event |
| EmittedStream.SubmitsQueue | src/stdout_emit.rs:271-276 | while the writer lives, each thread's lines are queued in the order of its submits, whatever the other threads do |
| EmittedStream.CallQueuesOnce | src/stdout_emit.rs:271-299 | between its call and its return a `submit` or `try_submit` queues its line once if it reports success, and not at all otherwise |
| EmittedStream.FlushedExactly | src/stdout_emit.rs:312-322 | when a flush has returned and nothing was submitted since its call, the sink is exactly the stream of the events queued |
| EmittedStream.ProgramsDelivered | wide-log-macros/src/codegen.rs:710-739 | programs of guards on any number of threads, of any schemas: after a flush the sink is an interleaving of what they emitted, each event once, each thread's in order, and each line parses to a document that stands for its event |
| SchemaParser.ReadObject | wide-log-macros/src/parse.rs:466-514 | the loop with its entries and seen keys computes the object, or the first error |
| SchemaParser.ReadValue | wide-log-macros/src/parse.rs:369-426 | the iterator is read up to the end of one value, by the case of its first token |
| SchemaParser.ReadKey | wide-log-macros/src/parse.rs:516-541 | one key token: a string literal, or an identifier that is not a JSON word |
| SchemaParser.ReadSchema | wide-log-macros/src/parse.rs:97-104 | one object value and nothing after it |
| SchemaGrammar.ParseSchemaIff | wide-log-macros/src/parse.rs:369-541 | the parser accepts a token sequence as a value if and only if the sequence is a rendering of it: entries separated by commas, with or without a trailing one, in any parentheses |
| SchemaGrammar.AcceptedDistinct | wide-log-macros/src/parse.rs:489-493 | no accepted schema has a key twice in an object, at any depth |
| SchemaGrammar.RepeatedKey | wide-log-macros/src/parse.rs:489-493 | a schema that repeats a key is refused, and the error names the first key repeated |
| SchemaGrammar.NoValue | wide-log-macros/src/parse.rs:369-426 | the error for each token that begins no value: the end, an unknown word, a marker without its mark, punctuation, a minus sign without a literal, brackets |
| SchemaGrammar.NoSchema | wide-log-macros/src/parse.rs:97-104 | a value followed by more tokens, within parentheses or not, and a value that is no object are refused as such |
| SchemaGrammar.NoEntry | wide-log-macros/src/parse.rs:516-541 | an entry that begins with no key, or whose key no colon follows, is refused as such |
| SchemaGrammar.NoComma | wide-log-macros/src/parse.rs:495-514 | an entry that something other than a comma follows is refused as such |
| SchemaRendering.IntegerLiterals | wide-log-macros/src/parse.rs:432-464 | unsuffixed integers are unsigned, or signed when negative, within range, and outside it whatever the float parser says |
| SchemaRendering.DigitLiterals | wide-log-macros/src/parse.rs:432-464 | any digits, with leading zeros or not, with or without a minus sign and each integer suffix: the number of that type in range, and else whatever the float parser says |
| SchemaRendering.SignedLiteral | wide-log-macros/src/parse.rs:438-442 | the i64 suffix gives a signed number |
| SchemaRendering.OtherLiteral | wide-log-macros/src/parse.rs:428-464 | a literal that begins with no quotation mark, digit or sign is a float if the float parser takes it, and else refused |
| SchemaRendering.StringLiteral | wide-log-macros/src/parse.rs:428-436 | a string literal is its text, or refused for its first bad unit |
| SchemaRendering.ParseRender | wide-log-macros/src/parse.rs:369-541 | every schema with distinct keys can be written down, and parses back |
| SchemaContext.GenContext.AddKey | wide-log-macros/src/codegen.rs:116-128 | a new name gets the next index, a known one keeps its own |
| SchemaContext.GenContext.AddPath | wide-log-macros/src/codegen.rs:130-141 | a path new by its dotted form is appended and indexed |
| SchemaContext.GenContext.Walk | wide-log-macros/src/codegen.rs:143-208 | the recursion over the tree leaves the tables as the walk function says; the default of a leaf is its own literal by `Schemas.DefaultIsDeclared` |
| Schemas.DefaultIsDeclared | wide-log-macros/src/codegen.rs:165-192 | a leaf gives a new event the literal it is, in its own type; null, markers and objects give nothing |
| SchemaContext.GenContext.ResolveDurationSubtree | wide-log-macros/src/codegen.rs:239-320 | the tables and the error by the cases of a declared duration |
| SchemaContext.GenContext.ResolveEventSubtree | wide-log-macros/src/codegen.rs:354-404 | the tables and the error by the cases of a declared event object |
| SchemaContext.GenContext.Validate | wide-log-macros/src/codegen.rs:406-452 | rejects missing built-in paths and a default for the event id |
| SchemaContext.Generate | wide-log-macros/src/codegen.rs:8-24 | the passes in order give the compiled tables, or the first error |
| SchemaTables.JoinInjective | wide-log-macros/src/codegen.rs:130-141 | dot-free segments are recovered from the dotted form |
| SchemaTables.CompiledTables | wide-log-macros/src/codegen.rs:116-141 | after every accepted schema: keys and key index inverse, every path segment keyed, resolving a known path's dotted form gives the path, and the built-in paths and default paths keyed with a dotted form that resolves |
| SchemaTables.ResolveExactly | wide-log-macros/src/codegen.rs:578-592 | a dotted string resolves exactly when it is the join of a known path, and then to one |
| SchemaKeys.KeysInOrder | wide-log-macros/src/codegen.rs:116-208 | for every accepted schema the keys are the names it mentions, each once in the order of first mention, and then the built-in names it does not mention |
| SchemaKeys.KeyedIff | wide-log-macros/src/codegen.rs:116-128 | a name has a key if and only if the schema mentions or needs it |
| SchemaKeys.DeclaredKeyed | wide-log-macros/src/codegen.rs:143-208 | every segment of a declared path has a key |
| SchemaPaths.WalkAdds | wide-log-macros/src/codegen.rs:143-208 | walking a subtree adds only the paths of its nodes |
| SchemaPaths.WalkIndexes | wide-log-macros/src/codegen.rs:143-208 | and the dotted form of each of them is taken afterwards |
| SchemaPaths.ResolvesListed | wide-log-macros/src/codegen.rs:578-592 | a dotted string resolves exactly when it is the form of a declared or built-in path, and then to such a path |
| SchemaPaths.KnownExactlyIff | wide-log-macros/src/codegen.rs:130-141 | every declared and built-in path is in the table, and resolves to itself, if and only if no two of them share a dotted form |
| SchemaPaths.DotFreeDistinct | wide-log-macros/src/codegen.rs:130-141 | without dots in names no two do |
| SchemaPaths.DottedWitness | wide-log-macros/src/codegen.rs:130-135 | a schema with a dotted name is accepted in which two do, and one of them does not resolve to itself |
| SchemaPaths.KnownExactly | wide-log-macros/src/codegen.rs:143-404 | with distinct forms the path table is exactly the declared and built-in paths and is closed under prefixes |
| SchemaPaths.DurationPathIs | wide-log-macros/src/codegen.rs:239-404 | where the duration goes, for every accepted schema |
| SchemaPaths.DocumentedDurationIff | wide-log-macros/src/codegen.rs:264-313 | without a marker the duration is the built-in leaf if and only if the duration object does not have one leaf of another name |
| SchemaMarkers.MarkerHonouredIff | wide-log-macros/src/codegen.rs:239-404 | for every accepted schema with one marker: the duration goes to it if and only if it is inside the event object or the duration object has entries |
| SchemaMarkers.SomeMarkerHonouredIff | wide-log-macros/src/codegen.rs:239-404 | with any number of markers: the duration goes to one of them if and only if the event object holds one, or there is one and the duration object has entries |
| SchemaMarkers.LostMarkerWitness | wide-log-macros/src/codegen.rs:239-262 | a schema that marks another top-level key is accepted, and the duration goes to the built-in path |
| SchemaMarkers.TwoMarkersWitness | wide-log-macros/src/codegen.rs:264-313 | a schema with two markers is accepted, and the last one wins |
| SchemaMarkers.OtherLeafWitness | wide-log-macros/src/codegen.rs:264-313 | a duration object with one unmarked leaf of another name is accepted, and that leaf is the duration |
| SchemaDefaults.DefaultsDeclared | wide-log-macros/src/codegen.rs:164-192 | every default write is a declared leaf with its value |
| SchemaDefaults.DefaultsComplete | wide-log-macros/src/codegen.rs:164-192 | every declared leaf has its default write |
| SchemaDefaults.PassesExactly | wide-log-macros/src/codegen.rs:210-404 | walking subtrees again adds no default that is not declared |
| SchemaDefaults.CompileAccepts | wide-log-macros/src/codegen.rs:210-452 | a schema is accepted if and only if its duration is not ambiguous, its event is an object and its id has no default; otherwise the error names the first of these, and no internal error can occur |
| SchemaDefaults.ReplayIsDeclared | wide-log-macros/src/codegen.rs:513-539 | replaying exactly the declared leaves, in any order and with repetitions, reads at every path as declared |
| SchemaDefaults.DefaultsRebuildSchema | wide-log-macros/src/codegen.rs:513-539 | replaying the defaults on an empty event gives exactly the declared tree, each literal in its own type, without null and marker leaves and without the objects this empties |
| SchemaBuild.Build | wide-log-macros/src/codegen.rs:1009-1023 | the generated statements: defaults in order, then the calls of the preset, then the id |
| SchemaBuild.NewEventReads | wide-log-macros/src/codegen.rs:1009-1023 | a new event holds the declared tree with the id on its path |
| SchemaBuild.PresetKeepsId | wide-log-macros/src/codegen.rs:1017-1022 | whatever a preset does, the new event has its id |
| SchemaBuild.PresetReads | wide-log-macros/src/codegen.rs:1017-1022 | a path apart from the id that the preset writes only as a whole holds what is declared, changed by the preset's updates of it in order |
| SchemaBuild.PresetWellFormed | wide-log-macros/src/codegen.rs:1017-1022 | with any preset of legal calls a new event is a well-formed tree over the schema's keys |
| SchemaBuild.BuiltWellFormed | wide-log-macros/src/codegen.rs:1009-1023 | a new event is a well-formed tree over the schema's keys |
| SchemaBuild.NewEventDocument | wide-log-macros/src/codegen.rs:1009-1023 | the document of a new event, read under the declared names, holds what the schema declares, and the id |
| SchemaBuild.LiteralToDocument | wide-log-macros/src/codegen.rs:8-24 | the same from the tokens of the schema literal |
| SchemaLeaves.NewEventLeaf | wide-log-macros/src/codegen.rs:165-192 | case by case for every declared path apart from the id: a boolean, integer, float or string literal is in the new event as itself, and null and markers leave nothing |
| SchemaLeaves.NewDocumentLeaf | wide-log-macros/src/codegen.rs:513-539 | the same of the document: the schema literal and the printed JSON agree leaf by leaf |
| SchemaLeaves.NewDocumentId | wide-log-macros/src/codegen.rs:1009-1023 | and the id is there as a string |
| SchemaDrops.GuardFieldsIff | src/guard.rs:151-206 | for every accepted schema and every event that still has its id: duration, timestamp and id can all be read after the drop if and only if the duration path is not at or below the other two and these are apart |
| SchemaDrops.NewGuardFieldsIff | wide-log-macros/src/codegen.rs:1009-1023 | in particular for the event a new guard starts with, whatever its preset does |
| SchemaDrops.ApartByMarker | wide-log-macros/src/codegen.rs:354-404 | with distinct built-in names they are apart if and only if the event object has no marker that the event pass leaves at or below the timestamp or the id |
| SchemaDrops.LostFieldWitness | wide-log-macros/src/codegen.rs:373-385 | a marker on `event.timestamp` or on `event.id` is accepted; after the drop the duration's path shows the timestamp, or the id's path the duration |
| SchemaDrops.LogKeyWitness | src/wide_event.rs:375-417 | a schema with a key of the log's name is accepted, and the document of an event that sets it and has log entries repeats the name |
| SchemaDrops.NewEventCountIff | src/guard.rs:170-191 | for every accepted schema: dropping a new event keeps the exact count if and only if the duration key has no default, or a marker in the event object takes its place; otherwise one slot is counted twice |
| SchemaDrops.OvercountWitness | src/guard.rs:182-191 | the schema that declares a number as its duration is accepted, and dropping its new event over-counts by one |

## Left out

- `to_json`, the serde serializer and sonic-rs: their output is not the direct serializer's byte for byte.
- Float digits and float parsing: a finite float is a token of the number grammar, and `str::parse::<f64>` a function about which nothing is assumed.
- Duration units, clocks, time zones, ULID and UUID: the values a drop or a build writes are parameters.
- Debug builds, where integer overflow panics and the debug assertions run.
- The empty path returned for unknown keys: `path.len() - 1` underflows there, so the no-op of CHANGELOG.md:441-446 is not what the code does. Paths are non-empty.
- `on_type_conflict`, which only test builds can set.
- Child borrows: a mutable borrow of a child is modelled as taking the child out and putting it back, which is the same since nothing else can reach it in between.
- Write errors, partial writes and what happens after the sink; failure to start the writer thread; wrap-around of the dropped counter.
- `flush` as a method: it waits for another thread, so it is a call of several steps in the protocol only.
- The wait of a blocked `submit`: the methods say when a call blocks and that nothing has changed then; the waiting is in the protocol.
- Reuse of an event's address after its guard is gone: events are numbered in order of construction.
- The code of a preset closure: it is the list of calls it makes on the event.
- Guards that move to another thread, and emit closures of one's own beyond their log calls: where whole programs meet the channel, every guard emits by the default.
- tokio task-locals and scopes, tower middleware, `mem::forget`, `RestoreOnDrop::disarm`, panics in emit closures.
- The tracing capture layer and the `tracing` variant of the default emit.
- The reusable format and serialization buffers: only that a formatted call made while rendering is skipped.
- The override list and the built-in log names: the names of the built-in keys are parameters.
- Pascal-casing and keyword tables: the map from names to enum variants is a function, required to be injective on the keys where Rust requires distinct variants.
- Token spans and error texts: errors are named by kind.
