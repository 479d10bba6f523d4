# fastrace: a model of the collection pipeline

fastrace records spans on the threads of an application and hands finished records to a reporter. This project models
that pipeline and proves what it guarantees over whole runs, from a call on a thread-local queue to the records of a
report, and some self-contained algorithms beside it. `dafny verify dfyconfig.toml` checks everything.

## How the modules fit together

* `Records` holds the values that travel: raw spans, token items, commands, span records.
* `SpanQueues` is the thread-local queue: one vector and one `next_parent_id` that together encode a stack of open spans.
  `LocalStack` stacks such queues as span lines with epochs. `LocalRecords` relates the records made from a queue to a
  direct semantics that never builds a queue, and `LocalPrograms` those of a line to the text of the program that ran on
  it.
* `Spsc` is the channel between a thread and the collector, with the sender's overflow list.
* `Postprocess` turns routed span sets into records and mounts events and properties that arrived without their span.
  `GlobalCollectors` is the batch state machine around it. The class is proved against a specification for one collect id
  at a time (`IdBatch`), and `CollectorRuns` and `DanglingRuns` prove the guarantees over runs about that specification.
  `Serving` drives the object itself over batches, with threads that come and go; `RecordContents` follows names, times,
  properties and events from raw spans to reported records.
* `Lineage` is the token protocol of `Span` as a step system over any number of threads, and joins it with the collector:
  every record that is ever reported belongs to the trace it should, below a parent that was created earlier.
  `RootCommands` adds the order of the commands that a root sends, and `RootOutcomes` what becomes of its trace, from the
  thread of the root to the reporter. `ThreadChannels` puts the channels of all threads in between and says what their
  overflow changes. `Completeness` shows that nothing recorded gets lost before it is sent, and `Delivery` that it is
  reported once for each sampled token item. `RecordedOnce` says when a record carries what was recorded on its span
  exactly once. `GeneratedIds` discharges the fresh ids that queues and token protocol assume from the generator in
  `SpanIds`.
* `TreeShape`, `TraceTree` and `TreeOrder` are the tree builder for tests, `Jaeger` the batch splitting of that reporter,
  `Traceparent` the header codec of section 3.2.2 of W3C Trace Context, `SpanIds` the id generator, `FormatString` the
  unescaping in the attribute macro.
* `RtTrace` and `Perfetto` are the batching, the overwriting ring, the descriptor store, the object pool and the packet
  buffer of the rt-trace crate. `RtReport` joins them in one flush.

Objects that the source updates in place are classes, and each of their methods is tied to a function of the old state.
The theorems are about those functions: `AfterOp` for a queue, `IdBatch` for a batch, `Flushed`, `AfterSend` and
`AfterForceSend` for a channel.

## Where the code does not keep a promise

* `SpanId::next_id` is documented to create a non-zero id. An id is zero exactly when the thread drew prefix 0 and its
  suffix has just wrapped around (`SpanIds.IdIsZero`).
* A span set is expanded once for each token item that names a collect id, its events and properties included, and the
  first record of a span gets everything that waits for it. Below a span that has two parents in one collect both items of
  a token name that collect, so that of the two records of a local span the first has each event twice and the second has
  none (`DanglingRuns.SharedTwiceDoubles`). The records of a span carry what was recorded on it exactly once if and only
  if there is no record, nothing to carry, or one record and no submit holding something for it names the collect twice
  (`RecordedOnce.CarriedOnceExactly`); for a local set that means that the token names the collect at most once or nothing
  was recorded (`RecordedOnce.LocalSetOnceExactly`).
* The sender pops its overflow list from the back, so forced messages can be received out of order
  (`Spsc.OverflowReorders`). Sending reorders distinct messages exactly when two messages are pending and the ring has
  room (`Spsc.OrderStep`), and a whole run keeps their order if and only if no call does so (`Spsc.OrderedExactly`).
  For this reason a cancelled trace can be reported (`ThreadChannels.OverflowReportsCancelled`): exactly when a batch drains
  the root's commit, its start has been drained by then and its cancel has not
  (`ThreadChannels.CancelledReportedExactly`).
* Dropping a sender loses the pending messages that do not fit (`Spsc.DropLoses`).
* The traceparent decoder accepts more than the encoder writes: upper-case digits, a plus sign, other widths and flag
  values, and all-zero ids, which the standard calls invalid. `Traceparent.DecodesExactly` says which headers it accepts
  and as what. Encoding restores an accepted header exactly when it is canonical (`Traceparent.EncodeRestores`).
* A string that is no format string can be taken for a literal (`FormatString.MalformedAccepted`). A string taken for a
  literal is a format string if and only if deleting doubled closing braces from it leaves none
  (`FormatString.LiteralIsFormatString`).
* Comments in `perfetto.rs` bound the packet buffer by 1024 and by twice the batch size; the code allocates four times the
  batch size, which a full batch needs as soon as descriptors come with it. It holds every batch exactly as long as at
  most twice the batch size of descriptors wait (`RtReport.BatchesFitExactly`).

## Model

| member | source | states |
|---|---|---|
| SpanQueues.SpanQueue.WithCapacity | fastrace/src/local/span_queue.rs:25-31 | a new queue is empty and has no open span |
| SpanQueues.SpanQueue.StartSpan | fastrace/src/local/span_queue.rs:34-52 | pushes a span below the innermost open one and opens it, or refuses at capacity and changes nothing |
| SpanQueues.SpanQueue.FinishSpan | fastrace/src/local/span_queue.rs:55-66 | under the two debug assertions, stamps the span and moves to its parent |
| SpanQueues.SpanQueue.AddEvent | fastrace/src/local/span_queue.rs:69-84 | appends an event below the innermost open span unless full |
| SpanQueues.SpanQueue.AddProperties | fastrace/src/local/span_queue.rs:87-109 | appends a property entry below the innermost open span unless full |
| SpanQueues.SpanQueue.WithProperties | fastrace/src/local/span_queue.rs:112-124 | extends the properties of the span with that handle and nothing else |
| SpanQueues.ChainIsStack | fastrace/src/local/span_queue.rs:34-66 | following parent ids backwards from `next_parent_id` gives exactly the stack of open spans |
| SpanQueues.StepEncodes | fastrace/src/local/span_queue.rs:34-124 | every well-nested call keeps the encoding and moves the stack by one level at most; finishing the innermost handle meets both debug assertions |
| SpanQueues.FinishAssertions | fastrace/src/local/span_queue.rs:55-66 | the debug assertions of `finish_span` hold if and only if the handle is the innermost open one |
| SpanQueues.StaysWithinCapacity | fastrace/src/local/span_queue.rs:34-124 | no call shrinks the vector or lets it outgrow its capacity |
| SpanQueues.ReachableChain | fastrace/src/local/span_queue.rs:34-124 | in every state reachable by well-nested calls, the parent chain is the stack of open spans, parents stand before children, and the capacity is kept |
| LocalStack.LocalSpanStack.EnterSpan | fastrace/src/local/local_span_stack.rs:37-40 | starts a span on the innermost line if that is sampled and has room; every other line is untouched, and without a line nothing happens |
| LocalStack.LocalSpanStack.ExitSpan | fastrace/src/local/local_span_stack.rs:43-51 | finishes a span on the innermost line only; a handle with the epoch of another line, or no line, leaves all lines as they are |
| LocalStack.LocalSpanStack.AddEvent | fastrace/src/local/local_span_stack.rs:54-64 | a sampled innermost line with room gets exactly one event entry more, with this id, time, name and properties, below its innermost open span; otherwise all lines stay as they are |
| LocalStack.LocalSpanStack.AddProperties | fastrace/src/local/local_span_stack.rs:98-108 | only the innermost line records the properties; if that is not sampled all lines stay as they are |
| LocalStack.LocalSpanStack.WithProperties | fastrace/src/local/local_span_stack.rs:111-128 | extends the properties of a span of the innermost line; a handle of another line, or a line that is not sampled, leaves all lines as they are |
| LocalStack.LocalSpanStack.RegisterSpanLine | fastrace/src/local/local_span_stack.rs:67-82 | pushes an empty line with the next epoch, which wraps at 2^64, or refuses at capacity |
| LocalStack.LocalSpanStack.UnregisterAndCollect | fastrace/src/local/local_span_stack.rs:85-95 | pops the innermost line and yields its spans and token only when the epoch is its own |
| LocalStack.LocalSpanStack.CurrentCollectToken | fastrace/src/local/local_span_stack.rs:131-134 | for whatever stack of open spans the innermost line encodes: each item of the line's token, below the innermost open span when there is one; no token without a line or without a token of its own |
| LocalStack.SpanLine.constructor | fastrace/src/local/local_span_line.rs:20-36 | a new line is empty, and sampled when it has no token or some item of it is |
| LocalStack.SpanLine.StartSpan | fastrace/src/local/local_span_line.rs:44-53 | a sampled line with room gets exactly one span entry, which becomes the parent of what follows, and hands out its index with the epoch of the line |
| LocalStack.SpanLine.FinishSpan | fastrace/src/local/local_span_line.rs:56-60 | the epoch guard before the queue; for a handle of this line the queue's debug assertions are asked for |
| LocalStack.SpanLine.AddEvent | fastrace/src/local/local_span_line.rs:63-69 | a sampled line with room gets exactly one event entry below its innermost open span, field by field |
| LocalStack.SpanLine.AddProperties | fastrace/src/local/local_span_line.rs:72-84 | a sampled line with room gets exactly one properties entry below its innermost open span, field by field |
| LocalStack.SpanLine.WithProperties | fastrace/src/local/local_span_line.rs:87-102 | sampling gate and epoch guard before the queue |
| LocalStack.SpanLine.CurrentCollectToken | fastrace/src/local/local_span_line.rs:105-121 | maps each item of the line's token to one below the queue's current parent |
| LocalStack.SpanLine.Collect | fastrace/src/local/local_span_line.rs:124-127 | yields the spans and the token if and only if the epoch is the line's own |
| LocalStack.CurrentTokenIsInnermost | fastrace/src/local/local_span_line.rs:105-121 | what a line passes on hangs below the innermost span of the stack that its queue encodes, or below the line's own parent when none is open; trace, collect id and flags are the line's |
| LocalStack.RecordedExactly | fastrace/src/local/local_span_line.rs:44-84 | for whatever stack a line encodes: a recording call on a sampled line with room appends exactly one entry below the innermost open span, field by field, and only a span becomes the new parent; any other line stays as it is |
| LocalStack.HandledExactly | fastrace/src/local/local_span_line.rs:56-102 | ending the innermost open span stamps that entry alone and makes the one below it the parent again; adding properties extends that entry alone |
| LocalStack.ForeignHandle | fastrace/src/local/local_span_line.rs:56-60 | a handle of another line changes nothing |
| LocalStack.ActionKeeps | fastrace/src/local/local_span_stack.rs:37-95 | each action of a last-in-first-out program, and its whole body, keeps everything but the innermost queue |
| LocalStack.LineKeeps | fastrace/src/local/local_span_stack.rs:67-95 | registering a line, running any program on it and unregistering it restores the lines from before |
| LocalStack.ProgramKeeps | fastrace/src/local/local_span_stack.rs:37-95 | every last-in-first-out program meets all assertions, keeps live epochs distinct while the counter has not wrapped, stays within capacity and restores the open spans |
| LocalStack.TokenRestored | fastrace/src/local/local_span_line.rs:105-121 | after any such program the current collect token and the open-span chain are those from before |
| LocalRecords.ToSpanRecords | fastrace/src/collector/global_collector.rs:390-404 | the records are the entries of the queue with everything that waits mounted |
| LocalRecords.StepMatches | fastrace/src/local/span_queue.rs:34-124 | each call on the queue does what the direct semantics does, entry by entry |
| LocalRecords.RunsMatch | fastrace/src/local/span_queue.rs:34-124 | after any run of calls, also at capacity, the queue matches the direct semantics |
| LocalRecords.RunsExtend | fastrace/src/local/span_queue.rs:34-124 | the runs considered cover every well-nested continuation: no step of one is excluded |
| LocalRecords.ToRecordsIsDirect | fastrace/src/collector/global_collector.rs:390-404 | for every run, the records are those that a recorder writing straight into the innermost open span would make: one a span, right parent, every event and property once and in order |
| LocalPrograms.ProgramTells | fastrace/src/local/local_span_stack.rs:37-95 | on a sampled line every last-in-first-out program, nested lines and full queues included, adds exactly the slots and items that can be read off its text |
| LocalPrograms.NothingTold | fastrace/src/local/local_span_line.rs:44-102 | without a line, or on an unsampled one, every program leaves all lines exactly as they were |
| LocalPrograms.LineTells | fastrace/src/local/local_span_stack.rs:67-95 | for every program between registering a line and unregistering it: the records of what is collected are the direct meaning of the program, each span with its name, times, parent, properties and events, as far as there is room; an unsampled line collects nothing |
| LocalPrograms.TakesIds | fastrace/src/local/span_queue.rs:34-124 | a program takes one id for each span, event and properties entry in its text |
| Postprocess.AmendSpan | fastrace/src/collector/global_collector.rs:557-612 | appends the record of a span, or lets its event or properties wait for the parent |
| Postprocess.AmendLocalSpan | fastrace/src/collector/global_collector.rs:488-555 | the same for a local span set: root spans go below the token's parent, unfinished ones end with the set |
| Postprocess.AttachAll | fastrace/src/collector/global_collector.rs:621-630 | a record receives waiting items in order, events and properties apart |
| Postprocess.MountDanglings | fastrace/src/collector/global_collector.rs:614-633 | the first record with an id receives all that waits for it; the early return changes nothing |
| Postprocess.WaitingAfterAbsorb | fastrace/src/collector/global_collector.rs:488-612 | for each span id, arriving items queue up behind those that wait, in arrival order |
| Postprocess.PostprocessSpanCollection | fastrace/src/collector/global_collector.rs:412-486 | appends the mounted records of all collections to those committed before, which stay as they are, and leaves the rest waiting; `RecordContents.PostprocessedCarry` says what these records are |
| RecordContents.ExpandedItems | fastrace/src/collector/global_collector.rs:488-612 | of each of the three span sets, exactly what was recorded for a span is aimed at it: events with name, time and properties, properties as they are, in order |
| RecordContents.PostprocessedCarry | fastrace/src/collector/global_collector.rs:412-612 | of all three span sets: one record a span, in order, with its name, its own properties first, the begin time of its begin and, unless the end lies before the begin, the end time of its end, which for an unfinished local span is that of the set |
| RecordContents.BatchCarriesSubmitted | fastrace/src/collector/global_collector.rs:304-386 | when not cancelable, each batch reports for each id records with exactly the content of its submits, in order |
| RecordContents.ReportCarriesSubmitted | fastrace/src/collector/global_collector.rs:295-374 | when cancelable, the one report of an id has the content of everything submitted from the start batch through the commit batch, in order |
| RecordContents.ContentConserved | fastrace/src/collector/global_collector.rs:251-387 | when not cancelable, over any run, keys, names, begin times and durations of all reported records are as a multiset those of all drained submits |
| GlobalCollectors.GlobalCollector.constructor | fastrace/src/collector/global_collector.rs:218-234 | a new collector is active for no collect id |
| GlobalCollectors.GlobalCollector.RegisterReceiver | fastrace/src/collector/global_collector.rs:50-52 | adds the channel of a new thread behind the others |
| GlobalCollectors.GlobalCollector.ReceiveAll | fastrace/src/collector/global_collector.rs:266-283 | empties one channel and sorts its commands by kind in order; false when the sender is gone |
| GlobalCollectors.GlobalCollector.DrainChannels | fastrace/src/collector/global_collector.rs:264-286 | empties every channel; the channels kept are exactly those whose sender lives, by index, in order and empty |
| GlobalCollectors.DrainedAreLive | fastrace/src/collector/global_collector.rs:264-286 | the specification keeps exactly those |
| GlobalCollectors.GlobalCollector.StartAndDrop | fastrace/src/collector/global_collector.rs:295-302 | all starts of the batch, then all drops |
| GlobalCollectors.GlobalCollector.RouteItem | fastrace/src/collector/global_collector.rs:314-349 | one token item: to its active collector, or to the stale list when not cancelable, or nowhere |
| GlobalCollectors.GlobalCollector.RouteToken | fastrace/src/collector/global_collector.rs:311-351 | every active collector gets exactly the items that name it, in token order |
| GlobalCollectors.GlobalCollector.RouteSubmits | fastrace/src/collector/global_collector.rs:304-352 | the same for all submits of the batch |
| GlobalCollectors.GlobalCollector.CommitAll | fastrace/src/collector/global_collector.rs:354-363 | each committed active collector is reported once and removed |
| GlobalCollectors.GlobalCollector.ReportLive | fastrace/src/collector/global_collector.rs:365-374 | each collector still active is reported once, keeps what waits and nothing else |
| GlobalCollectors.GlobalCollector.ReportStale | fastrace/src/collector/global_collector.rs:376-383 | stale span sets are reported one by one and the list is emptied |
| GlobalCollectors.PhasesCompose | fastrace/src/collector/global_collector.rs:291-386 | the phases of a batch together do to each collect id what the specification says |
| GlobalCollectors.GlobalCollector.HandleCommands | fastrace/src/collector/global_collector.rs:251-387 | a whole batch: for every collect id the new state and the reported groups are those of the specification, the channels of living threads are kept, in order and empty, and no others, reused vectors are empty, nothing happens without a reporter |
| CollectorRuns.RunPerId | fastrace/src/collector/global_collector.rs:251-387 | over any run, what is kept and reported for an id depends on the batches alone |
| Serving.Serve | fastrace/src/collector/global_collector.rs:237-249 | a collector object driven batch after batch, each time on the channels that the batch before has kept, refilled, and those of threads that registered since: it performs a run, and what it hands to the reporter are the records of the run's groups |
| Serving.HeardAt | fastrace/src/collector/global_collector.rs:264-286 | a thread with a channel is drained by the batch, exactly what it sent in one piece, and keeps its channel unless it ends |
| Serving.LivingIsHeard | fastrace/src/collector/global_collector.rs:237-286 | from its registration on and as long as it lives, everything a thread sends is drained by the next batch, in order and once |
| CollectorRuns.PostprocessedKeys | fastrace/src/collector/global_collector.rs:412-486 | a post-processing call yields exactly one record a span, whatever waits |
| CollectorRuns.NothingHeld | fastrace/src/collector/global_collector.rs:365-374 | when not cancelable, no active collector holds spans between batches |
| CollectorRuns.BatchReportsSubmitted | fastrace/src/collector/global_collector.rs:304-386 | when not cancelable, each batch reports for each id exactly the expansion of its submits, in order |
| CollectorRuns.Conservation | fastrace/src/collector/global_collector.rs:251-387 | when not cancelable, over any run, the reported (trace, span, parent) keys of all ids are as a multiset the expansion of all drained submits |
| CollectorRuns.LabelsNameReport | fastrace/src/collector/global_collector.rs:385 | labelling by collect id neither adds, drops nor reorders reported records |
| CollectorRuns.AllAtOnce | fastrace/src/collector/global_collector.rs:295-374 | when cancelable, a batch reports an id exactly when it is the first to commit it since its start with no drop in between, and then everything routed since the start batch |
| CollectorRuns.ReportedOnce | fastrace/src/collector/global_collector.rs:295-374 | when cancelable, an id started in at most one batch is reported by at most one batch, with exactly the submits from the start batch through the commit batch, also those drained after the commit |
| CollectorRuns.DropWins | fastrace/src/collector/global_collector.rs:300-363 | a drop handled since the start batch and before any earlier commit means that no record of the id is ever reported, even if the commit shares its batch |
| CollectorRuns.CancelledNeverReported | fastrace/src/span.rs:449-456 | start, cancel and a later commit on one channel: never reported, however the channel is cut into batches |
| CollectorRuns.CommittedIsComplete | fastrace/src/collector/global_collector.rs:295-374 | start and later commit on one channel: exactly one batch reports the trace, and the report holds at least everything that thread submitted in between, however the channels are cut into batches |
| DanglingRuns.MountedOnce | fastrace/src/collector/global_collector.rs:614-633 | over all records of an id together, what waits is mounted once |
| DanglingRuns.CallConserves | fastrace/src/collector/global_collector.rs:412-486 | in one call, items that waited and arrived are items mounted and still waiting, in arrival order |
| DanglingRuns.MountOnlyAppends | fastrace/src/collector/global_collector.rs:614-633 | mounting changes no id, time or name and only appends to properties and events |
| DanglingRuns.OwnItemsExactly | fastrace/src/collector/global_collector.rs:614-633 | whatever has waited since earlier batches: a record gets all items that were routed to its id, every copy of them, if and only if it is the first with its id in the call or there are none |
| DanglingRuns.DistinctIdsOwnItems | fastrace/src/collector/global_collector.rs:412-486 | with distinct ids every record of a call is its span with exactly its own items, those of earlier batches first |
| DanglingRuns.SharedTwiceDoubles | fastrace/src/span.rs:526-556 | a local set below a span with two parents in one collect, routed by the token that such a span issues: the first of its two records gets an event twice and the second none |
| DanglingRuns.CallConservesEvents | fastrace/src/collector/global_collector.rs:412-486 | the same conservation, read off the events on the reported records |
| DanglingRuns.ItemsConserved | fastrace/src/collector/global_collector.rs:365-374 | while a collector is active, over any number of batches, items received are items mounted and still waiting, in arrival order |
| DanglingRuns.EventsConserved | fastrace/src/collector/global_collector.rs:365-374 | the same, read off the events on all records reported for a span |
| DanglingRuns.OwnThenMounted | fastrace/src/collector/global_collector.rs:614-633 | a reported record has its own properties first and then those mounted on it |
| DanglingRuns.CallConservesProperties | fastrace/src/collector/global_collector.rs:412-486 | the conservation of one call, read off the properties that reported records carry beyond their own |
| DanglingRuns.PropertiesConserved | fastrace/src/collector/global_collector.rs:365-374 | and over any number of batches |
| RecordedOnce.ArrivesOnceExactly | fastrace/src/collector/global_collector.rs:304-352 | for all submits of a collect id with issued tokens: nothing recorded on a span is missing, and it arrives exactly once if and only if no submit that holds something for it names the collect id more than once |
| RecordedOnce.CarriedOnceExactly | fastrace/src/collector/global_collector.rs:412-633 | for every call, span and waiting items: each record of the span carries what has waited and what was recorded, once, if and only if there is no record, nothing to carry, or one record and no such submit |
| RecordedOnce.LocalSetOnceExactly | fastrace/src/collector/global_collector.rs:488-555 | for a local set below one parent: each record of one of its spans carries exactly what the thread recorded on it if and only if the token names the collect id at most once or nothing was recorded |
| RecordedOnce.RoutedOverIsRouted | fastrace/src/collector/global_collector.rs:354-363 | what a cancelable collector gathers over batches is what one batch of all their commands gives, so that these results hold of both modes |
| RecordedOnce.ReachableUniform | fastrace/src/span.rs:546-556 | in every run, the items of each token that is sent name one parent, unless the set is a span by itself |
| Lineage.IssueAllGood | fastrace/src/span.rs:153-171 | the token of a span below several parents keeps each parent's root, collect id and sampling and names that parent |
| Lineage.CurrentTokenGood | fastrace/src/local/local_span_line.rs:105-121 | so does the token that a line passes on to spans below its innermost open one |
| Lineage.SubmitKeeps | fastrace/src/collector/global_collector.rs:172-180 | submitting sends something if and only if some item is sampled, and then sampled items only: never an empty token |
| Lineage.StepKeeps | fastrace/src/span.rs:76-581 | every step of every thread keeps each token item tied to its root and each span below an earlier one of its traces; that nothing gets lost is `Completeness.StepComplete` |
| Lineage.ReachableInv | fastrace/src/span.rs:76-581 | so it holds in every reachable state |
| Lineage.SubmitsAccounted | fastrace/src/collector/global_collector.rs:172-180 | every span of every command that was sent belongs to a sampled root with the item's collect id and trace id |
| Lineage.ReportedAccounted | fastrace/src/collector/global_collector.rs:251-387 | from threads to reporter, not cancelable: each reported record belongs to a sampled root of its collect id, carries that root's trace id, and has the root's remote parent or a span created earlier in the same trace as its parent |
| Lineage.StartedInOneBatch | fastrace/src/collector/global_collector.rs:130-134 | since the token protocol starts each collect id once, no two batches ever start the same one |
| Lineage.OneReportPerTrace | fastrace/src/collector/global_collector.rs:251-387 | from threads to reporter, cancelable: for every collect id at most one report of the whole run holds its records, in one group, and they belong to its trace as above |
| Lineage.OneTracePerCollectId | fastrace/src/span.rs:82-101 | all records of a collect id belong to the trace of one root |
| Lineage.NoCycle | fastrace/src/span.rs:546-556 | climbing from record to parent record never meets a span twice |
| Completeness.SampledExactly | fastrace/src/collector/global_collector.rs:172-180 | the items kept for sending are exactly the sampled ones, in order, by index |
| Completeness.IssueAllExactly | fastrace/src/span.rs:153-171 | a span below several parents holds one item for each item of each parent that is alive, at a stated index, and no others |
| Completeness.MadeExactly | fastrace/src/span.rs:76-360 | what each step makes, field by field, and its token: a call on a line with room one entry, an event or properties of a span one entry below that span; other steps make nothing |
| Completeness.PlacedExactly | fastrace/src/span.rs:449-624 | what each step does to living spans and lines: it creates the span it makes, removes the one it drops, pushes an empty line with one item for each item of the span, below that span, pops one, or changes the innermost queue of its thread; everything else stays |
| Completeness.MadeInRun | fastrace/src/span.rs:76-624 | what a step of a run has made is still accounted for at its end |
| Completeness.SendsExactly | fastrace/src/span.rs:449-624 | what each step sends, on whose channel: a dropped span with that moment as its end and then its commit, all entries of a line when its local parent is dropped, an event or properties as it is made, and nothing else but starts and drops |
| Completeness.DropLineComplete | fastrace/src/span.rs:611-624 | dropping a local parent moves every entry of its line into one message, unless none of the items is sampled |
| Completeness.DropSpanComplete | fastrace/src/span.rs:565-581 | dropping a span moves it into one message likewise |
| Completeness.StepComplete | fastrace/src/span.rs:76-624 | every step of every thread keeps what `ReachableComplete` says |
| Completeness.ReachableComplete | fastrace/src/span.rs:76-624 | in every reachable state, each span, event and properties entry with a sampled token item is in exactly one place, a living span, a line or one message, with the content it was made with; a message goes with exactly the sampled items of the token that its entries were made with |
| Delivery.SentCounts | fastrace/src/span.rs:559-624 | counted over all messages, an ended span is due exactly once for each sampled item of its token, and never more often |
| Delivery.Delivered | fastrace/src/collector/global_collector.rs:251-387 | from threads to reporter, not cancelable: however commands are drained and cut into batches, a span is reported at most once for each sampled item of its token, and exactly once for each when it has ended and everything was drained |
| RootCommands.DropRootDisciplined | fastrace/src/span.rs:565-581 | dropping a root keeps every commit behind the root's own span and every collect id committed at most once |
| RootCommands.CancelDisciplined | fastrace/src/span.rs:449-456 | cancelling keeps every drop behind its start and before the commit |
| RootCommands.ReachableDisciplined | fastrace/src/span.rs:449-581 | so no step of any thread breaks that order |
| RootCommands.CommitFollowsOwnSpan | fastrace/src/span.rs:565-581 | in every run a collect id is committed at most once, on the same channel and directly after the root's own span was submitted for it, after its only start and after every cancel |
| RootOutcomes.CancelledRootNeverReported | fastrace/src/span.rs:449-456 | from threads to reporter, cancelable: a sampled root created, cancelled and dropped on one thread whose channel does not overflow is never reported, whatever the other threads send and however far and in whatever batches the channels are drained |
| RootOutcomes.CommittedRootReported | fastrace/src/span.rs:565-581 | one that is never cancelled is reported by exactly one batch once its commit is drained, with the root's own record below its remote parent and everything that thread submitted for the trace in between |
| ThreadChannels.ChannelsDrainOnce | fastrace/src/util/spsc.rs:34-75 | however the channels of all threads overflow, each command sent is drained at most once |
| ThreadChannels.ReportedExactly | fastrace/src/collector/global_collector.rs:295-363 | for every way of draining, in any order and with any losses: a batch reports a collect id if and only if it drains the commit, at or after the start, with no drop drained from the start on |
| ThreadChannels.RootOrdered | fastrace/src/span.rs:449-581 | a cancelled root's thread sends its start before every cancel and a cancel before its commit |
| ThreadChannels.ReceivedStartFirst | fastrace/src/util/spsc.rs:34-75 | no overflow makes the start come out of the channel behind a drop |
| ThreadChannels.AcceptedDropFirst | fastrace/src/collector/global_collector.rs:136-142 | forced commands are always accepted, so that whatever sends are refused a commit is accepted behind a drop |
| ThreadChannels.CancelledReportedExactly | fastrace/src/collector/global_collector.rs:295-363 | through channels that may overflow: a batch reports a cancelled root if and only if it drains the commit, the start has been drained by then and the cancel has not |
| ThreadChannels.CancelledInOrderNeverReported | fastrace/src/span.rs:449-456 | as long as no call on its channel reorders, a cancelled root is never reported, even when sends are refused |
| ThreadChannels.OverflowReportsCancelled | fastrace/src/util/spsc.rs:46-57 | a run of a channel after which a batch reports a span of a cancelled trace |
| ThreadChannels.InOrderDrains | fastrace/src/util/spsc.rs:34-75 | without refused sends and reordering calls, what is drained is a first part of what the thread sent, which is what the results about committed roots ask for |
| Spsc.Sender.FlushPending | fastrace/src/util/spsc.rs:35-58 | the retry loop terminates and does exactly what `Flushed` says |
| Spsc.Sender.Send | fastrace/src/util/spsc.rs:35-43 | sends after everything pending, or fails |
| Spsc.Sender.ForceSend | fastrace/src/util/spsc.rs:46-57 | never loses the value: into the ring or onto the list |
| Spsc.Sender.Drop | fastrace/src/util/spsc.rs:60-66 | moves pending messages in list order while they fit and abandons the ring |
| Spsc.Receiver.TryRecv | fastrace/src/util/spsc.rs:69-75 | as one atomic step: the oldest message of the ring; closed only when empty and abandoned |
| Spsc.FlushMoves | fastrace/src/util/spsc.rs:36-41 | a flush moves as many of the newest pending messages as fit, newest first |
| Spsc.SentExactly | fastrace/src/util/spsc.rs:35-57 | after any call that sends, the channel is spelled out: pending messages go first, newest first, and the value only behind all of them; it waits, or is refused, exactly when they leave no room |
| Spsc.ExactlyOnce | fastrace/src/util/spsc.rs:34-75 | over any interleaving, accepted values are as a multiset the received, buffered and pending ones, and the ring keeps its capacity |
| Spsc.SuccessEmptiesPending | fastrace/src/util/spsc.rs:35-43 | a send succeeds exactly when all pending messages and the value fit, and then nothing is pending; a failed one adds nothing |
| Spsc.OrderStep | fastrace/src/util/spsc.rs:34-75 | a call breaks the order of distinct messages if and only if it sends while two messages are pending and the ring has room |
| Spsc.FirstInFirstOut | fastrace/src/util/spsc.rs:34-75 | without such a call, values are received in the order in which they were accepted |
| Spsc.ReorderingLasts | fastrace/src/util/spsc.rs:34-75 | after such a call a distinct message is displaced for the rest of the run |
| Spsc.OrderedExactly | fastrace/src/util/spsc.rs:34-75 | so a run of distinct messages ends in the order of acceptance if and only if none of its calls reordered |
| Spsc.OverflowReorders | fastrace/src/util/spsc.rs:46-57 | a run in which the second of two forced messages is received first |
| Spsc.DropLoses | fastrace/src/util/spsc.rs:60-66 | a drop keeps the order and loses messages if and only if they do not all fit |
| TraceTree.Fill | fastrace/src/util/tree.rs:71-98 | the two loops fill in the last span with each id and its recorded children in order; they fail if and only if a parent is missing |
| TreeShape.TerminatesExactly | fastrace/src/util/tree.rs:308-319 | the recursion from the default id has a bounded depth if and only if the ids that it can reach can be ranked |
| TreeShape.DistinctTerminates | fastrace/src/util/tree.rs:308-319 | with distinct non-zero ids it always ends, cycles of parent ids or not |
| TraceTree.BuildIsShape | fastrace/src/util/tree.rs:308-319 | the recursion over the table gives the tree described by the parent ids |
| TraceTree.DecorateShows | fastrace/src/util/tree.rs:308-319 | every node of that tree shows name, properties and events of the last span with its id |
| TraceTree.FromItems | fastrace/src/util/tree.rs:67-103 | filling, building and sorting together, on every list whose recursion ends; no tree when a parent is missing |
| TreeShape.Flow | fastrace/src/util/tree.rs:308-319 | with repeated ids too, a span stands in the tree once for each recorded entry below each occurrence of its parent |
| TreeShape.ExactlyOnce | fastrace/src/util/tree.rs:308-319 | with distinct ids, exactly the spans whose ancestor chain ends at the default id stand in the tree, once each |
| TreeShape.LinksExactly | fastrace/src/util/tree.rs:90-98 | below those spans stand exactly their recorded children |
| TreeShape.LinksAreRecorded | fastrace/src/util/tree.rs:90-98 | the parent-child links of the tree are exactly the recorded ones, each once, if and only if all spans have such a chain |
| TreeShape.AllRootedExactly | fastrace/src/util/tree.rs:90-98 | and when no parent is missing, all have one if and only if the whole list can be ranked |
| TraceTree.QueuePlaced | fastrace/src/local/span_queue.rs:34-66 | in a queue that encodes a stack ids are distinct, no parent is missing and every ancestor chain ends at the default id |
| TraceTree.FromRawSpans | fastrace/src/util/tree.rs:67-103 | on such a queue the builder always succeeds |
| TraceTree.QueueTree | fastrace/src/util/tree.rs:67-103 | for every run of a queue, the tree has every span exactly once with exactly the recorded links, and sorting only rearranges siblings |
| TraceTree.FromSpanRecords | fastrace/src/util/tree.rs:257-306 | on every list whose recursion ends: succeeds if and only if no parent is missing and there is exactly one root, and then gives the sorted tree of that root |
| TreeOrder.TreeLaws | fastrace/src/util/tree.rs:24-30 | the derived order on trees is total and equates only equal trees |
| TreeOrder.StringOrder | fastrace/src/util/tree.rs:24-30 | strings are ordered by the character code at their first difference, a first part before the whole |
| TreeOrder.TreeOrderFields | fastrace/src/util/tree.rs:24-30 | names decide first, then children, properties and events |
| TreeOrder.Sort | fastrace/src/util/tree.rs:60-65 | sorts every level |
| TreeOrder.SliceSorted | fastrace/src/util/tree.rs:64 | the slice sort gives an ascending permutation |
| TreeOrder.AscendingUnique | fastrace/src/util/tree.rs:64 | there is only one, so the algorithm of the unstable sort does not matter |
| TreeOrder.SortedRearranges | fastrace/src/util/tree.rs:60-65 | sorting only rearranges siblings |
| TreeOrder.SortedIsNormalForm | fastrace/src/util/tree.rs:60-65 | two trees have the same sorted form if and only if they differ only in the order of siblings |
| Jaeger.TryReport | fastrace-jaeger/src/lib.rs:109-132 | at most n + log2 n iterations; every datagram is non-empty and below 8000 bytes; spans that fit together share one datagram, and otherwise each but the last is only as small as it is because about twice as many were too large; spans go out once and in order except those too large alone; stops early only when the encoder or the socket fails |
| Jaeger.Log2Bounds | fastrace-jaeger/src/lib.rs:122-126 | the bound is in terms of the binary logarithm rounded down |
| Jaeger.SentAreSendable | fastrace-jaeger/src/lib.rs:114-130 | when a batch is at least as large as each member alone, the spans sent are exactly those that fit alone, in order |
| SpanIds.IdGenerator.NextId | fastrace/src/collector/id.rs:84-96 | the i-th call gives the i-th id of the prefix |
| SpanIds.IdHalves | fastrace/src/collector/id.rs:84-96 | the prefix is the high half of an id and the position modulo 2^32 the low half |
| SpanIds.IdsCoincide | fastrace/src/collector/id.rs:84-96 | ids are equal if and only if prefixes are equal and positions agree modulo 2^32 |
| SpanIds.IdIsZero | fastrace/src/collector/id.rs:83-96 | an id is zero if and only if the prefix is 0 and the position is a multiple of 2^32; the first 2^32 - 1 ids never are |
| GeneratedIds.WindowDistinct | fastrace/src/collector/id.rs:84-96 | fewer than 2^32 consecutive ids of a generator are distinct, and all non-zero if and only if the prefix is not zero or the suffix does not wrap among them |
| GeneratedIds.DrawnReaches | fastrace/src/local/span_queue.rs:34-124 | every run on a queue with ids from a generator, other uses of it in between, is a well-nested run as soon as its handles are |
| GeneratedIds.DrawnWorldReaches | fastrace/src/collector/id.rs:84-96 | every run of all threads with ids from generators of different prefixes, fewer than 2^32 a thread, is a run of the token protocol: ids are never zero or used twice |
| Traceparent.RoundTrip | fastrace/src/collector/id.rs:281-322 | decoding an encoded context gives it back; the fields have 32, 16 and 2 lower-case digits |
| Traceparent.ReEncode | fastrace/src/collector/id.rs:281-322 | any accepted header re-encodes to one with the same meaning |
| Traceparent.EncodeRestores | fastrace/src/collector/id.rs:281-322 | encoding restores an accepted header if and only if it is canonical |
| Traceparent.ParseExactly | fastrace/src/collector/id.rs:292-294 | overflow checks at every digit refuse exactly the numbers out of range |
| Traceparent.DecodesExactly | fastrace/src/collector/id.rs:281-299 | a header decodes to a context if and only if it has exactly four fields, the version 00 and three numbers in range with at least one digit each, which spell the ids and a flag byte whose lowest bit is the sampled flag |
| Traceparent.DigitTable | fastrace/src/collector/id.rs:292-294 | the v-th characters of 0123456789abcdef and 0123456789ABCDEF and no others read as v, and v is written as the first of them |
| Traceparent.DocumentedHeader | fastrace/src/collector/id.rs:266-279 | the header of the documentation decodes to the ids given there and is written back the same |
| Traceparent.GrammarDecodes | fastrace/src/collector/id.rs:281-299 | every version-00 header of the standard's grammar, with any flags, decodes to the numbers that its digits spell |
| Traceparent.DecodedInRange | fastrace/src/collector/id.rs:281-299 | an accepted header yields a 128-bit trace id and a 64-bit span id |
| Traceparent.PaddedHexRoundTrip | fastrace/src/collector/id.rs:34-49 | a padded number has exactly its width in lower-case digits and reads back |
| Traceparent.PaddedHexUnique | fastrace/src/collector/id.rs:34-49 | there is only one such spelling |
| Traceparent.JoinSplit | fastrace/src/collector/id.rs:282-292 | splitting at dashes loses nothing and leaves no dash in a part |
| Traceparent.LenientExample | fastrace/src/collector/id.rs:281-299 | a header with a sign, an upper-case digit and short fields is accepted |
| FormatString.FirstReplacement | fastrace-macro/src/lib.rs:327-333 | the replacement of opening pairs sees each piece of a format string by itself |
| FormatString.SecondReplacement | fastrace-macro/src/lib.rs:327-333 | and without placeholders so does that of closing pairs after it |
| FormatString.UnescapeIsFormat | fastrace-macro/src/lib.rs:326-336 | for every well-formed format string the flag is set if and only if a placeholder exists, and otherwise the text is the formatted text |
| FormatString.GeneratedPropertyMeaning | fastrace-macro/src/lib.rs:296-321 | the generated property value is the call of `format!` with the string itself, or the literal it would produce |
| FormatString.UnescapeDoubled | fastrace-macro/src/lib.rs:326-336 | doubling the braces of any text and unescaping gives the text back |
| FormatString.LiteralIsFormatString | fastrace-macro/src/lib.rs:326-336 | any string taken for a literal is a format string if and only if deleting doubled closing braces from the string itself leaves no closing brace |
| FormatString.MalformedAccepted | fastrace-macro/src/lib.rs:326-336 | the condition fails for a concrete string, which passes as a literal and is spelled by no format string |
| RtTrace.SpanQueue.Push | rt-trace/src/span_queue.rs:92-97 | batches emitted and buffer together are all pushes in order; the buffer stays below the batch size |
| RtTrace.SpanQueue.Flush | rt-trace/src/span_queue.rs:100-104 | emits the buffer as one batch and empties it |
| RtTrace.SpanQueue.FlushAll | rt-trace/src/span_queue.rs:100-104 | afterwards the emitted batches are all pushes |
| RtTrace.RingBuffer.PushOverwrite | rt-trace/src/utils/ring_buffer.rs:25-35 | the ring holds the last pushes up to its capacity, oldest at the head |
| RtTrace.RingBuffer.Drain | rt-trace/src/utils/ring_buffer.rs:38-50 | exactly the last pushes since the previous drain, oldest first, and the ring is empty |
| RtTrace.OverwriteRotates | rt-trace/src/utils/ring_buffer.rs:29-34 | overwriting at the head and advancing it drops the oldest and appends the new item |
| RtTrace.GlobalSpanConsumer.PushOverwrite | rt-trace/src/consumer.rs:86-90 | the ring is created by the first command, with two places a shard |
| RtTrace.GlobalSpanConsumer.CollectAndPushCommands | rt-trace/src/consumer.rs:75-84 | every command of every channel goes into the ring, channel after channel |
| RtTrace.GlobalSpanConsumer.Flush | rt-trace/src/consumer.rs:92-117 | consumes the last two batches a shard of those received since the previous flush, oldest first; the first flush, and no other, publishes the process descriptor |
| RtTrace.NothingLost | rt-trace/src/consumer.rs:75-117 | nothing is lost between flushes if and only if no more batches arrive than the ring holds |
| Perfetto.DescriptorStore.AddDescriptor | rt-trace/src/span_queue.rs:25-33 | a new descriptor is not yet flushed |
| Perfetto.DescriptorStore.DrainDescriptors | rt-trace/src/span_queue.rs:34-48 | every descriptor is drained exactly once over all drains |
| Perfetto.Pool.BatchPull | rt-trace/src/utils/object_pool.rs:32-42 | the buffer is filled with pooled and new vectors, all of full length and none shared |
| Perfetto.Pool.Pull | rt-trace/src/utils/object_pool.rs:69-74 | hands out a full vector that nobody else holds; every other vector stays in the pool |
| Perfetto.Pool.Recycle | rt-trace/src/utils/object_pool.rs:55-58 | takes one back and keeps all pooled vectors full and unshared |
| Perfetto.PlacedIsPermutation | rt-trace/src/backend/perfetto.rs:231-253 | swapping each descriptor to the front puts the newest first and the rest in order, each once |
| Perfetto.AsI32Wraps | rt-trace/src/backend/perfetto.rs:141-148 | the thread id is the 32-bit number that agrees with the thread modulo 2^32 |
| Perfetto.DescribesExactly | rt-trace/src/backend/perfetto.rs:150-181 | what a descriptor packet says, field by field, for a thread and for a process |
| Perfetto.BeginsExactly | rt-trace/src/span.rs:36-46 | what a begin event says, field by field, with the literal name of the span type |
| Perfetto.WriteDescriptors | rt-trace/src/backend/perfetto.rs:231-253 | packet k describes the descriptor placed at k; later packets are untouched |
| Perfetto.WriteSpans | rt-trace/src/backend/perfetto.rs:255-304 | the begin and end events of span i stand at d + 2i and d + 2i + 1; other packets are untouched |
| Perfetto.FillPackets | rt-trace/src/backend/perfetto.rs:222-304 | d + 2s packets in that layout, all indices in range |
| Perfetto.Encode | rt-trace/src/backend/perfetto.rs:195-217 | the bytes written are the encoding of exactly the counted packets; the vector and all that the pool had are in the pool afterwards, at full length |
| Perfetto.Consume | rt-trace/src/backend/perfetto.rs:222-308 | one report: the encoding of packets that describe each undrained descriptor once and then carry two events a span; every vector is back in the pool at full length |
| RtReport.BatchesFitExactly | rt-trace/src/backend/perfetto.rs:33-42 | the packet buffer holds every batch of up to the batch size if and only if at most twice as many descriptors come with it |
| RtReport.WriteBatch | rt-trace/src/backend/perfetto.rs:222-308 | a batch of a queue with that many descriptors keeps all unchecked indices in range and drains the descriptors |
| RtReport.FlushToPerfetto | rt-trace/src/consumer.rs:92-117 | a whole flush: each report describes its batch, all reports together exactly the descriptors drained, all unchecked indices are in range, and the pool has every vector back |

## Left out

- I/O and serialisation: the reporters' sockets, HTTP and OTLP exporters, thrift, msgpack and protobuf encoders. Jaeger's encoder is a parameter that maps a batch to its size or an error, the socket one that accepts or refuses a datagram.
- Threads, locks, sleeping loops and the destruction of thread-locals. A batch drains the channels as they are; each channel call is one atomic step.
- Spsc.Receiver.TryRecv: does not split popping from checking for abandonment, which the source does in two steps.
- Time: instants are numbers and their conversion to Unix time an arbitrary function, so only the order and the saturating subtraction matter.
- Wrap-around of `NEXT_COLLECT_ID`: `RootCommands.CommitFollowsOwnSpan` assumes that the counter has not reached `usize::MAX`, the id of unsampled traces. Wrap-around of epochs: `LocalStack.ProgramKeeps` assumes that at most 2^64 lines are registered.
- SpanIds.IdGenerator.NextId: shift and bitwise or of two 32-bit halves are stated as multiplication and addition; the random id used while a thread-local is being destroyed is not modelled. `GeneratedIds.DrawnWorldReaches` assumes that the random prefixes of the threads differ.
- Lineage.StepKeeps: spans and lines are values of a global state whose steps any thread may take, since the claim is about interleavings; span objects are not classes there, and noop spans are steps that are not taken. Local spans pushed by hand, `LocalCollector` without a token, and properties set on a span itself before it is dropped are not steps.
- Completeness.ReachableComplete: a call on a full line makes nothing, as in the source. The begin of a span that is no local one is the clock of the state.
- Lineage.OneReportPerTrace: asks that each sent command is drained at most once, which `ThreadChannels.ChannelsDrainOnce` derives from the channels. Sends and receives of different threads may interleave in any way; that a command is received after it was sent is not used.
- RootOutcomes.CommittedRootReported: asks for a channel drained in order, which `ThreadChannels.InOrderDrains` derives from the absence of refused sends and reordering calls. A refused start or submit loses what it carries.
- Lineage.NoCycle: a root's record may end a climb only, because its remote parent is whatever id the caller supplied.
- LocalStack: `LocalSpan::enter_with_stack` panics where its documentation promises nothing happens; the model returns no handle. A guard whose line could not be registered is not modelled.
- LocalStack.ActionKeeps: programs act on the lines as values; each of their actions is the function that the methods of `LocalSpanStack` are proved against.
- GlobalCollectors.GlobalCollector.RegisterReceiver: a channel is its ring as the collector finds it, with the thread that owns it, drained by the same function as `Spsc.Receiver`; what a thread sends while a batch is being handled belongs to the next batch. The number of the thread only serves to speak of its channel.
- Serving.Serve: what is sent between two batches is put into the channels at once, and a thread ends after its last send.
- GlobalCollectors.GlobalCollector.ReportLive: the order of active collectors is arbitrary, as in the source's hash map, so results across collect ids are multisets.
- Postprocess.AmendSpan: records and waiting items are values passed in and out; sharing through `Arc` is sharing of values.
- TraceTree.FromItems: the recursion of the source does not end when it can reach a cycle, which takes a repeated or a zero id (`TreeShape.DistinctTerminates`); such lists are excluded. `from_span_sets` groups the same two loops by collect id and would only add easy members.
- TreeOrder.Sort: the tree is a value; the sort by reference of the source is not modelled. Strings are compared by character, which is the order of their UTF-8 bytes.
- Perfetto.Pool.Pull: one puller, that of the consuming thread; destroying a puller, which frees its buffer, is not modelled. `reset` does nothing in the source and here.
- Perfetto.DescriptorStore.AddDescriptor: the source panics on a known descriptor; this is a precondition.
- Perfetto.Consume: pooled packets keep stale fields, so only the written ones are described. Spans of other kinds make the source panic and are excluded.
- Perfetto.Encode: the protobuf encoding itself is an arbitrary function from packets to bytes.
- RtTrace.GlobalSpanConsumer.Flush: the consumer is asked for as a precondition, since the source panics without one, and so is a process descriptor that is not known yet.
- RtTrace.SpanQueue.FlushAll: the sharded store and its index arithmetic; each shard is a queue of its own.
- The rest of the attribute macro, `future.rs`, the futures adapters, configuration builders, examples and benchmarks.
