# Proved models of the SGLang tooling

A Dafny 4.11 model of the algorithms that the repository's benchmarks, trace tools, reports and scripts rest on, and
proofs of what they guarantee. `dafny verify dfyconfig.toml` checks the project.

## What is modelled

**The closed-loop multi-turn benchmark** (`Workload*.dfy`, from `benchmark/hicache/bench_multiturn.py`). A sender
thread, a response-handler thread and the server share a ready queue, a response queue, conversation records, two
counters, a pool of follow-up questions and, if switched on, a round barrier. `Workload.Step` performs one atomic
action of one of the three; `Workload.Run` is any interleaving of them, with any server failure. `WorkloadInvariant`
proves one inductive invariant; `WorkloadTheorems` draws from it what holds in every reachable state and of every run,
and `WorkloadAnswers` what becomes of the server's answers and of the questions. `WorkloadObject.dfy` is the mutable
object: payloads hold references to history lists that the handler goes on extending, and the object is proved to
follow `Step` all the same.

**The trace layout and the span forest** (`Layout.dfy`, `LayoutOptimality.dfy`, `TraceLayout.dfy`,
`StickyLines.dfy`, `GatewayLayout.dfy`, `SpanForest.dfy`, `SpanParts.dfy`, `SpanTraversal.dfy`, `SpanDrawing.dfy`,
`TraceConversion.dfy`, from `scripts/convert_otel_2_perfetto.py`). Spans go to lines by a sticky first-fit rule over sorted interval lists
with a two-neighbour overlap test. The span graph is built from arbitrary parent ids and then changed in place by
recursive passes; `TraceConversion.ConvertTrace` runs link, convert, layout and gather one after the other, with every
precondition of the later passes proved from the earlier ones.

**The host report** (`Intervals.dfy`, `Sweep.dfy`, `HostReport.dfy`, `Percentile.dfy`, from
`scripts/hicache_mamba_host_report.py`). Time is counted in whole ticks and an interval covers half-open unit cells, so
a measure is a number of cells; percentiles are over the reals. Results are stated before rounding.

**Text metrics** (`EditDistance.dfy`, `Text.dfy`, `MarkdownTable.dfy`, `HtmlTable.dfy`, from
`benchmark/ocr/eval_utils.py`), **the marker block** (`MarkerBlock.dfy`, from
`docs/scripts/update_lmsys_sglang_blogs.py`) and **checkpoint sharding** (`Sharding.dfy`, from
`examples/checkpoint_engine/update.py`).

`Spans.dfy` defines spans of time and their depth for both the layout and the report, `Sorting.dfy` stands for the
built-in stable sort and `Wrappers.dfy` holds the option type.

## Properties that fail, and exactly when they hold

- A run of the benchmark that has gone quiet recorded every request if and only if the server failed none
  (`CompleteIffNoFailure`). A client with n rounds did them all if and only if no request of its own failed and, under
  the barrier, no request failed in a round before n - 1, rounds counting from 0 (`ClientFinishes`): a failure in round
  r stops the clients with more than r + 1 rounds and no others. `StuckBehindFailure` gives a run in which it does.
- One placement keeps the lines free of overlap unless a zero-length span goes unchecked to a sticky line that blocks
  it, and then it does not (`PutKeepsIff`). Over all surroundings a span is harmless if and only if its trimmed length
  is not zero (`HarmlessIffNonZero`): a zero-length span can hide a longer one (`ZeroLengthMasks`), while a span that
  the trim leaves with negative length does no harm.
- The layout fails if and only if some root lists no span, because roots are sorted by their first one
  (`LayoutEngineSpans`); `LoneRootListsNothing` gives an input.
- A Markdown table comes back from being written and parsed if and only if its rows are clean and none looks like a
  separator (`TableRoundTrip`); the parser can itself return rows that do not survive (`BlankRowIsLost`).
- The HTML parser delivers the same list object it goes on filling. Its rows are those present at each closing `tr` if
  and only if no cell closes between the end of a row with cells and the next opening `tr` (`SharedRowIffReopened`,
  `UnopenedRowIsShared`).
- Replacing the generated block twice equals replacing it once if and only if the first cards hold no end marker
  (`PutPut`).

## Where the code and its description disagree

- `replace_generated_block` says it needs exactly one marker block; it replaces the first of any number, because the
  substitution is limited to one (`SearchReports`, `Decompose`). The model follows the code.
- The gateway's spans never get a child list (`scripts/convert_otel_2_perfetto.py:174-175`), so line 226 would raise for
  any of them. The model treats them as childless, which is what the rest of the script assumes.

## Model

| member | source | states |
|---|---|---|
| WorkloadInvariant.InitInv | benchmark/hicache/bench_multiturn.py:254-385 | the constructed benchmark satisfies the invariant for every valid configuration: each client has between one and the maximal number of rounds and the pool has the computed size |
| WorkloadInvariant.StepKeeps | benchmark/hicache/bench_multiturn.py:388-544 | every atomic step of sender, handler or server, failures included, keeps the whole invariant |
| WorkloadInvariant.RunKeeps | benchmark/hicache/bench_multiturn.py:388-544 | every interleaving of any length keeps the invariant |
| WorkloadTheorems.ReachableInv | benchmark/hicache/bench_multiturn.py:388-544 | all reachable states satisfy the invariant |
| WorkloadTheorems.BarrierSafety | benchmark/hicache/bench_multiturn.py:402-538 | with the barrier, what has left it belongs to the open round, what is held back to the next, and no client's next round is out before every client that has that many rounds finished the previous one |
| WorkloadTheorems.ConcurrencyBound | benchmark/hicache/bench_multiturn.py:388-409 | sent minus completed lies between 0 and the limit and counts exactly the open requests; a client has at most one turn anywhere |
| WorkloadTheorems.HandlerNeverDies | benchmark/hicache/bench_multiturn.py:484-486 | the pool always covers the follow-ups still owed, so popping it and indexing metrics never raises |
| WorkloadTheorems.RequestsByRound | benchmark/hicache/bench_multiturn.py:263-267 | the per-round client counts add up to the clients' round counts |
| WorkloadTheorems.PromptIsConversation | benchmark/hicache/bench_multiturn.py:449-516 | every queued, held, launching or in-flight prompt is the first prompt followed by all recorded replies and follow-ups so far |
| WorkloadTheorems.RecordWriter | benchmark/hicache/bench_multiturn.py:448-504 | a record changes only by the handler, and only for the client whose reply it holds or to whom it owes a question |
| WorkloadTheorems.HistoryFrozen | benchmark/hicache/bench_multiturn.py:449-516 | no step of any thread changes a client's record while one of its requests waits |
| WorkloadTheorems.TurnsGrow | benchmark/hicache/bench_multiturn.py:454-504 | along any run a client's recorded turns only grow at the end |
| WorkloadTheorems.PromptsExtend | benchmark/hicache/bench_multiturn.py:454-512 | a later prompt extends every earlier one of the client; the next round's is prompt, reply, follow-up |
| WorkloadAnswers.AnswersAreRecorded | benchmark/hicache/bench_multiturn.py:441-481 | for every run: a client's recorded replies are the outputs of the server's successful answers to it, in order, and the answers beyond its completed rounds are exactly those in the handler's hand and in the queue; the metrics, the one in hand and the queued ones are those of all answers, in order; under the barrier, round k's metrics are those of the clients' answers number k |
| WorkloadAnswers.PromptFromAnswers | benchmark/hicache/bench_multiturn.py:454-512 | every waiting prompt is the first prompt, then each of the server's answers to that client in order with the question asked after it |
| WorkloadAnswers.NextPrompt | benchmark/hicache/bench_multiturn.py:454-512 | the next round's prompt is the earlier prompt, the server's answer to it, and the question |
| WorkloadAnswers.QuestionsAreAsked | benchmark/hicache/bench_multiturn.py:485-504 | the questions asked and those left in the pool are together the sampled ones, each as often, and the pool is used up from its end |
| WorkloadAnswers.FifoOrder | benchmark/hicache/bench_multiturn.py:204-205 | along any run under fifo the requests leave the ready queue in the order in which they stand in it |
| WorkloadAnswers.NoneLost | benchmark/hicache/bench_multiturn.py:197-208 | under either policy every queued request has been taken or is still queued, each as often |
| WorkloadTheorems.StepMeasure | benchmark/hicache/bench_multiturn.py:402-538 | every step except idle polling lowers a fixed measure of remaining work, and polling never raises it |
| WorkloadTheorems.RunsAreBounded | benchmark/hicache/bench_multiturn.py:402-538 | however long a run polls, the number of its working steps is at most the measure of its first state |
| WorkloadTheorems.WorksUntilQuiet | benchmark/hicache/bench_multiturn.py:402-538 | a working step is enabled if and only if the system is not quiet |
| WorkloadTheorems.QuietMeansDone | benchmark/hicache/bench_multiturn.py:484-538 | once quiet, a client has done all its rounds if and only if it was not dropped and, under the barrier, every dropped client had completed at least one round less than this client has |
| WorkloadTheorems.HeldBehindDropped | benchmark/hicache/bench_multiturn.py:513-538 | a client held back for ever under the barrier waits behind one dropped in the open round, exactly one round behind it |
| WorkloadTheorems.RunDooms | benchmark/hicache/bench_multiturn.py:395-447 | along any run exactly the clients whose requests the server fails are dropped or about to be |
| WorkloadTheorems.FailsForGood | benchmark/hicache/bench_multiturn.py:444-447 | the round a client's request fails in is the number of rounds it has completed at the end of any continuation |
| WorkloadTheorems.ClientFinishes | benchmark/hicache/bench_multiturn.py:402-538 | for every quiet run: a client with n rounds did them all if and only if no failing step of the run failed its own request and, under the barrier, none failed any client in a round before n - 1 |
| WorkloadTheorems.CompleteIffNoFailure | benchmark/hicache/bench_multiturn.py:388-482 | a run that has gone quiet recorded all requests if and only if no step of it was a failed reply; then both counters equal the total and round k has exactly its configured number of metrics |
| WorkloadTheorems.DroppedStays | benchmark/hicache/bench_multiturn.py:444-447 | a client whose request failed stays dropped with an unchanged record |
| WorkloadTheorems.FailureFreezesBarrier | benchmark/hicache/bench_multiturn.py:444-447 | under the barrier, after a failure in round r no client ever completes more than r + 1 rounds in any continuation |
| WorkloadTheorems.StuckBehindFailure | benchmark/hicache/bench_multiturn.py:444-538 | a reachable quiet state with a client held back for ever behind another client's failure |
| WorkloadObject.ReadyQueue.Append | benchmark/hicache/bench_multiturn.py:193-195 | the item joins at the end |
| WorkloadObject.ReadyQueue.Pop | benchmark/hicache/bench_multiturn.py:197-208 | exactly one element leaves, the first or the drawn one; empty and unsupported-policy cases change nothing |
| WorkloadObject.WorkloadGenerator.constructor | benchmark/hicache/bench_multiturn.py:335-385 | the object starts in the initial state, each history a list of its own apart from the first inputs |
| WorkloadObject.WorkloadGenerator.SenderCheck | benchmark/hicache/bench_multiturn.py:405-405 | the limit test refines its transition; completions may arrive before the pop |
| WorkloadObject.WorkloadGenerator.SenderPop | benchmark/hicache/bench_multiturn.py:406-407 | taking a request by reference refines its transition |
| WorkloadObject.WorkloadGenerator.SenderLaunch | benchmark/hicache/bench_multiturn.py:408-409 | launching puts the request in flight and counts it |
| WorkloadObject.WorkloadGenerator.ServerReply | benchmark/hicache/bench_multiturn.py:388-400 | any request in flight is answered, in any order, with any outcome |
| WorkloadObject.WorkloadGenerator.GetResponse | benchmark/hicache/bench_multiturn.py:441-447 | the oldest reply is taken and sorted into failure or success; what becomes of it is stated by `AnswersAreRecorded` |
| WorkloadObject.WorkloadGenerator.CountCompleted | benchmark/hicache/bench_multiturn.py:446-482 | failures and recorded replies each count once as completed |
| WorkloadObject.WorkloadGenerator.HandlerIsExclusive | benchmark/hicache/bench_multiturn.py:455-504 | whenever the handler is about to extend a history list no waiting payload shares it and every key it uses exists |
| WorkloadObject.WorkloadGenerator.ExtendHistory | benchmark/hicache/bench_multiturn.py:454-504 | extending the shared list in place changes that client's record and the content of no waiting payload |
| WorkloadObject.WorkloadGenerator.RecordResponse | benchmark/hicache/bench_multiturn.py:448-481 | history, round and metrics move together to the transition's state |
| WorkloadObject.WorkloadGenerator.AskFollowUp | benchmark/hicache/bench_multiturn.py:484-516 | the last pool question extends the history and the new payload refers to that same list |
| WorkloadObject.WorkloadGenerator.CheckBarrier | benchmark/hicache/bench_multiturn.py:518-526 | the barrier counts the reply and opens exactly when the round's expected number is reached |
| WorkloadObject.WorkloadGenerator.ReleaseNext | benchmark/hicache/bench_multiturn.py:534-538 | held requests are released one by one in order, the sender free to run in between; then the round advances |
| WorkloadObject.WorkloadGenerator.Perform | benchmark/hicache/bench_multiturn.py:402-544 | any enabled action of any thread, performed on the object, is the transition and keeps the invariant |
| WorkloadObject.WorkloadGenerator.Interleave | benchmark/hicache/bench_multiturn.py:402-544 | the object under any schedule goes through exactly the states of the transition system |
| Layout.RankSplits | scripts/convert_otel_2_perfetto.py:59-59 | the bisection index separates smaller from not smaller intervals |
| Layout.TestIsExact | scripts/convert_otel_2_perfetto.py:58-70 | on a good line the two-neighbour test agrees with comparing against every interval |
| Layout.CheckedInsertKeeps | scripts/convert_otel_2_perfetto.py:58-73 | inserting an unblocked span of any length keeps the line sorted and free of overlap |
| Layout.Free | scripts/convert_otel_2_perfetto.py:111-119 | the first unblocked line, every earlier one being blocked; one past the end only if all are |
| Layout.FindLine | scripts/convert_otel_2_perfetto.py:95-120 | the chosen line is unblocked or the span has zero length, and a new line is opened only when all are blocked; the rule itself is stated by the next three rows |
| Layout.BlockedIffObstructed | scripts/convert_otel_2_perfetto.py:58-70 | for a span of any length, a good line is blocked if and only if some interval on it reaches past the span's start or starts within it |
| Layout.ChoiceIsRight | scripts/convert_otel_2_perfetto.py:95-120 | on good lines the answer is the sticky line if it is clear for the span or the span has zero length, and otherwise the first clear line or a new one |
| Layout.StickyThenFirstFit | scripts/convert_otel_2_perfetto.py:95-120 | on good lines a sticky line that a span of positive length meets nowhere is the answer; otherwise the least line that it meets nowhere, or a new one |
| Layout.PutKeeps | scripts/convert_otel_2_perfetto.py:95-120 | one placement keeps all lines good whatever the sticky line was |
| Layout.PlaceOnKeeps | scripts/convert_otel_2_perfetto.py:279-292 | any sequence of placements of non-zero-length spans keeps all lines good |
| Layout.GoodIsDisjoint | scripts/convert_otel_2_perfetto.py:58-73 | on good lines no two spans of positive length share an instant |
| Layout.PutKeepsIff | scripts/convert_otel_2_perfetto.py:95-120 | from good lines a placement keeps them good if and only if it is not that of a zero-length span on a sticky line that blocks it |
| Layout.ZeroLengthMasks | scripts/convert_otel_2_perfetto.py:98-99 | a zero-length span, placed unchecked, lets the next span overlap the one around it |
| Layout.HarmlessIffNonZero | scripts/convert_otel_2_perfetto.py:95-120 | lines stay disjoint whatever surrounds a span if and only if its trimmed start and end differ |
| LayoutOptimality.PeakStep | scripts/convert_otel_2_perfetto.py:111-119 | in start order a line is opened only when all lines are busy, so the number of lines stays the peak of live spans |
| LayoutOptimality.GatewayUsesPeakLines | scripts/convert_otel_2_perfetto.py:295-309 | the gateway's lines number exactly the most spans live at one instant |
| LayoutOptimality.NoFewerLines | scripts/convert_otel_2_perfetto.py:295-309 | no assignment of lines that keeps simultaneous spans apart uses fewer lines |
| TraceLayout.PlaceKeeps | scripts/convert_otel_2_perfetto.py:281-292 | one span on any pid keeps lines good and slot records exactly one per line |
| TraceLayout.LayoutIsSound | scripts/convert_otel_2_perfetto.py:278-309 | over all requests and pids every line is sorted and disjoint and each pid's slot records are 1..n once each |
| TraceLayout.LayoutHoldsAll | scripts/convert_otel_2_perfetto.py:279-292 | each pid's lines hold every span given for it, exactly as often as it was given |
| TraceLayout.BisectLeft | scripts/convert_otel_2_perfetto.py:59-59 | binary search finds the leftmost insertion point |
| TraceLayout.SpanLayoutContainer.CheckOverlap | scripts/convert_otel_2_perfetto.py:58-70 | the answer is whether some interval of the line meets the span |
| TraceLayout.SpanLayoutContainer.InsertSpan | scripts/convert_otel_2_perfetto.py:72-73 | the interval list stays sorted and gains the span |
| TraceLayout.InsertKeepsSorted | scripts/convert_otel_2_perfetto.py:72-73 | sortedness survives insertion even when the overlap test was skipped |
| TraceLayout.LayoutGraph.ChooseLine | scripts/convert_otel_2_perfetto.py:96-116 | the line of the rule: on good lines the request's own line if it is clear for the span or the span has zero length, otherwise the first clear line or the next number |
| StickyLines.FirstSpan | scripts/convert_otel_2_perfetto.py:279-292 | a request's first span on a pid gets the first line of that pid that is clear for it |
| StickyLines.LaterSpan | scripts/convert_otel_2_perfetto.py:95-120 | a later span gets the line of the request's previous span on that pid if it is clear for it, otherwise the first clear line |
| StickyLines.StaysOnLine | scripts/convert_otel_2_perfetto.py:95-120 | if every later span of a request on a pid finds the line of the previous one clear, all of them get one line |
| TraceLayout.LayoutGraph.FindLine | scripts/convert_otel_2_perfetto.py:95-120 | opens a container and a slot record exactly when a new line is needed and remembers the choice |
| TraceLayout.LayoutGraph.PlaceSpan | scripts/convert_otel_2_perfetto.py:282-292 | finding a line and inserting in place is one placement of the layout |
| TraceLayout.LayoutGraph.PlaceRequestSpans | scripts/convert_otel_2_perfetto.py:280-293 | a request's spans get exactly the lines of the layout, starting without a sticky line |
| TraceLayout.LayoutGraph.PlaceEach | scripts/convert_otel_2_perfetto.py:278-292 | all requests in order; each gets the lines the rule gives on the board its predecessors leave |
| TraceLayout.LayoutGraph.PlaceRequests | scripts/convert_otel_2_perfetto.py:278-292 | the same; without zero-length spans the containers end up sound |
| GatewayLayout.OnePid | scripts/convert_otel_2_perfetto.py:296-309 | placing gateway spans leaves all engine lines alone |
| GatewayLayout.PlaceGatewaySpans | scripts/convert_otel_2_perfetto.py:295-309 | the in-place gateway layout opens the peak number of lines, changes no engine line and keeps the layout sound for spans of non-zero length |
| SpanForest.IndexById | scripts/convert_otel_2_perfetto.py:173-173 | every id that occurs is a key and maps to a span that has it while no later span does; other ids are no keys |
| SpanForest.LastOrNone | scripts/convert_otel_2_perfetto.py:173-173 | the lookup gives p if and only if p stands in the list with that id and no later span has it, and nothing if and only if no span has it |
| SpanForest.BuildTree | scripts/convert_otel_2_perfetto.py:172-196 | for any ids: a child list is exactly the occurrences of spans that are no root and whose parent id is that of the list's span, this being the last span with that id, in input order; the roots are the occurrences of root modules' spans, in input order |
| SpanForest.SubDisjoint | scripts/convert_otel_2_perfetto.py:172-196 | different spans of one depth have nothing below them in common |
| SpanForest.ChildShrinks | scripts/convert_otel_2_perfetto.py:226-227 | below a root each recursive call works on strictly fewer spans, although the graph may have cycles elsewhere |
| SpanParts.AtMostOneParent | scripts/convert_otel_2_perfetto.py:179-186 | a span is listed under at most one parent and a root under none |
| SpanParts.ChildFacts | scripts/convert_otel_2_perfetto.py:226-227 | the children of a span split what is below it into separate parts |
| SpanParts.RootSpans | scripts/convert_otel_2_perfetto.py:237-253 | a root's list holds different spans two steps below it, and below them is exactly what the root shows |
| SpanParts.ListedOnce | scripts/convert_otel_2_perfetto.py:231-253 | over all roots together no span is listed twice, all are at depth 2, and below them is exactly what is shown, in whatever order the lists are |
| SpanParts.FlatPermutation | scripts/convert_otel_2_perfetto.py:271-277 | reordering the lists keeps every listed span, as often as it was listed |
| SpanTraversal.Convert | scripts/convert_otel_2_perfetto.py:199-227 | the recursion ends and moves the end of each span below back by 1000 exactly once; its event runs from its start to the moved end, counted from the baseline |
| SpanTraversal.ConvertThread | scripts/convert_otel_2_perfetto.py:237-252 | what is below a thread span gets that thread's pid; the thread span is untouched |
| SpanTraversal.DrawnRuns | scripts/convert_otel_2_perfetto.py:202-222 | counted from the baseline, a drawn event runs from the span's start to its moved end and carries the pid of the thread span above it, a child of a root |
| SpanTraversal.ConvertRoots | scripts/convert_otel_2_perfetto.py:231-252 | exactly the spans two or more steps below a root are converted, once, with their own thread's pid; all others, cycles included, keep end and event |
| SpanTraversal.ListRoots | scripts/convert_otel_2_perfetto.py:232-253 | each root's list is its threads' children, thread by thread |
| SpanTraversal.GenerateSpans | scripts/convert_otel_2_perfetto.py:230-253 | both together: conversion once each, and lists that name no span twice over all roots |
| SpanTraversal.BuildAndConvert | scripts/convert_otel_2_perfetto.py:172-253 | the same from any list of spans, with no assumption on ids |
| SpanDrawing.SetTid | scripts/convert_otel_2_perfetto.py:262-266 | a span and all below it get its line, nothing else of their events changes |
| SpanDrawing.SetAllTids | scripts/convert_otel_2_perfetto.py:279-293 | every listed span of every request, with all below it, is drawn on the line given to it and keeps the rest of its event |
| SpanDrawing.Gather | scripts/convert_otel_2_perfetto.py:396-407 | a span and all below it are written exactly once each, each followed by its instants and flow links |
| SpanDrawing.GatheredInFull | scripts/convert_otel_2_perfetto.py:396-407 | the spans are written one after the other, each with its instants and then its flow links, and the output holds nothing else |
| SpanDrawing.GatherEach | scripts/convert_otel_2_perfetto.py:404-405 | spans of one depth together write everything below them exactly once |
| SpanDrawing.GatherAll | scripts/convert_otel_2_perfetto.py:416-418 | from the roots' lists, in any order, every shown span is written exactly once, directly followed by its instants and then its flow links, and no other span is |
| TraceConversion.QueueFacts | scripts/convert_otel_2_perfetto.py:270-277 | sorting lists and roots leaves disjoint lists in order of their first start, with the same spans |
| Sorting.SortIsStable | scripts/convert_otel_2_perfetto.py:271-277 | spans with the same start keep their order |
| TraceConversion.OrderRequests | scripts/convert_otel_2_perfetto.py:270-277 | the ordering fails if and only if some root lists no span; otherwise every list is ascending in start and the lists in first start |
| TraceConversion.PlaceQueue | scripts/convert_otel_2_perfetto.py:278-292 | each request asks for its spans' pids and trimmed intervals and gets the layout's lines; sound unless a trimmed span is empty |
| TraceConversion.DrawQueue | scripts/convert_otel_2_perfetto.py:278-293 | every listed span is placed, and it and all below it are drawn on the line the layout gave it |
| TraceConversion.LayoutEngineSpans | scripts/convert_otel_2_perfetto.py:269-293 | the whole engine layout; it fails if and only if some root lists no span |
| TraceConversion.ConvertTrace | scripts/convert_otel_2_perfetto.py:445-459 | from any spans with any parent ids: each shown span has its end moved once, gets an event with its thread's pid on the line its listed ancestor was given, and is written once with its instants and flow links; no other span's end or event changes and none is written; there is one list per root, each list is laid out in order of start and the lists in order of their first; without empty trimmed spans no line has an overlap |
| TraceConversion.LoneRootListsNothing | scripts/convert_otel_2_perfetto.py:275-277 | a root by itself lists no span, an input on which the layout fails |
| Intervals.UnionSeconds | scripts/hicache_mamba_host_report.py:98-111 | the merge loop returns the number of cells covered by at least one interval |
| Intervals.RunExtends | scripts/hicache_mamba_host_report.py:106-107 | an interval that starts within or at the end of the open run extends it without counting a cell twice |
| Intervals.RunCloses | scripts/hicache_mamba_host_report.py:108-110 | a later interval closes the run and starts one disjoint from everything before |
| Sweep.AreaIsSumOfLengths | scripts/hicache_mamba_host_report.py:137-141 | depth summed over the cells equals the summed interval lengths |
| Sweep.BusyIsUnion | scripts/hicache_mamba_host_report.py:137-141 | the busy cells of a window are the union of the intervals within it |
| Sweep.AreaBounds | scripts/hicache_mamba_host_report.py:114-145 | busy <= area <= peak * busy |
| Sweep.CountIsDepth | scripts/hicache_mamba_host_report.py:137-144 | between two events the running count is the true depth |
| Sweep.CountNotBelow | scripts/hicache_mamba_host_report.py:130-142 | with ends first the running count never falls below the intervals still open |
| Sweep.CountNotAbove | scripts/hicache_mamba_host_report.py:130-143 | even among simultaneous events the count never exceeds the depth of a real cell |
| Sweep.SortedEventsStand | scripts/hicache_mamba_host_report.py:121-131 | the sorted events represent the clipped intervals |
| HostReport.LargestCountIsPeak | scripts/hicache_mamba_host_report.py:143-143 | the largest running count is the largest depth of a cell, so a handoff is not a peak of two |
| HostReport.CountStaysValid | scripts/hicache_mamba_host_report.py:136-142 | the running count is never negative after any number of events and zero after all of them |
| HostReport.SweepEvents | scripts/hicache_mamba_host_report.py:132-144 | the loop computes the area under the depth curve, the busy time and the peak |
| HostReport.SweepWindow | scripts/hicache_mamba_host_report.py:121-144 | for any intervals and window: area is the clipped total length, busy time the union, peak the largest depth |
| HostReport.BuildEvents | scripts/hicache_mamba_host_report.py:121-127 | the events are those of the non-empty clipped intervals |
| HostReport.Occupancy | scripts/hicache_mamba_host_report.py:114-145 | mean is clipped length per window, busy percentage the covered share, peak the largest depth; an empty window gives zeros |
| HostReport.ClippingIsHarmless | scripts/hicache_mamba_host_report.py:122-125 | a window that holds every interval changes neither total length, union nor peak |
| HostReport.Accounting | scripts/hicache_mamba_host_report.py:226-242 | union <= total forward time <= peak * union |
| HostReport.Window | scripts/hicache_mamba_host_report.py:226-228 | the window runs from the earliest forward start to the latest finish |
| HostReport.NonEmpty | scripts/hicache_mamba_host_report.py:232-238 | leaving out empty phases covers the same cells |
| HostReport.PhaseBusy | scripts/hicache_mamba_host_report.py:229-240 | the phase time is the number of cells in which some request is in that phase by the fields of its row |
| HostReport.CellsAreOccupied | scripts/hicache_mamba_host_report.py:148-157 | the cells covered by a phase's intervals are those in which some row is in the phase by its fields |
| HostReport.DepthIsNumber | scripts/hicache_mamba_host_report.py:148-157 | the depth of a phase's intervals is the number of rows in the phase |
| HostReport.InFlight | scripts/hicache_mamba_host_report.py:214-242 | on the row fields: mean in flight times the wall span is the sum of the forward times; the busy share times the span is the number of cells t with finish - forward <= t < finish for some row; the peak is the largest number of such rows; and cells <= sum <= peak * cells; an empty log gives zeros |
| HostReport.Summarize | scripts/hicache_mamba_host_report.py:214-242 | these figures, and the numbers of cells with finish - forward <= t < finish - forward + prefill for some row, and with finish - post <= t < finish |
| Percentile.PermutationInvariant | scripts/hicache_mamba_host_report.py:85-95 | the percentile does not depend on the order of the values |
| Percentile.StaysInRange | scripts/hicache_mamba_host_report.py:85-95 | it lies between minimum and maximum |
| Percentile.InterpolateMonotone | scripts/hicache_mamba_host_report.py:91-95 | interpolation is monotone within and across segments |
| Percentile.MonotoneInP | scripts/hicache_mamba_host_report.py:85-95 | a higher percentile is never smaller, so the median never exceeds the 90th |
| Percentile.HitsOrderStatistic | scripts/hicache_mamba_host_report.py:91-95 | where (n - 1) * p is a whole number k, it is element k of the sorted values |
| Percentile.IsLinearBetween | scripts/hicache_mamba_host_report.py:85-95 | where (n - 1) * p lies from k to k + 1, it is on the straight line from element k to element k + 1 of the sorted values |
| EditDistance.RowDistance | benchmark/ocr/eval_utils.py:617-629 | the single row, overwritten in place with the diagonal shortcut, ends with the distance of the whole strings |
| EditDistance.DiagonalShortcut | benchmark/ocr/eval_utils.py:625-626 | taking the diagonal on equal characters never misses a cheaper move |
| EditDistance.NoShorterScript | benchmark/ocr/eval_utils.py:617-629 | no script of inserts, deletes and substitutes is shorter than the distance |
| EditDistance.ShortestScript | benchmark/ocr/eval_utils.py:617-629 | some script has exactly that length |
| EditDistance.DistIsShortest | benchmark/ocr/eval_utils.py:605-631 | the distance is the length of a shortest script |
| EditDistance.ZeroIffEqual | benchmark/ocr/eval_utils.py:605-631 | zero if and only if the strings are equal |
| EditDistance.Symmetric | benchmark/ocr/eval_utils.py:605-631 | symmetry |
| EditDistance.Triangle | benchmark/ocr/eval_utils.py:605-631 | the triangle inequality |
| EditDistance.Bounds | benchmark/ocr/eval_utils.py:605-631 | at least the difference and at most the maximum of the lengths |
| EditDistance.NormalizedEditDistance | benchmark/ocr/eval_utils.py:605-631 | the score is in [0, 1], zero if and only if the strings are equal, and is the distance as a share of the longer length |
| MarkdownTable.ParseMarkdownTable | benchmark/ocr/eval_utils.py:193-206 | the loop returns the rows of the parse function, which the next rows pin down line by line |
| MarkdownTable.NoBarNoRow | benchmark/ocr/eval_utils.py:197-199 | a line without a bar gives no row |
| MarkdownTable.RowOnLine | benchmark/ocr/eval_utils.py:197-205 | a line with any number of outer bars, also none, between any spaces gives its cells without their spaces, unless it has no bar or is a separator |
| MarkdownTable.EveryRowLine | benchmark/ocr/eval_utils.py:197-205 | every line that gives a row is written that way |
| MarkdownTable.SeparatorIsPattern | benchmark/ocr/eval_utils.py:201-202 | the separator pattern matches exactly the non-empty lines of rule characters |
| MarkdownTable.ParsedIsClean | benchmark/ocr/eval_utils.py:193-206 | every row of every parse is non-empty with trimmed cells free of bars and line breaks |
| MarkdownTable.RowRoundTrip | benchmark/ocr/eval_utils.py:197-205 | a clean row printed and parsed comes back, unless padded with spaces it looks like a rule |
| MarkdownTable.TableRoundTrip | benchmark/ocr/eval_utils.py:193-206 | a table with separators and bar-free prose anywhere is read back if and only if its rows are clean and none looks like a rule |
| MarkdownTable.RangeIsClean | benchmark/ocr/eval_utils.py:193-206 | the parser can return exactly the clean tables |
| MarkdownTable.BlankRowIsLost | benchmark/ocr/eval_utils.py:201-203 | a row the parser can return but loses when it is printed with spaces |
| Text.LinesOfUnlines | benchmark/ocr/eval_utils.py:196-196 | splitting terminated lines gives them back |
| Text.LinesRejoin | benchmark/ocr/eval_utils.py:196-196 | the lines of any text, each with the line end that follows it, put together are the text; only a non-empty last line may lack an end |
| Text.SplitJoin | benchmark/ocr/eval_utils.py:203-203 | splitting joined bar-free pieces gives them back |
| Text.TrimIs | benchmark/ocr/eval_utils.py:197-203 | stripping removes exactly the outer runs |
| HtmlTable.HTMLTableParser.HandleStartTag | benchmark/ocr/eval_utils.py:219-224 | a new row list replaces the shared one; delivered rows keep their content |
| HtmlTable.HTMLTableParser.HandleEndTag | benchmark/ocr/eval_utils.py:226-231 | a closed cell also appears in every delivered reference to the current row |
| HtmlTable.HTMLTableParser.HandleData | benchmark/ocr/eval_utils.py:233-235 | text is kept only inside a cell |
| HtmlTable.HTMLTableParser.Feed | benchmark/ocr/eval_utils.py:209-235 | the object under any stream of callbacks follows the transition function |
| HtmlTable.HTMLTableParser.Delivered | benchmark/ocr/eval_utils.py:212-217 | what the row objects hold is the transition state's rows |
| HtmlTable.TableIsRead | benchmark/ocr/eval_utils.py:219-235 | a table's events deliver its rows however cell text is split into chunks |
| HtmlTable.NoisyTableIsRead | benchmark/ocr/eval_utils.py:219-235 | the same among any other tags, and any text outside cells |
| HtmlTable.DeliveredIsReadable | benchmark/ocr/eval_utils.py:226-231 | delivered rows are non-empty and their cells trimmed |
| HtmlTable.RoundTrip | benchmark/ocr/eval_utils.py:209-235 | the rows some stream delivers are exactly the tables of non-empty rows of trimmed cells |
| HtmlTable.SharedRowIffReopened | benchmark/ocr/eval_utils.py:219-231 | the result holds each row as it was delivered if and only if no cell closes before the next row starts |
| HtmlTable.UnopenedRowIsShared | benchmark/ocr/eval_utils.py:226-231 | two rows without an opening tag come out as one row of both rows' cells, delivered twice |
| MarkerBlock.Find | docs/scripts/update_lmsys_sglang_blogs.py:241-244 | the first occurrence of a marker at or after an index, or none |
| MarkerBlock.SearchReports | docs/scripts/update_lmsys_sglang_blogs.py:241-248 | the match used is the leftmost and then shortest, and there is none only if no start marker is followed by an end marker |
| MarkerBlock.Decompose | docs/scripts/update_lmsys_sglang_blogs.py:246-254 | the text is what precedes the block, the block, and what follows, the outer parts being those a replacement keeps |
| MarkerBlock.PutGet | docs/scripts/update_lmsys_sglang_blogs.py:240-254 | the markers then enclose exactly the new cards if and only if these hold no end marker |
| MarkerBlock.PutPut | docs/scripts/update_lmsys_sglang_blogs.py:240-254 | two replacements equal the second alone if and only if the first cards hold no end marker |
| MarkerBlock.GetPut | docs/scripts/update_lmsys_sglang_blogs.py:240-254 | replacing changes nothing if and only if the block already holds the cards |
| MarkerBlock.RefreshIsIdempotent | docs/scripts/update_lmsys_sglang_blogs.py:16-17 | with the index's own markers, refreshing again changes nothing if and only if the cards hold no end marker |
| Sharding.SharesAreAll | examples/checkpoint_engine/update.py:69-70 | the ranks' slices in order are the whole list |
| Sharding.PerRankIsLeast | examples/checkpoint_engine/update.py:69-70 | the slice length is the least k with n <= world * k |
| Sharding.SharesAreEven | examples/checkpoint_engine/update.py:69-70 | no slice is longer than the rounded-up quotient, and one is shorter only when nothing is left after it |
| Sharding.OwnedOnce | examples/checkpoint_engine/update.py:79-84 | every element of the list is held, at its place, by the slice of exactly one rank |
| Sharding.GroupByFile | examples/checkpoint_engine/update.py:80-85 | each name is filed under its own file and nothing else is filed |
| Sharding.SplitTensors | examples/checkpoint_engine/update.py:73-91 | a rank loads exactly the tensors of its slice, each from the file the index names |
| Sharding.AnnouncedOnce | examples/checkpoint_engine/update.py:101-111 | a rank's announced slice holds a given socket if and only if the rank leads that socket's group |
| Sharding.AnnouncedAll | examples/checkpoint_engine/update.py:101-111 | the announced slices of all ranks, in order, are all the sockets, each once |

## Left out

- Timing and I/O of the benchmark: request functions, sleeps, arrival rates, the 10 s queue timeout, heartbeats, progress bars and the loop exits that depend on them. A reply is a nondeterministic step and a random pop takes any element, given as a parameter.
- The chat-message format of the benchmark: only token-id histories are modelled, the default format.
- WorkloadObject.WorkloadGenerator.RecordResponse: the separate metric lists of one reply are kept as one entry per reply; inter-token latencies and summaries are not computed.
- Validation of command-line round limits: configurations are those with at most the maximal number of rounds and a pool of the computed size.
- The recorded turns and the set of dropped clients are bookkeeping of the model; the object does not hold them outside its specification.
- Attributes, names and metadata of trace spans other than slots, and how instants and flow links are made; the file formats around them.
- A root's span list is a list beside the root rather than an entry in it, made after the conversion; spans are drawn on their lines after all requests are placed rather than one by one. The passes involved touch different data.
- SpanDrawing.GatherAll: the gateway's own spans, which have nothing below them, and the metadata records are written beside it.
- Timestamps of trace events are kept in nanoseconds, without the division by 1000.
- The nested dictionaries of the layout are one map from pid and line to container, with a line count per pid.
- Text clean-up before the edit distance (stripping, Unicode normalisation); the distance is of the cleaned strings.
- Splitting a document into HTML and Markdown tables, and the HTML tokenizer: the parser is fed tag and data callbacks.
- Regular-expression log parsing, rounding, token rates and cache-hit ratios of the host report; log times are whole ticks.
- Percentile: p between 0 and 1, which is what the report uses.
- SplitTensors: files are opened in any order, of which the dictionary's insertion order is one.
- Card rendering, downloads and front matter of the blog script; process groups and HTTP of the checkpoint engine.
- Kernel benchmarks, serving runtime, router, `bench_mix.py`, wheel and redirect scripts: not part of this model.
