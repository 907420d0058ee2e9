# Handystats: the event queue, the incremental statistics, the pattern expander and the timer

Handystats collects metrics inside a running process. Application threads push event messages into a
lock-free queue, one processor thread takes them out and hands them to counters, gauges and timers, and
those keep their statistics incrementally over a decaying time window. This project models the four parts
in which the library's difficulty lies, and proves what they promise.

**The event queue** (`Events`, `EventQueueProtocol`, `QueueInvariant`, `QueueTheorems`, `QueueCalls`,
`EventQueue`). The queue is an
intrusive linked list with a stub node that the consumer puts back into the list. `EventQueueProtocol` is a
transition system with one step for each atomic load, store or exchange, any number of producers, the one
consumer, the counter `mq_size`, and the memory of messages, whose addresses may be handed out again as
soon as a message is deleted. Its history variable `log` lists the nodes in the order of the exchanges.
`QueueTheorems` proves, for every run, that the queue refines an atomic first-in, first-out queue; that no
step touches a deleted message and none is leaked; what a null result of `pop` means; the accounting
identity of `mq_size`, which never wraps; that `pop` is wait-free; and that a drain ends. `QueueCalls`
speaks of whole calls within a run: what a null or a message from `pop` says about the queue at its start, that
`push` is wait-free, and which memory a step depends on. `EventQueue` is the same code
as classes over a linked list that is updated in place, as it runs when no other thread is about.

**The incremental statistics** (`MathUtils`, `Histogram`, `QuantileExtractor`, `Statistics`,
`StatisticsSteps`, `StatisticsRuns`). The
class `IncrementalStatistics` updates its fields as the original does, and each of its methods is proved
against functions on values. `StatisticsSteps` spells out in numbers what one
operation does to every field, and `StatisticsRuns` proves what holds after every run of `update` and
`update_time`: the documented recurrence, the additivity of time, bounds on the moving values and on the
histogram. `Histogram` covers decay, insertion, pruning and merging; `QuantileExtractor` inverts the
piecewise-linear density. Doubles are `real`, the tolerance of `cmp` is zero, and the square root is a
parameter with the contract `IsSqrt`.

**The pattern expander** (`PatternExpander`, `PatternTheorems`). The recursive parser of brace patterns with
its position, its nested mode and its two errors. `PatternTheorems` gives the grammar as a datatype with a
printer and a denotation, independent of the parser, and proves that it is unambiguous, that expanding and
printing invert each other, which strings are accepted, and which and how many words come out.

**The timer and the counter** (`Timer`, `TimerTheorems`, `Counter`, `EndToEnd`). The multi-instance timer is a
keyed state machine whose sweep removes idle instances now and then. `TimerTheorems` proves exactly
for which times the sweep cannot be seen in what is recorded, exactly when it bounds memory, and exactly
which `stop` records what.
`EndToEnd` puts the counter behind the queue: whatever the interleaving, the counter ends at the sum of all
deltas.

Where the code and what it seems to promise part ways, the code is modelled as it is:

- `m_max` starts from the smallest positive double (`src/statistics.cpp:310`); `ExtremesAreRightIff` says
  exactly when the reported maximum is the largest value.
- A quantile for probability one or more runs off the end of the histogram, and a negative one throws;
  `QuantileDefinedIff` says that reading works exactly from zero up to but not including one.
- A value older than the window is dropped from the moving count, yet gets a bin of the histogram. The bins
  never hold more than the count exactly when no value is later than the window (`MassBoundIff`), and after
  one that is they do so exactly when there was room for one more (`TooOldSampleStep`).
- The counter takes the time zero for being unset. An event at the epoch with no positive time before it makes
  the next event start over, and everything up to it is forgotten (`ForgottenPrefix`); all events are accounted
  for exactly when there is none such (`AllCountedIff`), and in every order exactly when no event, or only a
  lone one, is at time zero (`CountedInEveryOrderIff`).
- The sweep of the timer changes what is recorded exactly for times that pass the timeout of a call and then
  turn back within it (`InvisibleIff`).
- The clock of the statistics starts at the epoch, so a sample with an earlier time counts as late, and the
  documented recurrence (`docs/incremental-statistics.rst:69-78`) holds exactly from the epoch on
  (`RecurrenceIff`). The first sweep of the timer is due one timeout after the epoch, which decides from
  which times on it bounds memory (`OnlyRecentIff`).
- `mq_size` is counted up only after the message can already be popped; `UncheckedPopWraps` shows that a
  consumer that popped without asking `empty` first would wrap it below zero.
- The grammar in `src/config.cpp:46-57` calls `}` and `,` special; outside all braces the code takes them
  literally, and so do `Plain` and `SucceedsIffBalanced`.

## Model

| member | source | states |
|---|---|---|
| QueueInvariant.CreateOk | src/events/counter.cpp:49-66 | creating a message at any free address, also one used before, keeps the invariant of the queue |
| QueueInvariant.PushClearOk | src/message_queue.cpp:47 | clearing the link of a node not yet in the chain breaks no link of the chain |
| QueueInvariant.PushExchangeOk | src/message_queue.cpp:50 | after the exchange the one missing link is owned by the thread that exchanged |
| QueueInvariant.PushLinkOk | src/message_queue.cpp:51 | storing the link fills exactly the missing place and overwrites no other link |
| QueueInvariant.PushCountOk | src/message_queue.cpp:166-167 | counting a message that is linked, and perhaps already popped, keeps the accounting of `mq_size` |
| QueueInvariant.SkipStubOk | src/message_queue.cpp:59-66 | moving the tail past the stub removes no message |
| QueueInvariant.StubClearOk | src/message_queue.cpp:80 | when the stub is put back it is nowhere in the chain, so clearing its link loses nothing |
| QueueInvariant.StubExchangeOk | src/message_queue.cpp:80 | the stub is in the chain at most once |
| QueueInvariant.StubLinkOk | src/message_queue.cpp:80 | the consumer's own link store fills the place that it owns |
| QueueInvariant.ReturnTailOk | src/message_queue.cpp:69-72 | the node handed out leaves the chain and is held by no producer |
| QueueInvariant.CountDownOk | src/message_queue.cpp:178-179 | the decrement finds the counter at one or more |
| QueueInvariant.ConsumeOk | src/core.cpp:52-59 | deleting the popped message takes it from no thread and out of no chain |
| QueueInvariant.ConsumerMoveOk | src/message_queue.cpp:54-90 | every step of the consumer, on each of the six exits of `pop`, keeps the invariant |
| QueueTheorems.StepOk | src/message_queue.cpp:45-90 | every step of every thread keeps the invariant |
| QueueTheorems.ReachableOk | src/message_queue.cpp:38-90 | the invariant holds after every run, in every interleaving |
| QueueTheorems.PopIsWaitFree | src/message_queue.cpp:54-90 | whatever the producers do meanwhile, nine moves of its own bring the consumer from anywhere in a `pop` back to its emptiness check, and it always has a move to make |
| QueueTheorems.BackToCheck | src/core.cpp:69-73 | with the producers done, the consumer gets back to its emptiness check from anywhere in a `pop`, on the way to a null result too |
| QueueTheorems.FirstInFirstOut | src/message_queue.cpp:45-90 | what was pushed, in exchange order, is what `pop` returned followed by what is queued; the stub is never returned |
| QueueTheorems.StepRefines | src/message_queue.cpp:45-90 | each step enqueues at the back, dequeues from the front, or leaves the abstract queue unchanged |
| QueueTheorems.NoUseAfterFree | src/message_queue.cpp:47-87 | no step of any run reads or writes a deleted message |
| QueueCalls.UntouchedIsIrrelevant | src/message_queue.cpp:47-87 | the nodes whose liveness that guarantees are all that a step depends on: what any other node holds changes nothing |
| QueueTheorems.ReturnedIsUnreachable | src/message_queue.cpp:69-87 | a returned node is neither head nor tail, and no thread will link behind it |
| QueueTheorems.StepLeaksNothing | src/core.cpp:49-60 | every step keeps: each allocated message is with its producer, queued, or in the consumer's hands |
| QueueTheorems.NothingLeaks | src/core.cpp:49-60 | the same in every run, counted exactly |
| QueueTheorems.PopResult | src/message_queue.cpp:54-90 | null only if the queue was empty at the start of the call or a push overlapped it; a message only if it was not empty, and then the next one in order |
| QueueCalls.NullMeansEmptyOrOverlapped | src/message_queue.cpp:54-90 | in any run, a call of `pop` that returns null found the queue empty as it began, or some push stood between exchange and link then, or exchanged during the call |
| QueueCalls.MessageIsTheOldest | src/message_queue.cpp:54-90 | in any run, a call of `pop` that returns a message returns the one that was the oldest as the call began |
| QueueCalls.HandledInOrder | src/core.cpp:49-60 | until shutdown the processor has handled exactly the events of the returned messages, in order, but for the one in hand |
| QueueCalls.PushIsWaitFree | src/message_queue.cpp:45-52 | wherever a producer is in `push`, at most four steps of its own are possible in a row and finish it |
| QueueCalls.PushIsAlwaysPossible | src/message_queue.cpp:164-169 | from every reachable state any other thread can push a whole message, at any free address |
| QueueTheorems.SizeIdentity | src/message_queue.cpp:164-195 | queued messages = `mq_size` + pushes not yet counted - one popped but not yet subtracted; the decrement never wraps |
| QueueTheorems.UncheckedPopWraps | src/message_queue.cpp:164-179 | without the check for emptiness one producer and one pop wrap the counter |
| QueueTheorems.FinishPop | src/message_queue.cpp:54-90 | with no producer about, a pop on a non-empty queue ends and takes off exactly the oldest message |
| QueueTheorems.AtRest | src/message_queue.cpp:193-199 | with no thread inside, `mq_size` is the length of the queue and only queued messages are allocated |
| QueueTheorems.DrainTerminates | src/message_queue.cpp:210-215 | the drain ends after as many pops as `mq_size` says, each remaining message deleted once and in order, none left in memory |
| EventQueue.LinkedQueue.Push | src/message_queue.cpp:45-52 | appends the node to the chain, whether a message or the stub |
| EventQueue.LinkedQueue.Pop | src/message_queue.cpp:54-90 | with no push in progress, null exactly on empty, otherwise the oldest message, never the stub |
| EventQueue.MessageQueue.Push | src/message_queue.cpp:164-169 | appends the message and keeps the counter equal to the length |
| EventQueue.MessageQueue.Pop | src/message_queue.cpp:171-191 | takes off the oldest message and keeps the counter equal to the length |
| EventQueue.MessageQueue.Drain | src/message_queue.cpp:210-215 | deletes every remaining message in order in exactly `mq_size` rounds |
| EventQueue.Processor.ProcessMessageQueue | src/core.cpp:49-60 | hands the oldest message to the counter and advances the last message time, or does nothing on empty |
| EventQueue.Processor.Run | src/core.cpp:62-81 | over any number of rounds the messages are handled in order, and all of them if the rounds suffice; the last message time is the greatest of its old value, the times handled and the clock readings of the idle rounds |
| EventQueue.Processor.Round | src/core.cpp:69-78 | one round handles the oldest message, or on empty moves the last message time to the clock |
| EventQueue.FoldFromUnset | src/metrics/counter.cpp:40-64 | handling event by event from a fresh counter is the fold of the counter |
| Counter.CounterMetric.Init | src/metrics/counter.cpp:31-38 | sets value and time to the given ones, and count, sum and value of the statistics are those of that one update |
| Counter.CounterMetric.Increment | src/metrics/counter.cpp:40-51 | initialises an unset counter first, adds, keeps the later time, and feeds the statistics |
| Counter.CounterMetric.Decrement | src/metrics/counter.cpp:53-64 | the same with the delta subtracted |
| Counter.CounterMetric.StatisticsAreOfUpdates | src/metrics/counter.cpp:50-63 | count, sum and value of the counter's statistics are those of its updates |
| Counter.FoldSums | src/metrics/counter.cpp:31-64 | after n > 0 events of which none is forgotten: what the increments added less what the decrements took, the latest time, n + 1 updates with the counter after each event, in non-decreasing time |
| Counter.ForgottenPrefix | src/metrics/counter.cpp:41-43 | an event at time zero with no positive time before it wipes out everything up to it, in value, time and statistics |
| Counter.FoldRemembers | src/metrics/counter.cpp:31-64 | every run leaves the counter as its remembered suffix alone does, which is the whole exactly if nothing is forgotten |
| Counter.AllCountedIff | src/metrics/counter.cpp:31-64 | there is an update for every event, and one more, exactly when no event is forgotten |
| Counter.TotalOfPermutation | src/metrics/counter.cpp:45-58 | the sum of the deltas does not depend on the order |
| Counter.FoldOfPermutation | src/metrics/counter.cpp:31-64 | events handled in any order leave the same value and time after as many updates, negative times included, provided none of several is at time zero |
| Counter.CountedInEveryOrderIff | src/metrics/counter.cpp:31-64 | every order accounts for all events if and only if no event, or only a lone one, is at time zero |
| EndToEnd.ProgramOrder | src/message_queue.cpp:45-52 | in every run each producer's messages are exchanged in the order in which it created them |
| EndToEnd.AllExchanged | src/message_queue.cpp:164-169 | when no producer is about, exactly what was created was exchanged, with multiplicity |
| EndToEnd.SettledHandledAll | src/core.cpp:49-73 | once the producers are done and the queue is empty, every created event was handled exactly once |
| EndToEnd.CounterEndToEnd | src/core.cpp:49-73 | whatever the interleaving, the counter is at what all increments added less what all decrements took, and at the latest time, after n + 1 updates in non-decreasing time, for all times but zero |
| EndToEnd.CounterCountsAllIff | src/core.cpp:49-73 | for all times: the counter accounts for every created event exactly when the order of handling forgets none |
| EndToEnd.OneIncrementArrives | src/core.cpp:49-73 | there is such a run: one increment, pushed and handled, leaves the counter at one |
| EndToEnd.ProcessorSettles | src/core.cpp:69-73 | once the producers are done, wherever the processor is, finitely many moves of it alone empty the queue |
| MathUtils.WeightedAverageBetween | include/handystats/math_utils.hpp:82-96 | defined for non-negative weights of positive sum, between the two values, with their moment |
| MathUtils.WeightedAverageIff | include/handystats/math_utils.hpp:82-96 | an exception exactly when the weights cancel, and otherwise the moment, for weights of any sign |
| MathUtils.SolvesQuadratic | include/handystats/math_utils.hpp:52-80 | for all coefficients the solver lists exactly the real roots, and none when no coefficient of the unknown is left |
| Histogram.ShiftIsFactor | src/statistics.cpp:325-337 | decaying multiplies by a factor in [0, 1] that does not depend on the data |
| Histogram.ShiftTwice | src/statistics.cpp:325-337 | decaying to one time and then to another is decaying once to the later |
| Histogram.FactorMonotone | src/statistics.cpp:325-337 | the factor grows with the time of the data |
| Histogram.LowerBoundSplits | src/statistics.cpp:396-399 | the binary search puts the new bin between centers no greater and no less, although ties need not be partitioned |
| Histogram.LowerBoundIsBorder | src/statistics.cpp:398 | when the tuples less than the new one come first, in lexicographic order of center, count and time, the search finds their end |
| Histogram.InsertAdds | src/statistics.cpp:398-399 | the insertion adds exactly the new bin |
| Histogram.InsertedOk | src/statistics.cpp:396-401 | after insertion and decay: sorted, non-negative, inside the range, and some bin is not empty, which pruning needs |
| Histogram.InsertedSums | src/statistics.cpp:396-401 | mass and moment are those of the decayed old bins plus the fresh one with weight 1 or MI/(MI+D) |
| Histogram.EraseSurrounded | src/statistics.cpp:65-87 | the loop that skips by one, two or three and erases in place ends in bounds, having kept exactly the bins next to a non-empty one |
| Histogram.RemoveEmptyBins | src/statistics.cpp:46-88 | given a non-empty bin, the result is the trimmed histogram less the empty bins between empty bins |
| Histogram.PrunedKeeps | src/statistics.cpp:46-88 | every non-empty bin stays, in order, and so do mass and moment |
| Histogram.PrunedOk | src/statistics.cpp:46-88 | pruning adds nothing and keeps the bins sorted and non-negative |
| Histogram.PrunedEmptyIsInterior | src/statistics.cpp:55-87 | an empty bin that survives is interior and next to a non-empty one |
| Histogram.PrunedExactly | src/statistics.cpp:46-88 | exactly the non-empty bins remain, and the empty ones between two of them that are next to one |
| Histogram.BestMerge | src/statistics.cpp:413-421 | the first index with the smallest distance to the next center |
| Histogram.MergedBinOk | src/statistics.cpp:423-449 | merging never divides by a zero weight, adds the counts, conserves the moment and stays between the centers |
| Histogram.MergedStandsForBoth | src/statistics.cpp:426-449 | two empty bins meet halfway at the epoch; others add counts and moments at the later time |
| StatisticsRuns.MergedDecaysNoFaster | src/statistics.cpp:446-448 | the merged bin, with the later of the two times, never decays faster than the two apart, and exactly by the later one's factor |
| Histogram.MergeAtOk | src/statistics.cpp:423-451 | one bin fewer, same mass and moment, still sorted and inside the range |
| Histogram.UpdateBinsOk | src/statistics.cpp:392-452 | sorted, non-negative, at most `histogram_bins`, inside the range; mass and moment are those of the decayed bins plus the fresh one; nothing throws |
| Histogram.UpdateBinsExactly | src/statistics.cpp:392-452 | the decayed bins and the fresh one while there is room; without room the surviving ones; and only if all survive, those with the first closest pair merged |
| Histogram.FullStaysFull | src/statistics.cpp:403-451 | a full histogram with no decayed bin empty keeps its size and loses only the first closest pair to its merged bin |
| Statistics.IncrementalStatistics.Clear | src/statistics.cpp:307-323 | every field right after a reset, in numbers |
| Statistics.IncrementalStatistics.ShiftHistogram | src/statistics.cpp:360-369 | every bin is decayed from its own time, in place |
| Statistics.IncrementalStatistics.FindBestMerge | src/statistics.cpp:413-421 | the loop finds the first closest pair |
| Statistics.IncrementalStatistics.MergeClosest | src/statistics.cpp:413-451 | the closest pair is replaced by its merged bin, with no exception |
| Statistics.IncrementalStatistics.UpdateHistogram | src/statistics.cpp:392-452 | the new histogram is the specified one in every branch |
| Statistics.IncrementalStatistics.Update | src/statistics.cpp:454-497 | every field after an update, for every set of tags: the rate from the old value, all decay from the old times, the times last |
| Statistics.IncrementalStatistics.UpdateTime | src/statistics.cpp:499-521 | every field after an advance of time, for every set of tags; nothing changes when time does not advance |
| StatisticsSteps.ComputedIff | src/statistics.cpp:243-293 | an enabled tag is computed, and else exactly those that an enabled one is computed from |
| StatisticsSteps.TickToThePast | src/statistics.cpp:500 | an advance to a time already reached changes nothing |
| StatisticsSteps.TickBins | src/statistics.cpp:360-369 | an advance of time keeps every bin, its center and its time, and of its count exactly the part still in the window |
| StatisticsSteps.TickMoving | src/statistics.cpp:502-512 | and exactly that part of moving sum, moving count and rate; totals and extremes stay |
| StatisticsSteps.SampleMoving | src/statistics.cpp:339-357 | a sample adds exactly one, its value and its difference to count, sum and rate: in time to what remains, late to the whole, too late not at all |
| StatisticsSteps.SampleBins | src/statistics.cpp:392-452 | the bins after a sample, from the old ones and in numbers, for any time |
| StatisticsSteps.NoBins | src/statistics.cpp:394 | with no bin allowed there never is one |
| StatisticsSteps.AverageTimesCount | src/statistics.cpp:629-635 | the moving average times the moving count is the moving sum; without data it is zero |
| StatisticsRuns.ComputedNeedsTime | src/statistics.cpp:243-293 | whatever decays forces the timestamp to be computed, and the rate forces the value |
| StatisticsRuns.TimeTwice | src/statistics.cpp:499-521 | two advances of time equal one to the later time, for moving values, rate and every bin, from every state |
| StatisticsRuns.TicksAreOne | src/statistics.cpp:499-521 | any chain of advances equals one to the latest of its times |
| StatisticsRuns.SampleFollowsRecurrence | docs/incremental-statistics.rst:69-78 | right after a sample, sum, count and rate are those of S_k = x_k + max(0, 1 - (t_k - t_(k-1))/MI) S_(k-1), however many advances of time were interleaved |
| StatisticsRuns.BeforeEpochBreaks | src/statistics.cpp:344-350 | for every first time before the epoch some run in order departs from the recurrence |
| StatisticsRuns.RecurrenceIff | src/statistics.cpp:307-357 | runs in order follow the recurrence exactly when they begin at the epoch or later |
| StatisticsRuns.MovingBounds | src/statistics.cpp:339-357 | in every run, late data included, lo * moving_count <= moving_sum <= hi * moving_count |
| StatisticsRuns.MovingAverageBounds | src/statistics.cpp:625-640 | a moving average is zero for want of data or lies within the range of the values |
| StatisticsRuns.WindowEmpties | src/statistics.cpp:325-337 | once time is ahead of the data by more than the interval the moving values and the rate are zero |
| StatisticsRuns.BinsWithin | src/statistics.cpp:392-452 | in every run the bins are sorted, bounded in number, and inside the range of all values |
| StatisticsRuns.MassWithinCount | src/statistics.cpp:325-369 | when no value is older than the window, the bins together never exceed moving_count |
| StatisticsRuns.MassBoundIff | src/statistics.cpp:339-369 | the bins never exceed moving_count in all runs with samples at most so late if and only if that is at most the window |
| StatisticsRuns.TooOldSampleStep | src/statistics.cpp:344-347 | in any state a value older than the window adds a bin of weight one and no count, so the bound holds after it exactly if there was room for one more |
| StatisticsRuns.TooOldSampleBreaksMass | src/statistics.cpp:344-347 | a first sample that is too late, at any time, leaves a mass of one and a count of zero |
| StatisticsRuns.TotalsOfRun | src/statistics.cpp:460-478 | count, sum and value are those of all samples, whatever their times |
| StatisticsRuns.TimesOfRun | src/statistics.cpp:492-496 | however late samples come, the timestamp is the latest of the epoch and all times, the data timestamp that of the samples; both stay zero when not computed |
| StatisticsRuns.StatisticsOfRecords | src/statistics.cpp:454-497 | count, sum, value and timestamp after the records of a metric are theirs |
| StatisticsRuns.ExtremesAreRightIff | src/statistics.cpp:307-311 | max is the largest value exactly if that is at least the smallest positive double; min is the smallest value exactly if that is at most the largest double |
| StatisticsRuns.QuantileOfRun | src/statistics.cpp:96-174 | after every run every quantile in [0, 1) can be read |
| QuantileExtractor.QuantileAt | src/statistics.cpp:96-174 | the loops compute the specified quantile in every branch |
| QuantileExtractor.BeforeTelescopes | src/statistics.cpp:122-133 | the trapezoids add up to half a bin at each bin and to the total at the end |
| QuantileExtractor.ScanStops | src/statistics.cpp:122-133 | a requirement below the total stops inside the histogram, at the trapezoid that holds it |
| QuantileExtractor.ScanRunsOff | src/statistics.cpp:122-133 | a requirement of the total or more leaves the histogram |
| QuantileExtractor.SolveAreaOk | src/statistics.cpp:32-44 | the quadratic has a root in [0, 1], and the one that is found has exactly the required area to its left |
| QuantileExtractor.QuantileSplitsArea | src/statistics.cpp:96-174 | nothing throws for 0 <= p < 1, and the area left of the quantile is exactly p times the total |
| QuantileExtractor.FewBins | src/statistics.cpp:103-118 | zero without bins or mass, and the center of a single bin that holds something |
| QuantileExtractor.QuantileIs | src/statistics.cpp:120-173 | the number returned: it lies at a fraction z between two neighbouring centers, or between an outer center and the mirrored average, where exactly p times the total is to the left |
| QuantileExtractor.QuantileDefinedIff | src/statistics.cpp:96-174 | a quantile can be read if and only if 0 <= p < 1 |
| QuantileExtractor.AtOneOutOfBounds | src/statistics.cpp:122-155 | from one on the read-out indexes past the histogram |
| QuantileExtractor.QuantileMonotone | src/statistics.cpp:96-174 | a greater probability never gives a smaller quantile |
| PatternExpander.ScanWord | src/config.cpp:68-80 | finds the end of the word in either mode |
| PatternExpander.CrossLoops | src/config.cpp:107-113 | the two loops build the cross product |
| PatternExpander.ExpandItems | src/config.cpp:87-104 | the loop over the list, its two continuations and its error |
| PatternExpander.ExpandPattern | src/config.cpp:64-116 | words, new position and errors of the recursive expansion; it terminates |
| PatternExpander.ExpandPatternString | src/config.cpp:118-130 | the expansion of a whole string, with the second error |
| PatternTheorems.ExpandPrinted | src/config.cpp:46-116 | expanding the text of a pattern, in either mode and anywhere in a string, yields its denotation and stops right after the text |
| PatternTheorems.PrintThenExpand | src/config.cpp:46-130 | expanding a printed pattern yields exactly its denotation, order and multiplicity included |
| PatternTheorems.SymbolFreeExpands | src/config.cpp:46-116 | with words free of all special symbols a pattern expands to its denotation both as a whole string and nested in a list |
| PatternTheorems.TextDeterminesPattern | src/config.cpp:46-57 | the grammar is unambiguous: a text is the text of one pattern only |
| PatternTheorems.ExpandedIsPrinted | src/config.cpp:64-116 | whatever is expanded is the text of some pattern with that denotation |
| PatternTheorems.ExpandsIffPattern | src/config.cpp:118-130 | a string expands if and only if it is the text of a pattern, and then to its denotation |
| PatternTheorems.SucceedsIffBalanced | src/config.cpp:64-130 | success exactly on the NUL-free strings whose brace depth, clipped at zero, ends at zero |
| PatternTheorems.NeverStopsShort | src/config.cpp:118-130 | on a NUL-free string the "Parsing stopped" error is never reached |
| PatternTheorems.InvalidSymbolIsEnd | src/config.cpp:99-103 | on a NUL-free string the invalid symbol is always the terminating zero, at the length of the string |
| PatternTheorems.ErrorsExactly | src/config.cpp:64-130 | what every string does: with an open brace before its first NUL an invalid symbol there, else stopped there if it is not the end, else success |
| PatternTheorems.CrossAt | src/config.cpp:109-113 | each word of the cross product by its two indices, postscript fastest |
| PatternTheorems.DenoteSize | src/config.cpp:107-113 | the number of words: lists add, concatenation multiplies |
| PatternTheorems.NeverEmpty | src/config.cpp:58-60 | a successful expansion is never empty |
| Timer.MultiTimer.CheckIdleTimeout | src/metrics/timer.cpp:89-108 | the erasing loop leaves exactly the unexpired instances |
| Timer.MultiTimer.StartInstance | src/metrics/timer.cpp:34-40 | sweeps when due, then the instance begins at the given time, also when it was running |
| Timer.MultiTimer.StopInstance | src/metrics/timer.cpp:42-61 | sweeps when due, forgets the instance, and hands the elapsed time to the statistics unless it was unknown or expired |
| Timer.MultiTimer.HeartbeatInstance | src/metrics/timer.cpp:63-77 | sweeps when due, and prolongs a known instance or forgets an expired one |
| Timer.MultiTimer.DiscardInstance | src/metrics/timer.cpp:79-83 | sweeps when due and forgets the instance; nothing is recorded |
| Timer.MultiTimer.SetValue | src/metrics/timer.cpp:85-87 | hands the value to the statistics, with no sweep and no change to the instances |
| Timer.MultiTimer.StatisticsAreOfRecorded | src/metrics/timer.cpp:58-86 | count, sum and value of the timer's statistics are those of the recorded values |
| TimerTheorems.SweepIsInvisible | src/metrics/timer.cpp:89-108 | under non-decreasing times the timer records what one that never sweeps records |
| TimerTheorems.SweepExactly | src/metrics/timer.cpp:89-108 | a sweep comes exactly when forced or due, forgets exactly what is past the timeout, and its time never goes back |
| TimerTheorems.SweepIsVisibleOutOfOrder | src/metrics/timer.cpp:89-108 | for all times that pass the timeout of a call and then turn back within it, some calls at these times lose a record to the sweep |
| TimerTheorems.InvisibleIff | src/metrics/timer.cpp:89-108 | all calls at the given times record what the unswept timer records if and only if these times never do so |
| TimerTheorems.OnlyRecentRemembered | src/metrics/timer.cpp:34-108 | after every start, stop, heartbeat, discard or check each retained instance is at most twice the timeout old |
| TimerTheorems.OldStartRemembered | src/metrics/timer.cpp:90-94 | an instance from long before the epoch outlives twice the timeout |
| TimerTheorems.OnlyRecentIff | src/metrics/timer.cpp:89-108 | this holds for all runs from a first time on if and only if that time is at most one timeout and one unit before the epoch |
| TimerTheorems.RunningIsFollowed | src/metrics/timer.cpp:34-83 | a start not ended and kept alive determines the instance: its start and its last sign of life |
| TimerTheorems.FollowedIsRunning | src/metrics/timer.cpp:34-83 | and every remembered instance comes from such a start |
| TimerTheorems.StopRecordsIff | src/metrics/timer.cpp:42-61 | a stop records exactly when such a start exists with no gap above the timeout, and then the time since it |
| TimerTheorems.OthersRecord | src/metrics/timer.cpp:34-108 | no other call records anything but a value set outright |

## Left out

- Weak memory: the steps of the queue are sequentially consistent, so what acquire and release allow beyond that is not modelled.
- Re-initialisation: one lifetime of the queue; `initialize` and `finalize` racing with producers, and the test for a null queue in the wrappers, are not modelled.
- EventQueueProtocol.Apply: `mq_size` is a number that wraps only below zero; a queue of 2^64 messages is not modelled.
- QueueTheorems.DrainTerminates: it holds for a state with no producer inside `push`; in `finalize` the loop deletes messages without handling them, so `EndToEnd` speaks of the processor loop alone.
- EndToEnd.CounterEndToEnd: one counter and only increments and decrements; dispatch by name and destination in `src/internal.cpp`, and INIT messages through the queue, are settled by reading one branch each.
- Queue statistics: the gauges for size and wait time and the count of pops in `src/message_queue.cpp:109-191` do not act on the queue.
- Counter.CounterMetric.Init: values are unbounded integers; overflow of the 64-bit counter is undefined in the original.
- Clocks: `rdtsc`, frequency estimation and the system offset; times are parameters, and a reading of the clock is an element of the sequence given to `Processor.Run`.
- Units: time is an integer in one unit, so the conversion of a timer value to microseconds and of the rate to its unit are not modelled.
- Rounding: doubles are exact reals and the tolerance of `cmp` is zero; statistics of a value that is not a number are not modelled.
- Histogram.LowerBound: `std::lower_bound` is the usual halving search; another search order on equal centers with unequal counts is not modelled.
- The histogram as a vector: insertion and erasure are on a sequence held by the object; the reserved capacity is not modelled.
- TimerTheorems.StopRecordsIff: under times that never go back, and for an idle timeout that is not negative, which is all that `src/config/metrics/timer.cpp:39-40` accepts.
- `update_statistics` of timer and counter, which only passes a time to `update_time`, is left to the runs of `StatisticsRuns`.
- Entropy, because it needs a logarithm, and the getters of single fields, which are one branch each.
- JSON configuration, `fnmatch`, dumps, attributes, the gauge, proxies, macros and the C bindings: thin wrappers or library calls.
