# Synchronome: schedulers, feasibility tests and the frame pipeline

A Dafny model of two parts of the synchronome repository, with proofs.

**Scheduling.** `schedule/schedule.c` simulates periodic services tick by tick under RM, EDF and
LLF. `feasibility/feasibility_tests.c` (and its updated copy) decides on paper whether a set of
services is schedulable with fixed priorities. The repository never connects the two; here they
are connected, for any number of services and any run length:

* the tests' answers hold exactly when the RM simulation never counts a miss
  (`Prediction.TestsPredictRm`), service by service and in any priority order, and the fixed
  points they compute are the response times the simulation shows;
* the event log, the miss counter and the statistics table are characterised without the simulator's
  counters: each tick runs the service its policy's rule names, the counter is the number of jobs
  that fell short (`SchedulerRules`);
* LLF never misses exactly when the utilisation is at most 1, and EDF likewise outside one
  family of sets (see below);
* every schedule repeats after a common multiple of the periods, misses included, and the CPU
  statistics are exact shares.

**Pipeline.** `simple-capture` captures frames into a ring, synchronises on the ticks of a watch,
copies every 25th frame into a second ring and writes it. The three threads are modelled as
interleaved atomic steps over the shared rings and queues. In every interleaving in which each copy
finds room, the written files are, in order and without gap or duplicate, frames sync + 25,
sync + 50, ... exactly as captured, sync being the first frame that completes five detections in time, and the
system runs exactly until it is stopped or 1801 frames are written (`PipelineReport.EndToEnd`).

## What the proofs found in the code

* **EDF skips a deadline of `INT_MAX`.** The selection loop starts from `INT_MAX` and compares with
  `<` (schedule/schedule.c:172-177), so a service whose time to the deadline is `INT_MAX` is not
  picked. What the code can show of this is an idle tick with work pending, in the first tick:
  `OptimalPolicies.EdfIdlesExactly` says exactly when. At utilisation at most 1 it costs no miss
  unless every service with a cost has period `INT_MAX` and the costs add up to `INT_MAX`
  (`OptimalPolicies.EdfNeverMisses`), and then the miss falls at tick `INT_MAX` or later: it needs a
  wider tick counter than the source's `int` (schedule/schedule.c:139), within which EDF misses
  nothing even so (`OptimalPolicies.EdfCleanInIntTicks`).
* **A run never checks the deadlines at its own end.** With `TICKS` a multiple of the periods, a run
  without misses gives every service its exact share if and only if the utilisation is at most 1
  and EDF is not in the case above (`OptimalPolicies.ExactUsage`); `UncheckedDeadlineExample` is a
  run that counts no miss and falls short.
* **The chart of LLF hides a service of laxity -1.** It prints -1 as "not pending"
  (schedule/schedule.c:278), which `OptimalPolicies.TableMarks` shows to be right exactly for the
  other laxities, so always when the utilisation is at most 1; `TableMarkExample` is a wrong cell.
* **The completion-time iteration need not stop.** It stops exactly when the services above leave
  spare time (`Prediction.ConvergesExactly`); otherwise the source loops (up to overflow), as it does
  on `Prediction.DivergesExample`.
* **A service of cost 0 can make both tests reject a set that RM schedules**, as in
  `Prediction.FreeServiceRejected`. They are exact precisely when RM misses something anyway or every
  such service finds a free moment within its first period, which the simulation shows as a tick
  after which nothing above is pending (`Prediction.TestsPredictRm`, `Prediction.FreeMomentShows`).
* **The scheduling-point search ignores its `deadline` argument**
  (`Feasibility.PointTestIgnoresDeadlines`). It answers for a deadline, whatever the costs, exactly
  when that deadline is the period (`Feasibility.PointTestNeedsPeriodDeadline`), and for one set
  exactly when the fixed point does not fall between the two (`Feasibility.PointTestRightExactly`).
* **A wrap in a dumped log can go unmarked**: the mark is printed only on events without data
  (`MemLog.SeamMarkExact`; `MemLog.UnmarkedWrapExample` is such a log).
* **`timespec_subtract` can call equal times negative** when its second argument has been through an
  earlier call, which rewrites it. `TimeTools.NegativeAfterCalls` says exactly after which earlier
  calls, however many; `TimeTools.EqualTimesCanBeNegative` is an instance.
* **`cpu_usage` is never cleared** (schedule/schedule.c:290-293): `Accounting.TallyCpu` adds to
  whatever the memory held. The report is right exactly when that was all 0, and its total balances
  exactly when it summed to 0 (`Accounting.ReportBalances`; `Accounting.StaleUsageExample` fails).
* **The scan ring overruns without a check**: a capture copies before it asks the queue.
  `PipelineSafety.RingCanFill` is a run to such a state, `PipelineReport.OverrunOutcome` what follows;
  a selection lost in the second ring is not even noticed (`PipelineReport.SelectionOverrunOutcome`).

## How the model is laid out

`Arith` and `Ring` hold shared facts. `Schedule` states what a tick must do: the policy choice is a
declarative predicate (`IsPick`), not a loop. `Simulator.Engine` has the source's loops and is proved
to follow it. `Runs` abstracts a run to its counters and events, and the theorems in `Accounting`,
`Periodicity`, `Optimality`, `OptimalPolicies`, `RateMonotonic` and `Prediction` are about every such
run. `SchedulerRules` says what the run reports, in terms of its event log. `Feasibility` holds the two tests. `TimeTools`, `MemLog`, `MotionDetection` and `MessageQueue`
follow the files of the same names. `Pipeline` gives the atomic steps as functions on a state,
`PipelineSafety` the invariant, `PipelineReport` what a run amounts to, told from its actions alone,
and `PipelineThreads.Synchronome` the imperative loop bodies that perform the steps and, driven in
any order, all that `PipelineReport` promises. `TenHz` is the 10 Hz variant of the selector.

A service is a pair of period and cost, with 1 <= period <= `INT_MAX` and cost >= 0; other integers
are unbounded, and `ceil` of a quotient of doubles is the integer ceiling. "Utilisation at most 1" is
written over any common multiple h of the periods (`Underloaded`); one always exists
(`Periodicity.ProductIsCommonMultiple`).

Model assumptions about the pipeline: `enqueue_P` is one atomic step and `dequeue_P` two (lower the
counter, then receive), although the source locks neither the counter nor the staging buffer; the
kernel queue is first in, first out within one priority, as `mq_receive` in IEEE Std 1003.1 (System
Interfaces) says; whether enough pixels changed is an arbitrary input, as are image contents and
clock values. "Finds room" means: the number of queued slots plus the slots the consumer holds is
below the ring size; only a capture and the selection of a 25th frame copy anything.
`PipelineSafety.BoundsGiveRoom` derives it from the plain bounds of `SCAN_BUF_SIZE` - 3 queued
entries at a capture and `NUM_WO_BUF` - 2 at a selection, and `CopyOverwritesExactly` and
`SelectionOverwritesExactly` show that without room a slot in use is overwritten.

## Model

| member | source | states |
|---|---|---|
| Simulator.Engine.constructor | schedule/schedule.c:112-131 | each countdown starts at its period, runtimes and statistics at 0, all events at -1, no misses |
| Simulator.Engine.ExpireAndReset | schedule/schedule.c:141-154 | exactly the expired services restart; each unfinished one adds one miss |
| Simulator.Engine.RunHighestPriority | schedule/schedule.c:156-166 | runs one tick of the pending service of lowest index and logs it; nothing when none is pending |
| Simulator.Engine.RunEarliestDeadline | schedule/schedule.c:168-191 | runs and logs the pending service nearest its deadline, lowest index first, among deadlines below INT_MAX; the row of the statistics table shows each service's deadline, or -1 |
| Simulator.Engine.RunLeastLaxity | schedule/schedule.c:193-217 | runs and logs the pending service of least laxity, lowest index first; the row of the table shows each laxity, or -1 |
| Simulator.Engine.Choose | schedule/schedule.c:156-217 | one policy choice: runtime, log and this tick's row of the table change, other rows do not |
| Simulator.Engine.ClockTick | schedule/schedule.c:220-223 | every countdown drops by one |
| Simulator.Engine.OneTick | schedule/schedule.c:139-225 | one pass takes the plan's state, log, statistics and miss count from tick t to tick t + 1 |
| Simulator.Engine.Run | schedule/schedule.c:138-225 | after N ticks the counters, the event log, the statistics table and the miss count are those the specification gives for N ticks; and the log obeys the policy's rule, the count is the number of jobs short of their cost, and each table entry is the time to the deadline or the laxity, all read off the log |
| SchedulerRules.LogObeysRule | schedule/schedule.c:156-217 | at every tick the log names the first unfinished service (RM), the one due first below 0x7fffffff (EDF) or of least laxity (LLF), lowest index among equals, and -1 exactly when there is none |
| SchedulerRules.RuleDeterminesLog | schedule/schedule.c:156-217 | a log that obeys the rule at every tick is the one the simulator writes |
| SchedulerRules.CountersFromLog | schedule/schedule.c:142-223 | the counters at a tick are the time to the next release and the ticks had since the last one |
| SchedulerRules.MissesAreJobs | schedule/schedule.c:142-154 | the miss counter is the number of pairs of service and deadline within the run whose job did not get its cost |
| SchedulerRules.ShownIsRight | schedule/schedule.c:177-209 | a table entry is the time to the deadline (EDF) or the laxity (LLF) of an unfinished service and -1 of a finished one |
| Schedule.PickExists | schedule/schedule.c:156-217 | a tick goes idle exactly when no service is eligible |
| Schedule.PickUnique | schedule/schedule.c:156-217 | the declarative choice is unique, so every policy is deterministic |
| Schedule.StepAdvances | schedule/schedule.c:139-225 | one tick, seen from each service: runtime never passes the cost, a miss is exactly a deadline reached unfinished |
| Schedule.NoMisses | schedule/schedule.c:142-154 | the counter is 0 after n ticks exactly when no single reset saw a miss |
| Runs.SimulatorIsLawful | schedule/schedule.c:138-225 | the simulated run obeys the laws all run theorems rest on |
| Runs.MissedAtMatches | schedule/schedule.c:142-152 | a miss of the run is a miss of the simulator's reset phase |
| Runs.Phase | schedule/schedule.c:142-154 | the countdown after each reset is period minus clock phase; at a release the runtime is 0 |
| Accounting.TicksConserved | schedule/schedule.c:156-217 | ticks run by all services plus idle ticks equal the ticks elapsed |
| Accounting.DoneWithoutMisses | schedule/schedule.c:142-225 | without misses, work done is past jobs times cost plus the current runtime |
| Accounting.DoneAtMost | schedule/schedule.c:142-225 | with or without misses, work done in a window is bounded by the jobs in it |
| Accounting.ExactShares | schedule/schedule.c:142-217 | a run clean through the deadlines at a common multiple h gives each service h / T * C ticks and idles the rest |
| Accounting.OverloadMisses | schedule/schedule.c:142-217 | utilisation above 1 forces a miss by the reset of tick h under every policy |
| Accounting.TallyCpu | schedule/schedule.c:288-305 | the statistics loop adds the exact number of occurrences of each service to its usage slot, and counts -1 as slack |
| Accounting.ReportBalances | schedule/schedule.c:290-313 | the reported slack and usage add up to the ticks if and only if the uncleared memory summed to 0, and each usage is right if and only if it was all 0 |
| Accounting.StaleUsageExample | schedule/schedule.c:290-305 | one tick reported as two |
| Accounting.CpuTimeConserved | schedule/schedule.c:296-305 | slack plus the sum of usage equals the ticks simulated |
| Periodicity.EventsRepeat | schedule/schedule.c:112-225 | for every policy the state after the reset at h is the initial one, and states and events have period h |
| Periodicity.MissesRepeat | schedule/schedule.c:142-154 | misses after n + h ticks are misses after n ticks plus the misses of one hyperperiod |
| Periodicity.HyperperiodDecides | schedule/schedule.c:120-126 | no miss in the first h + 1 ticks means no miss ever, for every policy |
| Periodicity.ProductIsCommonMultiple | schedule/schedule.c:120-123 | a common multiple of the periods always exists |
| Optimality.StepFits | schedule/schedule.c:139-225 | leaving each horizon one tick to spare makes the next state fit and miss nothing |
| Optimality.QuietHorizon | schedule/schedule.c:168-217 | with utilisation at most 1 and nothing pending due within x, at most x - 1 ticks can be due |
| Optimality.InitialFits | schedule/schedule.c:112-117 | with utilisation at most 1 the synchronous start fits at every horizon |
| OptimalPolicies.LlfStep | schedule/schedule.c:193-217 | from a state that fits, LLF's choice leaves every horizon a tick to spare |
| OptimalPolicies.EdfStep | schedule/schedule.c:168-191 | the same for EDF outside the sentinel trap, idle sentinel ticks included |
| OptimalPolicies.RunFits | schedule/schedule.c:138-225 | the demand invariant holds after every reset of an optimal policy's run, and no reset misses |
| OptimalPolicies.LlfNeverMisses | schedule/schedule.c:193-217 | LLF never misses if and only if the utilisation is at most 1 |
| OptimalPolicies.EdfNeverMisses | schedule/schedule.c:168-191 | EDF never misses if and only if the utilisation is at most 1 and the set is not a sentinel trap |
| OptimalPolicies.TrapMisses | schedule/schedule.c:172-189 | in a sentinel trap the idle first tick is never made up: over a counter wide enough, a miss within one hyperperiod |
| OptimalPolicies.TrapExample | schedule/schedule.c:172-178 | a concrete set that LLF schedules over unbounded time and EDF does not |
| OptimalPolicies.EdfIdlesExactly | schedule/schedule.c:172-190 | EDF idles at tick t if and only if every pending service has period INT_MAX and was released in that tick |
| OptimalPolicies.EdfCleanInIntTicks | schedule/schedule.c:139-191 | at utilisation at most 1 no EDF run of up to INT_MAX ticks misses anything, trap included |
| OptimalPolicies.TrapInIntTicks | schedule/schedule.c:139-190 | within INT_MAX ticks a trap shows as an idle first tick, where LLF runs, and as no miss |
| OptimalPolicies.TableMarks | schedule/schedule.c:177-209 | a table entry is -1 if and only if the service is not pending or LLF sees laxity -1; at utilisation at most 1 never the latter |
| OptimalPolicies.TableMarkExample | schedule/schedule.c:203-209 | a pending service whose entry is -1 |
| OptimalPolicies.SchedulableByAny | schedule/schedule.c:156-217 | what any policy keeps clean for more than h ticks LLF keeps clean forever, and EDF exactly outside the trap |
| OptimalPolicies.CommonDeadlinesMet | schedule/schedule.c:142-166 | with utilisation at most 1, RM and LLF meet all deadlines that fall on a common multiple, whatever was missed before |
| OptimalPolicies.ExactUsage | schedule/schedule.c:126-305 | after n miss-free ticks, n a common multiple, the tally is n / T * C for every service if and only if the utilisation is at most 1 and EDF is not in the trap |
| OptimalPolicies.UncheckedDeadlineExample | schedule/schedule.c:126-225 | a run of one hyperperiod without a counted miss whose shares are short; one tick more counts it |
| Feasibility.Interference | feasibility/feasibility_tests.c:165-168 | the inner loops compute the load of a window of an ticks |
| Feasibility.CompletionTime | feasibility/feasibility_tests.c:152-176 | the iteration returns the least fixed point, which is also the least window that holds its own work |
| Feasibility.PositiveFixedPoint | feasibility/feasibility_tests.c:154-176 | no positive fixed point lies below the starting sum |
| Feasibility.CompletionPasses | feasibility/feasibility_tests.c:163-176 | for any services, after a number of passes the loop has stopped at the least fixed point or has gained a tick a pass |
| Feasibility.IterateClimbs | feasibility/feasibility_tests.c:163-176 | the iterates never fall, and never below the sum of costs |
| Feasibility.StopsExactly | feasibility/feasibility_tests.c:163-176 | the iterates stop if and only if some window holds all the work released in it |
| Feasibility.StopIsLeast | feasibility/feasibility_tests.c:163-176 | where they stop is the least fixed point and the least such window |
| Feasibility.CompletionTimeFeasibility | feasibility/feasibility_tests.c:142-187 | TRUE exactly when every service has a fixed point at or before its deadline |
| Feasibility.SearchPoints | feasibility/feasibility_tests.c:200-226 | the nested search with its breaks finds a fitting scheduling point exactly when there is one |
| Feasibility.PointLoad | feasibility/feasibility_tests.c:208-215 | the work released down to the service in a window ending at the point |
| Feasibility.SchedulingPointFeasibility | feasibility/feasibility_tests.c:193-230 | TRUE exactly when every service has a fitting scheduling point |
| Feasibility.PointTestIgnoresDeadlines | feasibility/feasibility_tests.c:193-230 | a set passes although a service cannot finish by its deadline |
| Feasibility.PointTestNeedsPeriodDeadline | feasibility/feasibility_tests.c:193-230 | for given periods the search agrees with the iteration to a deadline, whatever the costs, if and only if the deadline is the period |
| Feasibility.PointTestRightExactly | feasibility/feasibility_tests.c:193-230 | for given services it agrees if and only if the least fixed point does not fall between period and deadline |
| Feasibility.HoldsThenCompletes | feasibility/feasibility_tests.c:163-176 | a window that holds its work has a fixed point inside |
| Feasibility.NextPoint | feasibility/feasibility_tests.c:202-217 | the next scheduling point after r lies before every later release and within the period |
| Feasibility.TestsAgree | feasibility/feasibility_tests_updated.c:64-150 | for each service, in any period order, the two tests give the same answer |
| RateMonotonic.RunsAtOrAbove | schedule/schedule.c:156-166 | a pending service keeps every service below it off the processor |
| RateMonotonic.WindowOpens | schedule/schedule.c:142-166 | back from any tick there is a moment with nothing carried over, and from it services above ran throughout |
| RateMonotonic.WindowBound | schedule/schedule.c:142-166 | in a window that opens fresh the services above run at most the work the analysis charges them |
| RateMonotonic.ResponseBound | schedule/schedule.c:142-166 | every job has its whole cost within any completion window that fits its period |
| RateMonotonic.CompletionPreventsMisses | feasibility/feasibility_tests.c:163-183 | a fixed point within the period rules out misses of that service, whatever the others do |
| RateMonotonic.FinishIsFixedPoint | schedule/schedule.c:156-166 | the tick on which the first job finishes is itself a fixed point of the iteration |
| RateMonotonic.FirstJobExact | feasibility/feasibility_tests.c:163-176 | the first job finishes at the least fixed point, to the tick |
| Prediction.RmSound | feasibility/feasibility_tests.c:163-186 | fixed points within the periods keep the miss counter at 0 for any run length |
| Prediction.RmResponseTime | feasibility/feasibility_tests.c:152-184 | every job of a service, whenever released, has exactly its cost done within an ticks |
| Prediction.RmDetects | feasibility/feasibility_tests.c:178-183 | a service with a cost but no fixed point within its period makes every run longer than the longest period count a miss |
| Prediction.RmExact | feasibility/feasibility_tests.c:142-187 | RM never misses if and only if each service with a cost has its fixed point, and if and only if longest period + 1 ticks are clean |
| Prediction.TestsPredictRm | feasibility/feasibility_tests_updated.c:64-150 | either test is TRUE exactly when the RM simulator never misses and each service of cost 0 finds a free moment in its first period, equally by demand or as the run shows it; so the tests are exact if and only if RM misses or that holds |
| Prediction.FreeMomentCompletes | feasibility/feasibility_tests.c:163-183 | a service of cost 0 passes the test if and only if some window within its period holds all the work released above it |
| Prediction.FreeMomentShows | schedule/schedule.c:156-166 | such a window exists if and only if the RM run has a tick of the first period after which no service above is pending, those above missing nothing in it |
| RateMonotonic.CallsLeaveMoment | schedule/schedule.c:142-166 | a window that holds its calls shows such a tick, whatever was missed |
| RateMonotonic.DoneAboveCoversCalls | schedule/schedule.c:142-166 | without misses, such a tick closes a window that holds its calls |
| Prediction.FreeServiceRejected | feasibility/feasibility_tests.c:163-183 | a schedulable set with a zero cost that both tests reject |
| Prediction.FirstJobFinishes | feasibility/feasibility_tests.c:163-176 | in a clean RM run the first job gets its last unit of cost in tick an - 1 |
| Prediction.SchedulableConverges | feasibility/feasibility_tests.c:163-176 | the iteration stops for every service of a set RM schedules |
| Prediction.ConvergesExactly | feasibility/feasibility_tests.c:163-176 | the loop's iterates stop if and only if the services above have utilisation below 1, or 1 with nothing left to do |
| Prediction.DivergesExample | feasibility/feasibility_tests.c:163-176 | two services on which the loop gains a tick a pass for ever |
| TimeTools.TimespecSubtract | simple-capture/timetools.c:15-39 | the result and the rewritten y are those of the carry arithmetic, x is untouched, the sign is as reported |
| TimeTools.SubtractExact | simple-capture/timetools.c:19-35 | for any stamps the difference is exact, y keeps its total, nanoseconds lie in 0 .. 10^9, and when they are 10^9 |
| TimeTools.NegativeExactly | simple-capture/timetools.c:37-38 | the exact arguments for which 1 is returned, un-normalised ones included |
| TimeTools.NormalSubtract | simple-capture/timetools.c:19-38 | on normalised stamps the sign is right and the result normalised |
| TimeTools.ChainLeaves | simple-capture/timetools.c:19-28 | after any number of calls a normalised y is unchanged or has one second moved out of its nanoseconds, and exactly when |
| TimeTools.NegativeAfterCalls | simple-capture/timetools.c:19-38 | on a y that has been through any earlier calls the sign is wrong exactly for equal times, when the last call that differed in nanoseconds had fewer |
| TimeTools.NegativeAfterCall | simple-capture/timetools.c:19-38 | the same after one earlier call |
| TimeTools.EqualTimesCanBeNegative | simple-capture/timetools.c:19-38 | equal times reported negative for a y that an earlier call left |
| MemLog.EncodeRoundTrip | simple-capture/memlog.h:57-63 | packing and unpacking agree exactly when the event fits one byte |
| MemLog.Memlog.constructor | simple-capture/memlog.c:18-25 | a new log is empty |
| MemLog.Memlog.Append | simple-capture/memlog.c:34-40 | the ring keeps showing the newest entries, and the index wraps |
| MemLog.Memlog.Log | simple-capture/memlog.c:33-41 | one more event in the history |
| MemLog.Memlog.Log24 | simple-capture/memlog.c:43-55 | one more packed event in the history |
| MemLog.Memlog.Dump | simple-capture/memlog.c:58-96 | one line per recorded slot: time, event, difference to the recorded slot before, then data or order mark |
| MemLog.RotationIsHistory | simple-capture/memlog.c:33-41 | read from the index round, a wrapped log is the last MEMLOG_MAX events in order |
| MemLog.DumpFlagsOnlyTheSeam | simple-capture/memlog.c:58-96 | under a nondecreasing clock only the first recorded slot from the index on, after a wrap, can be flagged |
| MemLog.AtMostOneFlag | simple-capture/memlog.c:58-96 | at most one line of a dump is flagged |
| MemLog.SeamFlagExact | simple-capture/memlog.c:70-96 | in a wrapped log of recorded events, slot k is flagged if and only if it is the index, not 0, and the oldest event is strictly older than the newest |
| MemLog.UnwrappedDump | simple-capture/memlog.c:58-96 | n recorded events that have not wrapped give n lines: line k shows event k, its data or no mark, and the time since event k - 1 |
| MemLog.DumpComplete | simple-capture/memlog.c:69-70 | a slot has a line if and only if its event is not 0 |
| MemLog.WrappedDump | simple-capture/memlog.c:58-96 | in a wrapped log line k shows slot k and the time since the slot before |
| MemLog.SeamMarkExact | simple-capture/memlog.c:87-91 | the printed mark appears if and only if the flag does and the oldest kept event carries no data |
| MemLog.UnmarkedWrapExample | simple-capture/memlog.c:43-91 | a wrapped log of data events whose dump finds slot 1 out of order and does not mark it |
| MemLog.DumpShowsData | simple-capture/memlog.c:43-91 | an event logged with data and still kept is printed with that event and data |
| MotionDetection.Detector.NextMotionState | simple-capture/motion.c:25-70 | one frame moves the detector and yields its verdict as the transition function says |
| MotionDetection.Detector.IsMotion | simple-capture/motion.c:157-159 | the same, with the pixel threshold |
| MotionDetection.StateRemembers | simple-capture/motion.c:27-66 | every state names when its tick began and what has been still since |
| MotionDetection.TickAdvances | simple-capture/motion.c:38-65 | from the start of a tick the detector advances one step a frame while the counted frames are still |
| MotionDetection.DetectionExact | simple-capture/motion.c:25-70 | DETECTED at frame n if and only if frame n - 13 changed while searching and frames n - 9 .. n did not |
| MotionDetection.SearchingExact | simple-capture/motion.c:25-70 | the detector searches after frame n if and only if it did and nothing moved, or frame n ended a tick, by moving where it had to be still or as the 14th |
| MotionDetection.DetectionsApart | simple-capture/motion.c:25-70 | detections are at least 14 frames apart and the first needs 14 |
| MessageQueue.QueueContainer.EnqueueP | simple-capture/queue.c:94-131 | refused by the counter, else appended, else timed out with the counter raised |
| MessageQueue.QueueContainer.DequeueEnter | simple-capture/queue.c:133-138 | the counter drops before the receive |
| MessageQueue.QueueContainer.DequeueReceive | simple-capture/queue.c:146-155 | the oldest message is delivered |
| MessageQueue.QueueKeeps | simple-capture/queue.c:94-164 | after any calls, the two halves of receives interleaved: first in, first out, nothing lost or repeated; the counter is the length less the receivers inside plus the sends that timed out |
| MessageQueue.AcceptedExactly | simple-capture/queue.c:94-131 | which sends are accepted and which time out, after any calls |
| PipelineThreads.Synchronome.constructor | simple-capture/resources.c:7-22 | all counters and indices at their initial values, whatever the buffers hold |
| PipelineThreads.Synchronome.CheckRunningInCapture | simple-capture/frame.c:105-110 | the loop test of the capture thread |
| PipelineThreads.Synchronome.CopyCaptured | simple-capture/frame.c:195-199 | the frame goes into the current slot under the next id |
| PipelineThreads.Synchronome.SendCaptured | simple-capture/frame.c:201-210 | the slot is queued and the index advances round the ring; a refused send stops the system |
| PipelineThreads.Synchronome.CheckRunningInProcessing | simple-capture/processing.c:342-347 | the outer loop test |
| PipelineThreads.Synchronome.EnterDequeue | simple-capture/processing.c:351 | the processing thread enters the queue |
| PipelineThreads.Synchronome.ReceiveFrame | simple-capture/processing.c:351-357 | it takes the oldest queued slot |
| PipelineThreads.Synchronome.Leave | simple-capture/processing.c:498-538 | startup clears the count; otherwise a count off by more than 3 freezes, else is cleared |
| PipelineThreads.Synchronome.StampsInStep | simple-capture/processing.c:403-410 | the 80 ms check on the two frames' stamps |
| PipelineThreads.Synchronome.CountDetection | simple-capture/processing.c:411-427 | a detection in step counts, the fifth in a row ends the startup, one out of step starts over |
| PipelineThreads.Synchronome.StartupFrame | simple-capture/processing.c:372-429 | a frame before the sync: detection, counting towards 5, reset of the count when out of step |
| PipelineThreads.Synchronome.ProcessFrame | simple-capture/processing.c:359-496 | every branch from a received frame to a choice, a skip or the end of the inner loop |
| PipelineThreads.Synchronome.SendSelected | simple-capture/processing.c:479-495 | the copied slot is queued, the index advances, the inner loop ends |
| PipelineThreads.Synchronome.CheckRunningInWriter | simple-capture/writeout.c:49 | the loop test of the writer |
| PipelineThreads.Synchronome.EnterWriteoutDequeue | simple-capture/writeout.c:53-54 | the writer enters its queue |
| PipelineThreads.Synchronome.ReceiveSelected | simple-capture/writeout.c:54-57 | it takes the oldest selected slot |
| PipelineThreads.Synchronome.WriteFrame | simple-capture/writeout.c:63-68 | the slot's frame is written; frame 1801 stops the system |
| PipelineThreads.Synchronome.Perform | simple-capture/processing.c:342-540 | any one step of any thread changes the shared state as the step function says |
| PipelineThreads.Synchronome.RunThreads | simple-capture/writeout.c:49-70 | any interleaving of the three loops, each copy finding room, writes every 25th frame after the sync as captured, at most 1801, from sync 78 at the earliest, and loses none; sync and end of running as in PipelineReport.EndToEnd |
| PipelineSafety.BoundsGiveRoom | simple-capture/frame.c:193-203 | the plain occupancy bounds, at captures and at selections only, imply that every copy finds room |
| PipelineSafety.CaptureCopyStep | simple-capture/frame.c:193-199 | a copy that finds room keeps the invariant |
| PipelineSafety.CaptureSendSucceeds | simple-capture/queue.c:97-122 | under the invariant a capture send is never refused and never times out |
| PipelineSafety.StartupFrameStep | simple-capture/processing.c:372-436 | startup frames keep the invariant, so a sync needs five detections of 14 comparisons each |
| PipelineSafety.ChosenFrameStep | simple-capture/processing.c:432-486 | a chosen frame is the captured frame under its number, 25 after the last |
| PipelineSafety.StepKeepsInv | simple-capture/processing.c:342-540 | every step of every thread keeps the invariant |
| PipelineSafety.RunKeepsInv | simple-capture/processing.c:342-540 | every interleaving keeps it |
| PipelineReport.InStepExact | simple-capture/processing.c:403-411 | on normalised stamps a detection counts if and only if its frame came 0 up to 80 ms after the one before; and the exact condition on any stamps |
| PipelineReport.StartupStep | simple-capture/processing.c:372-429 | the counter of the startup is the number of detections in a row, up to the last, that came in time |
| PipelineReport.RunningStep | simple-capture/processing.c:342-347 | the system runs if and only if it was not stopped and fewer than 1801 frames are written; while it runs no thread has left its loop |
| PipelineReport.StopsSoon | simple-capture/writeout.c:49 | once running is cleared it stays so, and at most one more frame is captured, one selected and one written |
| PipelineReport.OverrunOutcome | simple-capture/frame.c:193-210 | a capture without room stops the system if the queue holds ninety slots and otherwise goes on over a slot still held |
| PipelineReport.SelectionOverrunOutcome | simple-capture/processing.c:475-486 | a selection without room goes on and is counted, but with a hundred slots queued its frame is never written |
| PipelineReport.EndToEnd | simple-capture/writeout.c:49-70 | every interleaving writes exactly frames sync + 25, sync + 50, ... as captured, at most 1801 of them, with sync >= 78; every frame due is written, held or queued, so once drained all are written; sync, told from stamps and pixel counts alone, is the first frame that completes five detections in a row within 80 ms each; running ends exactly with a stop or file 1801 |
| PipelineReport.InvNothingLost | simple-capture/processing.c:473-495 | captured frames are taken, queued or about to be; chosen ones are written, held, queued or about to be; and one is chosen every 25 frames processed |
| PipelineSafety.QueuesAgree | simple-capture/queue.c:94-164 | queued slots are slots of the ring, consecutive, and end just before the producer's index, counters match, held slots are not queued |
| PipelineSafety.CopyOverwritesExactly | simple-capture/frame.c:193-210 | a capture overwrites a queued or held slot if and only if it finds no room |
| PipelineSafety.RingCanFill | simple-capture/frame.c:193-210 | from any start, ninety captures that nobody takes lead with room to one that overwrites a queued slot |
| PipelineSafety.SelectionOverwritesExactly | simple-capture/processing.c:472-486 | a selection overwrites a slot queued or being written if and only if it finds no room |
| PipelineSafety.FreezeOnlyAtSync | simple-capture/processing.c:498-537 | the drift check fires only in the step that ends the startup, exactly when that frame is not 22 .. 28 frames after the last detection of the frame history |
| PipelineSafety.HistoryStep | simple-capture/processing.c:372-429 | during startup the motion machine and the count are those of the frame history: the count is the distance from the last detection |
| PipelineSafety.SyncIsDetection | simple-capture/processing.c:401-436 | the sync frame is a detection of the history: of the 14 comparisons up to it the first moved while searching and the last ten did not |
| TenHz.Processor.ProcessFrame | simple-capture/processing.c:133-294 | one dequeued frame moves the selector and is picked as the step function says |
| TenHz.Processor.StartupFrame | simple-capture/processing.c:160-237 | the startup branch, including the continue that skips clearing the count |
| TenHz.StartupExact | simple-capture/processing.c:160-237 | for every frame sequence the startup ends on the first frame that makes five still-after-motion frames counted within 130 ms of the last one, and its counters say so before |
| TenHz.SyncTimes | simple-capture/processing.c:204-226 | the 130 ms test on the stamps, exact for any stamps |
| TenHz.PicksArePaced | simple-capture/processing.c:240-291 | for every frame sequence the k-th pick is the ceil(5k/2)-th frame after the sync, and none is late |
| TenHz.PicksDoNotDrift | simple-capture/processing.c:240-291 | a pick is never more than half a frame from 2.5 frames a pick |

## Left out

- 32-bit wrap-around and floating point: integers are unbounded (a service's period is at most `INT_MAX`) and ceilings exact.
- A period of 0, which the simulator would count below zero and the tests divide by.
- Feasibility.CompletionTime: requires that the iteration stops, since the source loops otherwise; `Feasibility.CompletionPasses` covers the loop on all services and `Prediction.ConvergesExactly` says when it stops.
- Feasibility.CompletionTimeFeasibility: the same, for every service of the set; otherwise the source returns nothing.
- Charts, percentages and the Liu-Layland printout: output only.
- OptimalPolicies.TrapMisses: counts ticks without bound; `OptimalPolicies.TrapInIntTicks` has the source's `int` counter.
- OptimalPolicies.TrapExample: the same.
- Simulator.Engine.Run: takes the number of ticks as a parameter in place of the fixed `LCM * 2`.
- Camera and V4L2 calls, thread, priority, semaphore and timer setup: the sequencer is an arbitrary interleaving of steps.
- `frame_changes`, image transformation and file output: the changed-pixel count is an input, writing appends the frame.
- MessageQueue.QueueContainer.DequeueReceive: the error return of `mq_receive` is not modelled; a receive blocks until a message arrives.
- PipelineThreads.Synchronome.ReceiveFrame: the same, so neither is the exit on it.
- PipelineThreads.Synchronome.ReceiveSelected: the same.
- MessageQueue.QueueContainer.EnqueueP: a send to a full kernel queue fails at once, where the source waits up to two seconds for space; under the invariant no send meets a full queue.
- PipelineThreads.Synchronome.WriteFrame: the image transformation and the file write become appending the frame.
- PipelineThreads.Synchronome.SendCaptured: concurrent changes to the queue counter and staging buffer within one enqueue are not modelled.
- PipelineReport.EndToEnd: nothing is said of interleavings in which a copy finds no room, beyond the overwriting shown by the two lemmas on it and `PipelineReport.OverrunOutcome`.
- TenHz.Processor.ProcessFrame: the 10 Hz selector is modelled alone; its rings and queues work as in the 1 Hz build, and the stamp of the last sync slot is an input.
- `MODE_ALWAYS_DETECT_FRAME`, code under `#if 0`, standalone capture and the copies under `jitter/`.
