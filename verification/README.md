# Verified models of the kernel modules

This project models loadable modules ("klibs") of a unikernel in Dafny and proves what they
are for. Each Dafny module follows one component:

| files | component |
|---|---|
| `FixedPoint`, `SquareRoot`, `NtpTime`, `Regression`, `Estimation`, `NtpController`, `NtpClock`, `NtpLaws`, `NtpRuns` | NTP clock discipline: 64/128-bit fixed point, NTP timestamps, weighted least squares and its standard errors, and the controller that steps or slews the clock |
| `Umcg`, `UmcgSafety`, `UmcgPointers`, `UmcgWakeups`, `UmcgRuns`, `UmcgTimers`, `UmcgCalls`, `UmcgScheduler` | user-managed scheduling of worker threads by server threads |
| `PathCanon`, `PathWalk`, `Pledge`, `PledgeLaws`, `Unveil`, `UnveilLaws` | the pledge and unveil sandbox and its handler dispatch |
| `BitSerial`, `Crc32cTable`, `Crc32c`, `Crc32cWords`, `Metrics` | CRC-32C and the framed metrics encoding built on it |
| `Firewall`, `FirewallRules`, `FirewallPackets` | the packet filter: address prefixes, the IPv6 header chain, building and matching rules, and packets built from their header fields |
| `RangeMap`, `Tmpfs` | range maps and the dirty pages of tmpfs files |
| `Common`, `Powers`, `Text` | bytes, optional values, powers of two and string search, shared by the proofs |

Code that changes things in place is a method or a class (a buffer, a ring of samples, the
scheduler's tables), proved against a specification on values; the laws are lemmas about the
specification, most of them over whole runs.

## How the source is represented

- **Integers.** Wrap-around is written out where it matters: `Wrap64` and residues modulo 2^64 in the
  NTP code, bit-vectors in the checksum, `% 65536` for ports. The unsigned comparison of the step
  threshold is modelled as C evaluates it.
- **Ability masks** are sets of bit positions below 64; `PLEDGE_ALL` is the full set. Permission masks of
  unveil are an optional set, absent when the "valid" bit is clear.
- **Concurrency.** Every UMCG system call, timer expiry and scheduler callback is one atomic
  step. `Enabled` states what the scheduler guarantees: a thread that makes a system call is not
  asleep, a worker is scheduled only while it runs, is paused or is blocked, and only a running
  worker unregisters. Woken block queues and the application of their actions are separate steps,
  and actions may also be applied spuriously. A pointer to a worker's record is the worker and a
  number that tells its registrations apart, so that a pointer to a freed record can be told.
- **User memory, allocation, the clock and the network** are parameters or nondeterministic choices. A
  user string may fault; an event buffer has an end; a range map may fail to allocate a node; an
  uninitialised pointer is an arbitrary `wild` flag, on which no verdict depends.
- **The regression** is over `real`. The controller is parametrised by its multiplication
  and division, so its results hold for the fixed-point ones and for any others.
- **The path resolver, the address parser and the rb-tree** are inputs or sequences.

## Where the code departs from its purpose

These are stated as exact conditions, each with a concrete case.

- The 128-by-64-bit division takes a top word below the divisor for an overflow
  (`DivisionExactly`, `DivisionFails`). Signed operands never lead there (`DivisionBounds`).
- `fpdiv` comes out with the wrong sign for quotients from 2^63 up to 2^64 (`DivideExactly`,
  `DivideWrongSign`).
- `fpsqrt` is wrong from 2^60 on whenever a remainder above bit 15 wraps, and from 2^62 on always
  (`FpSqrt`, `WrappingSquare`).
- The threshold between stepping and slewing has no effect below 2^63: every nonzero offset is
  stepped (`StepsExactly`, `StepsAsIntended`, `SmallOffsetStepped`).
- A frequency whose sum with the base frequency is the least 64-bit number passes the range test
  (`NewSampleExactly`, `EscapingEstimate`).
- A slew is meant to correct an offset of the size of offset_sd in 1.5 query intervals, but the
  interval of 2^i seconds is taken as 2^i units of 2^-32 seconds: any offset of at least
  offset_sd / 2^14 is corrected at the rate of one second (`SlewedInOneSecond`, `SlewedTooFast`;
  `SlewTarget` has the rule that is applied).
- The regression fails when some but not all peer distances are zero (`Estimation.Regress`,
  `ZeroDistance`).
- A negated address prefix of whole bytes matches every address (`MatchBufExact`,
  `NegatedPrefixMatches`).
- A worker that exits while a server waits on it leaves the server with a pointer to a freed
  record, which its action follows (`PointersExactly`, `StalePointer`).
- A server that waits on a worker while the worker runs for another server takes over its
  wake-up (`WakesExactly`, `LostWakeUp`).
- A server that waits on a blocked worker is never woken if a second server waits on the worker,
  or if the worker blocks again before the server has run (`WaitersExactly`, `ForgottenWaiter`,
  `ReblockedWaiter`).
- The handler for rename(2) looks at the third argument instead of the new name, which is the
  second (`RenameExactly`, `RenameUnchecked`).
- Metrics of more than 65536 bytes are written as one chunk, which the format does not allow, and
  the length of a name of 2^16 bytes or more is truncated (`Metrics.RoundTrip`, `RecordsExactly`,
  `LongName`).

## Model

| member | source | states |
|---|---|---|
| `FixedPoint.DivisionExactly` | klib/ntp.c:122-140 | for every dividend and nonzero divisor, the 128-by-64-bit division brackets the true quotient within the bits it drops, or returns all ones when the quotient needs more than 64 bits, if and only if the top word of a wide dividend is not below the divisor |
| `FixedPoint.DivisionBounds` | klib/ntp.c:126-140 | that is always so for divisors up to 2^63, the only ones the signed division passes |
| `FixedPoint.DivisionFails` | klib/ntp.c:136-138 | 2^64 divided by 2^64 - 1 gives all ones |
| `FixedPoint.DivideExactly` | klib/ntp.c:241-261 | for a nonzero divisor the fixed-point quotient has the right sign, is never too large and is short by less than 2^s, if and only if the true quotient is below 2^63 (or, for a negative result, below 2^63 plus the error) |
| `FixedPoint.DivideSaturates` | klib/ntp.c:241-261 | true quotients of 2^64 or more, and nonzero values over zero, saturate with the right sign |
| `FixedPoint.DivideWrongSign` | klib/ntp.c:252-257 | a concrete quotient of 2^63 that comes out wrong |
| `FixedPoint.MultiplyBack` | klib/ntp.c:223-261 | multiplying the quotient back never exceeds the dividend, keeps its sign and falls short by a bounded amount |
| `FixedPoint.MultiplyExactly` | klib/ntp.c:223-238 | the fixed-point product has the right sign and is the true one rounded towards zero, if and only if it fits in a signed 64-bit number |
| `SquareRoot.FpSqrt` | klib/ntp.c:264-280 | for every 64-bit argument, the digit-by-digit loop with wrap-around returns exactly the floor of the square root if and only if the argument is nonnegative and below 2^62 and, for every leading part of the root above bit 15, the scaled remainder is below 2^63; below 2^60 no value that any round computes wraps, and from 2^62 on the result is negative |
| `SquareRoot.SmallNoWrap` | klib/ntp.c:269-277 | the condition holds of every argument below 2^60 |
| `SquareRoot.WrappingSquare` | klib/ntp.c:275 | it fails for 3 * 2^60, and the 2^46 that the loop returns for it is not the root |
| `SquareRoot.RootToUnique` | klib/ntp.c:269-277 | the leading part of the root that the condition speaks of is unique |
| `NtpTime.RoundTrip` | klib/ntp.c:151-160 | every 64-bit timestamp survives conversion to NTP format and back, also across the 2036 era wrap |
| `NtpTime.DiffAgrees` | klib/ntp.c:157-166 | the difference of two NTP timestamps is that of the converted ones modulo 2^64 |
| `NtpTime.SecondsSince1900` | klib/ntp.c:151-155 | the seconds sent are those since the start of 1900, 25567 days before that of 1970, modulo 2^32 |
| `NtpTime.StartOf1970` | klib/ntp.c:151-155 | the bytes sent for the start of 1970, most significant first |
| `Regression.PeerDistances` | klib/ntp.c:339-352 | the first loop computes all distances, their mean and the least of them |
| `Regression.Weights` | klib/ntp.c:339-364 | there is a unit, the mean distance less the least one if that is positive and not above the least, else the least, such that every weight is the square of one more than the number of units by which the distance (half the delay plus the dispersion) exceeds the least; weights are at least 1, reach 1, and are ordered like the distances; they cannot be computed exactly when some but not all distances are zero |
| `Regression.WeightsUnique` | klib/ntp.c:339-364 | delays and dispersions determine the weights |
| `Regression.WeightOfOneUnit` | klib/ntp.c:357-364 | a sample exactly one unit above the least distance has weight 4 |
| `Regression.Means` | klib/ntp.c:367-381 | the loop computes the weighted means of times and offsets |
| `Regression.DeviationSums` | klib/ntp.c:382-391 | the loop computes the weighted sums of squares and products of deviations |
| `Regression.SpreadMeans` | klib/ntp.c:382-392 | the slope's divisor is zero exactly when all sample times are equal |
| `Regression.FitIsBest` | klib/ntp.c:366-404 | a line through the means whose slope solves the covariance equation has the least weighted squared residual of all lines |
| `Regression.EqualTimesFit` | klib/ntp.c:392-410 | when all sample times are equal, the best line has no error exactly when all offsets are equal |
| `Regression.ZeroDistance` | klib/ntp.c:358-361 | delays and dispersions for which the weights cannot be computed |
| `Estimation.EstimatesLine` | klib/ntp.c:392-393 | what a linear estimate yields for offsets that lie on a line |
| `Estimation.LeastVariance` | klib/ntp.c:392-393 | among all unbiased linear estimates from the samples, those of the fitted line have the least variance |
| `Estimation.StandardErrors` | klib/ntp.c:405-415 | the squares of the standard errors of offset and slope are the variances of those estimates |
| `Estimation.Regress` | klib/ntp.c:327-422 | with times counted from the last sample and samples weighed by the inverses of the weights above, the fitted line minimises the weighted squared residual over all lines, for any samples, the mean square error is that minimum over n - 2, offset_sd and the error of the slope are the square roots of the least variances of unbiased estimates, and skew is the latter times its factor; the computation fails exactly when some but not all distances are zero, or the times are all equal and the offsets are not |
| `Estimation.SkewShrinks` | klib/ntp.c:420 | the factor is 4 plus 256 halved for every sample beyond the fourth |
| `NtpController.NewSampleExactly` | klib/ntp.c:508-589 | one sample keeps the bounds on frequency, poll interval and window and the conservation of corrections, if and only if its estimate does not escape the range test |
| `NtpController.RunKeeps` | klib/ntp.c:424-589 | in every run of samples, query results, slew completions and server selections, &#124;base_freq&#124; <= (1 + bad_regressions) * max_base_freq with bad_regressions < 5, the poll interval stays between its bounds, the window holds the last samples inserted, in order and with the measurements they came with, and corrections are conserved |
| `NtpController.QueryCompleteKeeps` | klib/ntp.c:168-177 | the result of a query keeps the bounds, in particular that of the poll interval |
| `NtpController.EscapingEstimate` | klib/ntp.c:520-538 | a state in order and an estimate of -2^63 that takes the frequency out of every range |
| `NtpController.SettleKeeps` | klib/ntp.c:448-459 | settling a slew moves its correction from the outstanding offset to the clock |
| `NtpController.StepKeeps` | klib/ntp.c:557-562 | stepping the clock moves the whole outstanding offset to it |
| `NtpController.StartSlewKeeps` | klib/ntp.c:448-488 | a new slew keeps all bounds, including that of the slew frequency |
| `NtpController.JudgeKeeps` | klib/ntp.c:520-538 | a judged estimate keeps the frequency in the range its count of bad regressions allows, and the fifth bad one in a row is refused |
| `NtpController.StepsExactly` | klib/ntp.c:558-565 | when the clock is stepped: below 2^63 always unless offset and threshold are zero, above it exactly for small offsets |
| `NtpController.StepsAsIntended` | klib/ntp.c:558-565 | that is stepping beyond the threshold exactly when the threshold is zero or the offset is beyond it |
| `NtpController.SmallOffsetStepped` | klib/ntp.c:558 | an offset of 2^-32 seconds is stepped although the threshold is a second |
| `NtpController.SlewDuration` | klib/ntp.c:472-481 | a slew lasts between 1 and 10000 seconds |
| `NtpController.PollConfigured` | klib/ntp.c:892-922 | accepted poll settings are ordered, within limits and honoured; which settings are refused; the defaults are 4 and 10, or the given minimum if that is more |
| `NtpClock.Controller.InsertSample` | klib/ntp.c:424-439 | writing into the ring appends to the window, dropping the oldest sample of a full one |
| `NtpClock.Controller.AdjustSamples` | klib/ntp.c:566-572 | the loop over the ring adjusts every sample of the window exactly once |
| `NtpClock.Controller.ResetState` | klib/ntp.c:179-197 | a reset empties the window and starts over |
| `NtpClock.Controller.ChronyNewSample` | klib/ntp.c:508-589 | handling a sample in place, with its early returns and resets, is the step that the run theorem and `SampleCorrects` are about, and keeps the bounds if and only if the estimate does not escape the range test |
| `NtpLaws.SampleCorrects` | klib/ntp.c:508-572 | for a multiplication that distributes over sums of times: a sample whose estimate is used makes outstanding and stepped offset together grow by the offset of the fitted line at the compensated present; every sample that lay on the line is left with offset zero if the clock is slewed, and with minus the offset outstanding before if it is stepped |
| `NtpLaws.EstimateApplied` | klib/ntp.c:540-572 | the same of the application of an estimate, and when it steps |
| `NtpLaws.AdjustedTime` | klib/ntp.c:566-572 | a sample's time moves along with its offset, and the other way by a step; its measurements stay |
| `NtpLaws.CompensatedIs` | klib/ntp.c:292-295 | the compensated time is the clock's reading plus what the slew has still to correct |
| `NtpLaws.SlewSettles` | klib/ntp.c:448-488 | a slew whose frequency corrects the outstanding offset in a duration within the limits lasts that long, and settled then has corrected exactly the offset |
| `NtpLaws.SlewWaits` | klib/ntp.c:472-481 | an offset below a nanosecond, or one that the slew would take further away, is left for 10000 seconds |
| `NtpLaws.SlewTarget` | klib/ntp.c:461-470 | where products and quotients are exact, a slew's rate corrects the offset in a duration whose product with the offset is 1.5 * 2^interval * offset_sd, taken as units of 2^-32 seconds |
| `NtpLaws.SlewedInOneSecond` | klib/ntp.c:461-470 | for every poll interval that can be configured, an offset of at least offset_sd / 2^14 is corrected at the rate of one second |
| `NtpLaws.SlewedTooFast` | klib/ntp.c:461-470 | an offset of one second with a query interval of 64 seconds is corrected at one second per second, 96 times the rate the comment promises |
| `NtpLaws.SourceRoundsDown` | klib/ntp.c:223-261 | the source's multiplication and division meet what the two results above ask of them |
| `NtpLaws.PollsByDistance` | klib/ntp.c:573-588 | an estimate within 1.5 offset_sd of the measured offset counts for rarer polls, any other for more frequent ones |
| `NtpRuns.PollsAddUp` | klib/ntp.c:573-588 | polls that track well from a fresh count add up by the interval each, up to the threshold or at the largest interval without end |
| `NtpRuns.PollsSlowDown` | klib/ntp.c:576-581 | the poll that takes the count past 30 lengthens the interval by one and starts afresh |
| `NtpRuns.PollsTakeAway` | klib/ntp.c:582-587 | polls that do not track count twice, the other way |
| `NtpRuns.PollsSpeedUp` | klib/ntp.c:582-587 | and shorten the interval past the threshold |
| `NtpRuns.FailuresInARow` | klib/ntp.c:168-177 | after k failed queries in a row the interval has grown by one for each beyond the eighth, up to its limit, and nothing else has changed |
| `NtpRuns.QueryEnds` | klib/ntp.c:168-177 | a success ends the row; without a server neither counts |
| `NtpRuns.JudgeExactly` | klib/ntp.c:520-538 | an estimate in range is used as it is and ends a row of bad ones; out of range it is used with the nearest frequency in range and the measured offset, except the fifth in a row |
| `NtpRuns.FiveBadInARow` | klib/ntp.c:513-533 | in every run of samples without a regression in range they are counted, and the fifth starts everything over |
| `UmcgSafety.Safety` | klib/umcg.c:104-473 | in every run the invariant holds: the idle list is duplicate-free and holds exactly the idle workers, running and paused workers hold distinct empty slots, empty slots are held, slots belong to servers blocked in a switch, timers are armed only while a worker does not run; and an enabled step follows only valid pointers, except the action of a server whose worker is gone |
| `UmcgSafety.OneHolder` | klib/umcg.c:424-473 | in every run a server blocked in a context switch has an empty slot exactly when a running or paused worker holds it, and that worker is unique |
| `UmcgSafety.FreesExactly` | klib/umcg.c:136-182 | a BLOCK, WAIT, PREEMPT or EXIT step fills exactly the slot its worker held, with that worker's event, and takes it away from the worker |
| `UmcgSafety.OnlyFrees` | klib/umcg.c:302-373 | no other step touches a slot, except that a server takes away its own slot once filled |
| `UmcgSafety.CollectMeans` | klib/umcg.c:255-300 | collecting events dispatches a front part of the idle list, writes their reports and no more than the given number of entries, and stops only when the list is empty, the buffer is full or a write fails |
| `UmcgSafety.EventsReported` | klib/umcg.c:195-223 | in every run a timeout is reported for an idle worker exactly when its timer fired before the report, and the worker's own wait returns a timeout in the same cases |
| `UmcgSafety.TimerFireKeeps` | klib/umcg.c:121-134 | a timer keeps the invariant, whichever of the two exchanges wins |
| `UmcgSafety.WorkerSwitchKeeps` | klib/umcg.c:451-462 | handing a server from one worker to the next keeps the invariant |
| `UmcgSafety.ServerSwitchKeeps` | klib/umcg.c:436-450 | attaching a blocked server to a worker keeps the invariant, given a slot that is not in use |
| `UmcgSafety.UnregisterKeeps` | klib/umcg.c:234-253 | the exit of a running worker keeps the invariant; what it does to servers waiting on the worker is in `PointersExactly` |
| `UmcgSafety.RegisterKeeps` | klib/umcg.c:192-232 | a registration, accepted or refused, keeps the invariant |
| `UmcgSafety.WorkerWaitKeeps` | klib/umcg.c:411-421 | a worker's wait keeps the invariant; its timer is in `WaitSetsTimer` |
| `UmcgSafety.ServerWaitWorkerKeeps` | klib/umcg.c:379-397 | a server's wait on any worker keeps the invariant |
| `UmcgPointers.PointersExactly` | klib/umcg.c:234-318 | while every blocked server points to something that exists, every enabled step is safe, and it keeps the pointers valid if and only if it is not the exit of a worker that some server waits on |
| `UmcgPointers.NoStalePointer` | klib/umcg.c:302-318 | in every run without such exits, no enabled step follows a stale pointer |
| `UmcgRuns.StalePointer` | klib/umcg.c:250-312 | a ten-step run after which a woken server's action follows a pointer to a freed worker |
| `UmcgRuns.StaleAction` | klib/umcg.c:302-318 | registering the thread again does not make the pointer valid |
| `UmcgWakeups.WakesExactly` | klib/umcg.c:375-422 | a step keeps "a running worker remembers the queue of the server whose slot it holds, and whoever's slot is filled has been woken" if and only if it is not a server's wait on a worker that holds another server's slot |
| `UmcgWakeups.WaitersExactly` | klib/umcg.c:136-182 | a step keeps "a blocked worker remembers the server waiting on it, and a server whose worker is no longer blocked has been woken" if and only if it is not a second server's wait on a blocked worker, nor the blocking or exit of a worker whose waiting server has not run |
| `UmcgWakeups.AsleepKept` | klib/umcg.c:113-119 | every step from a state in order marks only servers that are asleep, and a blocked worker remembers only a server that waits on it |
| `UmcgWakeups.DueIsFreed` | klib/umcg.c:302-373 | in every run without those steps, the action of any blocked server is safe and frees it exactly when its slot is filled or its worker is no longer blocked; then the server has been woken since it went to sleep, and until then a worker remembers it |
| `UmcgRuns.LostWakeUp` | klib/umcg.c:393-396 | a five-step run in which a wait on a running worker loses another server's wake-up |
| `UmcgRuns.ForgottenWaiter` | klib/umcg.c:393-396 | an eight-step run in which the second of two servers waiting on a worker is woken and the first is not |
| `UmcgRuns.ReblockedWaiter` | klib/umcg.c:142-146 | a run in which the worker blocks again, its waiting server goes back to sleep and nothing remembers it |
| `UmcgTimers.WaitSetsTimer` | klib/umcg.c:411-421 | after a worker's wait its timer can fire if and only if the wait has a timeout |
| `UmcgTimers.SwitchSetsTimer` | klib/umcg.c:451-464 | so after a worker's switch to a runnable worker, whose own timer is removed |
| `UmcgTimers.TimerStays` | klib/umcg.c:121-134 | over every run until the worker is dispatched or its timer fires, the timer stays set or unset and the worker cannot go away |
| `UmcgTimers.OthersLeave` | klib/umcg.c:104-473 | a worker is disturbed only by its own steps, by its timer and by being dispatched |
| `UmcgTimers.FiringTimesOut` | klib/umcg.c:121-134 | a timer that fires before its worker was collected lists it, makes its call return -ETIMEDOUT and its report end with a timeout; one that fires later changes nothing |
| `UmcgTimers.TimeoutReported` | klib/umcg.c:121-300 | after that, over every run while the worker is listed, the collection that reaches it writes its identifier with WE_TIMEOUT and its call still returns -ETIMEDOUT |
| `UmcgTimers.CallReturns` | klib/umcg.c:121-134 | over every run until the worker's next call, its call returns -ETIMEDOUT if and only if the timer has fired before the worker was collected, and otherwise what it returned |
| `UmcgTimers.WaitReturns` | klib/umcg.c:411-421 | so a wait returns -ETIMEDOUT exactly then, which needs a timeout, and 0 otherwise |
| `UmcgCalls.Refusals` | klib/umcg.c:192-473 | each call returns 0 exactly when its arguments are in order; otherwise it returns -EINVAL and changes nothing |
| `UmcgCalls.SwitchRuns` | klib/umcg.c:424-473 | a switch in order leaves the next worker running, on a new slot of the size given or on the slot the calling worker held |
| `UmcgCalls.LifeCycle` | klib/umcg.c:104-473 | the changes of a worker's state there are, and which steps make them |
| `UmcgCalls.Moves` | klib/umcg.c:104-473 | a call in order, a timer or a callback makes the change it can make |
| `UmcgCalls.JoinsWith` | klib/umcg.c:104-111 | a worker joins the idle list with the event of the step and keeps it while listed |
| `UmcgCalls.FirstInFirstOut` | klib/umcg.c:104-300 | workers are reported in the order in which they became idle: every step takes some off the front of the list or puts one at its end |
| `UmcgCalls.EventsResult` | klib/umcg.c:255-300 | a collection returns the number of entries written, or -EFAULT exactly when not even the first report could be written in full |
| `UmcgCalls.ActionResult` | klib/umcg.c:344-373 | a server woken from a switch returns 0, or -EFAULT exactly when its own event or the first report behind it could not be written in full |
| `UmcgCalls.EntriesRead` | klib/umcg.c:5-6 | in every run an entry can be split back into the worker's identifier and the event |
| `UmcgScheduler.Scheduler.ValidInv` | klib/umcg.c:65-77 | between calls the klib's tables are a state of a run, so the invariant holds of them |
| `UmcgScheduler.Scheduler.SwitchFromServer` | klib/umcg.c:436-473 | two compare-and-swaps let only a runnable or waiting worker be dispatched; the call is a step of the run; the worker then gets the server's new slot and queue and loses its timer |
| `UmcgScheduler.Scheduler.SwitchFromWorker` | klib/umcg.c:451-473 | the call is a step of the run: only a runnable worker takes over, never the caller itself; it inherits slot and queue while the caller joins the idle list |
| `UmcgScheduler.Scheduler.TimerExpired` | klib/umcg.c:121-134 | the expiry is a step of the run: by compare-and-swap a waiting worker becomes idle with a timeout event, an idle one is flagged, and in both cases only its return value becomes a timeout |
| `UmcgScheduler.Scheduler.PauseSyscall` | klib/umcg.c:136-150 | the callback is a step of the run: only a paused worker becomes blocked, fills its slot, wakes its server and forgets its queue |
| `UmcgScheduler.Scheduler.ReturnToThread` | klib/umcg.c:165-182 | the callback is a step of the run: a blocked worker becomes idle, one whose time is up is preempted and frees its server, any other runs on |
| `UmcgScheduler.Scheduler.ServerGetEvents` | klib/umcg.c:255-300 | the call is a step of the run; the loop writes exactly the collected entries into the user's buffer, ends a list that is not full with a zero, and returns the count or the fault |
| `UmcgScheduler.Scheduler.SwitchAction` | klib/umcg.c:344-373 | the action is always safe and a step of the run; a freed server is told the event of its worker first |
| `PathCanon.Canonicalize` | klib/pledge.c:401-440 | the loop succeeds exactly for absolute paths all of whose intermediate results are shorter than the buffer, and leaves in it the joined result of a stack machine over the path's components |
| `PathCanon.Rewind` | klib/pledge.c:418-425 | backtracking for ".." removes exactly the last component |
| `PathCanon.Idempotent` | klib/pledge.c:401-440 | canonicalising twice is canonicalising once, and needs no larger buffer |
| `PathCanon.InDirCanonical` | klib/pledge.c:442-447 | the byte prefix test against a directory passes exactly when its components are a proper prefix of the resolved ones |
| `PathCanon.InTmp` | klib/pledge.c:459-464 | the test against "/tmp/" passes exactly when the resolved path starts with "tmp" and has a second component |
| `PathWalk.CanonicalLeads` | klib/pledge.c:401-440 | in every tree of directories the canonical form of an absolute path leads where the path leads, ".." going up and staying at the root |
| `PathWalk.ComponentsJoin` | klib/pledge.c:401-440 | the components, each behind a slash, are the path |
| `Pledge.AllowedMonotone` | klib/pledge.c:161-387 | a larger ability mask allows no less, for every handler |
| `Pledge.Pldg.SockOptCheck` | klib/pledge.c:291-375 | the cascade of tests on a socket option refuses it exactly when the mask lacks what a table of needed abilities demands |
| `Pledge.Pldg.SendMmsgCheck` | klib/pledge.c:638-654 | the loop refuses a vector exactly when some message has an address and the mask lacks inet and unix |
| `Pledge.Pldg.FilepathCreate` | klib/pledge.c:449-467 | the handler, with its buffer for the canonical path, refuses a creation exactly as the path's canonical form demands |
| `Pledge.Pldg.FilepathIo` | klib/pledge.c:469-529 | the handler, with its buffer for the canonical path, refuses to open a file exactly as the tests that `OpensAnywhere`, `ReadOnlyListed` and `OpensOnlyInTmp` are about demand |
| `Pledge.RefusedForever` | klib/pledge.c:131-159 | a call refused once is refused for the rest of the run |
| `Pledge.NeverForever` | klib/pledge.c:71-85 | a call that no promise enables is refused from the first successful non-null pledge on, and until then only for its arguments |
| `Pledge.CreateOnlyInTmp` | klib/pledge.c:449-467 | without cpath, the test for creating a file passes exactly for paths that resolve strictly below /tmp, and only with tmppath |
| `Pledge.RenameExactly` | klib/pledge.c:600-605 | rename(2) is decided like renameat exactly when the old name is refused, or the third argument and the new name pass or fail alike |
| `Pledge.RenameUnchecked` | klib/pledge.c:600-605 | with tmppath alone, /tmp/a can be renamed to /b |
| `Pledge.WriteOnlyInTmp` | klib/pledge.c:469-529 | without cpath and wpath the same holds for opening to write or create |
| `PledgeLaws.ReadOnlyListed` | klib/pledge.c:483-509 | without rpath, a path can be opened to read exactly if it is absolute, fits and resolves strictly below /tmp with tmppath, or to a listed file: for openat below /usr/share/zoneinfo, /etc/localtime, or with dns one of four files in /etc; for faccessat /etc/localtime; for newfstatat with dns two files; for other calls none |
| `PledgeLaws.OpensAnywhere` | klib/pledge.c:480-525 | with the abilities its flags ask for, every path can be opened |
| `PledgeLaws.OpensOnlyInTmp` | klib/pledge.c:480-525 | without another ability its flags ask for, exactly the paths that resolve strictly below /tmp, with tmppath |
| `PledgeLaws.PasswdRefused` | klib/pledge.c:486-509 | with wpath alone /etc/passwd cannot be opened to read |
| `PledgeLaws.LoadsExactly` | klib/pledge.c:625-634 | a library is loaded with prot_exec from where files can be read |
| `PledgeLaws.CreatesAnywhere` | klib/pledge.c:449-456 | with cpath files can be created everywhere |
| `PledgeLaws.FaultsPass` | klib/pledge.c:457-477 | a path that cannot be read is left to the system call |
| `PledgeLaws.NeedsExactly` | klib/pledge.c:161-289 | the tests on memory protection, ioctl requests, socket families and destination addresses pass exactly with the abilities a table lists for them |
| `PledgeLaws.DefaultNeeds` | klib/pledge.c:71-85 | a call without a handler of its own is allowed exactly if nothing has been pledged or one of the abilities registered for it is held |
| `PledgeLaws.NothingPledged` | klib/pledge.c:58-634 | until something is pledged, every call is allowed for which some ability is registered |
| `PledgeLaws.PledgeGrants` | klib/pledge.c:131-159 | a pledge that succeeds leaves exactly the abilities whose names are in the string |
| `PledgeLaws.PledgeAnswers` | klib/pledge.c:131-159 | it succeeds exactly when all names are known and held; an unknown name is refused before one not held |
| `PledgeLaws.NamesOfAbilities` | klib/pledge.c:7-121 | the abilities the handlers test are those of the promises with their names |
| `PledgeLaws.PiecesJoin` | src/runtime/vector.h:99-116 | the pieces of a string joined by spaces give it back, but for one space at the end |
| `PledgeLaws.PiecesPlain` | src/runtime/vector.h:99-116 | no piece has a space in it |
| `Pledge.GetAbility` | klib/pledge.c:123-129 | the loop finds the first table entry with the name |
| `Pledge.Split` | src/runtime/vector.h:99-116 | the loop returns the pieces between spaces, without an empty last one |
| `Pledge.Pldg.Pledge` | klib/pledge.c:131-159 | the mask is replaced exactly when every promise is known and none is new; otherwise it is unchanged and the error says why |
| `Pledge.Pldg.Handle` | klib/pledge.c:58-85 | the handlers together stop exactly the calls the mask does not allow; a refused call returns -ENOSYS if errors were pledged and is answered with SIGABRT otherwise |
| `Pledge.SbHandler` | klib/sandbox.c:7-21 | the default handler runs exactly when every handler passes; otherwise the first one that stops decides |
| `Crc32cTable.EntryCorrect` | klib/crc32.c:5-38 | all 256 table entries are the eight-step remainders of their index |
| `Crc32c.StepRefines` | klib/crc32.c:44-45 | one table step is eight steps of bit-serial division |
| `Crc32c.Compute` | klib/crc32.c:41-47 | the table-driven loop computes the bit-serial CRC-32C of every byte string |
| `Crc32cWords.WordTableStep` | klib/crc32.c:45 | the update of the 32-bit register, with its mask, shift and exclusive ors, is the table step on bits |
| `Crc32cWords.ComputeWord` | klib/crc32.c:41-47 | the loop on 32-bit words computes the bits of the bit-serial CRC-32C of every byte string |
| `Crc32cWords.ZeroByte` | klib/crc32.c:41-47 | the checksum of one zero byte is 0x527d5351 |
| `Crc32c.BurstDetected` | klib/crc32.c:41-47 | two messages that differ only within a window of 32 bits have different checksums |
| `Crc32c.FourBytesDetected` | klib/crc32.c:41-47 | in particular within four consecutive bytes |
| `Crc32c.OddErrorDetected` | klib/crc32.c:41-47 | messages that differ in an odd number of bits have different checksums |
| `Metrics.DoubleRoundTrip` | klib/digitalocean.c:341-347 | decoding the double written for a value below 2^53 gives the value |
| `Metrics.MaskRoundTrip` | klib/digitalocean.c:361-364 | unmasking recovers the checksum |
| `Metrics.KnownDoubles` | klib/digitalocean.c:341-347 | the words written for 1 and 3 |
| `Metrics.KnownMasks` | klib/digitalocean.c:361-364 | the masks of two checksums |
| `Metrics.StreamIdIs` | klib/digitalocean.c:42-44 | the stream identifier is a chunk of type 0xff with the six letters of its name |
| `Metrics.RecordsRoundTrip` | klib/digitalocean.c:349-350 | reading back the records gives the names and values, for names that fit their length field |
| `Metrics.RecordsExactly` | klib/digitalocean.c:349-350 | the records alone are read back exactly when the names are under 2^16 bytes |
| `Metrics.RoundTrip` | klib/digitalocean.c:332-365 | for values below 2^53, a decoder of the framing format accepts the committed bytes and recovers exactly the metrics, if and only if their records take at most 65536 bytes |
| `Metrics.LongName` | klib/digitalocean.c:349 | a name of 2^16 zero bytes is neither read back nor accepted |
| `Metrics.Body.constructor` | klib/digitalocean.c:332-339 | the body starts with the stream identifier and room for the chunk header |
| `Metrics.Body.Add` | klib/digitalocean.c:341-351 | a metric that is added is appended as one record; a failed write leaves at most a partial one; for a value of 2^53 or more only the value's word is undetermined |
| `Metrics.Body.Commit` | klib/digitalocean.c:353-365 | patching the header in place completes the encoding of the metrics added |
| `Firewall.MatchBufExact` | klib/firewall.c:50-65 | a constraint of equality holds exactly when the first bits agree; a negated one is right exactly when the prefix is not of whole bytes or the prefixes differ |
| `Firewall.MatchBufMeans` | klib/firewall.c:50-65 | what a source constraint comes down to, in terms of the bits of the prefix |
| `Firewall.NegatedPrefixMatches` | klib/firewall.c:59-61 | a rule for sources outside 10.0.0.0/8 matches 10.0.0.1 |
| `Firewall.ParsePlaced` | klib/firewall.c:94-146 | every header of the chain lies inside the packet, right after the one that announces it |
| `Firewall.GetHeader` | klib/firewall.c:94-146 | the walk ends, stays inside the packet and finds the first header of the wanted kind in the recursively parsed chain, or its end; what it returns for headers that do not fit |
| `Firewall.FindUpper` | klib/firewall.c:176-179 | a walk for no header finds the upper-layer header exactly when the chain fits the packet |
| `Firewall.Ip6IsFragment` | klib/firewall.c:148-154 | a packet is a fragment exactly when the first fragment header of its chain has a nonzero offset |
| `FirewallRules.RuleIsBuilt` | klib/firewall.c:434-472 | every rule that is built has, with a transport constraint, a network constraint for the same protocol |
| `FirewallRules.ParseL3` | klib/firewall.c:322-398 | the network part accepts exactly the valid specifications and yields their constraints in order |
| `FirewallRules.ParseL4` | klib/firewall.c:448-472 | the transport part accepts exactly the valid specifications and adds the protocol constraint with its own |
| `FirewallRules.Ruleset.CreateRule` | klib/firewall.c:503-560 | a rule is accepted exactly when its specification is well-formed, and is then the one it stands for, dropping by default |
| `FirewallRules.Ruleset.Configure` | klib/firewall.c:615-630 | all rules are built in order, or one bad rule clears them all |
| `FirewallRules.Ip6Match` | klib/firewall.c:156-189 | the loop over network constraints decides their meaning, whatever an unwritten pointer holds |
| `FirewallRules.Ip4Match` | klib/firewall.c:67-92 | the loop decides the meaning of the constraints for an IPv4 header, and where the transport header is |
| `FirewallRules.TransportMatch` | klib/firewall.c:191-223 | transport constraints hold when the header fits and every port agrees |
| `FirewallRules.Match` | klib/firewall.c:225-253 | a packet matches a built rule exactly when version, network and transport constraints hold, source constraints by the bits of their prefix |
| `FirewallRules.Filter` | klib/firewall.c:255-269 | the verdict is that of the first matching rule, and to accept if there is none |
| `FirewallPackets.MatchesFields4` | klib/firewall.c:67-253 | an IPv4 packet built from any header fields, options and payload matches the rule of a specification exactly when its source address, fragment offset, protocol and destination port are as the specification says |
| `FirewallPackets.MatchesFields6` | klib/firewall.c:94-253 | so an IPv6 packet with any chain of extension headers, the upper-layer protocol being that behind the chain and a later fragment one whose first fragment header has an offset |
| `FirewallPackets.RulesSay4` | klib/firewall.c:255-269 | so each rule of a configuration, which drops what it matches unless it says otherwise |
| `FirewallPackets.RulesSay6` | klib/firewall.c:255-269 | and for IPv6 |
| `FirewallPackets.WalksChain` | klib/firewall.c:94-154 | the walk over any chain of extension headers finds the upper-layer header behind it and the first fragment header |
| `FirewallPackets.DestPortIs` | klib/firewall.c:191-223 | the destination port is the second 16-bit number of the header |
| `FirewallPackets.WholeAddress` | klib/firewall.c:322-398 | a source without a mask is one address |
| `Unveil.GetPerms` | klib/unveil.c:226-252 | the walk to the root of any finite tree ends and returns the first valid candidate |
| `Unveil.NearestMeans` | klib/unveil.c:224-252 | that is the nearest one: own permissions, name in the parent, the parent's own, and so on |
| `Unveil.RunNarrows` | klib/unveil.c:95-129 | in every run that does not remove a directory, its valid permissions and those of names in it only lose bits |
| `Unveil.LockedRun` | klib/unveil.c:133-138 | once locked, nothing changes except that removed directories disappear |
| `Unveil.LockedNearest` | klib/unveil.c:133-252 | over a locked run the same directory decides about a node, with the same permissions, exactly when the run does not remove that directory |
| `Unveil.RemovalElsewhere` | klib/unveil.c:511-537 | removing a directory's entry decides nothing about nodes not below it |
| `Unveil.RemovalHere` | klib/unveil.c:511-537 | and leaves for the directory what its parent says about it |
| `Unveil.ExistingPerms` | klib/unveil.c:261-276 | the outer loop over existing nodes finds nothing the inner one does not |
| `Unveil.CheckPath` | klib/unveil.c:254-323 | the path-stripping recursion ends and returns success, a missing permission or a missing path according to the permissions that apply |
| `Unveil.NewFile` | klib/unveil.c:277-318 | a file that does not exist yet is governed by its name in its directory, and then like the directory |
| `Unveil.ParseLetters` | klib/unveil.c:143-161 | the loop accepts exactly strings of the four letters and returns their set |
| `Unveil.State.Unveil` | klib/unveil.c:131-222 | the call changes the tables in place, by the step that the run theorems and `CallGrants` are about |
| `UnveilLaws.CallGrants` | klib/unveil.c:95-222 | a call succeeds exactly when the sandbox is not locked, all letters are known and no permission is added to valid ones; it then leaves at the directory, or the name in a directory, exactly the permissions whose letters are given, and nothing changes elsewhere; a call that fails changes no permissions |
| `UnveilLaws.CallFails` | klib/unveil.c:131-222 | which error a call returns, and in which order |
| `UnveilLaws.CheckedDirectory` | klib/unveil.c:95-323 | after a call on a directory, a check of any path to it returns 0 exactly when all that is wanted was given, and -EACCES otherwise |
| `UnveilLaws.CheckedFile` | klib/unveil.c:109-323 | so after a call on a file |
| `UnveilLaws.CheckedNew` | klib/unveil.c:188-323 | and on a file yet to be created in an existing directory |
| `UnveilLaws.ReadOnlyDirectory` | klib/unveil.c:95-323 | a directory unveiled with "r" in an empty sandbox can be read and not written |
| `UnveilLaws.NothingUnveiled` | klib/unveil.c:254-323 | where nothing has been unveiled every check returns -ENOENT |
| `RangeMap.InsertRange` | src/runtime/range.c:57-91 | inserting merges with every range that overlaps or touches: the map stays separated and gains exactly the pages of the range; only a range that touches none can fail |
| `Tmpfs.File.FindGaps` | src/runtime/range.c:177-217 | the search ends without a match exactly when the range is covered, and an abort has added some of its missing pages |
| `Tmpfs.File.FillGap` | klib/tmpfs.c:33-44 | filling a gap pins its pages once |
| `Tmpfs.File.Write` | klib/tmpfs.c:46-64 | the restart loop ends; success means exactly the pages of the range have been added, failure that some are missing; every dirty page is pinned once and no other |
| `Tmpfs.File.Free` | klib/tmpfs.c:88-103 | freeing the file unpins every page it had pinned |
| `Tmpfs.File.GetBlocks` | klib/tmpfs.c:114-121 | the block count is that of the set of dirty pages |
| `Tmpfs.ToPagesExact` | src/runtime/range.h:56-59 | the pages of a nonempty range of bytes are exactly those that hold one of its bytes |

## Left out

- Estimation.Regress: over real numbers with an exact square root; rounding and saturation in the middle of the sums are not modelled.
- Metrics.Body.Add: the word written for a value of 2^53 or more is arbitrary, since C leaves its shift by a negative amount undefined.
- FixedPoint.FpMul: products are reduced modulo 2^64 as the cast does; no bound is claimed for operands of -2^63, whose negation C leaves undefined.
- NtpController.RunKeeps: for a frequency limit below 2^63 / 6, and for estimates that do not meet the condition of `NewSampleExactly`.
- NtpLaws.SampleCorrects: for a multiplication that distributes over sums of times, so up to the rounding of each product, and for differences of times that fit in 64 bits.
- NtpLaws.SlewTarget: where the products and quotients can be represented exactly.
- Regression.Weights: for nonnegative delays and dispersions, as the samples have.
- UmcgScheduler.Scheduler.WaitWorkerAction: needs a valid worker pointer, which `PointersExactly` shows not every run provides.
- Unveil.CheckPath: one filesystem, and a resolver that only returns nodes of its tree.
- Pledge.Pldg.Handle: descriptors and user memory are part of the request; reading user memory twice is not modelled.
- FirewallRules.Match: for packets of at least 20 bytes, as the network stack passes them.
- UMCG: the order inside a hand-over (the idle worker is published before its slot is copied), reference counts of block queues, interrupted servers, and idle servers waiting on the shared queue with the wake flag.
- Unveil: crossing mount points, hard links to directories, and which system call asks for which permissions.
- tmpfs: the page cache behind the pins, and names, renaming and seals of files.
- NTP server parsing, name resolution, packets and their sanity checks, and the ppm settings.
- The registration tables of the sandbox: a call's needed abilities are arbitrary.
- The text of addresses, numbers and actions in firewall rules.
- Cloud clients, TLS, tracing, logging and device modules: plumbing over other libraries, with easier properties.
