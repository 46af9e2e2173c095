# Scheduler, network ring and MMC request models

A Dafny model of three concurrent cores, with proofs over every input, every run or every
interleaving of the modelled steps.

**The CFS scheduler (`fair.c`).**
- `RunQueueTree`, `EntityPaths`, `RunQueues`: the hierarchy of run queues of one cpu. The walks that enqueue and
  dequeue tasks and that throttle and unthrottle queues touch one path and stop early; the
  invariants `Balanced` (counts) and `Attached` (trees and buddies) speak about every queue of a tree
  of any depth.
- `Timeline`, `FairQueues`: one queue over wrapping 64-bit virtual time: its search tree, the cached
  leftmost entity, `min_vruntime`, and the choice of the next entity with its buddies.
- `Bandwidth`, `CfsBandwidths`: the global and local runtime pools as a ledger. The lock of the
  global pool is dropped while a pass hands runtime out, so a pass is a sequence of locked sections
  with any other section in between.
- `ThrottleClocks`: the clock of each queue, which stops while it or an ancestor is throttled.
- `CalcDelta`, `SchedSlices`: the fixed-point share computation, and the time slices made of it against
  exact division over a whole path.
- `Pelt`, `PeltBand`, `PeltReal`: load tracking, with the table, shifts and floors of the code (decay is
  shown to be a real factor with rounding at most 2, and the sums are bounded from both sides), and
  once over exact reals.
- `LeafLists`, `HLoads`, `NumaGroups`: three derived structures against what they are derived from.
- `LoadBalance`: the loop that pulls tasks off a busy queue.

**The e100 rings (`pci/pci/e100.c`).** `CommandRings` and `ReceiveRings`: a driver and a device share
a ring; the end marker is moved with two ordered writes. The device takes any number of its own
steps between any two driver accesses.

**The request machine of `mci/s3cmci.c`.** `MmcRequests`: an interrupt handler, a tasklet that the
handler may interrupt, and a submission that a left-over run of the tasklet may interrupt, over a fifo
that may hold words from before. `MmcRuns`, `MmcQuiet` and `MmcOops` prove what all interleavings
keep, `MmcEvents` which interrupts end a wait, and `MmcData` what becomes of the words; `MmcExamples`
holds runs from the initial state that go wrong.

State that the code updates in place is a class; each method is tied to a function of the old state
or states the new state outright, and the theorems are lemmas about those functions and invariants
every method keeps. `GroupTree`, `Sums`, `Seqs`, `Arithmetic`, `Wrap64` and `RingSlots` are shared.

Where the code does not do what one would expect of it, the exact condition is proved, with an input
that fails:
- The computed share of a queue is at most the exact share for all weights and times if and only if
  the scaled-down load of the queue is at most 2^32 (`NeverExceedsIff`; a failing input: `BigLoadShare`).
- A distribution pass leaves every queue it wakes at exactly 1 if and only if no queue it reaches
  held more than 1 (`DealEndsAtOne`): nothing stops a throttled queue from gaining runtime
  (a failing input: `WokenAboveOne`).
- An enqueue walk leaves its branch connected if and only if the last queue it reaches is the root
  or had a listed parent before the walk (`EnqueueTask` of the leaf list; a failing input: `WalkCutShort`). A
  sweep keeps the list closed under parents if and only if the listed children of every decayed
  queue that has no throttled queue at or above it are decayed and not throttled (`SweepKeepsIff`;
  a failing input: `SweepLosesParent`); without throttling that is: children of decayed queues are decayed.
- With no MMC command outstanding, a left-over run of the tasklet finalizes if and only if a read was
  left active and the fifo hands over all the words it still wants (`RestFinalizesIff`); when nothing
  arrives, if and only if the fifo holds them. As long as no such run happens, no request is completed
  twice, all are completed whenever nothing is awaited, and the interrupt is enabled exactly while a
  command is outstanding (`CompletedOnce`). Between requests the invariant is kept if and only if no
  such run happens (`RestKeepsIff`): with no request in hand it follows a null pointer (a failing
  input: `LeftOverOops`), and otherwise it completes a rejected request again or sends its stop
  command with the interrupt disabled (`DrainedOutcome`; a failing input: `CompletedTwice`).
- If no words arrive while no command is outstanding, no request is completed twice in any run
  (`CompletedAtMostOnce`). Then the one place where a left-over run does harm is in a read, between its
  preparation and its command, while the fifo still holds all its words. Handing in a request leaves
  its command outstanding with the interrupt disabled if and only if that happens and the request has
  no stop command (`DisabledIff`; a failing input: `StruckEarlyFromStart`); the next accepted request
  enables it again (`NextEndsStuck`). If that happens, and only then, a request with a stop command is
  lost (`LostIff`; a failing input: `LostFromStart`): what is awaited is the end of a data transfer,
  which the handler does not look for while a stop command is outstanding, so that short of a command
  timeout the request is never completed (`LostUntilTimeout`, `TimeoutEndsLost`).
- Taking a command block leaves a command pending for the device if and only if cb_to_send was not
  exactly the whole ring behind (`ExecCb`); otherwise none is issued, and a suspended device stays
  suspended before the block until another is taken (a failing input: `MissedCommand`).
- Time that comes in single units is lost in scaling if and only if the frequency is below full
  (`SmallStepsLost`), so the lower bound on the sums of an active entity is one for full frequency.
- A data-less MMC request can end in a null pointer if and only if a transfer, of either direction,
  was left active before it (`DatalessOopsIff`; a failing input: `ShortTransferThenOops`). A run of
  the tasklet follows a null pointer if and only if it finds everything done and either no request in
  hand or a transfer active for a request without data (`TaskletOopsIff`).

The comment at fair.c:3808-3813 says the opposite of the condition at fair.c:3814; the model follows
the code, and what is proved is that `min_vruntime` never moves backwards.

## Hypotheses

- Headers outside the repository define `LOAD_AVG_MAX`, the decay table, `scale_load_down` and the
  tree primitives. The table is any decreasing table of 32-bit factors whose first step takes at least
  1024 off the maximum (`TableOk`); scaling divides by any positive `unit`; insertion and removal act at
  an in-order position, which recolouring and rotation keep.
- The keys of one queue lie in half the range of the 64-bit clock; the order of the tree is claimed
  for keys inserted within that window.
- The root group is never bandwidth limited. Groups are numbered in creation order.
- Rings have at least two slots (the driver's minima are 64 and 16), status words are 0 after
  allocation, and the device completes blocks in ring order, stopping at the end marker.
- The receive interrupt handler does not run inside the cleaning loop, which runs with the device's
  interrupts masked.
- An MMC stop command carries no data, and a request answered without the hardware has data; buffers
  hold at least one word and transfers at least one buffer; requests come one at a time.

## Model

| member | source | states |
|---|---|---|
| RunQueueTree.RootCountsRunnableTasks | fair.c:4866-4973 | in a balanced hierarchy rq->nr_running is exactly the number of queued tasks with no throttled queue at or above them |
| RunQueueTree.ReachesIffUnthrottled | fair.c:4866-4973 | a queued task is reachable from the root through queued group entities iff none of its queues is throttled |
| RunQueueTree.BalancedDetermined | fair.c:4866-4973 | queued tasks and throttled flags determine which group entities are queued and every count of them, whatever walks led there; with the weights they determine the load sums too |
| RunQueueTree.DequeueUndoesEnqueue | fair.c:4866-4973 | dequeuing a task undoes enqueuing it, but for the weights of group entities and the load sums they enter, iff enqueuing it throttled no queue |
| RunQueueTree.EmptyQueue | fair.c:2665-2695 | load.weight is 0 iff nr_running is 0 iff no entity of the queue is queued |
| RunQueueTree.CatchUp | fair.c:4899-4904 | adjusting one h_nr_running moves the gap to the parent exactly when the queue's entity is queued there |
| RunQueueTree.ThrottleLevel | fair.c:4264-4276 | one level of the throttle walk keeps the walk's invariant, dequeuing only while queues become empty |
| RunQueueTree.LeaveLevel | fair.c:4929-4956 | one level of the dequeue walk: stop at a throttled queue, stop dequeuing at a queue that stays non-empty, or go on |
| RunQueueTree.EnterLevel | fair.c:4880-4897 | one level of the enqueue walk, with the nested throttle, hands over to the counting walk or goes on |
| RunQueueTree.RestoreLevel | fair.c:4328-4339 | one level of the unthrottle walk |
| RunQueueTree.ReweighedBalanced | fair.c:2746-2760 | reweighing keeps every count of the hierarchy |
| RunQueueTree.SwitchTree | fair.c:3710-3711 | the tree of every queue of the hierarchy holds exactly its queued entities but the current one, across queueing and dequeueing |
| RunQueueTree.OrderedTree | fair.c:548-582 | the ordered tree of one queue seen by itself is that tree |
| EntityPaths.ClimbSplit | fair.c:4899-4908 | a walk that stops at the first throttled queue gets past exactly what it passed and what a walk from there gets past |
| EntityPaths.WalkReweighs | fair.c:4880-4908 | both loops of a walk together: exactly the group entities put on, and those the walk got past and left on, are weighed anew |
| EntityPaths.StayingIs | fair.c:4936-4950 | the entity at which a dequeue walk stops taking off is the first on the way that stays on |
| RunQueues.RunQueue.EnqueueTask | fair.c:4866-4909 | keeps the whole hierarchy balanced; only the task is switched on, exactly the exhausted queues that stopped being empty are newly throttled, and exactly the group entities put on or passed below the first throttled queue get their computed share |
| RunQueues.RunQueue.DequeueTask | fair.c:4923-4973 | keeps the whole hierarchy balanced; only the task is switched off, nothing is throttled, exactly the group entities that stay on below the first throttled queue get their computed share, and with the bias the first that stays on and those above it become next buddies |
| RunQueues.RunQueue.ThrottleCfsRq | fair.c:4248-4281 | keeps the hierarchy balanced; called on a queue whose entity is off it changes the flag only |
| RunQueues.RunQueue.UnthrottleCfsRq | fair.c:4302-4347 | keeps the hierarchy balanced, with nested throttling on the way up; entities are only put on, and exactly these get their computed share |
| RunQueues.RunQueue.EnqueueEntity | fair.c:3667-3717 | counts and weight of one entity, and the throttle of a queue that was empty and is exhausted |
| RunQueues.RunQueue.DequeueEntity | fair.c:3767-3816 | counts of one entity; no buddy refers to it any more |
| RunQueues.RunQueue.PutOn | fair.c:2665-2680 | counts and tree of one entity put on its queue |
| RunQueues.RunQueue.SetNextEntity | fair.c:3859-3888 | the current entity leaves the tree of its queue, all others stay |
| RunQueues.RunQueue.PutPrevEntity | fair.c:3953-3975 | a queued previous entity goes back into the tree of its queue |
| RunQueues.RunQueue.EnterAll | fair.c:4880-4897 | first loop of the enqueue walk, up to a queued entity or a throttled queue |
| RunQueues.RunQueue.LeaveAll | fair.c:4929-4956 | first loop of the dequeue walk |
| RunQueues.RunQueue.AdjustAbove | fair.c:4899-4908 | second loop of the walks: after it everything is exact, and rq->nr_running is to be adjusted iff the root was passed |
| RunQueues.RunQueue.ReweightEntity | fair.c:2746-2760 | counts and weight sums stay exact across a change of weight, and nothing else moves |
| RunQueues.RunQueue.UpdateCfsShares | fair.c:2764-2785 | tasks keep their weight, group entities get the given share |
| RunQueues.RunQueue.ClearBuddies | fair.c:3719-3762 | no buddy of the entity's queue is the entity; exactly the buddies on the way up that are their own queue's are cleared, up to the first that is not |
| RunQueues.RunQueue.SetLastBuddy | fair.c:6065-6075 | exactly the entity and those above it up to the first that is not queued become the last buddies of their queues, unless it is a task of the idle policy |
| RunQueues.RunQueue.SetNextBuddy | fair.c:6077-6087 | the same for the next buddies |
| Timeline.WindowOrder | fair.c:507-511 | within half the range comparing wrapped differences is comparing times |
| Timeline.InsertInOrder | fair.c:548-582 | linking a node at an in-order position inserts it there and changes nothing else |
| Timeline.EraseInOrder | fair.c:584-594 | erasing a node removes exactly it from the in-order sequence |
| Timeline.FindLink | fair.c:548-574 | the walk ends behind everything not later and before everything later than the key, and leftmost is reported iff the place is the first |
| Timeline.EnteredOrdered | fair.c:548-582 | entering at that place keeps the tree in order of virtual time, equal keys in order of arrival |
| Timeline.EnteredArrival | fair.c:548-582 | and keeps equal keys in order of arrival |
| Timeline.MinusArrival | fair.c:584-594 | as does taking an entity out |
| Timeline.EarlierIsLeast | fair.c:3901-3913 | the earlier of leftmost and current is the least of tree and current |
| Timeline.SecondLeast | fair.c:3919-3930 | what is taken in place of the entity to skip is the least of all the others |
| Timeline.SecondFar | fair.c:3915-3932 | if the second earliest is more than a granularity beyond the first, so are all others |
| Timeline.PickIsFair | fair.c:3901-3949 | next before last before the earliest, each if at most one wakeup granularity beyond the earliest; if the earliest is the one to skip, the earliest of the others unless all are further than that |
| Timeline.NextMinIs | fair.c:513-537 | min_vruntime moves exactly when all queued entities are ahead of it, and then to the least of their keys |
| Timeline.MoveKeepsLag | fair.c:3636-3660 | an entity that leaves one queue and enters another without waking keeps its distance from min_vruntime, and its key if that is the same |
| Timeline.SleeperBound | fair.c:3592-3611 | a sleeper enters at most the threshold behind min_vruntime and never before the key it had |
| FairQueues.FairQueue.EnqueueTree | fair.c:548-582 | in-order insertion, order of time and of arrival kept, leftmost is the first node |
| FairQueues.FairQueue.DequeueTree | fair.c:584-594 | exactly the entity leaves and the rest keeps its sequence; leftmost is the first node |
| FairQueues.FairQueue.UpdateMinVruntime | fair.c:513-543 | min_vruntime never moves backwards, is a queued key when it moves, and moves as the rule of which NextMinIs says when and where to |
| FairQueues.FairQueue.UpdateCurr | fair.c:839-872 | only the running entity's key advances; the tree keeps its order |
| FairQueues.FairQueue.PlaceEntity | fair.c:3582-3611 | a new entity at least its debit after min_vruntime, a sleeper at most the threshold before it, nobody backwards |
| FairQueues.FairQueue.RenewKey | fair.c:3667-3706 | the key of the entity: renormalised with min_vruntime before update_curr for the current entity and after it for others, then placed if it wakes; all other keys, but the running one's, and the order stay |
| FairQueues.FairQueue.EnqueueEntity | fair.c:3667-3717 | the tree holds exactly the queued entities but the current one, in order, and the entity has that key |
| FairQueues.FairQueue.DequeueEntity | fair.c:3767-3816 | the entity leaves with its key relative to min_vruntime unless it sleeps, the rest keeps its sequence in order of time and arrival, no buddy refers to the entity, and min_vruntime moves on only to restore |
| FairQueues.FairQueue.SetNextEntity | fair.c:3859-3888 | the current entity is out of the tree, the rest keeps its sequence |
| FairQueues.FairQueue.PutPrevEntity | fair.c:3953-3975 | a queued previous entity is charged and back in the tree in its place |
| FairQueues.FairQueue.SetLastBuddy | fair.c:6065-6075 | a queued entity that is no SCHED_IDLE task becomes the last buddy of its queue; the queue stays valid |
| FairQueues.FairQueue.SetNextBuddy | fair.c:6077-6087 | the same for the next buddy |
| FairQueues.FairQueue.SetSkipBuddy | fair.c:6089-6093 | any entity may be the one to skip; the queue stays valid |
| FairQueues.FairQueue.Choose | fair.c:3901-3944 | the choice in place is the function whose fairness is proved |
| FairQueues.FairQueue.PickNextEntity | fair.c:3901-3949 | picks a queued entity by the fair rule and clears it as a buddy |
| Bandwidth.DealConserves | fair.c:4349-4387 | a pass hands out exactly what it takes and never more than it was given |
| Bandwidth.DealFrame | fair.c:4349-4387 | a pass takes from nobody and touches listed queues only |
| Bandwidth.DealWakes | fair.c:4349-4387 | it wakes exactly listed queues it leaves above 0, and stops only when all are awake or nothing is left |
| Bandwidth.DealEndsAtOne | fair.c:4363-4376 | every queue woken ends at exactly 1 iff no queue reached held more than 1 |
| Bandwidth.DealAtMost | fair.c:4363-4376 | a pass over queues holding at most 1 leaves local pools within any bound they met |
| Bandwidth.DealReached | fair.c:4355-4383 | of the queues a pass reaches all but the last get all they need, those it does not reach get nothing, and it reaches all unless it runs dry |
| CfsBandwidths.CfsBandwidth.Assign | fair.c:4094-4131 | moves runtime from the global to a local pool, never beyond one slice, and the local deadline to the later one; the ledger stays balanced |
| CfsBandwidths.CfsBandwidth.ExpireLocal | fair.c:4134-4163 | once the local deadline has passed with nothing owed: the pool is dropped if the global deadline is the same, else the deadline moves by one tick; otherwise nothing changes |
| CfsBandwidths.CfsBandwidth.Account | fair.c:4165-4180 | consumption is charged first; what is left is dropped if it has expired, so that nothing of it is used beside what this call draws; if nothing is left the pool is topped up to one slice |
| CfsBandwidths.CfsBandwidth.CheckEnqueueThrottle | fair.c:4579-4599 | a limited queue is throttled afterwards iff it was or has no runtime left after drawing |
| CfsBandwidths.CfsBandwidth.ReturnRuntime | fair.c:4506-4528 | keeps a reserve; slack of the current period goes back, stale slack is lost; the slack timer is started iff more than a slice is there and somebody waits |
| CfsBandwidths.CfsBandwidth.Refill | fair.c:4067-4077 | the pool becomes the quota, with a new deadline; what was left is counted as discarded |
| CfsBandwidths.CfsBandwidth.Throttle | fair.c:4281-4300 | the queue joins the head of the list, where a running pass does not see it |
| CfsBandwidths.CfsBandwidth.Unthrottle | fair.c:4312-4319 | exactly the queue leaves the list |
| CfsBandwidths.CfsBandwidth.Grant | fair.c:4355-4381 | one round under one queue's lock: the grant, its expiry, and waking the queue iff it is above 0 |
| CfsBandwidths.CfsBandwidth.EndPass | fair.c:4440-4444 | the debit: the net hand-out exceeds the snapshot by at most what was drawn during the pass, and any excess leaves the pool at exactly 0 |
| CfsBandwidths.CfsBandwidth.Distribute | fair.c:4349-4387 | the loop without interleaving is exactly one pass, and the queues it reaches have the new deadline |
| CfsBandwidths.CfsBandwidth.RunPass | fair.c:4427-4445 | afterwards the list is empty or the pool is 0, runtime is conserved, queues woken end at 1 iff none reached held more and have the new deadline, and local pools stay within a slice |
| CfsBandwidths.CfsBandwidth.PeriodTimer | fair.c:4395-4459 | terminates with the list empty or the pool 0 and the outcome of one pass over the quota; nothing is consumed or expired; says exactly when the timer may stop |
| CfsBandwidths.CfsBandwidth.SlackTimer | fair.c:4545-4572 | hands out only more than a slice of a limited pool, away from a refresh, conserving runtime, with the outcome of one pass |
| CfsBandwidths.WokenAboveOne | fair.c:4349-4387 | a queue throttled and then topped up is woken with more than 1 |
| ThrottleClocks.NestingFlip | fair.c:4220-4246 | throttling one queue counts exactly for it and its descendants |
| ThrottleClocks.NestingPositive | fair.c:4220-4246 | the throttle count is positive iff the queue or an ancestor is throttled |
| ThrottleClocks.ThrottleClock.CfsRqClockTask | fair.c:4085-4091 | the queue's clock is the run queue's clock less the time it was stopped |
| ThrottleClocks.ThrottleClock.UpdateRqClock | fair.c:4085-4091 | stopped queues stand still, the others advance with the run queue |
| ThrottleClocks.ThrottleClock.TgThrottleDown | fair.c:4235-4246 | one visit raises the count of one queue and moves no clock |
| ThrottleClocks.ThrottleClock.TgUnthrottleUp | fair.c:4220-4233 | one visit lowers the count of one queue and moves no clock |
| ThrottleClocks.ThrottleClock.ThrottleCfsRq | fair.c:4258-4261 | counts equal the number of throttled queues at or above each queue; no clock jumps |
| ThrottleClocks.ThrottleClock.UnthrottleCfsRq | fair.c:4310-4322 | the same, with the clock update in between; whatever was stopped stood still until then |
| ThrottleClocks.ThrottleClock.SyncThrottle | fair.c:4598-4613 | a new group inherits its parent's count and starts level with the run queue's clock |
| CalcDelta.ShiftInRange | fair.c:231-254 | a weight no heavier than the load keeps the shift within 0..32 |
| CalcDelta.NiceShift | fair.c:224-226 | with a nice-0 weight of 2^10 the shift stays at 22 or above |
| CalcDelta.UpdateInvWeight | fair.c:202-217 | the cached inverse is that of the scaled weight, and positive |
| CalcDelta.Calc | fair.c:231-254 | the loops compute the share, with the shift in range throughout |
| CalcDelta.ShareBounds | fair.c:219-254 | the computed share is at most the exact one and short of it by less than 1 + delta * w / 2^32 |
| CalcDelta.NeverExceedsIff | fair.c:202-254 | the share never exceeds the exact one iff the scaled load is at most 2^32 |
| CalcDelta.LightBounds | fair.c:231-254 | the same bounds for a weight of any 32 bits over a lighter load, with a further loss of 2 / 2^32 for the early shifts |
| CalcDelta.FairDeltaBounds | fair.c:658-664 | virtual time passes at nice-0 weight over weight of real time, never faster, and short of it by less than 1 and that loss |
| CalcDelta.CalcDeltaFair | fair.c:658-664 | computes that time, which for a nice-0 weight is the real time |
| CalcDelta.SchedSlice | fair.c:688-708 | the walk to the root from the period of the entity's queue, counting the entity itself if it is not queued |
| CalcDelta.SliceSuper | fair.c:691-706 | carrying two times up a path separately never gives more than carrying their sum |
| CalcDelta.SlicesFitPeriod | fair.c:674-708 | the slices of all queued siblings, carried up every level, never exceed the period of their queue |
| SchedSlices.PeriodIs | fair.c:674-680 | the period is at least the latency and leaves every entity the granularity, but for one left over by rounding |
| SchedSlices.PeriodMonotone | fair.c:674-680 | more entities never shorten the period |
| SchedSlices.SliceNear | fair.c:688-708 | over a whole path a slice is at most the exact proportional one, and short of it by at most one unit a level and the period times the path's weights over 2^32 |
| SchedSlices.EqualsGetGranularity | fair.c:667-708 | entities of one weight that no longer fit the latency each get the granularity, less 1 and a part in 2^32 for the load |
| SchedSlices.SchedVslice | fair.c:715-718 | the slice in virtual time |
| Pelt.DecayFactor | fair.c:2798-2822 | decay_load multiplies by a fixed real factor and rounds down by at most 2 |
| Pelt.FullPeriodsNonNegative | fair.c:2824-2845 | the middle term of the three never underflows |
| Pelt.AccumulateBounded | fair.c:2871-2914 | one accumulation keeps all sums within weight * frequency / 1024 * divisor and a slack proportional to that |
| Pelt.RunBounded | fair.c:2945-2991 | so does any run of updates with bounded weights and frequencies, clock jumps backwards included |
| Pelt.FreshBounded | fair.c:728-754 | a new entity starts within the bound |
| Pelt.AverageBound | fair.c:2980-2988 | the average is the quotient of the sum and exceeds the largest weight * frequency / 1024 by at most 4/1022 of it |
| Pelt.SplitClock | fair.c:2950-2968 | an update at any moment in between leaves the same time stamp and phase |
| Pelt.JumpBack | fair.c:2950-2960 | a clock that jumped back adds nothing, then or when the same time is met again |
| Pelt.SchedAvg.AccumulateSum | fair.c:2871-2914 | the fields become those of the accumulation function |
| Pelt.SchedAvg.UpdateLoadAvg | fair.c:2945-2991 | the fields become those of the update function and stay bounded; averages are renewed only on crossing a period |
| PeltBand.CrossingBand | fair.c:2871-2914 | an update that crosses periods decays each sum by the real factor of the periods and adds weight * frequency / 1024 for each unit of the divisor's growth, up to rounding of 2 and of 2 or 3 per weight, either way |
| PeltBand.WithinPeriod | fair.c:2871-2914 | an update within a period adds exactly the scaled time and renews no average |
| PeltBand.RunFilled | fair.c:2945-2991 | over any run of updates an entity always active at full frequency stays within (2 + 2w) * max / 1022 below weight * divisor, in all three sums |
| PeltBand.GapDecays | fair.c:2871-2914 | from anywhere below, a crossing takes what is missing beyond that slack down by the decay of its periods |
| PeltBand.RenewedAverages | fair.c:2976-2988 | so when it crosses a period its averages are the weight and the capacity, up to the slack either way |
| PeltBand.SmallStepsLost | fair.c:2847-2904 | a single unit of time scales to nothing iff the frequency is below full |
| PeltReal.AccumulateIsTicks | fair.c:2824-2869 | the three-segment formula equals letting time pass one unit at a time |
| PeltReal.AccumulateSplit | fair.c:2881-2902 | updating over d1 and then d2 equals one update over d1 + d2 |
| PeltReal.SumLimit | fair.c:2824-2869 | permanent activity never takes the sum beyond weight * divisor |
| LeafLists.LinkKeeps | fair.c:301-355 | the three ways of linking a queue keep every queue before its ancestors and leave at most that queue unconnected |
| LeafLists.BottomUp | fair.c:6909-6934 | with nothing unconnected, every ancestor of a listed queue is listed and met later |
| LeafLists.SweepKeepsIff | fair.c:6913-6934 | a sweep keeps the invariant iff listed children of decayed queues that no throttled queue is at or above are decayed and not throttled |
| LeafLists.UnthrottledSweepKeepsIff | fair.c:6913-6934 | without throttling: iff every listed child of a decayed queue is decayed |
| LeafLists.WalkCutShort | fair.c:4892-4893 | a walk cut short by a throttled queue leaves it unconnected |
| LeafLists.SweepLosesParent | fair.c:6917-6933 | a sweep that deletes the parent of a throttled queue that stays |
| LeafLists.LeafList.ListAddLeaf | fair.c:301-355 | the queue is listed, nothing else is added, the invariant holds |
| LeafLists.LeafList.ListDelLeaf | fair.c:357-363 | exactly one queue leaves, the others keep their order |
| LeafLists.LeafList.EnqueueEntity | fair.c:3713-3714 | a queue that stops being empty is listed |
| LeafLists.LeafList.EnqueueTask | fair.c:4880-4897 | after a bottom-up walk every queue of the path is listed and counted; tmp_alone_branch is back at the head iff the last queue reached is the root or had a listed parent before, and always unless it is throttled |
| LeafLists.LeafList.UpdateBlockedAverages | fair.c:6909-6934 | the sweep in place leaves exactly the queues that are not decayed or are below a throttled one, in order, and no busy queue is lost |
| HLoads.TotalTaskLoad | fair.c:6976-6983 | if no queue's average is below its entities' sum, the hierarchical loads of all tasks together are at most the root's average |
| HLoads.HNearExact | fair.c:6943-6974 | a queue's load is at most the exact product of shares from the root and short of it by at most one unit a level, if no entity's average is beyond its queue's |
| HLoads.TaskNearExact | fair.c:6976-6983 | so is a task's, with one level more |
| HLoads.HLoad.UpdateHLoad | fair.c:6943-6974 | terminates and leaves every queue on the path with the value of the top-down recursion, whatever was cached, and all others as they were |
| HLoads.HLoad.MarkPath | fair.c:6950-6966 | the walk up ends at the first queue cached in this jiffy, or the root, with h_load_next leading back down |
| HLoads.HLoad.FollowPath | fair.c:6968-6973 | the walk down renews exactly that path |
| HLoads.HLoad.TaskHLoad | fair.c:6976-6983 | the task's share by the recursion |
| HLoads.HLoad.NextJiffy | fair.c:6947-6951 | stamps of an old jiffy claim nothing about changed loads |
| NumaGroups.IdxIsPlace | fair.c:1172-1175 | regions, nodes and types never share a slot, and faults_cpu[mem_idx] is faults[cpu_idx] |
| NumaGroups.GroupCovers | fair.c:2273-2288 | a group's slot is at least each member's, so subtracting never underflows, and a group with a member can be referenced |
| NumaGroups.CpuWeightBounds | fair.c:2124-2126 | the weight of cpu faults is at most the exact share of time and faults, and short of it by less than rounding both quotients costs |
| NumaGroups.CpuWeightSmall | fair.c:2119-2126 | a task that ran no longer than the period weighs its faults by at most 2^16 together |
| NumaGroups.NumaFaults.AllocateFaults | fair.c:2339-2349 | a zeroed array changes no group |
| NumaGroups.NumaFaults.AddFaults | fair.c:2130-2145 | task and group slots and totals move together |
| NumaGroups.NumaFaults.PlaceNode | fair.c:2104-2147 | the averages of one node and type are halved and topped up from the emptied buffers, groups staying the sums of their members |
| NumaGroups.NumaFaults.TaskNumaPlacement | fair.c:2098-2159 | the same for exactly the online nodes |
| NumaGroups.NumaFaults.CreateGroup | fair.c:2198-2222 | a group with a copy of its only member's slots |
| NumaGroups.NumaFaults.JoinGroup | fair.c:2270-2288 | both groups stay the sums of their members |
| NumaGroups.NumaFaults.TaskNumaGroup | fair.c:2189-2289 | a task in a group ends in the peer's group iff related and that group is larger, or as large and not at a lower address; without memory it stays without a group |
| NumaGroups.NumaFaults.RecordFault | fair.c:2389-2391 | new faults go to the buffers, which no group sees |
| NumaGroups.NumaFaults.Free | fair.c:2296-2317 | the member's share leaves its group with it |
| LoadBalance.StealConserves | fair.c:6748-6829 | remaining and detached tasks are a permutation of the original ones |
| LoadBalance.StealBounded | fair.c:6748-6829 | at most loop_max rounds; every detached task passed the tests of its round; the load exceeds the imbalance by at most half the last task's, rounded up; an idle cpu leaves a running task behind |
| LoadBalance.StealDone | fair.c:6748-6829 | the loop ends for one of its stated reasons |
| LoadBalance.LooksJudged | fair.c:6748-6829 | each round looks at one task and detaches it iff it may migrate, is not too small and half its load fits the imbalance then left; nothing else is detached |
| LoadBalance.LooksOngoing | fair.c:6760-6816 | it looks on only within its rounds and before its break, with imbalance left, while an idle cpu leaves a running task, and as a newly idle preemptible cpu only until one task is detached |
| LoadBalance.StealBreaks | fair.c:6777-6782 | a break is asked for after loop_break rounds, and the next comes 32 rounds later |
| LoadBalance.FirstLap | fair.c:6760-6819 | in the first lap every task is looked at in its turn |
| LoadBalance.LbEnv.NextRound | fair.c:6760-6819 | one round of the loop in place |
| LoadBalance.LbEnv.DetachTasks | fair.c:6748-6829 | the loop computes that function and counts what it detached |
| CommandRings.DevRunSafe | pci/pci/e100.c:842-875 | any number of device steps keeps the device within the blocks open to it |
| CommandRings.MeetsEndMark | pci/pci/e100.c:852-856 | from any block open to it the device meets an S bit before leaving them |
| CommandRings.TakeSafe | pci/pci/e100.c:842-850 | filling the next free block leaves the device held up by the previous one |
| CommandRings.MarkSafe | pci/pci/e100.c:852-855 | first write: the new block may be opened, both end marks hold |
| CommandRings.UnmarkSafe | pci/pci/e100.c:855-856 | second write: of the queued blocks exactly the last carries the S bit |
| CommandRings.CleanSafe | pci/pci/e100.c:1661-1682 | cleaning the oldest complete block keeps the ring |
| CommandRings.CommandRing.constructor | pci/pci/e100.c:1719-1747 | an empty ring with all blocks available |
| CommandRings.CommandRing.Device | pci/pci/e100.c:842-875 | the device running between two driver accesses keeps the ring |
| CommandRings.CommandRing.ExecCmd | pci/pci/e100.c:797-826 | fails iff the device has left the previous command pending, and then changes nothing; otherwise a start at cb_to_send is pending the first time, and a resume later |
| CommandRings.CommandRing.ExecCb | pci/pci/e100.c:828-881 | out of memory iff no block was free, no space iff this was the last one; otherwise the buffer is accepted and the device has been started; at return cb_to_send is at cb_to_use or a command is pending, and one is pending iff cb_to_send was not the whole ring behind; a reset is newly requested iff the ring became full and a command was refused |
| CommandRings.CommandRing.Send | pci/pci/e100.c:858-875 | the send loop terminates with every block announced or a command refused and pending, and requests a reset iff full and refused |
| CommandRings.CommandRing.Mark | pci/pci/e100.c:852-856 | the ordered writes with the device running in between |
| CommandRings.CommandRing.TxClean | pci/pci/e100.c:1653-1691 | everything completed is cleaned, buffers released once each in order, nothing else moves |
| CommandRings.CommandRing.CleanCbs | pci/pci/e100.c:1693-1707 | every accepted buffer has been released exactly once |
| CommandRings.MissedCommand | pci/pci/e100.c:858-875 | a run in which cb_to_send falls the whole ring behind and a block is taken without a command: the device stays suspended before it |
| CommandRings.StalledStays | pci/pci/e100.c:858-875 | a suspended device without a command does nothing, whatever is queued |
| ReceiveRings.DevRunSafe | pci/pci/e100.c:1783-1793 | any number of device steps keeps the filled buffers first in one arc and the device within it |
| ReceiveRings.FreshSafe | pci/pci/e100.c:1765-1781 | a new marked buffer is not yet visible, and the previous slot holds one iff the ring was not empty |
| ReceiveRings.LinkSafe | pci/pci/e100.c:1785-1789 | the link is written before anything is opened |
| ReceiveRings.OpenSafe | pci/pci/e100.c:1790-1792 | clearing the previous mark leaves exactly the last buffer marked, the others linked |
| ReceiveRings.OldestIs | pci/pci/e100.c:1815-1830 | a completed buffer that still carries the mark means the device has stopped |
| ReceiveRings.ReceiveRing.AllocSkb | pci/pci/e100.c:1765-1796 | adds one buffer to the arc, or nothing without memory, with the device running after each write |
| ReceiveRings.ReceiveRing.AllocList | pci/pci/e100.c:1925-1949 | a full ring of the allocated buffers with one mark, receiver suspended, iff memory did not run out |
| ReceiveRings.ReceiveRing.StartReceiver | pci/pci/e100.c:1749-1762 | started iff suspended with a buffer to fill, at the oldest buffer, with every completed one passed on |
| ReceiveRings.ReceiveRing.Indicate | pci/pci/e100.c:1798-1856 | buffers are passed on once each in order; suspended is recorded iff the buffer carries the mark, and then the device has stopped |
| ReceiveRings.ReceiveRing.IndicateAll | pci/pci/e100.c:1872-1882 | terminates on any ring; ends by the quota iff the work is done with a buffer left, and otherwise leaves no completed buffer |
| ReceiveRings.ReceiveRing.Refill | pci/pci/e100.c:1888-1892 | terminates on full and empty rings; adds exactly the allocated buffers, in order, until the ring is full or memory ran out |
| ReceiveRings.ReceiveRing.RxClean | pci/pci/e100.c:1858-1901 | the receiver is restarted iff suspended on entry and not cut short by the quota, with no completed buffer left un-indicated, and then runs unless there is no buffer at all |
| ReceiveRings.ReceiveRing.Intr | pci/pci/e100.c:1963-1968 | a want-of-buffers interrupt, and only that, records the receiver as suspended |
| MmcRequests.RestFinalizesIff | mci/s3cmci.c:315-340 | with nothing outstanding, the data part of a tasklet run finalizes iff a read is active and the fifo hands over all the words it still wants |
| MmcRequests.RestFinalizesStillIff | mci/s3cmci.c:315-340 | when nothing arrives: iff the fifo holds at least the words wanted |
| MmcRequests.PioReadMoves | mci/s3cmci.c:215-272 | a read that goes on has room left in its buffer and an empty fifo, whatever interrupts strike |
| MmcRequests.ReadFinalizesIff | mci/s3cmci.c:215-272 | an undisturbed tasklet run of an active read finalizes iff the fifo hands over all the words wanted |
| MmcEvents.DataEndsIff | mci/s3cmci.c:430-500 | over any interrupts a command with data is finalized iff one reports a timeout or a data error, or the response and the end of the data are reported, in either order |
| MmcEvents.PlainEndsIff | mci/s3cmci.c:430-465 | a command without data or a stop command: iff by a timeout, its response if that is awaited, or its having been sent if that is |
| MmcEvents.RequestEndsIff | mci/s3cmci.c:724-730 | from handing in to finalizing: iff a timeout, or what a request of its kind is to wait for |
| MmcEvents.StopEndsIff | mci/s3cmci.c:652-656 | the same for the stop command the tasklet sends |
| MmcEvents.FailedIff | mci/s3cmci.c:467-509 | an error is noted and the transfer given up iff an interrupt reports one before the command is finalized |
| MmcEvents.ScheduledIff | mci/s3cmci.c:403-428 | the tasklet is scheduled iff the fifo asks for it in the direction of the transfer or the command is finalized |
| MmcEvents.RejectedIff | mci/s3cmci.c:899-946 | a request is completed on the spot iff it is answered without the hardware, or the last transfer is busy or its direction flags are not exactly one |
| MmcData.ReadConserves | mci/s3cmci.c:215-272 | what arrives goes into the buffers or stays in the fifo |
| MmcData.WriteConserves | mci/s3cmci.c:274-313 | what leaves the buffers is in the fifo or has left it |
| MmcData.LookMovesAll | mci/s3cmci.c:248-257 | each look empties the fifo or uses all its room, or is done with the current buffer |
| MmcData.WriteStops | mci/s3cmci.c:274-313 | a write goes on until a look finds the fifo full |
| MmcData.CompletedDelivered | mci/s3cmci.c:315-340 | a tasklet run that completes a request with data reports an error and resets the fifo, or all words of the request have gone through it |
| MmcData.CompletedWhole | mci/s3cmci.c:315-340 | so in every run in which no left-over run finds all that a read left active wants |
| MmcRuns.CompletedOnce | mci/s3cmci.c:315-340 | over all interleavings in which no left-over run finds all that a read left active wants: no request is completed twice, when nothing is awaited all are completed, and the interrupt is enabled exactly while a command is outstanding |
| MmcRuns.IrqKeeps | mci/s3cmci.c:369-527 | the handler keeps the invariant and completes nothing itself |
| MmcRuns.TaskletLive | mci/s3cmci.c:315-340 | a tasklet run leaves the command outstanding, sends the stop command, completes the request for the first time, or follows a null pointer with nothing completed |
| MmcRuns.TaskletAtRest | mci/s3cmci.c:315-340 | a left-over run that does not find all it wants completes nothing, and leaves a read with room and an empty fifo |
| MmcRuns.SubmitKeeps | mci/s3cmci.c:892-962 | handing in a request, accepted or rejected on the spot, keeps the invariant |
| MmcQuiet.SparesIffNotEarly | mci/s3cmci.c:917-951 | with nothing arriving at rest, a request is handed in safely iff it is not struck between preparation and command with all its words in the fifo |
| MmcQuiet.StruckEarlyEnds | mci/s3cmci.c:950-951 | struck there, a request without stop command is completed before its command is sent, which leaves the interrupt disabled; one with a stop command awaits the end of a transfer that the handler no longer looks for |
| MmcQuiet.DisabledIff | mci/s3cmci.c:950-951 | handing in a request leaves its command outstanding with the interrupt disabled iff it is struck there and has no stop command |
| MmcQuiet.LostIff | mci/s3cmci.c:724-730 | it leaves a stop command outstanding that awaits the end of a data transfer iff it is struck there and has a stop command |
| MmcQuiet.LostUntilTimeout | mci/s3cmci.c:443-462 | without a command timeout such a request is never completed, whatever interrupts, tasklet runs and words follow |
| MmcQuiet.TimeoutEndsLost | mci/s3cmci.c:430-434 | a command timeout lets the next tasklet run complete it, once |
| MmcQuiet.NextEndsStuck | mci/s3cmci.c:892-962 | after a request struck early without stop command, the next accepted request restores the invariant with the interrupt enabled; a rejected one leaves things as they are |
| MmcQuiet.CompletedAtMostOnce | mci/s3cmci.c:315-340 | with nothing arriving at rest and whatever the fifo holds, over all runs including those that go on after an early strike: no request is ever completed twice, and all are completed iff nothing is outstanding or one without stop command was struck early, which is also the only way to have a command outstanding with the interrupt disabled |
| MmcOops.TaskletOopsIff | mci/s3cmci.c:326-339 | a tasklet run follows a null pointer iff it finds all done, and either no request in hand, or a transfer active and a request without data |
| MmcOops.DrainedOutcome | mci/s3cmci.c:315-340 | a left-over run at rest that finds all the words wanted follows a null pointer without a request in hand; otherwise it completes a rejected request again, or sends its stop command with the interrupt disabled |
| MmcOops.RestKeepsIff | mci/s3cmci.c:315-340 | with nothing outstanding, a tasklet run keeps the invariant iff it does not find all the words wanted |
| MmcOops.DatalessOopsIff | mci/s3cmci.c:326-339 | from rest, some fitting continuation of a data-less request follows a null pointer iff a transfer was left active before it |
| MmcOops.CarefulRuns | mci/s3cmci.c:315-340 | no run does, if data-less requests are handed in with no transfer active |
| MmcOops.QuietCarefulRuns | mci/s3cmci.c:315-340 | nor does any run at all with nothing arriving at rest, early strikes included, if data-less requests are handed in with no transfer active |
| MmcExamples.ShortReadLeftActive | mci/s3cmci.c:215-272 | a read reported finished with a word missing is completed but stays active |
| MmcExamples.ShortWriteLeftActive | mci/s3cmci.c:274-313 | a write reported finished with a word unsent is completed but stays active |
| MmcExamples.ShortTransferThenOops | mci/s3cmci.c:326-339 | after either, a data-less request can end in a null pointer |
| MmcExamples.CompletedTwice | mci/s3cmci.c:917-945 | a run from the start in which a word arrives at rest and a rejected request is completed again |
| MmcExamples.LeftOverOops | mci/s3cmci.c:326-339 | a run from the start in which a word arrives at rest and the left-over tasklet finds no request |
| MmcExamples.StruckEarlyFromStart | mci/s3cmci.c:950-951 | a run from the start that leaves a command outstanding with the interrupt disabled |
| MmcExamples.LostFromStart | mci/s3cmci.c:443-462 | a run from the start after which no continuation without a command timeout or a new request completes the request in hand |
| MmcRequests.S3cMci.HandleIrq | mci/s3cmci.c:369-527 | the handler in place computes the function of which DataEndsIff and PlainEndsIff say what it finalizes |
| MmcRequests.S3cMci.GetDataBuffer | mci/s3cmci.c:183-210 | takes the next buffer iff a transfer is active and one is left |
| MmcRequests.S3cMci.DoPioRead | mci/s3cmci.c:215-272 | the fifo loop with interrupts inside |
| MmcRequests.S3cMci.DoPioWrite | mci/s3cmci.c:274-313 | the fifo loop with interrupts inside |
| MmcRequests.S3cMci.PioTasklet | mci/s3cmci.c:315-340 | the tasklet in place |
| MmcRequests.S3cMci.FinalizeMrq | mci/s3cmci.c:601-688 | stop command, before which clearing the fifo status may empty the fifo, or completion, with the reset of the fifo after a failed transfer |
| MmcRequests.S3cMci.PrepareTransfer | mci/s3cmci.c:825-846 | the transfer starts at the first buffer, with a left-over tasklet between the assignments |
| MmcRequests.S3cMci.FillFifo | mci/s3cmci.c:274-313 | the loop that fills the fifo for a write, with a left-over tasklet in each round |
| MmcRequests.S3cMci.SubmitRequest | mci/s3cmci.c:892-962 | the submission in place, with a left-over tasklet at any of five places and in each round of filling the fifo |

## Left out

- FairQueues.FairQueue.EnqueueEntity: the order of the tree is claimed only for keys within half the range of the keys already there; the code does not check it.
- FairQueues.FairQueue.PutPrevEntity: the same hypothesis on the key of the entity put back, and the bandwidth check in between.
- CfsBandwidths.CfsBandwidth.PeriodTimer: one timer run without other sections in between; interleavings are covered section by section by BeginPass, Grant and EndPass, with at most one pass in flight.
- CfsBandwidths.CfsBandwidth.SlackTimer: whether a refresh is under way or near is a parameter.
- RunQueues.RunQueue.EnqueueEntity: whether a queue is out of runtime is a parameter, and the computed group share another.
- RunQueues.RunQueue.UpdateCfsShares: the computation of the share, which is a parameter; for a group in a throttled hierarchy, which the code leaves alone, it is the weight the group has.
- RunQueues.RunQueue.PutPrevEntity: the bandwidth check in between.
- LeafLists.LeafList.UpdateBlockedAverages: the decay of the sums; whether those of a queue are spent is what the sweep finds at its one visit.
- RunQueues.RunQueue.DequeueEntity: the reweighting of the group entity just taken off, which the next enqueue overwrites.
- LeafLists.LeafList.EnqueueTask: the throttled flags are those the walk finds, as a parameter; the counts of the same walk are in RunQueues.
- ThrottleClocks.ThrottleClock.ThrottleCfsRq: the order in which a walk visits groups is any order that visits each once.
- LoadBalance.LbEnv.DetachTasks: whether a task may migrate and its load are functions of round and task.
- CommandRings.CommandRing.ExecCb: no claim that a resume reaches the device in time, which ignores one that comes while it finishes its last block.
- CommandRings.CommandRing.CleanCbs: freeing the pool and the reallocation of the ring.
- MmcRequests.S3cMci.SubmitRequest: the pauses of the hardware are parameters; a left-over tasklet strikes between assignments to the host and between rounds of the loop, not within one of them.
- Pelt.SchedAvg.AccumulateSum: 32-bit wrap of contributions, which bounded weights rule out.
- NumaGroups.NumaFaults.TaskNumaPlacement: the choice of the preferred node and the scan period.
- Red-black colouring and rotation, RCU, spinlocks, high-resolution timers, per-cpu access, tracing and statistics: atomic steps or ordered-tree primitives stand for them.
- Placement heuristics (selecting idle cpus, busiest groups, imbalance calculation, task comparison across nodes).
- Cpu hotplug callbacks, group allocation and free, sysctl handling, and the 32-bit copy retry loops.
- Unsigned overflow of sums other than virtual time.
- e100: EEPROM, MDIO, PHY, microcode, ethtool, power management, probing, statistics.
- s3cmci: the DMA path, which is switched off, error codes, responses, byte counts, the interrupt mask, clocks and power.
- All other drivers in the repository.
