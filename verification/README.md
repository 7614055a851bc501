# goav in Dafny

A Dafny model of the hard parts of goav, a media pipeline runtime, and proofs of what they promise:

- **Task lifecycle and destination commit.** Run, Close, Attach, Detach and node finalizers interleave under one lock and decide whether each output commits or aborts. They are atomic steps of a state machine (`Lifecycle`); the task object's methods are proved to take those steps (`LifecycleTask`), and which destinations commit is read off the steps taken (`LifecycleHistory`). Removing a branch (`DrainOrder`, `BranchStop`), attaching one (`AttachSpec`, `AttachApply`) and its failure domains (`Isolation`) are graph algorithms inside that protocol.
- **Joins.** Per-arm queues, PTS alignment, stale dropping, end of stream and discontinuities (`JoinSpec`, `JoinStage`), what a step means in queues and times alone (`JoinMeaning`), confluence (`JoinConfluence`), conservation and timing (`JoinHistory`), backpressure with a one-token wakeup (`Admission`), and the byte kernels (`MixKernel`, `Composite`).
- **Time.** Overflow-checked rescaling (`TimeBase`), the rate and pause clock (`Timeline`) and its sleep protocol (`SleepProtocol`).
- **Ownership.** Reference counts and copy-on-write (`Buffer`), fixed camera slots (`CameraPool`).
- **Two transformations.** Streams interned into a DAG (`RecipeSpec`, `RecipeGraph`) and streams matched across reconnects (`Reconnect`).

`Basics`, `Arith`, `Seqs` and `Graphs` are shared definitions and mathematics.

Code that updates state is a class or a method with loops, proved against a specification function or predicate; lock-free and concurrent code is a state machine whose steps are the atomic operations, and its theorems hold in every reachable state.

## What is assumed

- One Run per task. The Run error is arbitrary, which covers the filtering of shutdown errors.
- Attached destinations do not require the run to succeed; root destinations do.
- A join's frames and end-of-stream events name its own arms; an arm ends once; one producer per arm, and the arms share the join's one input queue; sums of times and durations do not leave int64.
- Rates and conversions of the timeline are real numbers; a reading is one atomic step.
- The pipeline graph is a set of nodes and a list of edges with numbered calls. Add, connect and remove do nothing at a call that finds the graph closed or its run draining (`pipeline/topology.go:321`, `pipeline/topology.go:429-436`, `pipeline/buffered.go:147-155`), which may change from any call to the next; add and connect may also fail for reasons of their own, a connection as a whole. A removal the graph takes has its node and edges out even if it then reports that waiting for the node's work failed. A node returned by an add has the planned name.
- A removal runs its node's finalizer, or does not because it timed out or the graph refused it; then the finalizer runs later, with at least the failures recorded by then, or never.
- One input qualifies its stream ids alike in every session (`source.go:240-277`). `Reconnect.EmittedAsKnown` also says what would hold if it did not.
- Compiled plans have distinct node names, sources read nothing, and each destination node has its own output number.
- An input handle's identity is made together with its configuration and again with every change of it (`input.go:64-120`), so copies with one identity are equal.
- Buffer operations are atomic; a handle is one Buffer value somebody holds.
- Downstream takes a camera plane reference only while the frame is lent to it, or from a reference it holds.

## Where a promise does not hold as stated

- After an abandoning Close, or of a branch abandoned by a failure, a destination can still come to be committed if and only if its finalizer had read its verdict before (`Lifecycle.AfterCloseCommitsIffDecided`, `BranchStop.AbandonedCommitsIffDecided`); `Lifecycle.LateCommitHappens` is such a run.
- A failed attach leaves the graph as before if and only if the graph took changes at every removal of its rollback, whose errors are ignored; otherwise exactly the nodes it refused to remove stay, with edges into them (`AttachApply.Plan.Apply`, `AttachApply.Rollback`). `AttachApply.DrainingGraphKeepsANode` is a run in which one does.
- An attach installs exactly the planned edges if and only if every planned input is listed no later than its reader (`AttachSpec.ExactIffInputsFirst`); otherwise the edge is neither inner nor ingress and is lost (`AttachSpec.LateInputLosesItsEdge`).
- `upstreamFirst` puts no node before one routed into it if and only if the branch is acyclic (`DrainOrder.UpstreamFirstIffAcyclic`).
- Both mix kernels give the clamped sum of every input if and only if there are at most 65536 arms (`MixKernel.ExactIffFewArms`); above, both wrap alike, as 65537 arms at full negative scale and then silence do (`MixKernel.TooManyArmsWrap`).

## Model

| member | source | states |
|---|---|---|
| `Lifecycle.StepKeepsInv` | runtime.go:561-584 | every critical section and finalizer step keeps: a root's success flag and verdict to commit imply a finished, error-free run that no Close abandoned; an abandoning Close has failed every root and every registered destination |
| `Lifecycle.RunInv` | runtime.go:848-866 | the invariant holds in every state reached from a built task, whatever the interleaving |
| `Lifecycle.RootCommitIsEarned` | runtime.go:896-918 | a root destination has a verdict to commit only after a run that finished without error before any Close started; `LifecycleHistory.RootCommitsIff` is the exact condition |
| `Lifecycle.FailedNeverCommits` | runtime.go:1003-1035 | along every run a failed destination stays failed and never gains a verdict to commit |
| `Lifecycle.AbandonmentIsFinal` | runtime.go:848-866 | after a Close that found Run unfinished, no root and no registered destination that had no verdict yet ever commits; `Lifecycle.AfterCloseCommitsIffDecided` adds the converse |
| `Lifecycle.CommitsIffDecided` | runtime.go:1003-1035 | some continuation commits a failed destination if and only if it already holds a verdict to commit |
| `Lifecycle.AfterCloseCommitsIffDecided` | runtime.go:848-866 | after an abandoning Close, or of a drain any Close met, a destination can still be committed if and only if its finalizer had decided so before; a root never can |
| `Lifecycle.NothingRegistersAfterClose` | runtime_attach.go:52-72 | once any Close started, no run adds an attachment or a destination |
| `Lifecycle.LateCommitHappens` | mux_destination.go:137-170 | a concrete run in which a drained destination that read its verdict before Close commits after it |
| `LifecycleTask.Task.MarkEach` | runtime.go:994-1010 | the loop of Succeed or Fail marks exactly the listed transactions |
| `LifecycleTask.Task.AbortEach` | runtime_attach.go:1078-1095 | the abort loop fails exactly the listed transactions and their muxers |
| `LifecycleTask.Task.FinishDestinationsLocked` | runtime.go:896-918 | roots and the destinations of every attachment still owned get the run's outcome, and no others |
| `LifecycleTask.Task.RunEnded` | runtime.go:561-584 | the end of Run is the lifecycle's run-end step, whose effect on every destination `LifecycleHistory.RootCommitsIff` and `LifecycleHistory.AttachedCommitsIff` give from the steps alone |
| `LifecycleHistory.RootCommitsIff` | runtime.go:896-918 | in every interleaving the verdict on a root is to commit, and its settling commits, if and only if Run had ended without error, no Close started before that, no handler, muxer or domain fault hit it, and it was not bound to a graph with a recorded fault |
| `LifecycleHistory.AttachedCommitsIff` | runtime_attach.go:52-93 | in every interleaving the same for a destination of an attachment: no step since its registration failed it (a failed Run, an abandoning Close, an abort, a drain any Close met), for a sink some step declared it a success (an error-free Run, a drain before Close), and nothing faulted it |
| `LifecycleHistory.HeldThroughRunCommits` | runtime.go:561-584 | an attachment neither drained nor aborted and still held when Run ends without error, with no Close before: its destinations commit exactly if nothing faulted them |
| `LifecycleHistory.LateRegistrationFollowsRun` | runtime_attach.go:52-72 | an attachment registered after Run ended and neither drained nor aborted commits exactly if Run ended without error and nothing faulted the destination |
| `LifecycleTask.Task.CloseDecision` | runtime.go:848-866 | the first Close decides once: all is abandoned if Run was unfinished, else only what still drains |
| `LifecycleTask.Task.BeginAttachmentLifecycle` | runtime_attach.go:52-72 | refused after any Close; otherwise registered, with the outcome of a run already finished |
| `LifecycleTask.Task.SetAttachmentDisposition` | runtime_attach.go:74-84 | a drain accepted after Close started is an abort |
| `LifecycleTask.Task.EndAttachmentLifecycle` | runtime_attach.go:88-93 | the attachment leaves the task's ledger and nothing else changes |
| `LifecycleTask.Task.CloseMuxer` | mux_destination.go:137-170 | the finalizer is its four lifecycle steps; it commits exactly when nothing recorded and no close fails |
| `LifecycleTask.Task.CloseSink` | destination_outcome.go:171-184 | a tracked sink commits exactly when it closed without error, had succeeded and had not failed |
| `DrainOrder.UpstreamFirst` | runtime_attach.go:1175-1195 | the loop computes the specified order |
| `DrainOrder.OrderIsPermutation` | runtime_attach.go:1175-1195 | every node of the branch leaves exactly once |
| `DrainOrder.UpstreamFirstIffAcyclic` | runtime_attach.go:1173-1195 | no node precedes one routed into it, if and only if the branch's routes have no cycle |
| `DrainOrder.PathsRunForward` | runtime_attach.go:1175-1195 | then every path through the branch runs forward in the order |
| `DrainOrder.TiesKeepAttachOrder` | runtime_attach.go:1173-1195 | a node overtaken by one attached later was still fed by a node that leaves no earlier than the one overtaking it |
| `BranchStop.Branch.Abandon` | runtime_attach.go:1131-1141 | the first real failure, and only the first, aborts every destination of the branch |
| `BranchStop.Branch.CutIngress` | runtime_attach.go:1127-1135 | only routes from outside the branch are cut; any real failure there aborts the branch |
| `BranchStop.Branch.RemoveInOrder` | runtime_attach.go:1136-1142 | each destination whose removal runs its finalizer settles by what was recorded before its own turn, neither more nor less; the others are as they were, but failed if anything has failed |
| `BranchStop.Branch.StopLocked` | runtime_attach.go:1123-1145 | of the destinations whose finalizer ran none commits after a failed cut, and on an acyclic branch none downstream of a failed removal; without failures each commits exactly if its own ledger and finalizer allow; one whose finalizer did not run is as before, but failed if anything has |
| `BranchStop.AbandonedCommitsIffDecided` | runtime_attach.go:1123-1145 | whatever steps of the task interleave: once a failure has abandoned a branch, a destination of it can be committed if and only if its finalizer had decided so before |
| `BranchStop.FailureComesFirst` | runtime_attach.go:1123-1145 | a removal that fails upstream has failed before the downstream node's turn |
| `AttachSpec.ExactIffInputsFirst` | attach_plan.go:716-854 | inner and ingress edges together are exactly the planned edges, counted, if and only if inputs are scheduled no later than readers |
| `AttachSpec.LateInputLosesItsEdge` | attach_plan.go:761-770 | an input scheduled after its reader: their edge is installed fewer times than planned |
| `AttachSpec.InstalledIs` | attach_plan.go:835-854 | an edge is installed once for each input connected by it: from a planned node listed no later, everything unlabelled; from the running graph the policy and label of the input's own route if that sets a policy, else everything unlabelled |
| `AttachSpec.AddIngress` | attach_plan.go:843-851 | one more edge joins the group of its anchor, policy and label or starts it; all other edges stay |
| `AttachSpec.Ingress` | attach_plan.go:835-854 | grouping neither loses nor adds an edge; one route per anchor, policy and label, none empty |
| `AttachApply.Reserve` | attach_plan.go:614-641 | accepted exactly when taps and node names are distinct and not taken by the task, the graph or an attachment |
| `AttachApply.Plan.InstallNode` | attach_plan.go:742-771 | a node and one edge per input already known; the graph owns the component from the moment it took the node |
| `AttachApply.Plan.Build` | attach_plan.go:742-771 | nodes in schedule order with exactly their inner edges, each at a call the graph accepted; a failure leaves a prefix of the plan |
| `AttachApply.Plan.ConnectIngress` | attach_plan.go:785-795 | every ingress connection meets the whole patch |
| `AttachApply.Plan.Close` | attach_plan.go:695-710 | every owned component the graph did not take is closed once, and a second call closes nothing |
| `AttachApply.Rollback` | runtime_attach.go:497-501 | reverse removal with refusals ignored: the graph keeps exactly the nodes whose removal it refused and only edges into those, retires each other node once, and is as before if and only if it took changes at every removal |
| `AttachApply.Plan.Apply` | attach_plan.go:716-831 | on success the planned nodes and edges; on failure the nodes before plus exactly the added ones whose removal was refused, as before if and only if none was; each owned component is closed exactly once or in the graph still; no edge from the running graph before every planned node and inner edge exists |
| `AttachApply.Plan.Undo` | attach_plan.go:727-738 | closes exactly the owned components the graph did not take and rolls the added nodes back |
| `AttachApply.DrainingGraphKeepsANode` | runtime_attach.go:497-501 | a graph that starts to drain after the first add keeps that node when the attach fails |
| `Isolation.ExclusiveUnfolds` | branch_failure.go:51-72 | ending only in chosen terminals along every maximal path is the recursion the search computes |
| `Isolation.Search.Decide` | branch_failure.go:51-72 | the memoised search stops on any graph and is right on an acyclic one |
| `Isolation.Collect` | branch_failure.go:73-81 | the members are exactly the non-source nodes whose maximal downstream paths all end in the terminals, in plan order |
| `Isolation.ExclusiveSuffix` | branch_failure.go:40-108 | accepts exactly the safe boundaries of an acyclic plan and returns exactly the suffix |
| `Isolation.MembersAre` | branch_failure.go:73-81 | membership in the suffix, both directions |
| `Isolation.ClosedUnderSuccessors` | branch_failure.go:40-108 | whatever reads a member is a member |
| `Isolation.SafeBoundary` | branch_failure.go:82-106 | the suffix holds every terminal; no join or multi-input node is in it or reads from it |
| `Isolation.SafeIff` | branch_failure.go:82-106 | a boundary is safe if and only if the suffix is not empty, holds every terminal, no join or multi-input node is in it or reads it, and none of it reads a join |
| `Isolation.IsolationPlans` | branch_failure.go:110-153 | domains are given exactly when every isolated Output can be isolated, one per isolated Output in order |
| `Isolation.IsolableIff` | branch_failure.go:110-153 | an Output can be isolated if and only if no other Output has one of its destinations and its boundary is safe |
| `Isolation.TerminalsAre` | branch_failure.go:117-138 | its terminals are exactly the planned destination nodes whose output number is that of one of its destinations |
| `Isolation.DomainsAre` | branch_failure.go:110-153 | the domains are one per isolated Output and no others, in their order, each the suffix of its own terminals |
| `Isolation.DisjointDomains` | branch_failure.go:110-153 | the domains of two Outputs have no node in common |
| `JoinStage.JoinSync.Buffer` | join_sync.go:188-190 | a frame joins the end of its arm's queue |
| `JoinStage.JoinSync.MarkEOS` | join_sync.go:193-196 | the arm ends; the answer says whether all have |
| `JoinStage.JoinSync.Discontinuity` | join_sync.go:203-221 | a PTS join flushes the named arm or all, gives their references back, counts the frames dropped and forgets its clock |
| `JoinStage.JoinSync.CheckReady` | join_sync.go:225-237 | ready exactly when something is pending and no unfinished arm is empty |
| `JoinStage.JoinSync.DropStaleHeads` | join_sync.go:338-356 | exactly each arm's stale prefix is dropped, given back and counted |
| `JoinStage.JoinSync.SelectArrival` | join_sync.go:284-296 | every pending head takes part; the first of them is the reference |
| `JoinStage.JoinSync.SelectPTS` | join_sync.go:300-332 | the earliest usable head and those within its half-duration window; `JoinMeaning.StepMeans` says so in times alone |
| `JoinStage.JoinSync.PopHeads` | join_sync.go:261-269 | the participating heads leave their queues; their references stay with the step |
| `JoinStage.JoinSync.Step` | join_sync.go:251-270 | one step of the specification |
| `JoinMeaning.StepMeans` | join_sync.go:251-356 | for every state: exactly the leading frames behind the clock by more than half their span are dropped; a step comes exactly when a head is left and every arm without one has ended; in PTS mode the first head with the least time defines it, the heads without a time or at most half its span later take part, and the clock goes to its end; without a timed head, and in arrival mode, every head takes part and the first stamps it |
| `JoinMeaning.BreakMeans` | join_sync.go:203-221 | a break empties exactly the named arm, or all, of a PTS join and unsets its clock; an arrival join ignores it |
| `JoinStage.JoinSync.RecyclePending` | join_sync.go:364-379 | every queued frame leaves its queue and its reference is given back once, in order |
| `JoinStage.Recycler.Clone` | audio_mix.go:276-311 | a clone on the nanosecond clock with a reference of its own, under a pooled header if there is one |
| `JoinMeaning.OnClockMeans` | join_sync.go:397-406 | a frame's time is its timestamp on the nanosecond clock, truncated, exactly when that can be represented |
| `JoinMeaning.SpanMeans` | join_sync.go:408-419 | its span is its duration in whole nanoseconds if there is one and it can be represented, else what its samples last at their rate |
| `JoinStage.Recycler.RecycleAll` | audio_mix.go:320-327 | each clone's reference given back once, in order, and no other stream's |
| `JoinStage.MixStage.RecycleStepFrames` | audio_mix.go:313-318 | the references a step holds are given back, so that everything that left a queue has been |
| `JoinStage.MixStage.DrainSteps` | audio_mix.go:178-205 | emits the steps of one drain in order; a failing mix or emitter stops it after exactly the steps before, loses that one step and leaves the rest to come; on every way out each reference taken has been given back once or belongs to a queued frame |
| `JoinStage.MixStage.HandleFrame` | audio_mix.go:101-116 | takes one reference, buffers and drains as the specification's handler, with the same account when the mix or the emitter fails; closed or without audio it changes nothing |
| `JoinStage.MixStage.HandleEnd` | audio_mix.go:117-129 | marks, drains, and forwards the joined end exactly after the last arm and if the emitter takes it, with every queue empty |
| `JoinStage.MixStage.HandleBreak` | audio_mix.go:130-153 | flushes and forwards the break, keeping the account |
| `JoinStage.MixStage.Close` | audio_mix.go:155-176 | every reference ever taken for an arm has been given back exactly once, in order, and no pooled header is kept |
| `JoinSpec.RefTakesPart` | join_sync.go:284-332 | the timing reference is an arm whose own head is in the step |
| `JoinSpec.StepShrinks` | join_sync.go:251-270 | every step takes at least one frame, so a drain ends |
| `JoinConfluence.DropAbsorbs` | join_sync.go:338-356 | dropping stale frames before or after a message arrives comes to the same |
| `JoinConfluence.StepCommutes` | join_sync.go:251-270 | a step that can be taken is not changed by one more message |
| `JoinConfluence.DrainAbsorbs` | audio_mix.go:178-205 | draining before a message and after it is draining once after it |
| `JoinConfluence.RunIsOneDrain` | audio_mix.go:101-205 | handling messages one by one emits what one drain at the end would |
| `JoinConfluence.Confluent` | join_sync.go:187-196 | steps, references, drops and final state depend only on each arm's frames and end, not on the interleaving, in both modes |
| `JoinConfluence.ArrivalAlignment` | join_sync.go:225-296 | in arrival mode, at any point of any run without breaks, step k holds the k-th frame of every arm that has one, stamped by the first such arm, and has been emitted exactly when every arm that has not ended has sent its k-th frame |
| `JoinConfluence.ArrivalCount` | join_sync.go:225-296 | once every arm has ended there are as many steps as the longest arm has frames |
| `JoinHistory.Conserved` | join_sync.go:251-389 | over any actions an arm's departures followed by its queue are the frames it was given, in order |
| `JoinHistory.RunConserved` | audio_mix.go:101-205 | the same over any handled messages |
| `JoinHistory.ReclaimedAll` | join_sync.go:364-379 | after Close's reclaim every frame given to an arm has left its queue exactly once, in order |
| `JoinHistory.PlayedOnce` | audio_mix.go:178-205 | the frames played are those in the emitted steps, each once |
| `JoinHistory.StepTiming` | join_sync.go:300-356 | a usable step sets the clock to its end and its own time plus half its duration is not behind the clock |
| `JoinHistory.RunForward` | join_sync.go:300-356 | successive usable references satisfy t' + dur'/2 >= t + dur in every run of complete drains without a break |
| `JoinHistory.PerformForward` | join_sync.go:300-356 | the same over any messages and single steps, so also when a drain stops early because the mix or the emitter failed |
| `JoinHistory.StrictlyIncreasing` | join_sync.go:300-356 | with equal positive durations output times strictly increase, over any actions without a break or a reclaim |
| `JoinHistory.RunStrictlyIncreasing` | join_sync.go:300-356 | the same over runs of complete drains |
| `JoinHistory.DrainStops` | audio_mix.go:178-205 | a drained join cannot advance |
| `JoinHistory.EndsEmpty` | audio_mix.go:117-129 | when the last arm ends every queue is empty |
| `Admission.StepKeepsInv` | join_sync.go:95-160 | every producer, queue and publish step keeps the wakeup, depth and size invariants |
| `Admission.ReachableInv` | join_sync.go:79-167 | they hold in every reachable state |
| `Admission.AdmissionSafe` | join_sync.go:95-160 | a producer waiting below the lead has a token, is about to get one, or is released; an arm never holds more than lead - 1 plus the in-flight bound |
| `Admission.HeldArmHasAStarvedSibling` | join_sync.go:225-237 | between Handles, a held arm implies another unfinished arm with an empty queue that is not held and can move |
| `TimeBase.GcdInt64` | av/types.go:654-662 | the greatest common divisor |
| `TimeBase.ReducePair` | av/types.go:645-652 | both are divided by one factor and become coprime |
| `TimeBase.CheckedMul` | av/types.go:664-672 | the product exactly when it fits int64 |
| `TimeBase.ReduceAll` | av/types.go:261-273 | six pairwise reductions leave numerator and denominator coprime and their quotient unchanged |
| `TimeBase.RescaleValue` | av/types.go:247-287 | in base fields alone: the result is value * from / to truncated toward zero with its sign, and there is one exactly when the numerator of that fraction in lowest terms fits int64; also the quotient the other laws are about |
| `TimeBase.RescaledTruncates` | av/types.go:274-286 | value * from / to lies between the result and the next number away from zero |
| `TimeBase.RescaledIffFits` | av/types.go:261-273 | for every fraction in lowest terms equal to it: it rescales if and only if that numerator fits int64 |
| `TimeBase.RescaleOdd` | av/types.go:247-287 | rescaling commutes with negation, failures included |
| `TimeBase.RescaleMonotone` | av/types.go:247-287 | rescaling never reverses order |
| `TimeBase.RescaleRoundTrip` | av/types.go:247-287 | an exact rescale followed by the reverse is the identity |
| `TimeBase.CheckedSub` | av/types.go:674-682 | the difference exactly when it fits int64 |
| `TimeBase.Sub` | av/types.go:186-196 | a difference in the later timestamp's base exactly when the earlier one rescales and the result fits |
| `Timeline.Clock.SetRate` | timeline.go:97-114 | refused and without effect exactly for a rate that is not positive; otherwise the reading does not jump, a running clock goes on from it at the new rate, a paused one stays frozen |
| `Timeline.Clock.Pause` | timeline.go:118-130 | every later reading is the one at the pause; a paused clock keeps its own |
| `Timeline.Clock.Resume` | timeline.go:134-146 | a paused clock goes on from the frozen reading at the rate last set; a running one is not touched |
| `Timeline.Clock.Now` | timeline.go:77-87 | the anchor while paused; while running, the anchor and the media time since, truncated toward zero |
| `Timeline.Continuous` | timeline.go:97-146 | the reading does not jump at any change |
| `Timeline.NeverDecreases` | timeline.go:64-146 | over any history the reading never decreases |
| `Timeline.FrozenWhilePaused` | timeline.go:82-87 | the reading is constant throughout a pause, rate changes during it included |
| `Timeline.IntegralIs` | timeline.go:75-87 | the exact integral is the anchor, one fraction lost per change, and the exact time since |
| `Timeline.TrailsTheIntegral` | timeline.go:75-146 | the reading trails the exact integral of the rate over unpaused time by less than one nanosecond more than the changes |
| `Timeline.Sleep` | timeline.go:191-227 | in one running epoch with exact waits the loop ends with a reading in [target, target + max(1, rate)) |
| `SleepProtocol.NoMissedChange` | timeline.go:152-227 | in every interleaving a sleeper waiting under a superseded epoch holds a channel that is closed or about to be |
| `SleepProtocol.WakesSoon` | timeline.go:152-157 | the setter's own remaining steps close it, and the sleeper can wake |
| `SleepProtocol.OtherOrderMisses` | timeline.go:200-204 | loading the epoch before the channel would miss a change: a run that does |
| `Buffer.ClassFits` | av/buffer.go:115-149 | a pooled block holds n bytes and, past 64, fewer than 2n; only sizes above 128 MiB are not pooled |
| `Buffer.Memory.TakeBlock` | av/buffer.go:129-141 | a block nobody holds, large enough, from the pool or new |
| `Buffer.Memory.AddRef` | av/buffer.go:153-158 | panics and changes nothing exactly when no reference is live |
| `Buffer.Memory.DropRef` | av/buffer.go:162-180 | the last reference pools the block; one too many panics |
| `Buffer.Memory.NewBuffer` | av/buffer.go:43-49 | one new reference to bytes nobody else holds; counts still equal live handles |
| `Buffer.Memory.Retain` | av/buffer.go:53-57 | a second handle on the same bytes; a live handle never panics |
| `Buffer.Memory.Release` | av/buffer.go:61-66 | the handle is gone, everyone else keeps their bytes; a live handle never panics |
| `Buffer.Memory.MakeWritable` | av/buffer.go:73-85 | the same bytes, held by nobody else, everyone else's unchanged |
| `Buffer.Memory.Write` | av/buffer.go:68-85 | writing through a writable handle changes no other handle's bytes |
| `Buffer.FrameRef` | av/buffer.go:199-215 | every plane gets a reference of its own to the same bytes |
| `Buffer.FrameRelease` | av/buffer.go:220-224 | every plane's reference is dropped once |
| `Buffer.FrameMakeWritable` | av/buffer.go:228-232 | every plane writable with its bytes, even when planes share one block |
| `Buffer.SharedOnlyThroughRetain` | av/buffer.go:43-66 | two live handles on one block come from one hand-out of it, whose count is at least two |
| `Buffer.I420Canvas` | video_composite.go:461-470 | three adjacent ranges of one new block with one reference each |
| `MixKernel.ScalarRange` | audio_mix_kernel.go:40-53 | writes the mix of the range and nothing else |
| `MixKernel.ScalarKernel` | audio_mix_kernel.go:34-36 | the whole mix |
| `MixKernel.SumIsExact` | audio_mix_kernel.go:42-45 | up to 65536 arms the int32 sum is the true sum |
| `MixKernel.TooManyArmsWrap` | audio_mix_kernel_simd.go:29-31 | with any more arms, 65537 of them at full negative scale and the rest silent, the mix is not the clamped sum |
| `MixKernel.ExactIffFewArms` | audio_mix_kernel.go:42-45 | every mix of n arms is the clamped true sum if and only if n is at most 65536 |
| `MixKernel.MixMeans` | audio_mix_kernel.go:40-53 | of up to 65536 arms, each two bytes of the mix read as a little-endian signed number are the sum of the arms' own, or the limit it passes |
| `MixKernel.LaneHalves` | audio_mix_kernel_simd.go:100-103 | mask, flip and subtract, and the arithmetic shift, are the two samples of a lane |
| `MixKernel.Widen` | audio_mix_kernel_simd.go:100-103 | a vector added into the lane sums is the sums over one more arm |
| `MixKernel.RepackBytes` | audio_mix_kernel_simd.go:106-110 | clamped sums repacked are the bytes of both samples |
| `MixKernel.Narrow` | audio_mix_kernel_simd.go:106-110 | stores the mix over the vector's bytes |
| `MixKernel.MixBlock` | audio_mix_kernel_simd.go:66-80 | four interleaved vectors store the mix of their bytes |
| `MixKernel.AddVector` | audio_mix_kernel_simd.go:93-97 | saturating adds are the mix of two arms |
| `MixKernel.OneArmIsACopy` | audio_mix_kernel_simd.go:40-43 | one arm mixes to its own bytes |
| `MixKernel.SimdKernel` | audio_mix_kernel_simd.go:39-90 | copy, add or widen over blocks, vectors and tail write the mix, for every even length and vector width |
| `MixKernel.KernelsAgree` | audio_mix_kernel_simd.go:24-31 | both kernels leave the same destination |
| `Composite.FillPlane` | video_composite.go:446-454 | doubling copies reach every byte |
| `Composite.CopyClipped` | video_composite.go:312-349 | row by row with clipping, the arm is painted |
| `Composite.CopyStrided` | video_composite.go:351-373 | so it is without clipping |
| `Composite.CopyBulk` | video_composite.go:363-366 | and by one copy |
| `Composite.CopyPlane` | video_composite.go:312-373 | every byte of the plane is the arm's sample where it covers with source bytes present, else what was there; no write leaves the plane |
| `Composite.Measure` | video_composite.go:231-249 | the first faulty arm in order, or a canvas that covers the floor and every arm; `Composite.CanvasIsLeast` adds that it is no larger |
| `Composite.CanvasIsLeast` | video_composite.go:231-249 | each side of the canvas is the floor's or some frame's at its place, and no less than any |
| `Composite.CompositeFrames` | video_composite.go:226-298 | no frames, the fault of the first faulty arm, an empty canvas, or three planes, each exactly when it applies; at every position of a plane the sample of the last frame whose even place, half-up size and present bytes reach it, read from that frame's own plane at the offset from that place, else 16 or 128 |
| `Composite.PaintedIsComposited` | video_composite.go:263-298 | painting in order is that, stated from frames and places alone |
| `Composite.LastArmWins` | video_composite.go:271-284 | the last covering arm shows |
| `Composite.UncoveredIsFill` | video_composite.go:263-269 | where none covers, the fill |
| `Composite.ArmsFit` | video_composite.go:276-283 | at non-negative places every luma and chroma rectangle fits its plane |
| `RecipeSpec.MadeAnew` | input.go:64-120 | making a handle under a new identity keeps every copy of a handle equal to it |
| `RecipeSpec.UnfoldStays` | recipe_graph.go:90-95 | what a node stands for never changes as the graph grows |
| `RecipeGraph.Compiler.InputNodeOf` | recipe_graph.go:100-111 | one node per input identity, holding the very handle asked for |
| `RecipeGraph.Compiler.AddSteps` | recipe_graph.go:152-155 | a Do of several stages becomes one node per stage in order; `RecipeGraph.StagesInOrder` says so on the graph |
| `RecipeGraph.StagesInOrder` | recipe_graph.go:148-158 | on the compiled graph, going back one node per stage from a stream's node, the k-th carries exactly the k-th stage and before the first comes the parent's node; any other operation is one node on the parent's |
| `RecipeGraph.Compiler.Stream` | recipe_graph.go:134-165 | interned exactly when everything it reaches is properly constructed; a stream already seen is its node; unfolding the node gives back the stream's operation tree down to the whole input handles; every operation, join and root node stands as it was declared, stages in order; no two streams share a node |
| `RecipeGraph.Compiler.RootNode` | recipe_graph.go:167-209 | joins over interned arms, anchors, rules and selections unfold to their roots, input handles included |
| `RecipeGraph.Compiler.RouteTo` | recipe_graph.go:115-131 | one output node per handle, a new one without identity, a conflict when copies disagree; a destination node is read exactly by the routings to it, in order |
| `RecipeGraph.SharedExactly` | recipe_graph.go:113-131 | two routings reach one node exactly when they name one handle |
| `RecipeGraph.StreamsShareNodes` | recipe_graph.go:66-75 | two stream Outputs route one node exactly when they route one stream, and that node stands for it |
| `RecipeGraph.Compiler.CompileGraph` | recipe_graph.go:49-88 | refused exactly for Outputs not properly made, in conflict exactly when copies of a handle disagree, else every destination of every Output routed and read by nothing else |
| `Reconnect.Source.Reconcile` | reconnect.go:228-275 | a stream keeps its id exactly if it is known and no earlier stream of the session has it; every other match is of one media type and codec, the first still free at its turn; every session stream known once; added and removed are exactly the unmatched, each once, none alike; with distinct ids known ids stay distinct and every known id goes on with its stream; under one qualifier emitted ids leave as the known ids, one to one |
| `Reconnect.Reconnects` | reconnect.go:141-198 | known ids stay distinct over any number of reconnects |
| `Reconnect.MatchById` | reconnect.go:233-241 | the first pass matches exactly the streams whose id is known and comes up for the first time, each to the first known stream with it |
| `Reconnect.MatchByKind` | reconnect.go:243-264 | each leftover continues the first stream of its media type and codec still free at its turn, or is added for want of one |
| `Reconnect.NoneLeftAlike` | reconnect.go:244-270 | no added stream shares media type and codec with a removed one |
| `Reconnect.EmittedAsKnown` | reconnect.go:412-442 | an emitted id leaves as the known id of its stream if and only if the qualifiers agree, the stream keeps its id or that id is empty; and as downstream has seen it if and only if they agree, the stream is renamed or that id is empty |
| `Reconnect.EmittedOneToOne` | reconnect.go:412-442 | different session streams leave under different ids |
| `Reconnect.DistinctKeepIds` | reconnect.go:233-241 | with distinct ids every session stream with a known id continues the stream that has it |
| `Reconnect.Delay` | reconnect.go:54-64 | the doubled, capped backoff in closed form, jittered into its upper half |
| `Reconnect.CappedDoubles` | reconnect.go:54-64 | the wait starts at the backoff or one second and doubles with each failure until the cap; a backoff above 30 seconds is its own cap |
| `CameraPool.StepKeepsInv` | cameraav/pool.go:69-113 | every atomic step keeps each owner count equal to one plus the frame's own reference plus those held downstream |
| `CameraPool.NeverWrittenWhileBorrowed` | cameraav/pool.go:83-102 | a slot's header or pixels are written only when it is not queued, not being emitted, and no plane of it is held |
| `CameraPool.OnlyWritesChange` | cameraav/camera.go:148-167 | no other step changes a slot's contents |
| `CameraPool.CountsStayPositive` | cameraav/pool.go:38-47 | owner counts stay at least one, so nothing panics |
| `CameraPool.OutstandingBounded` | cameraav/pool.go:49-68 | at most Queue + 2 slots are ever outstanding |
| `CameraPool.AlwaysAFreeSlot` | cameraav/pool.go:49-102 | whenever the producer wants a slot and no plane is held downstream, one of the Queue + 2 slots is idle with every owner count at one |
| `CameraPool.RestingSlotIsFree` | cameraav/pool.go:83-94 | a slot not outstanding has every owner count at one, as the producer's checks want |

## Left out

- BranchStop.Branch.StopLocked: no other step of the task falls between two removals; AbandonedCommitsIffDecided holds whatever falls between, and for a finalizer that runs after its removal.
- JoinStage.MixStage.DrainSteps: the mixer and the emitter are numbers of calls they serve before failing; the mixed samples are not part of the step.
- JoinStage.Recycler.Clone: a reference is an entry in the record of its stream; the counts on the planes are those of Buffer.
- Timeline.Sleep: one epoch and exact waits; contexts and timers are not modelled.
- Buffer.Memory.MakeWritable: is one atomic operation, because nobody else can retain a block whose only handle is this one.
- CameraPool.StepKeepsInv: the producer may try slots in any order, which covers the ring order of the source; closing the pool is not modelled.
- Reconnect.Delay: the jitter is a parameter.
- The video composite stage's own Handle and drain, which share the join engine with the mix stage, and the geometry it remembers for absent arms.
- Plain detach outcomes of attached destinations, children of attachments, retirement waits, snapshots and published events.
- Give-up counting of reconnect attempts, session swapping and the announcements that follow a reconnect.
- Shape, tap and buffer-policy checks of attach plans; only names and taps are reserved.
- Lowering, compilation, muxing, probing, providers, codecs and capture backends.
- Floating-point rounding, real timers, goroutine fairness and SIMD hardware.
