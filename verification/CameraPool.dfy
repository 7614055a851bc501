/**
 * The camera's fixed frame slots: one backend producer, one consumer, and any
 * number of downstream holders, each atomic operation a step (`cameraav/pool.go`,
 * `cameraav/camera.go`). The pool is open throughout.
 */
module CameraPool {
  import opened Basics
  import Seqs

  const PLANES := 3

  /** The reference counts of a slot's planes, the references held downstream, and its contents. */
  datatype Slot = Slot(busy: bool, refs: seq<int>, held: seq<nat>, header: nat, pixels: nat)

  datatype Producer =
    | Idle
    | Checking(slot: nat, plane: nat)               // claimed; owner counts read one by one
    | Retaining(slot: nat, plane: nat)
    | Filling(slot: nat)                            // header reset; pixels being written, then offered
    | Dropping(victim: nat, plane: nat, back: Option<nat>)  // releasing a frame, to go on with one of its own or not

  datatype Consumer =
    | Waiting
    | Received(slot: nat)                           // dequeued; its timestamp not yet rebased
    | Emitting(slot: nat)
    | Releasing(slot: nat, plane: nat)

  datatype State = State(capacity: nat, slots: seq<Slot>, queue: seq<nat>, producer: Producer, consumer: Consumer)

  datatype Step =
    | Claim(s: nat)           // the busy flag goes from false to true
    | Check                   // one owner count is read; anything but 1 gives the slot back
    | Retain                  // one owner is retained
    | Rewrite                 // the header is reset from its template
    | Fill                    // pixels are written
    | Offer
    | Evict                   // the oldest queued frame is taken to be dropped
    | DropOwn                 // the producer's own frame is dropped, for want of room or never offered
    | DropPlane
    | DropDone
    | Receive
    | Reject                  // the consumer gives a frame with a bad timestamp back, unemitted
    | Rebase                  // the consumer rewrites the timestamp, then emits
    | Emitted
    | ReleasePlane
    | ReleaseDone
    | Keep(s: nat, p: nat)    // downstream takes a reference
    | LetGo(s: nat, p: nat)

  /** The frame the producer is about to offer, if it has one. */
  function OwnFrame(p: Producer): Option<nat> {
    match p
    case Filling(s) => Some(s)
    case _ => None
  }

  function AddRef(slot: Slot, p: nat, d: int): Slot
    requires p < |slot.refs|
  {
    slot.(refs := slot.refs[p := slot.refs[p] + d])
  }

  ghost predicate Shaped(st: State) {
    && |st.slots| == st.capacity + 2
    && (forall s :: 0 <= s < |st.slots| ==> |st.slots[s].refs| == PLANES && |st.slots[s].held| == PLANES)
    && (st.producer.Checking? || st.producer.Retaining? ==> st.producer.slot < |st.slots| && st.producer.plane <= PLANES)
    && (st.producer.Filling? ==> st.producer.slot < |st.slots|)
    && (st.producer.Dropping? ==> st.producer.victim < |st.slots| && st.producer.plane <= PLANES)
    && (st.producer.Dropping? && st.producer.back.Some? ==> st.producer.back.value < |st.slots|)
    && (!st.consumer.Waiting? ==> st.consumer.slot < |st.slots|)
    && (st.consumer.Releasing? ==> st.consumer.plane <= PLANES)
    && (forall q :: 0 <= q < |st.queue| ==> st.queue[q] < |st.slots|)
    && |st.queue| <= st.capacity
  }

  ghost predicate Enabled(st: State, step: Step)
    requires Shaped(st)
  {
    match step
    case Claim(s) => st.producer.Idle? && s < |st.slots| && !st.slots[s].busy
    case Check => st.producer.Checking? && st.producer.plane < PLANES
    case Retain => (st.producer.Checking? && st.producer.plane == PLANES) || (st.producer.Retaining? && st.producer.plane < PLANES)
    case Rewrite => st.producer.Retaining? && st.producer.plane == PLANES
    case Fill => st.producer.Filling?
    case Offer => st.producer.Filling? && |st.queue| < st.capacity
    case Evict => st.queue != [] && (st.producer.Idle? || st.producer.Filling?)
    case DropOwn => st.producer.Filling?
    case DropPlane => st.producer.Dropping? && st.producer.plane < PLANES
    case DropDone => st.producer.Dropping? && st.producer.plane == PLANES
    case Receive => st.consumer.Waiting? && st.queue != []
    case Reject => st.consumer.Received?
    case Rebase => st.consumer.Received?
    case Emitted => st.consumer.Emitting?
    case ReleasePlane => st.consumer.Releasing? && st.consumer.plane < PLANES
    case ReleaseDone => st.consumer.Releasing? && st.consumer.plane == PLANES
    case Keep(s, p) => s < |st.slots| && p < PLANES && (st.consumer == Emitting(s) || st.slots[s].held[p] > 0)
    case LetGo(s, p) => s < |st.slots| && p < PLANES && st.slots[s].held[p] > 0
  }

  ghost function Apply(st: State, step: Step): State
    requires Shaped(st) && Enabled(st, step)
  {
    match step
    case Claim(s) => st.(slots := st.slots[s := st.slots[s].(busy := true)], producer := Checking(s, 0))
    case Check =>
      var s, p := st.producer.slot, st.producer.plane;
      if st.slots[s].refs[p] == 1 then st.(producer := Checking(s, p + 1))
      else st.(slots := st.slots[s := st.slots[s].(busy := false)], producer := Idle)
    case Retain =>
      var s, p := st.producer.slot, if st.producer.Checking? then 0 else st.producer.plane;
      st.(slots := st.slots[s := AddRef(st.slots[s], p, 1)], producer := Retaining(s, p + 1))
    case Rewrite =>
      var s := st.producer.slot;
      st.(slots := st.slots[s := st.slots[s].(header := st.slots[s].header + 1)], producer := Filling(s))
    case Fill =>
      var s := st.producer.slot;
      st.(slots := st.slots[s := st.slots[s].(pixels := st.slots[s].pixels + 1)])
    case Offer => st.(queue := st.queue + [st.producer.slot], producer := Idle)
    case Evict => st.(queue := st.queue[1..], producer := Dropping(st.queue[0], 0, OwnFrame(st.producer)))
    case DropOwn => st.(producer := Dropping(st.producer.slot, 0, None))
    case DropPlane =>
      var s, p := st.producer.victim, st.producer.plane;
      st.(slots := st.slots[s := AddRef(st.slots[s], p, -1)], producer := Dropping(s, p + 1, st.producer.back))
    case DropDone =>
      var s := st.producer.victim;
      st.(slots := st.slots[s := st.slots[s].(busy := false)],
          producer := if st.producer.back.Some? then Filling(st.producer.back.value) else Idle)
    case Receive => st.(queue := st.queue[1..], consumer := Received(st.queue[0]))
    case Rebase =>
      var s := st.consumer.slot;
      st.(slots := st.slots[s := st.slots[s].(header := st.slots[s].header + 1)], consumer := Emitting(s))
    case Reject => st.(consumer := Releasing(st.consumer.slot, 0))
    case Emitted => st.(consumer := Releasing(st.consumer.slot, 0))
    case ReleasePlane =>
      var s, p := st.consumer.slot, st.consumer.plane;
      st.(slots := st.slots[s := AddRef(st.slots[s], p, -1)], consumer := Releasing(s, p + 1))
    case ReleaseDone =>
      var s := st.consumer.slot;
      st.(slots := st.slots[s := st.slots[s].(busy := false)], consumer := Waiting)
    case Keep(s, p) => st.(slots := st.slots[s := AddRef(st.slots[s], p, 1).(held := st.slots[s].held[p := st.slots[s].held[p] + 1])])
    case LetGo(s, p) => st.(slots := st.slots[s := AddRef(st.slots[s], p, -1).(held := st.slots[s].held[p := st.slots[s].held[p] - 1])])
  }

  // ---------------------------------------------------------------------
  // Who has a slot
  // ---------------------------------------------------------------------

  /** The producer's own frame. */
  predicate WithProducer(st: State, s: nat) {
    match st.producer
    case Idle => false
    case Checking(x, _) => x == s
    case Retaining(x, _) => x == s
    case Filling(x) => x == s
    case Dropping(_, _, back) => back == Some(s)
  }

  /** The frame the producer is dropping. */
  predicate BeingDropped(st: State, s: nat) {
    st.producer.Dropping? && st.producer.victim == s
  }

  predicate WithConsumer(st: State, s: nat) {
    !st.consumer.Waiting? && st.consumer.slot == s
  }

  /** At most one of them has it. */
  ghost predicate Apart(st: State, s: nat) {
    && !(WithProducer(st, s) && BeingDropped(st, s)) && !(WithProducer(st, s) && WithConsumer(st, s))
    && !(BeingDropped(st, s) && WithConsumer(st, s))
    && (s in st.queue ==> !WithProducer(st, s) && !BeingDropped(st, s) && !WithConsumer(st, s))
  }

  /** Whether the frame's own reference to plane p is counted now. */
  predicate Counted(st: State, s: nat, p: nat) {
    if WithProducer(st, s) then
      match st.producer
      case Idle => false
      case Checking(_, _) => false
      case Retaining(_, n) => p < n
      case Filling(_) => true
      case Dropping(_, _, _) => true
    else if BeingDropped(st, s) then st.producer.plane <= p
    else if WithConsumer(st, s) then st.consumer.Releasing? ==> st.consumer.plane <= p
    else s in st.queue
  }

  /** Planes nobody downstream can hold yet: read as free by the producer, or never lent since. */
  predicate Unlent(st: State, s: nat, p: nat) {
    || (WithProducer(st, s) && (st.producer.Checking? ==> p < st.producer.plane))
    || BeingDropped(st, s) || s in st.queue || st.consumer == Received(s)
  }

  ghost predicate PlaneRight(st: State, s: nat, p: nat)
    requires Shaped(st) && s < |st.slots| && p < PLANES
  {
    && st.slots[s].refs[p] == 1 + st.slots[s].held[p] + (if Counted(st, s, p) then 1 else 0)
    && (Unlent(st, s, p) ==> st.slots[s].held[p] == 0)
  }

  ghost predicate SlotRight(st: State, s: nat)
    requires Shaped(st) && s < |st.slots|
  {
    && Apart(st, s)
    && (st.slots[s].busy <==> WithProducer(st, s) || BeingDropped(st, s) || WithConsumer(st, s) || s in st.queue)
    && forall p :: 0 <= p < PLANES ==> PlaneRight(st, s, p)
  }

  ghost predicate Inv(st: State) {
    && Shaped(st) && (forall s :: 0 <= s < |st.slots| ==> SlotRight(st, s))
    && (forall q, r :: 0 <= q < r < |st.queue| ==> st.queue[q] != st.queue[r])
  }

  ghost predicate Reaches(s: State, steps: seq<Step>, t: State)
    decreases |steps|
  {
    if steps == [] then s == t else Shaped(s) && Enabled(s, steps[0]) && Reaches(Apply(s, steps[0]), steps[1..], t)
  }

  /** A pool just opened: every owner count is 1, nothing is queued. */
  ghost predicate Opened(st: State) {
    && Shaped(st) && st.queue == [] && st.producer.Idle? && st.consumer.Waiting?
    && forall s :: 0 <= s < |st.slots| ==> !st.slots[s].busy && st.slots[s].refs == [1, 1, 1] && st.slots[s].held == [0, 0, 0]
  }

  lemma OpenedInv(st: State)
    requires Opened(st)
    ensures Inv(st)
  {
  }

  /** The slot claimed had nobody; its planes may still be held downstream. */
  lemma ClaimKeeps(st: State, step: Step, s: nat)
    requires Inv(st) && Enabled(st, step) && (step.Claim?) && s < |st.slots|
    ensures Shaped(Apply(st, step)) && SlotRight(Apply(st, step), s)
  {
    var t := Apply(st, step);
    assert SlotRight(st, s);
    assert SlotRight(st, step.s);
    forall p | 0 <= p < PLANES
      ensures PlaneRight(t, s, p)
    {
      assert PlaneRight(st, s, p);
    }
  }

  /** A count read as 1 means nobody holds that plane, and nobody can come to. */
  lemma CheckKeeps(st: State, step: Step, s: nat)
    requires Inv(st) && Enabled(st, step) && (step.Check?) && s < |st.slots|
    ensures Shaped(Apply(st, step)) && SlotRight(Apply(st, step), s)
  {
    var t := Apply(st, step);
    assert SlotRight(st, s);
    forall p | 0 <= p < PLANES
      ensures PlaneRight(t, s, p)
    {
      assert PlaneRight(st, s, p);
    }
  }

  lemma RetainKeeps(st: State, step: Step, s: nat)
    requires Inv(st) && Enabled(st, step) && (step.Retain?) && s < |st.slots|
    ensures Shaped(Apply(st, step)) && SlotRight(Apply(st, step), s)
  {
    var t := Apply(st, step);
    assert SlotRight(st, s);
    forall p | 0 <= p < PLANES
      ensures PlaneRight(t, s, p)
    {
      assert PlaneRight(st, s, p);
    }
  }

  lemma WriteKeeps(st: State, step: Step, s: nat)
    requires Inv(st) && Enabled(st, step) && (step.Rewrite? || step.Fill? || step.Rebase? || step.Reject? || step.Emitted?) && s < |st.slots|
    ensures Shaped(Apply(st, step)) && SlotRight(Apply(st, step), s)
  {
    var t := Apply(st, step);
    assert SlotRight(st, s);
    forall p | 0 <= p < PLANES
      ensures PlaneRight(t, s, p)
    {
      assert PlaneRight(st, s, p);
    }
  }

  /** The slot at the head of the queue changes hands. */
  lemma QueueKeeps(st: State, step: Step, s: nat)
    requires Inv(st) && Enabled(st, step) && (step.Offer? || step.Evict? || step.DropOwn? || step.Receive?) && s < |st.slots|
    ensures Shaped(Apply(st, step)) && SlotRight(Apply(st, step), s)
  {
    var t := Apply(st, step);
    assert SlotRight(st, s);
    forall p | 0 <= p < PLANES
      ensures PlaneRight(t, s, p)
    {
      assert PlaneRight(st, s, p);
    }
  }

  lemma DropKeeps(st: State, step: Step, s: nat)
    requires Inv(st) && Enabled(st, step) && (step.DropPlane? || step.ReleasePlane?) && s < |st.slots|
    ensures Shaped(Apply(st, step)) && SlotRight(Apply(st, step), s)
  {
    var t := Apply(st, step);
    assert SlotRight(st, s);
    forall p | 0 <= p < PLANES
      ensures PlaneRight(t, s, p)
    {
      assert PlaneRight(st, s, p);
    }
  }

  lemma DoneKeeps(st: State, step: Step, s: nat)
    requires Inv(st) && Enabled(st, step) && (step.DropDone? || step.ReleaseDone?) && s < |st.slots|
    ensures Shaped(Apply(st, step)) && SlotRight(Apply(st, step), s)
  {
    var t := Apply(st, step);
    assert SlotRight(st, s);
    forall p | 0 <= p < PLANES
      ensures PlaneRight(t, s, p)
    {
      assert PlaneRight(st, s, p);
    }
  }

  /** A reference is taken only from a frame being emitted or from another reference. */
  lemma HolderKeeps(st: State, step: Step, s: nat)
    requires Inv(st) && Enabled(st, step) && (step.Keep? || step.LetGo?) && s < |st.slots|
    ensures Shaped(Apply(st, step)) && SlotRight(Apply(st, step), s)
  {
    var t := Apply(st, step);
    assert SlotRight(st, s);
    forall p | 0 <= p < PLANES
      ensures PlaneRight(t, s, p)
    {
      assert PlaneRight(st, s, p);
    }
  }

  lemma StepSlot(st: State, step: Step, s: nat)
    requires Inv(st) && Enabled(st, step) && s < |st.slots|
    ensures Shaped(Apply(st, step)) && SlotRight(Apply(st, step), s)
  {
    match step
    case Claim(_) => ClaimKeeps(st, step, s);
    case Check => CheckKeeps(st, step, s);
    case Retain => RetainKeeps(st, step, s);
    case Rewrite => WriteKeeps(st, step, s);
    case Fill => WriteKeeps(st, step, s);
    case Rebase => WriteKeeps(st, step, s);
    case Reject => WriteKeeps(st, step, s);
    case Emitted => WriteKeeps(st, step, s);
    case Offer => QueueKeeps(st, step, s);
    case Evict => QueueKeeps(st, step, s);
    case DropOwn => QueueKeeps(st, step, s);
    case Receive => QueueKeeps(st, step, s);
    case DropPlane => DropKeeps(st, step, s);
    case ReleasePlane => DropKeeps(st, step, s);
    case DropDone => DoneKeeps(st, step, s);
    case ReleaseDone => DoneKeeps(st, step, s);
    case Keep(_, _) => HolderKeeps(st, step, s);
    case LetGo(_, _) => HolderKeeps(st, step, s);
  }

  lemma QueueStaysDistinct(st: State, step: Step)
    requires Inv(st) && Enabled(st, step)
    ensures var q := Apply(st, step).queue; forall i, j :: 0 <= i < j < |q| ==> q[i] != q[j]
  {
    if step.Offer? {
      assert SlotRight(st, st.producer.slot) && st.producer.slot !in st.queue;
    }
  }

  lemma StepKeepsInv(st: State, step: Step)
    requires Inv(st) && Enabled(st, step)
    ensures Inv(Apply(st, step))
  {
    var t := Apply(st, step);
    StepSlot(st, step, 0);
    assert |t.slots| == |st.slots|;
    forall s | 0 <= s < |t.slots|
      ensures SlotRight(t, s)
    {
      StepSlot(st, step, s);
    }
    QueueStaysDistinct(st, step);
  }

  lemma {:induction false} RunKeepsInv(st: State, steps: seq<Step>, t: State)
    requires Inv(st) && Reaches(st, steps, t)
    ensures Inv(t) && |t.slots| == |st.slots| && t.capacity == st.capacity
    decreases |steps|
  {
    if steps != [] {
      StepKeepsInv(st, steps[0]);
      RunKeepsInv(Apply(st, steps[0]), steps[1..], t);
    }
  }

  // ---------------------------------------------------------------------
  // What every run keeps
  // ---------------------------------------------------------------------

  /** The step writes this slot's header or pixels. */
  predicate Writes(st: State, step: Step, s: nat) {
    || ((step.Rewrite? || step.Fill?) && (st.producer.Retaining? || st.producer.Filling?) && st.producer.slot == s)
    || (step.Rebase? && st.consumer == Received(s))
  }

  /** A step changes a slot's contents only if it is one that writes it. */
  lemma OnlyWritesChange(st: State, step: Step, s: nat)
    requires Shaped(st) && Enabled(st, step) && s < |st.slots| && !Writes(st, step, s)
    ensures Apply(st, step).slots[s].header == st.slots[s].header && Apply(st, step).slots[s].pixels == st.slots[s].pixels
  {
  }

  /** In every interleaving, a slot is written only when it is not queued, not being emitted, and nobody holds a plane of it. */
  lemma NeverWrittenWhileBorrowed(st: State, steps: seq<Step>, t: State, step: Step, s: nat)
    requires Opened(st) && Reaches(st, steps, t) && Shaped(t) && Enabled(t, step) && s < |t.slots| && Writes(t, step, s)
    ensures s !in t.queue && t.consumer != Emitting(s) && forall p :: 0 <= p < PLANES ==> t.slots[s].held[p] == 0
  {
    OpenedInv(st);
    RunKeepsInv(st, steps, t);
    assert SlotRight(t, s);
    forall p | 0 <= p < PLANES
      ensures t.slots[s].held[p] == 0
    {
      assert PlaneRight(t, s, p);
    }
  }

  /** The owner counts never reach zero while the pool is open, so no retain or release panics. */
  lemma CountsStayPositive(st: State, steps: seq<Step>, t: State, s: nat, p: nat)
    requires Opened(st) && Reaches(st, steps, t) && s < |t.slots| && p < PLANES
    ensures |t.slots[s].refs| == PLANES && t.slots[s].refs[p] >= 1
  {
    OpenedInv(st);
    RunKeepsInv(st, steps, t);
    assert SlotRight(t, s);
    assert PlaneRight(t, s, p);
  }

  /** A slot in use: claimed, queued, being emitted or released, or held downstream. */
  ghost predicate Outstanding(st: State, s: nat) {
    s < |st.slots| && (st.slots[s].busy || exists p :: 0 <= p < |st.slots[s].held| && st.slots[s].held[p] > 0)
  }

  /** At most two more slots than the queue holds are ever outstanding. */
  lemma OutstandingBounded(st: State, steps: seq<Step>, t: State, out: set<nat>)
    requires Opened(st) && Reaches(st, steps, t) && forall s :: s in out ==> Outstanding(t, s)
    ensures |out| <= st.capacity + 2
  {
    OpenedInv(st);
    RunKeepsInv(st, steps, t);
    Seqs.BelowIs(|t.slots|);
    assert out <= Seqs.Below(|t.slots|);
    SubsetFits(out, Seqs.Below(|t.slots|));
  }

  lemma SubsetFits(a: set<nat>, b: set<nat>)
    requires a <= b
    ensures |a| <= |b|
  {
    assert b == a + (b - a);
  }

  /** Nothing outstanding means every slot can be claimed and passes its checks. */
  lemma RestingSlotIsFree(st: State, steps: seq<Step>, t: State, s: nat)
    requires Opened(st) && Reaches(st, steps, t) && s < |t.slots| && !Outstanding(t, s)
    ensures t.slots[s].refs == [1, 1, 1]
  {
    OpenedInv(st);
    RunKeepsInv(st, steps, t);
    assert SlotRight(t, s);
    assert PlaneRight(t, s, 0) && PlaneRight(t, s, 1) && PlaneRight(t, s, 2);
  }

  /** The slots in the queue and with the consumer: all that are busy while the producer is idle. */
  ghost function Taken(st: State): set<nat> {
    (set q | 0 <= q < |st.queue| :: st.queue[q]) + if st.consumer.Waiting? then {} else {st.consumer.slot}
  }

  lemma {:induction false} QueuedFit(queue: seq<nat>)
    ensures |set q | 0 <= q < |queue| :: queue[q]| <= |queue|
  {
    if queue != [] {
      var n := |queue| - 1;
      QueuedFit(queue[..n]);
      var fewer := set q | 0 <= q < |queue[..n]| :: queue[..n][q];
      assert (set q | 0 <= q < |queue| :: queue[q]) == fewer + {queue[n]} by {
        forall q | 0 <= q < n
          ensures queue[q] in fewer
        {
          assert queue[q] == queue[..n][q];
        }
      }
    }
  }

  lemma SomeSlotOutside(taken: set<nat>, n: nat) returns (s: nat)
    requires |taken| < n
    ensures s < n && s !in taken
  {
    Seqs.BelowIs(n);
    if Seqs.Below(n) <= taken {
      SubsetFits(Seqs.Below(n), taken);
    }
    s :| s in Seqs.Below(n) && s !in taken;
  }

  /**
   * Why Queue + 2 slots are enough: whenever the producer wants a slot and nothing is held downstream,
   * one is free and passes its checks. So a sample is dropped for want of a slot only while frames are held.
   */
  lemma AlwaysAFreeSlot(st: State, steps: seq<Step>, t: State) returns (s: nat)
    requires Opened(st) && Reaches(st, steps, t) && t.producer.Idle?
    requires forall x, p :: 0 <= x < |t.slots| && 0 <= p < |t.slots[x].held| ==> t.slots[x].held[p] == 0
    ensures s < |t.slots| && !t.slots[s].busy && t.slots[s].refs == [1, 1, 1] && Shaped(t) && Enabled(t, Claim(s))
  {
    OpenedInv(st);
    RunKeepsInv(st, steps, t);
    QueuedFit(t.queue);
    s := SomeSlotOutside(Taken(t), |t.slots|);
    assert SlotRight(t, s) && s !in t.queue;
    assert PlaneRight(t, s, 0) && PlaneRight(t, s, 1) && PlaneRight(t, s, 2);
  }
}
