/**
 * Arm admission: per-arm backpressure with a published depth and a one-token
 * wakeup (`join_sync.go`), as the steps of the arm producers and of the
 * stage's publish loop.
 */
module Admission {
  import opened Basics
  import opened TimeBase
  import opened JoinSpec
  import opened JoinHistory

  /** `joinArmLeadFrames`. */
  const LEAD: nat := 16

  /** One arm's producer: inside `admit` it re-reads the depth, or waits for a token. */
  datatype Producer = Free | Asking(frame: Frame) | Waiting(frame: Frame) | Admitted(frame: Frame) | Done

  /** The stage between Handles, or inside the publish loop of one. */
  datatype Stage = Idle | Publishing(arm: nat) | Waking(arm: nat)

  datatype State = State(
    join: Join,
    depth: seq<nat>,
    token: seq<bool>,
    prod: seq<Producer>,
    flight: seq<Message>,
    stage: Stage,
    released: bool)

  datatype Step =
    | Begin(i: nat, frame: Frame)   // the producer has a frame and calls admit
    | Ask(i: nat)                   // load the depth: pass, or go wait
    | Take(i: nat)                  // a waiting producer takes the token
    | Leave(i: nat)                 // a waiting producer sees the stage released
    | Cancel(i: nat)                // a waiting producer's context ends
    | Push(i: nat)                  // the admitted frame enters the input queue
    | Shed(i: nat)                  // the admitted frame is shed instead
    | Finish(i: nat)                // the producer's end of stream enters the queue
    | Interrupt(i: nat)             // a discontinuity of the arm enters the queue
    | Handle                        // the stage handles the oldest queued message and starts publishing
    | Publish                       // swap one arm's published depth
    | Wake                          // send the token of the arm just published
    | Release                       // Close: free the waiters and reclaim the queues

  function Start(byPts: bool, arms: nat): State {
    State(Init(byPts, arms), seq(arms, _ => 0), seq(arms, _ => false), seq(arms, _ => Free), [], Idle, false)
  }

  ghost predicate Sized(s: State) {
    s.join.Valid() && |s.depth| == |s.token| == |s.prod| == |s.join.q|
  }

  predicate OfArm(m: Message, i: nat) {
    match m
    case Arrive(k, _) => k == i
    case End(k) => k == i
    case Break(which) => which == Some(i)
  }

  /** cap is the capacity of the join's input queue, which its arms share. */
  predicate Enabled(s: State, cap: nat, step: Step)
    requires Sized(s)
  {
    match step
    case Begin(i, _) => i < |s.prod| && s.prod[i].Free?
    case Ask(i) => i < |s.prod| && s.prod[i].Asking?
    case Take(i) => i < |s.prod| && s.prod[i].Waiting? && s.token[i]
    case Leave(i) => i < |s.prod| && s.prod[i].Waiting? && s.released
    case Cancel(i) => i < |s.prod| && s.prod[i].Waiting?
    case Push(i) => i < |s.prod| && s.prod[i].Admitted? && |s.flight| < cap
    case Shed(i) => i < |s.prod| && s.prod[i].Admitted?
    case Finish(i) => i < |s.prod| && s.prod[i].Free? && |s.flight| < cap
    case Interrupt(i) => i < |s.prod| && s.prod[i].Free? && |s.flight| < cap
    case Handle => s.stage.Idle? && !s.released && s.flight != [] && ForArms(s.flight[0], |s.prod|)
    case Publish => s.stage.Publishing? && s.stage.arm < |s.prod|
    case Wake => s.stage.Waking? && s.stage.arm < |s.prod|
    case Release => s.stage.Idle?
  }

  function After(s: State, arm: nat): Stage {
    if arm + 1 < |s.prod| then Publishing(arm + 1) else Idle
  }

  function Apply(s: State, cap: nat, step: Step): State
    requires Sized(s) && Enabled(s, cap, step)
  {
    match step
    case Begin(i, f) => s.(prod := s.prod[i := Asking(f)])
    case Ask(i) => s.(prod := s.prod[i := if s.depth[i] >= LEAD then Waiting(s.prod[i].frame) else Admitted(s.prod[i].frame)])
    case Take(i) => s.(prod := s.prod[i := Asking(s.prod[i].frame)], token := s.token[i := false])
    case Leave(i) => s.(prod := s.prod[i := Admitted(s.prod[i].frame)])
    case Cancel(i) => s.(prod := s.prod[i := Free])
    case Push(i) => s.(prod := s.prod[i := Free], flight := s.flight + [Arrive(i, s.prod[i].frame)])
    case Shed(i) => s.(prod := s.prod[i := Free])
    case Finish(i) => s.(prod := s.prod[i := Done], flight := s.flight + [End(i)])
    case Interrupt(i) => s.(flight := s.flight + [Break(Some(i))])
    case Handle => s.(join := JoinSpec.Handle(s.join, s.flight[0]).0, flight := s.flight[1..], stage := if |s.prod| > 0 then Publishing(0) else Idle)
    case Publish =>
      var i := s.stage.arm;
      var depth := |s.join.q[i]|;
      s.(depth := s.depth[i := depth], stage := if s.depth[i] >= LEAD && depth < LEAD then Waking(i) else After(s, i))
    case Wake => s.(token := s.token[s.stage.arm := true], stage := After(s, s.stage.arm))
    case Release => if s.released then s else s.(join := GivenBack(s.join), released := true)
  }

  // ---------------------------------------------------------------------
  // The invariant
  // ---------------------------------------------------------------------

  /** The publish loop of this Handle has yet to swap arm i. */
  predicate Unpublished(s: State, i: nat) {
    (s.stage.Publishing? && s.stage.arm <= i) || (s.stage.Waking? && s.stage.arm < i)
  }

  /** A producer waiting below the lead has its token, or is about to get it, or is let go. */
  ghost predicate NoLostWakeup(s: State)
    requires Sized(s)
  {
    forall i :: 0 <= i < |s.prod| && s.prod[i].Waiting? && s.depth[i] < LEAD ==>
      s.token[i] || s.stage == Waking(i) || s.released
  }

  /** The published depth is the queue's, or at most one frame behind while unpublished. */
  ghost predicate Mirrored(s: State)
    requires Sized(s)
  {
    !s.released ==> forall i :: 0 <= i < |s.depth| ==>
      |s.join.q[i]| <= s.depth[i] + 1 && (!Unpublished(s, i) ==> s.depth[i] == |s.join.q[i]|)
  }

  function InHand(p: Producer): nat {
    if p.Admitted? then 1 else 0
  }

  /** An arm's frames among queued messages; events need no admission. */
  function Frames(f: seq<Message>, i: nat): (n: nat)
    ensures n <= |f|
  {
    if f == [] then 0 else (if f[0].Arrive? && f[0].arm == i then 1 else 0) + Frames(f[1..], i)
  }

  lemma {:induction false} FramesAppend(f: seq<Message>, m: Message, i: nat)
    ensures Frames(f + [m], i) == Frames(f, i) + if m.Arrive? && m.arm == i then 1 else 0
  {
    if f != [] {
      FramesAppend(f[1..], m, i);
      assert (f + [m])[1..] == f[1..] + [m];
    }
  }

  /** An arm's queue, its frames in the input queue and its producer's hand stay within the lead and the in-flight bound. */
  ghost predicate Bounded(s: State, cap: nat)
    requires Sized(s)
  {
    && |s.flight| <= cap
    && forall i :: 0 <= i < |s.prod| && !s.released ==> |s.join.q[i]| + Frames(s.flight, i) + InHand(s.prod[i]) <= LEAD + cap + 1
  }

  /** The input queue holds messages of the join's arms; a finished producer's end is queued or was handled. */
  ghost predicate Routed(s: State)
    requires Sized(s)
  {
    && AllForArms(s.flight, |s.prod|)
    && forall i :: 0 <= i < |s.prod| && s.prod[i].Done? ==> s.join.eos[i] || End(i) in s.flight
  }

  ghost predicate Inv(s: State, cap: nat) {
    && Sized(s) && NoLostWakeup(s) && Mirrored(s) && Bounded(s, cap) && Routed(s) && !Ready(s.join)
    && (s.stage.Idle? || s.stage.arm < |s.prod|)
  }

  // ---------------------------------------------------------------------
  // What one Handle does to the queues
  // ---------------------------------------------------------------------

  lemma {:induction false} DrainOnlyPops(j: Join, i: nat)
    requires j.Valid() && i < |j.q|
    ensures |Drain(j).0.q[i]| <= |j.q[i]|
    decreases Pending(j.q)
  {
    StepShrinks(j);
    if StepOnce(j).1.Some? {
      DrainOnlyPops(StepOnce(j).0, i);
    }
  }

  lemma NotReadyAfterHandle(j: Join, m: Message)
    requires j.Valid() && ForArms(m, |j.q|) && !Ready(j)
    ensures !Ready(JoinSpec.Handle(j, m).0)
  {
    if m.Break? {
      var r := Flushed(j, m.which);
      if AnyPending(j) {
        var i :| 0 <= i < |j.q| && j.q[i] == [] && !j.eos[i];
        assert r.q[i] == [];
      }
    } else {
      DrainStops(Deliver(j, m));
    }
  }

  lemma HandleGrowsOneArm(j: Join, m: Message, i: nat)
    requires j.Valid() && ForArms(m, |j.q|) && i < |j.q|
    ensures |JoinSpec.Handle(j, m).0.q[i]| <= |j.q[i]| + if OfArm(m, i) && m.Arrive? then 1 else 0
  {
    if !m.Break? {
      DrainOnlyPops(Deliver(j, m), i);
    }
  }

  lemma HandleEnds(j: Join, m: Message, i: nat)
    requires j.Valid() && ForArms(m, |j.q|) && i < |j.q|
    ensures JoinSpec.Handle(j, m).0.eos[i] == (j.eos[i] || m == End(i))
  {
  }

  // ---------------------------------------------------------------------
  // Every step keeps the invariant
  // ---------------------------------------------------------------------

  lemma StartInv(byPts: bool, arms: nat, cap: nat)
    ensures Inv(Start(byPts, arms), cap)
  {
  }

  /** A Handle's effect on each arm. */
  ghost predicate Handled(s: State, t: State, m: Message)
    requires Sized(s) && Sized(t) && |t.prod| == |s.prod|
  {
    forall k :: 0 <= k < |s.prod| ==>
      && |t.join.q[k]| <= |s.join.q[k]| + (if OfArm(m, k) && m.Arrive? then 1 else 0)
      && t.join.eos[k] == (s.join.eos[k] || m == End(k))
  }

  lemma HandleActs(s: State, cap: nat)
    requires Sized(s) && !Ready(s.join) && Enabled(s, cap, Handle)
    ensures var t := Apply(s, cap, Handle); Sized(t) && !Ready(t.join) && Handled(s, t, s.flight[0])
  {
    var m, t := s.flight[0], Apply(s, cap, Handle);
    NotReadyAfterHandle(s.join, m);
    forall k | 0 <= k < |s.prod|
      ensures |t.join.q[k]| <= |s.join.q[k]| + if OfArm(m, k) && m.Arrive? then 1 else 0
      ensures t.join.eos[k] == (s.join.eos[k] || m == End(k))
    {
      HandleGrowsOneArm(s.join, m, k);
      HandleEnds(s.join, m, k);
    }
  }

  lemma {:induction false} HandleKeepsInv(s: State, cap: nat)
    requires Inv(s, cap) && Enabled(s, cap, Handle)
    ensures Inv(Apply(s, cap, Handle), cap)
  {
    HandleActs(s, cap);
    HandleKeepsQueue(s, Apply(s, cap, Handle), cap);
  }

  lemma HandleKeepsQueue(s: State, t: State, cap: nat)
    requires Inv(s, cap) && s.flight != [] && Sized(t) && t.prod == s.prod && t.released == s.released
    requires t.flight == s.flight[1..] && Handled(s, t, s.flight[0])
    ensures Bounded(t, cap) && Routed(t)
  {
    assert s.flight == [s.flight[0]] + t.flight;
  }

  lemma PublishKeepsInv(s: State, cap: nat)
    requires Inv(s, cap) && Enabled(s, cap, Publish)
    ensures Inv(Apply(s, cap, Publish), cap)
  {
  }

  lemma {:induction false} ProducerKeepsInv(s: State, cap: nat, step: Step)
    requires Inv(s, cap) && Enabled(s, cap, step)
    requires step.Begin? || step.Ask? || step.Take? || step.Leave? || step.Cancel? || step.Shed?
    ensures Inv(Apply(s, cap, step), cap)
  {
  }

  lemma {:induction false} QueueingKeepsInv(s: State, cap: nat, step: Step)
    requires Inv(s, cap) && Enabled(s, cap, step) && (step.Push? || step.Finish? || step.Interrupt?)
    ensures Inv(Apply(s, cap, step), cap)
  {
    var i := step.i;
    var m := if step.Push? then Arrive(i, s.prod[i].frame) else if step.Finish? then End(i) else Break(Some(i));
    var t := Apply(s, cap, step);
    assert t.flight == s.flight + [m];
    forall k | 0 <= k < |s.prod|
      ensures Frames(t.flight, k) == Frames(s.flight, k) + if m.Arrive? && k == i then 1 else 0
    {
      FramesAppend(s.flight, m, k);
    }
    assert forall x :: x in s.flight ==> x in t.flight;
  }

  lemma StepKeepsInv(s: State, cap: nat, step: Step)
    requires Inv(s, cap) && Enabled(s, cap, step)
    ensures Inv(Apply(s, cap, step), cap)
  {
    match step
    case Handle => HandleKeepsInv(s, cap);
    case Publish => PublishKeepsInv(s, cap);
    case Push(_) => QueueingKeepsInv(s, cap, step);
    case Finish(_) => QueueingKeepsInv(s, cap, step);
    case Interrupt(_) => QueueingKeepsInv(s, cap, step);
    case Wake =>
    case Release =>
    case _ => ProducerKeepsInv(s, cap, step);
  }

  /** s is reached from a fresh join by these steps, each enabled when taken. */
  ghost predicate Reaches(byPts: bool, arms: nat, cap: nat, steps: seq<Step>, s: State) {
    if steps == [] then s == Start(byPts, arms) else
      exists t :: Reaches(byPts, arms, cap, steps[..|steps|-1], t) && Sized(t)
                  && Enabled(t, cap, steps[|steps|-1]) && s == Apply(t, cap, steps[|steps|-1])
  }

  lemma {:induction false} ReachableInv(byPts: bool, arms: nat, cap: nat, steps: seq<Step>, s: State)
    requires Reaches(byPts, arms, cap, steps, s)
    ensures Inv(s, cap)
  {
    if steps == [] {
      StartInv(byPts, arms, cap);
    } else {
      var early, step := steps[..|steps|-1], steps[|steps|-1];
      var t :| Reaches(byPts, arms, cap, early, t) && Sized(t) && Enabled(t, cap, step) && s == Apply(t, cap, step);
      ReachableInv(byPts, arms, cap, early, t);
      StepKeepsInv(t, cap, step);
    }
  }

  // ---------------------------------------------------------------------
  // Main results
  // ---------------------------------------------------------------------

  /** In every interleaving: a producer waiting below the lead is not forgotten, and no arm outgrows the bound. */
  lemma AdmissionSafe(byPts: bool, arms: nat, cap: nat, steps: seq<Step>, s: State, i: nat)
    requires Reaches(byPts, arms, cap, steps, s) && i < |s.prod|
    ensures Sized(s)
    ensures s.prod[i].Waiting? && s.depth[i] < LEAD ==> s.token[i] || s.stage == Waking(i) || s.released
    ensures !s.released ==> |s.join.q[i]| <= LEAD - 1 + (cap + 2)
  {
    ReachableInv(byPts, arms, cap, steps, s);
  }

  /** Arm i is held back: its producer would wait. */
  predicate Held(s: State, i: nat)
    requires Sized(s) && i < |s.depth|
  {
    s.depth[i] >= LEAD && !s.released
  }

  /** A step of arm k or of the stage is enabled, or arm k's producer owes the next frame. */
  ghost predicate ArmCanMove(s: State, cap: nat, k: nat)
    requires Sized(s) && k < |s.prod|
  {
    || s.prod[k].Free?
    || (s.prod[k].Asking? && Enabled(s, cap, Ask(k)) && s.depth[k] < LEAD)
    || (s.prod[k].Waiting? && Enabled(s, cap, Take(k)))
    || (s.prod[k].Admitted? && (Enabled(s, cap, Push(k)) || Enabled(s, cap, Handle)))
    || (s.prod[k].Done? && Enabled(s, cap, Handle))
  }

  /**
   * No deadlock: between Handles, whenever some arm is held, another arm has
   * not ended, has an empty queue, is not held, and can move.
   */
  lemma HeldArmHasAStarvedSibling(byPts: bool, arms: nat, cap: nat, steps: seq<Step>, s: State, i: nat) returns (k: nat)
    requires cap > 0 && Reaches(byPts, arms, cap, steps, s)
    requires Sized(s) && s.stage.Idle? && i < |s.depth| && Held(s, i)
    ensures k != i && k < |s.depth| && s.join.q[k] == [] && !s.join.eos[k] && !Held(s, k)
    ensures ArmCanMove(s, cap, k)
  {
    ReachableInv(byPts, arms, cap, steps, s);
    assert s.join.q[i] != [];
    k :| 0 <= k < |s.join.q| && s.join.q[k] == [] && !s.join.eos[k];
  }
}
