/**
 * The commit verdict read off the run: for every interleaving, which
 * destinations commit, told from the steps taken alone.
 */
module LifecycleHistory {
  import opened Lifecycle

  // ---------------------------------------------------------------------
  // What has happened in a run
  // ---------------------------------------------------------------------

  predicate Ended(steps: seq<Step>) {
    RunEnd(false) in steps || RunEnd(true) in steps
  }

  /** A Close started before Run ended. */
  predicate ClosedEarly(steps: seq<Step>) {
    exists k :: 0 <= k < |steps| && steps[k] == CloseStart && !Ended(steps[..k])
  }

  /** A write, a sink handler or the muxer's close failed. */
  predicate Faulted(steps: seq<Step>, sink: bool, tx: Tx) {
    HandlerFault(tx) in steps || (!sink && Flush(tx, true) in steps)
  }

  /** The destination's failure domain, or the graph it is bound to, recorded an error. */
  predicate Poisoned(s0: State, steps: seq<Step>, bound: bool, tx: Tx) {
    DomainFault(tx) in steps || ((bound || Bind(tx) in steps) && (s0.graphErr || GraphFault in steps))
  }

  /** Step b registers the attachment that brings the destination. */
  predicate Registers(steps: seq<Step>, b: nat, tx: Tx) {
    b < |steps| && steps[b].Begin? && tx in steps[b].txs && CloseStart !in steps[..b]
  }

  /** The attachment registered at step b is still the task's when step j is taken. */
  predicate Held(steps: seq<Step>, b: nat, j: nat)
    requires b < |steps| && steps[b].Begin? && j <= |steps|
  {
    b < j && EndAttachment(steps[b].a) !in steps[b+1..j]
  }

  predicate DrainAsked(steps: seq<Step>, b: nat, j: nat)
    requires b < j <= |steps| && steps[b].Begin?
  {
    SetDisposition(steps[b].a, Drain) in steps[b+1..j]
  }

  /** Step j fails what step b registered. */
  predicate FailsAt(steps: seq<Step>, b: nat, j: nat)
    requires b < |steps| && steps[b].Begin? && j < |steps|
  {
    if j == b then RunEnd(true) in steps[..b]
    else
      && Held(steps, b, j)
      && match steps[j] {
           case RunEnd(err) => err
           case CloseStart => CloseStart !in steps[..j] && (!Ended(steps[..j]) || DrainAsked(steps, b, j))
           case SetDisposition(a, d) => a == steps[b].a && (d == Abort || (d == Drain && CloseStart in steps[..j]))
           case _ => false
         }
  }

  /** Step j declares what step b registered a success. */
  predicate SucceedsAt(steps: seq<Step>, b: nat, j: nat)
    requires b < |steps| && steps[b].Begin? && j < |steps|
  {
    if j == b then RunEnd(false) in steps[..b]
    else
      && Held(steps, b, j)
      && (steps[j] == RunEnd(false) || (steps[j] == SetDisposition(steps[b].a, Drain) && CloseStart !in steps[..j]))
  }

  predicate Failed(steps: seq<Step>, b: nat)
    requires b < |steps| && steps[b].Begin?
  {
    exists j :: b <= j < |steps| && FailsAt(steps, b, j)
  }

  predicate Succeeded(steps: seq<Step>, b: nat)
    requires b < |steps| && steps[b].Begin?
  {
    exists j :: b <= j < |steps| && SucceedsAt(steps, b, j)
  }

  // ---------------------------------------------------------------------
  // What one step does to one destination
  // ---------------------------------------------------------------------

  ghost predicate FailsIn(s: State, step: Step, tx: Tx)
    requires Enabled(s, step) && tx in s.ledger
  {
    match step
    case RunEnd(err) => err && (tx in s.roots || tx in Owned(s.active))
    case CloseStart =>
      && !s.closeStarted
      && if s.finished then tx in Draining(s.active) else tx in s.roots || tx in Owned(s.active)
    case SetDisposition(a, d) => tx in s.active[a].txs && (d == Abort || (d == Drain && s.closeStarted))
    case HandlerFault(t) => t == tx
    case Flush(t, err) => t == tx && err && !s.ledger[tx].sink
    case _ => false
  }

  ghost predicate SucceedsIn(s: State, step: Step, tx: Tx)
    requires Enabled(s, step) && tx in s.ledger
  {
    match step
    case RunEnd(err) => !err && (tx in s.roots || tx in Owned(s.active))
    case SetDisposition(a, d) => tx in s.active[a].txs && d == Drain && !s.closeStarted
    case _ => false
  }

  /** A muxer marked failed has its ledger marked, also when the mark has been read already. */
  predicate Consistent(d: Dest) {
    (d.muxFailed ==> d.failed) && (d.phase.Loaded? && d.phase.sawFailed ==> d.failed)
  }

  ghost predicate Effect(s: State, step: Step, tx: Tx, d: Dest)
    requires Enabled(s, step) && tx in s.ledger
  {
    var c := s.ledger[tx];
    && d.sink == c.sink && d.requireSuccess == c.requireSuccess
    && d.failed == (c.failed || FailsIn(s, step, tx)) && d.succeeded == (c.succeeded || SucceedsIn(s, step, tx))
    && d.bound == (c.bound || step == Bind(tx)) && d.domainFailed == (c.domainFailed || step == DomainFault(tx))
    && (Consistent(c) ==> Consistent(d))
  }

  ghost predicate HasEffect(s: State, step: Step, tx: Tx)
    requires Enabled(s, step) && tx in s.ledger
  {
    tx in Apply(s, step).ledger && Effect(s, step, tx, Apply(s, step).ledger[tx])
  }

  lemma RunEndDest(s: State, err: bool, tx: Tx)
    requires Enabled(s, RunEnd(err)) && tx in s.ledger
    ensures var c, owned := s.ledger[tx], tx in s.roots || tx in Owned(s.active);
      Apply(s, RunEnd(err)).ledger[tx] == if !owned then c else if err then c.(failed := true) else c.(succeeded := true)
  {
  }

  lemma RunEndEffect(s: State, err: bool, tx: Tx)
    requires Enabled(s, RunEnd(err)) && tx in s.ledger
    ensures HasEffect(s, RunEnd(err), tx)
  {
    RunEndDest(s, err, tx);
  }

  lemma CloseDest(s: State, tx: Tx)
    requires tx in s.ledger
    ensures var c, d := s.ledger[tx], Apply(s, CloseStart).ledger[tx];
      if FailsIn(s, CloseStart, tx) then d == c.(failed := true) || d == c.(failed := true, muxFailed := true) else d == c
  {
  }

  lemma CloseEffect(s: State, tx: Tx)
    requires tx in s.ledger
    ensures HasEffect(s, CloseStart, tx)
  {
    CloseDest(s, tx);
  }

  lemma BeginEffect(s: State, a: Att, txs: map<Tx, bool>, tx: Tx)
    requires Enabled(s, Begin(a, txs)) && tx in s.ledger
    ensures HasEffect(s, Begin(a, txs), tx)
  {
    assert tx !in txs.Keys;
  }

  lemma DispositionDest(s: State, a: Att, disposition: Disposition, tx: Tx)
    requires a in s.active && tx in s.ledger
    ensures var c, step := s.ledger[tx], SetDisposition(a, disposition); var d := Apply(s, step).ledger[tx];
      if FailsIn(s, step, tx) then d == c.(failed := true, muxFailed := true)
      else if SucceedsIn(s, step, tx) then d == c.(succeeded := true) else d == c
  {
  }

  lemma DispositionEffect(s: State, a: Att, disposition: Disposition, tx: Tx)
    requires a in s.active && tx in s.ledger
    ensures HasEffect(s, SetDisposition(a, disposition), tx)
  {
    DispositionDest(s, a, disposition, tx);
  }

  lemma FaultEffect(s: State, step: Step, tx: Tx)
    requires Enabled(s, step) && tx in s.ledger
    requires step.Bind? || step.GraphFault? || step.DomainFault? || step.HandlerFault?
    ensures HasEffect(s, step, tx)
  {
  }

  lemma FlushEffect(s: State, t: Tx, err: bool, tx: Tx)
    requires Enabled(s, Flush(t, err)) && tx in s.ledger
    ensures HasEffect(s, Flush(t, err), tx)
  {
  }

  lemma FinalizerEffect(s: State, step: Step, tx: Tx)
    requires Enabled(s, step) && tx in s.ledger && (step.Load? || step.Decide? || step.Settle?)
    ensures HasEffect(s, step, tx)
  {
  }

  lemma StepEffect(s: State, step: Step, tx: Tx)
    requires Enabled(s, step) && tx in s.ledger
    ensures HasEffect(s, step, tx)
  {
    match step
    case RunBegin =>
    case EndAttachment(_) =>
    case RunEnd(err) => RunEndEffect(s, err, tx);
    case CloseStart => CloseEffect(s, tx);
    case Begin(a, txs) => BeginEffect(s, a, txs, tx);
    case SetDisposition(a, d) => DispositionEffect(s, a, d, tx);
    case Bind(_) => FaultEffect(s, step, tx);
    case GraphFault => FaultEffect(s, step, tx);
    case DomainFault(_) => FaultEffect(s, step, tx);
    case HandlerFault(_) => FaultEffect(s, step, tx);
    case Flush(t, err) => FlushEffect(s, t, err, tx);
    case _ => FinalizerEffect(s, step, tx);
  }

  /** The last step of a run. */
  lemma {:induction false} LastStep(s0: State, steps: seq<Step>, t: State) returns (u: State)
    requires Reaches(s0, steps, t) && steps != []
    ensures Reaches(s0, steps[..|steps|-1], u) && Enabled(u, steps[|steps|-1]) && t == Apply(u, steps[|steps|-1])
    decreases |steps|
  {
    if |steps| == 1 {
      u := s0;
      assert steps[..0] == [];
    } else {
      u := LastStep(Apply(s0, steps[0]), steps[1..], t);
      assert steps[1..][..|steps|-2] == steps[..|steps|-1][1..];
    }
  }

  // ---------------------------------------------------------------------
  // The task's own flags
  // ---------------------------------------------------------------------

  predicate Tracks(s0: State, steps: seq<Step>, s: State) {
    && s.roots == s0.roots
    && s.closeStarted == (CloseStart in steps) && s.finished == Ended(steps)
    && (RunEnd(true) in steps ==> s.runErr) && (RunEnd(false) in steps ==> !s.runErr)
    && s.graphErr == (s0.graphErr || GraphFault in steps)
  }

  lemma TracksStep(s0: State, steps: seq<Step>, s: State, step: Step)
    requires Tracks(s0, steps, s) && Enabled(s, step)
    ensures Tracks(s0, steps + [step], Apply(s, step))
  {
  }

  lemma {:induction false} TracksRun(s0: State, steps: seq<Step>, s: State)
    requires Built(s0) && Reaches(s0, steps, s)
    ensures Tracks(s0, steps, s)
    decreases |steps|
  {
    if steps != [] {
      var u := LastStep(s0, steps, s);
      var before, step := steps[..|steps|-1], steps[|steps|-1];
      TracksRun(s0, before, u);
      TracksStep(s0, before, u, step);
      assert steps == before + [step];
    }
  }

  // ---------------------------------------------------------------------
  // Root destinations
  // ---------------------------------------------------------------------

  /** No failure has been recorded yet. */
  predicate Unmarked(d: Dest) {
    !d.failed && !d.muxFailed && !d.domainFailed
  }

  predicate RootTracks(s0: State, steps: seq<Step>, s: State, tx: Tx)
    requires tx in s0.ledger
  {
    && tx in s.ledger
    && var d0, d := s0.ledger[tx], s.ledger[tx];
       && d.sink == d0.sink && d.requireSuccess && Consistent(d)
       && d.bound == (d0.bound || Bind(tx) in steps) && d.domainFailed == (DomainFault(tx) in steps)
       && d.succeeded == (RunEnd(false) in steps)
       && d.failed == (Faulted(steps, d0.sink, tx) || RunEnd(true) in steps || ClosedEarly(steps))
  }

  lemma ClosedEarlyGrows(steps: seq<Step>, step: Step)
    ensures ClosedEarly(steps + [step]) <==> ClosedEarly(steps) || (step == CloseStart && !Ended(steps))
  {
    var all := steps + [step];
    forall k | 0 <= k <= |steps|
      ensures all[..k] == steps[..k]
    {
    }
    assert steps[..|steps|] == steps;
    if ClosedEarly(steps) {
      var k :| 0 <= k < |steps| && steps[k] == CloseStart && !Ended(steps[..k]);
      assert all[k] == CloseStart && !Ended(all[..k]);
    }
    if step == CloseStart && !Ended(steps) {
      assert all[|steps|] == CloseStart && !Ended(all[..|steps|]);
    }
  }

  /** A second Close comes too late to be the early one. */
  lemma SecondClose(steps: seq<Step>)
    requires CloseStart in steps && !Ended(steps)
    ensures ClosedEarly(steps)
  {
    var k :| 0 <= k < |steps| && steps[k] == CloseStart;
    assert forall x :: x in steps[..k] ==> x in steps;
  }

  lemma RootStep(s0: State, steps: seq<Step>, s: State, step: Step, tx: Tx)
    requires Tracks(s0, steps, s) && WellFormed(s) && tx in s0.roots && tx in s0.ledger
    requires RootTracks(s0, steps, s, tx) && Enabled(s, step)
    ensures RootTracks(s0, steps + [step], Apply(s, step), tx)
  {
    StepEffect(s, step, tx);
    ClosedEarlyGrows(steps, step);
    if CloseStart in steps && !Ended(steps) {
      SecondClose(steps);
    }
  }

  lemma {:induction false} RootRun(s0: State, steps: seq<Step>, s: State, tx: Tx)
    requires Built(s0) && Reaches(s0, steps, s) && tx in s0.roots && Unmarked(s0.ledger[tx])
    ensures RootTracks(s0, steps, s, tx)
    decreases |steps|
  {
    if steps != [] {
      var u := LastStep(s0, steps, s);
      var before, step := steps[..|steps|-1], steps[|steps|-1];
      BuiltInv(s0);
      RunInv(s0, before, u);
      TracksRun(s0, before, u);
      RootRun(s0, before, u, tx);
      RootStep(s0, before, u, step, tx);
      assert steps == before + [step];
    }
  }

  /** Run ended without error, with no Close before that and nothing against this destination. */
  predicate RootCommits(s0: State, steps: seq<Step>, tx: Tx)
    requires tx in s0.ledger
  {
    && RunEnd(false) in steps && !ClosedEarly(steps)
    && !Faulted(steps, s0.ledger[tx].sink, tx) && !Poisoned(s0, steps, s0.ledger[tx].bound, tx)
  }

  /** What the finalizer's last two steps record when the writer does not fail. */
  ghost predicate Verdict(s: State, tx: Tx, commit: bool)
    requires Enabled(s, Decide(tx))
  {
    var t := Apply(s, Decide(tx));
    && tx in t.ledger && t.ledger[tx].phase == Decided(commit)
    && Apply(t, Settle(tx, false)).ledger[tx].phase == Settled(commit)
  }

  lemma VerdictIs(s: State, tx: Tx)
    requires Enabled(s, Decide(tx))
    ensures Verdict(s, tx, Commits(s.ledger[tx], s.graphErr))
  {
  }

  lemma RootVerdict(s0: State, steps: seq<Step>, s: State, tx: Tx)
    requires Tracks(s0, steps, s) && tx in s0.ledger && RootTracks(s0, steps, s, tx) && s.ledger[tx].phase.Loaded?
    ensures Commits(s.ledger[tx], s.graphErr) == RootCommits(s0, steps, tx)
  {
  }

  /**
   * In every interleaving, the verdict on a root destination is to commit exactly when Run had ended
   * without error by then, no Close started before that, and nothing had failed the destination.
   */
  lemma RootCommitsIff(s0: State, steps: seq<Step>, s: State, tx: Tx)
    requires Built(s0) && Reaches(s0, steps, s) && tx in s0.roots && Unmarked(s0.ledger[tx])
    requires Enabled(s, Decide(tx))
    ensures Verdict(s, tx, RootCommits(s0, steps, tx))
  {
    TracksRun(s0, steps, s);
    RootRun(s0, steps, s, tx);
    RootVerdict(s0, steps, s, tx);
    VerdictIs(s, tx);
  }

  // ---------------------------------------------------------------------
  // Destinations of attachments
  // ---------------------------------------------------------------------

  /** The task owns the destination exactly as long as the attachment is held. */
  ghost predicate HoldTracks(steps: seq<Step>, s: State, b: nat, tx: Tx)
    requires Registers(steps, b, tx)
  {
    var a, held := steps[b].a, Held(steps, b, |steps|);
    && (forall x :: x in s.active ==> (tx in s.active[x].txs <==> x == a && held))
    && (held ==> a in s.active && (s.active[a].draining <==> DrainAsked(steps, b, |steps|)))
  }

  predicate AttachedTracks(steps: seq<Step>, s: State, b: nat, tx: Tx)
    requires Registers(steps, b, tx)
  {
    && tx in s.ledger && tx !in s.roots
    && var d := s.ledger[tx];
       && d.sink == steps[b].txs[tx] && !d.requireSuccess && Consistent(d)
       && d.bound == (Bind(tx) in steps) && d.domainFailed == (DomainFault(tx) in steps)
       && d.succeeded == Succeeded(steps, b) && d.failed == (Faulted(steps, d.sink, tx) || Failed(steps, b))
  }

  /** Nothing happens to a destination before it is registered. */
  predicate Unseen(steps: seq<Step>, tx: Tx) {
    Bind(tx) !in steps && DomainFault(tx) !in steps && HandlerFault(tx) !in steps && Flush(tx, true) !in steps
  }

  lemma {:induction false} UnseenBefore(s0: State, steps: seq<Step>, s: State, tx: Tx)
    requires Reaches(s0, steps, s) && tx !in s.ledger
    ensures Unseen(steps, tx)
    decreases |steps|
  {
    if steps != [] {
      var u := LastStep(s0, steps, s);
      var before, step := steps[..|steps|-1], steps[|steps|-1];
      if tx in u.ledger {
        StepEffect(u, step, tx);
      }
      UnseenBefore(s0, before, u, tx);
      assert steps == before + [step];
    }
  }

  lemma HeldGrows(steps: seq<Step>, step: Step, b: nat)
    requires b < |steps| && steps[b].Begin?
    ensures var all, a := steps + [step], steps[b].a;
      && (Held(all, b, |all|) <==> Held(steps, b, |steps|) && step != EndAttachment(a))
      && (DrainAsked(all, b, |all|) <==> DrainAsked(steps, b, |steps|) || step == SetDisposition(a, Drain))
  {
    assert (steps + [step])[b+1..] == steps[b+1..] + [step];
    assert steps[b+1..|steps|] == steps[b+1..] && (steps + [step])[b+1..|steps|+1] == (steps + [step])[b+1..];
  }

  lemma EarlierAlike(steps: seq<Step>, step: Step, b: nat, j: nat)
    requires b <= j < |steps| && steps[b].Begin?
    ensures FailsAt(steps + [step], b, j) == FailsAt(steps, b, j)
    ensures SucceedsAt(steps + [step], b, j) == SucceedsAt(steps, b, j)
  {
    var all := steps + [step];
    assert all[..j] == steps[..j] && all[b] == steps[b] && all[j] == steps[j];
    if b < j {
      assert all[b+1..j] == steps[b+1..j];
    }
  }

  lemma OutcomeGrows(steps: seq<Step>, step: Step, b: nat)
    requires b < |steps| && steps[b].Begin?
    ensures var all, n := steps + [step], |steps|;
      && (Failed(all, b) <==> Failed(steps, b) || FailsAt(all, b, n))
      && (Succeeded(all, b) <==> Succeeded(steps, b) || SucceedsAt(all, b, n))
  {
    forall j | b <= j < |steps|
      ensures FailsAt(steps + [step], b, j) == FailsAt(steps, b, j)
      ensures SucceedsAt(steps + [step], b, j) == SucceedsAt(steps, b, j)
    {
      EarlierAlike(steps, step, b, j);
    }
    if Failed(steps, b) {
      var j :| b <= j < |steps| && FailsAt(steps, b, j);
      assert FailsAt(steps + [step], b, j);
    }
    if Succeeded(steps, b) {
      var j :| b <= j < |steps| && SucceedsAt(steps, b, j);
      assert SucceedsAt(steps + [step], b, j);
    }
  }

  lemma OwnedIffHeld(steps: seq<Step>, s: State, b: nat, tx: Tx)
    requires Registers(steps, b, tx) && HoldTracks(steps, s, b, tx)
    ensures tx in Owned(s.active) <==> Held(steps, b, |steps|)
    ensures tx in Draining(s.active) <==> Held(steps, b, |steps|) && DrainAsked(steps, b, |steps|)
  {
    if Held(steps, b, |steps|) {
      assert steps[b].a in s.active && tx in s.active[steps[b].a].txs;
    }
  }

  lemma HoldStep(steps: seq<Step>, s: State, step: Step, b: nat, tx: Tx)
    requires Registers(steps, b, tx) && HoldTracks(steps, s, b, tx) && tx in s.ledger && Enabled(s, step)
    ensures Registers(steps + [step], b, tx) && HoldTracks(steps + [step], Apply(s, step), b, tx)
  {
    HeldGrows(steps, step, b);
    assert (steps + [step])[..b] == steps[..b];
  }

  /** What the step does to the destination, told from the steps. */
  lemma OutcomeStep(s0: State, steps: seq<Step>, s: State, step: Step, b: nat, tx: Tx)
    requires Registers(steps, b, tx) && Tracks(s0, steps, s) && HoldTracks(steps, s, b, tx)
    requires tx in s.ledger && tx !in s.roots && Enabled(s, step)
    ensures FailsIn(s, step, tx) <==>
            FailsAt(steps + [step], b, |steps|) || step == HandlerFault(tx) || (step == Flush(tx, true) && !s.ledger[tx].sink)
    ensures SucceedsIn(s, step, tx) <==> SucceedsAt(steps + [step], b, |steps|)
  {
    var all := steps + [step];
    OwnedIffHeld(steps, s, b, tx);
    assert all[..|steps|] == steps && all[b+1..|steps|] == steps[b+1..|steps|];
    assert Held(all, b, |steps|) == Held(steps, b, |steps|);
    assert DrainAsked(all, b, |steps|) == DrainAsked(steps, b, |steps|);
  }

  lemma AttachedStep(s0: State, steps: seq<Step>, s: State, step: Step, b: nat, tx: Tx)
    requires Registers(steps, b, tx) && Tracks(s0, steps, s) && HoldTracks(steps, s, b, tx)
    requires AttachedTracks(steps, s, b, tx) && Enabled(s, step)
    ensures Registers(steps + [step], b, tx) && AttachedTracks(steps + [step], Apply(s, step), b, tx)
  {
    StepEffect(s, step, tx);
    OutcomeStep(s0, steps, s, step, b, tx);
    OutcomeGrows(steps, step, b);
    assert (steps + [step])[..b] == steps[..b];
  }

  lemma RegisteredOutcome(before: seq<Step>, a: Att, txs: map<Tx, bool>)
    ensures var all, b := before + [Begin(a, txs)], |before|;
      && (Failed(all, b) <==> RunEnd(true) in before) && (Succeeded(all, b) <==> RunEnd(false) in before)
      && Held(all, b, |all|) && !DrainAsked(all, b, |all|)
  {
    var all, b := before + [Begin(a, txs)], |before|;
    assert all[..b] == before && all[b+1..|all|] == [];
    assert FailsAt(all, b, b) <==> RunEnd(true) in before;
    assert SucceedsAt(all, b, b) <==> RunEnd(false) in before;
  }

  lemma RegisteredDest(s: State, a: Att, txs: map<Tx, bool>, tx: Tx)
    requires Enabled(s, Begin(a, txs)) && tx in txs && !s.closeStarted
    ensures tx !in s.ledger && tx in Apply(s, Begin(a, txs)).ledger
    ensures var d := NewDest(txs[tx]);
      Apply(s, Begin(a, txs)).ledger[tx] ==
      if !s.finished then d else if s.runErr then d.(failed := true) else d.(succeeded := true)
  {
    assert tx in txs.Keys && tx !in s.ledger.Keys;
  }

  lemma RegisteredTracks(s0: State, before: seq<Step>, s: State, a: Att, txs: map<Tx, bool>, tx: Tx)
    requires Reaches(s0, before, s) && Tracks(s0, before, s) && WellFormed(s) && Enabled(s, Begin(a, txs))
    requires tx in txs && CloseStart !in before
    ensures var all, t := before + [Begin(a, txs)], Apply(s, Begin(a, txs));
      Registers(all, |before|, tx) && HoldTracks(all, t, |before|, tx) && AttachedTracks(all, t, |before|, tx)
  {
    var all := before + [Begin(a, txs)];
    RegisteredDest(s, a, txs, tx);
    UnseenBefore(s0, before, s, tx);
    RegisteredOutcome(before, a, txs);
    assert all[..|before|] == before;
  }

  lemma {:induction false} AttachedRun(s0: State, steps: seq<Step>, s: State, b: nat, tx: Tx)
    requires Built(s0) && Reaches(s0, steps, s) && Registers(steps, b, tx)
    ensures HoldTracks(steps, s, b, tx) && AttachedTracks(steps, s, b, tx)
    decreases |steps|
  {
    var u := LastStep(s0, steps, s);
    var before, step := steps[..|steps|-1], steps[|steps|-1];
    TracksRun(s0, before, u);
    assert steps == before + [step];
    if b == |before| {
      BuiltInv(s0);
      RunInv(s0, before, u);
      RegisteredTracks(s0, before, u, step.a, step.txs, tx);
    } else {
      assert before[..b] == steps[..b];
      AttachedRun(s0, before, u, b, tx);
      HoldStep(before, u, step, b, tx);
      AttachedStep(s0, before, u, step, b, tx);
    }
  }

  /** No step failed what step b registered, one declared it a success if it is a sink, and nothing spoke against it. */
  predicate AttachedCommits(s0: State, steps: seq<Step>, b: nat, tx: Tx)
    requires Registers(steps, b, tx)
  {
    var sink := steps[b].txs[tx];
    && !Failed(steps, b) && (sink ==> Succeeded(steps, b))
    && !Faulted(steps, sink, tx) && !Poisoned(s0, steps, false, tx)
  }

  lemma AttachedVerdict(s0: State, steps: seq<Step>, s: State, b: nat, tx: Tx)
    requires Registers(steps, b, tx) && Tracks(s0, steps, s) && AttachedTracks(steps, s, b, tx) && s.ledger[tx].phase.Loaded?
    ensures Commits(s.ledger[tx], s.graphErr) == AttachedCommits(s0, steps, b, tx)
  {
  }

  /** In every interleaving, the verdict on an attachment's destination is exactly what the steps so far call for. */
  lemma AttachedCommitsIff(s0: State, steps: seq<Step>, s: State, b: nat, tx: Tx)
    requires Built(s0) && Reaches(s0, steps, s) && Registers(steps, b, tx) && Enabled(s, Decide(tx))
    ensures Verdict(s, tx, AttachedCommits(s0, steps, b, tx))
  {
    TracksRun(s0, steps, s);
    AttachedRun(s0, steps, s, b, tx);
    AttachedVerdict(s0, steps, s, b, tx);
    VerdictIs(s, tx);
  }

  /** The attachment was only ever detached, never drained or aborted. */
  predicate LeftAlone(steps: seq<Step>, b: nat)
    requires b < |steps| && steps[b].Begin?
  {
    SetDisposition(steps[b].a, Drain) !in steps[b+1..] && SetDisposition(steps[b].a, Abort) !in steps[b+1..]
  }

  lemma LeftAloneAt(steps: seq<Step>, b: nat, j: nat)
    requires b < j < |steps| && steps[b].Begin? && LeftAlone(steps, b)
    ensures !DrainAsked(steps, b, j)
    ensures steps[j] != SetDisposition(steps[b].a, Drain) && steps[j] != SetDisposition(steps[b].a, Abort)
  {
    assert steps[b+1..][j-(b+1)] == steps[j];
    assert steps[b+1..] == steps[b+1..j] + steps[j..];
  }

  /** A destination left alone fails only with Run, or by a Close that found Run unfinished. */
  lemma LeftAloneFails(steps: seq<Step>, b: nat)
    requires b < |steps| && steps[b].Begin? && LeftAlone(steps, b) && Failed(steps, b)
    ensures RunEnd(true) in steps || ClosedEarly(steps)
  {
    var j :| b <= j < |steps| && FailsAt(steps, b, j);
    if j == b {
      assert forall x :: x in steps[..b] ==> x in steps;
    } else {
      LeftAloneAt(steps, b, j);
    }
  }

  /** An attachment still held when Run ends without error: its destinations commit, unless something spoke against them. */
  lemma HeldThroughRunCommits(s0: State, steps: seq<Step>, s: State, b: nat, k: nat, tx: Tx)
    requires Built(s0) && Reaches(s0, steps, s) && Registers(steps, b, tx) && Enabled(s, Decide(tx))
    requires b < k < |steps| && steps[k] == RunEnd(false) && Held(steps, b, k)
    requires LeftAlone(steps, b) && !ClosedEarly(steps)
    ensures Verdict(s, tx, !Faulted(steps, steps[b].txs[tx], tx) && !Poisoned(s0, steps, false, tx))
  {
    TracksRun(s0, steps, s);
    assert SucceedsAt(steps, b, k);
    if Failed(steps, b) {
      LeftAloneFails(steps, b);
    }
    AttachedCommitsIff(s0, steps, s, b, tx);
  }

  /** An attachment registered after Run ended takes over Run's outcome. */
  lemma LateRegistrationFollowsRun(s0: State, steps: seq<Step>, s: State, b: nat, err: bool, tx: Tx)
    requires Built(s0) && Reaches(s0, steps, s) && Registers(steps, b, tx) && Enabled(s, Decide(tx))
    requires RunEnd(err) in steps[..b] && LeftAlone(steps, b)
    ensures Verdict(s, tx, !err && !Faulted(steps, steps[b].txs[tx], tx) && !Poisoned(s0, steps, false, tx))
  {
    TracksRun(s0, steps, s);
    assert RunEnd(err) in steps;
    assert if err then FailsAt(steps, b, b) else SucceedsAt(steps, b, b);
    if Failed(steps, b) && !err {
      LeftAloneFails(steps, b);
      EndedBefore(steps, b);
    }
    AttachedCommitsIff(s0, steps, s, b, tx);
  }

  lemma EndedBefore(steps: seq<Step>, b: nat)
    requires b < |steps| && Ended(steps[..b]) && CloseStart !in steps[..b]
    ensures !ClosedEarly(steps)
  {
    forall k | 0 <= k < |steps| && steps[k] == CloseStart
      ensures Ended(steps[..k])
    {
      if b <= k {
        assert steps[..k] == steps[..b] + steps[b..k];
      }
    }
  }
}
