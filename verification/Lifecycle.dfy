/**
 * The task lifecycle and the destination commit protocol: the critical
 * sections of Run, Close, Attach and Detach (`runtime.go`,
 * `runtime_attach.go`) and the finalizers' own reads and writes
 * (`mux_destination.go`, `destination_outcome.go`) as atomic steps.
 */
module Lifecycle {

  type Tx = nat
  type Att = nat

  /** How far a destination's finalizer has come. */
  datatype Phase =
    | Live
    | Flushed                     // the muxer or sink is closed
    | Loaded(sawFailed: bool)     // the muxer's failed flag has been read
    | Decided(commit: bool)       // the verdict has been read from the ledger
    | Settled(committed: bool)    // the outcome is recorded

  /** One destination: its transaction ledger, its muxer's failed flag, and its finalizer. */
  datatype Dest = Dest(
    requireSuccess: bool, sink: bool, bound: bool,
    succeeded: bool, failed: bool, muxFailed: bool, domainFailed: bool,
    phase: Phase)

  datatype Attachment = Attachment(txs: set<Tx>, draining: bool)

  datatype Disposition = Detach | Drain | Abort

  datatype State = State(
    roots: set<Tx>,
    ledger: map<Tx, Dest>,
    active: map<Att, Attachment>,
    started: bool, finished: bool, runErr: bool,
    closeStarted: bool, closeAbandoned: bool,
    graphErr: bool)

  datatype Step =
    | RunBegin
    | RunEnd(err: bool)
    | CloseStart
    | Begin(a: Att, txs: map<Tx, bool>)             // beginAttachmentLifecycle: new destinations, and which are sinks
    | SetDisposition(a: Att, disposition: Disposition)
    | EndAttachment(a: Att)
    | Bind(tx: Tx)                                  // the ledger learns to read the graph's run error
    | GraphFault                                    // the graph observes an execution failure
    | DomainFault(tx: Tx)                           // the destination's failure domain rejects a handler error
    | HandlerFault(tx: Tx)                          // a write or sink handler fails
    | Flush(tx: Tx, err: bool)                      // finalizer: close the muxer or sink
    | Load(tx: Tx)                                  // finalizer: read the muxer's failed flag
    | Decide(tx: Tx)                                // finalizer: read the ledger's verdict
    | Settle(tx: Tx, err: bool)                     // finalizer: commit or abort the writer, record the outcome

  // ---------------------------------------------------------------------
  // The ledger
  // ---------------------------------------------------------------------

  predicate LedgerFailed(d: Dest, graphErr: bool) {
    d.failed || d.domainFailed || (d.bound && graphErr)
  }

  /** `ShouldAbort`. */
  predicate ShouldAbort(d: Dest, graphErr: bool) {
    LedgerFailed(d, graphErr) || (d.requireSuccess && !d.succeeded)
  }

  /** The verdict: a muxer commits unless told to abort, a sink only when told it succeeded. */
  predicate Commits(d: Dest, graphErr: bool)
    requires d.phase.Loaded?
  {
    if d.sink then !LedgerFailed(d, graphErr) && d.succeeded
    else !d.phase.sawFailed && !ShouldAbort(d, graphErr)
  }

  /** Nothing recorded so far keeps the destination from committing. */
  predicate Committable(d: Dest, graphErr: bool) {
    if d.sink then !LedgerFailed(d, graphErr) && d.succeeded
    else !d.muxFailed && !ShouldAbort(d, graphErr)
  }

  predicate SaysCommit(d: Dest) {
    d.phase == Decided(true) || d.phase == Settled(true)
  }

  function Marked(d: Dest, ok: bool): Dest {
    if ok then d.(succeeded := true) else d.(failed := true)
  }

  /** Succeed or Fail every transaction in a set. */
  function MarkAll(ledger: map<Tx, Dest>, txs: set<Tx>, ok: bool): (r: map<Tx, Dest>)
    ensures r.Keys == ledger.Keys
  {
    map t | t in ledger :: if t in txs then Marked(ledger[t], ok) else ledger[t]
  }

  function Owned(active: map<Att, Attachment>): set<Tx> {
    set a, t | a in active && t in active[a].txs :: t
  }

  function Draining(active: map<Att, Attachment>): set<Tx> {
    set a, t | a in active && active[a].draining && t in active[a].txs :: t
  }

  // ---------------------------------------------------------------------
  // Steps
  // ---------------------------------------------------------------------

  ghost predicate WellFormed(s: State) {
    && s.roots <= s.ledger.Keys
    && (forall a :: a in s.active ==> s.active[a].txs <= s.ledger.Keys && s.active[a].txs !! s.roots)
  }

  predicate Enabled(s: State, step: Step) {
    match step
    case RunBegin => !s.started
    case RunEnd(_) => s.started && !s.finished
    case CloseStart => true
    case Begin(a, txs) => a !in s.active && txs.Keys !! s.ledger.Keys
    case SetDisposition(a, _) => a in s.active
    case EndAttachment(a) => a in s.active
    case Bind(tx) => tx in s.ledger
    case GraphFault => true
    case DomainFault(tx) => tx in s.ledger
    case HandlerFault(tx) => tx in s.ledger
    case Flush(tx, _) => tx in s.ledger && s.ledger[tx].phase.Live?
    case Load(tx) => tx in s.ledger && s.ledger[tx].phase.Flushed?
    case Decide(tx) => tx in s.ledger && s.ledger[tx].phase.Loaded?
    case Settle(tx, _) => tx in s.ledger && s.ledger[tx].phase.Decided?
  }

  /** A registered attachment's destination as it is first seen. */
  function NewDest(sink: bool): Dest {
    Dest(false, sink, false, false, false, false, false, Live)
  }

  function NewDests(txs: map<Tx, bool>): map<Tx, Dest> {
    map t | t in txs :: NewDest(txs[t])
  }

  /** `applyDetachDisposition` under the lifecycle lock. */
  function Disposed(ledger: map<Tx, Dest>, txs: set<Tx>, disposition: Disposition): (r: map<Tx, Dest>)
    ensures r.Keys == ledger.Keys
  {
    match disposition
    case Drain => MarkAll(ledger, txs, true)
    case Abort => map t | t in ledger :: if t in txs then ledger[t].(failed := true, muxFailed := true) else ledger[t]
    case Detach => ledger
  }

  /** The state with one destination's entry replaced. */
  function Put(s: State, tx: Tx, d: Dest): State {
    s.(ledger := s.ledger[tx := d])
  }

  /** `MarkFailed`; a sink has only its ledger. */
  function Broken(d: Dest): Dest {
    if d.sink then d.(failed := true) else d.(failed := true, muxFailed := true)
  }

  function AfterRun(s: State, err: bool): State {
    s.(ledger := MarkAll(s.ledger, s.roots + Owned(s.active), !err), finished := true, runErr := err)
  }

  /** The first Close decides: everything is abandoned, or only what still drains. */
  function AfterClose(s: State): State {
    var abandoned := !s.finished;
    var roots := if abandoned then MarkAll(s.ledger, s.roots, false) else s.ledger;
    s.(closeStarted := true, closeAbandoned := abandoned,
       ledger := Disposed(roots, if abandoned then Owned(s.active) else Draining(s.active), Abort))
  }

  function AfterBegin(s: State, a: Att, txs: map<Tx, bool>): State {
    var ledger := s.ledger + NewDests(txs);
    s.(active := s.active[a := Attachment(txs.Keys, false)],
       ledger := if s.finished then MarkAll(ledger, txs.Keys, !s.runErr) else ledger)
  }

  /** A drain accepted after Close started is an abort. */
  function AfterDisposition(s: State, a: Att, disposition: Disposition): State
    requires a in s.active
  {
    var drain := disposition == Drain;
    s.(active := if drain then s.active[a := s.active[a].(draining := true)] else s.active,
       ledger := Disposed(s.ledger, s.active[a].txs, if drain && s.closeStarted then Abort else disposition))
  }

  function AfterFlush(d: Dest, err: bool): Dest {
    (if err && !d.sink then Broken(d) else d).(phase := Flushed)
  }

  function Apply(s: State, step: Step): State
    requires Enabled(s, step)
  {
    match step
    case RunBegin => if s.closeStarted then s else s.(started := true)
    case RunEnd(err) => AfterRun(s, err)
    case CloseStart => if s.closeStarted then s else AfterClose(s)
    case Begin(a, txs) => if s.closeStarted then s else AfterBegin(s, a, txs)
    case SetDisposition(a, disposition) => AfterDisposition(s, a, disposition)
    case EndAttachment(a) => s.(active := s.active - {a})
    case Bind(tx) => Put(s, tx, s.ledger[tx].(bound := true))
    case GraphFault => s.(graphErr := true)
    case DomainFault(tx) => Put(s, tx, s.ledger[tx].(domainFailed := true))
    case HandlerFault(tx) => Put(s, tx, Broken(s.ledger[tx]))
    case Flush(tx, err) => Put(s, tx, AfterFlush(s.ledger[tx], err))
    case Load(tx) => Put(s, tx, s.ledger[tx].(phase := Loaded(s.ledger[tx].muxFailed)))
    case Decide(tx) => Put(s, tx, s.ledger[tx].(phase := Decided(Commits(s.ledger[tx], s.graphErr))))
    case Settle(tx, err) => Put(s, tx, s.ledger[tx].(phase := Settled(s.ledger[tx].phase.commit && !err)))
  }

  /** A task as built: live root destinations that need the run to succeed. */
  predicate Built(s: State) {
    && s.roots == s.ledger.Keys && s.active == map[]
    && !s.started && !s.finished && !s.closeStarted && !s.closeAbandoned
    && forall t :: t in s.ledger ==> s.ledger[t].phase.Live? && s.ledger[t].requireSuccess && !s.ledger[t].succeeded
  }

  /** t is reached from s by these steps, each enabled when taken. */
  ghost predicate Reaches(s: State, steps: seq<Step>, t: State)
    decreases |steps|
  {
    if steps == [] then s == t else
      Enabled(s, steps[0]) && Reaches(Apply(s, steps[0]), steps[1..], t)
  }

  // ---------------------------------------------------------------------
  // The invariant
  // ---------------------------------------------------------------------

  /** What a root's ledger says about the run: success was earned, and so is a verdict to commit. */
  predicate Earned(s: State, d: Dest) {
    && (d.sink || d.requireSuccess)
    && (d.succeeded ==> s.finished && !s.runErr)
    && (SaysCommit(d) ==> s.finished && !s.runErr && !s.closeAbandoned)
    && (s.closeAbandoned ==> d.failed)
  }

  /** Destinations of a Close's abandonment, or of a drain it met, have failed. */
  predicate Abandoned(s: State, a: Attachment, d: Dest) {
    s.closeAbandoned || (s.closeStarted && a.draining) ==> d.failed
  }

  ghost predicate Inv(s: State) {
    && WellFormed(s)
    && (s.closeAbandoned ==> s.closeStarted)
    && (forall t :: t in s.roots ==> Earned(s, s.ledger[t]))
    && (forall a, t :: a in s.active && t in s.active[a].txs ==> Abandoned(s, s.active[a], s.ledger[t]))
  }

  lemma BuiltInv(s: State)
    requires Built(s)
    ensures Inv(s)
  {
  }

  lemma FinalizerKeepsInv(s: State, step: Step)
    requires Inv(s) && Enabled(s, step)
    requires step.Bind? || step.GraphFault? || step.DomainFault? || step.HandlerFault? || step.Flush? || step.Load?
          || step.Decide? || step.Settle?
    ensures Inv(Apply(s, step))
  {
  }

  lemma RunKeepsInv(s: State, step: Step)
    requires Inv(s) && Enabled(s, step) && (step.RunBegin? || step.RunEnd? || step.CloseStart?)
    ensures Inv(Apply(s, step))
  {
  }

  lemma AttachKeepsInv(s: State, step: Step)
    requires Inv(s) && Enabled(s, step) && (step.Begin? || step.SetDisposition? || step.EndAttachment?)
    ensures Inv(Apply(s, step))
  {
  }

  lemma StepKeepsInv(s: State, step: Step)
    requires Inv(s) && Enabled(s, step)
    ensures Inv(Apply(s, step))
  {
    match step
    case RunBegin => RunKeepsInv(s, step);
    case RunEnd(_) => RunKeepsInv(s, step);
    case CloseStart => RunKeepsInv(s, step);
    case Begin(_, _) => AttachKeepsInv(s, step);
    case SetDisposition(_, _) => AttachKeepsInv(s, step);
    case EndAttachment(_) => AttachKeepsInv(s, step);
    case _ => FinalizerKeepsInv(s, step);
  }

  lemma {:induction false} RunInv(s: State, steps: seq<Step>, t: State)
    requires Inv(s) && Reaches(s, steps, t)
    ensures Inv(t)
    decreases |steps|
  {
    if steps != [] {
      StepKeepsInv(s, steps[0]);
      RunInv(Apply(s, steps[0]), steps[1..], t);
    }
  }

  // ---------------------------------------------------------------------
  // Main results
  // ---------------------------------------------------------------------

  /**
   * In every interleaving, a root destination says commit only if Run finished
   * without error, and no Close started before it did.
   */
  lemma RootCommitIsEarned(s: State, steps: seq<Step>, t: State, tx: Tx)
    requires Built(s) && Reaches(s, steps, t) && tx in t.roots
    ensures tx in t.ledger
    ensures SaysCommit(t.ledger[tx]) ==> t.finished && !t.runErr && !t.closeAbandoned
  {
    BuiltInv(s);
    RunInv(s, steps, t);
  }

  /** A destination, once failed, keeps its ledger entry, stays failed, and never gains a verdict to commit. */
  lemma {:induction false} FailedNeverCommits(s: State, steps: seq<Step>, t: State, tx: Tx)
    requires Reaches(s, steps, t) && tx in s.ledger && s.ledger[tx].failed
    ensures tx in t.ledger && t.ledger[tx].failed
    ensures SaysCommit(t.ledger[tx]) ==> SaysCommit(s.ledger[tx])
    decreases |steps|
  {
    if steps != [] {
      FailedStays(s, steps[0], tx);
      FailedNeverCommits(Apply(s, steps[0]), steps[1..], t, tx);
    }
  }

  lemma FailedStays(s: State, step: Step, tx: Tx)
    requires Enabled(s, step) && tx in s.ledger && s.ledger[tx].failed
    ensures tx in Apply(s, step).ledger && Apply(s, step).ledger[tx].failed
    ensures SaysCommit(Apply(s, step).ledger[tx]) ==> SaysCommit(s.ledger[tx])
  {
    if step.Begin? || step.SetDisposition? || step.EndAttachment? {
      AttachStepKeepsPhase(s, step, tx);
    } else if step.RunBegin? || step.RunEnd? || step.CloseStart? {
      RunStepKeepsPhase(s, step, tx);
    }
  }

  lemma AttachStepKeepsPhase(s: State, step: Step, tx: Tx)
    requires Enabled(s, step) && tx in s.ledger && (step.Begin? || step.SetDisposition? || step.EndAttachment?)
    ensures tx in Apply(s, step).ledger && Apply(s, step).ledger[tx].phase == s.ledger[tx].phase
    ensures s.ledger[tx].failed ==> Apply(s, step).ledger[tx].failed
  {
  }

  lemma RunStepKeepsPhase(s: State, step: Step, tx: Tx)
    requires Enabled(s, step) && tx in s.ledger && (step.RunBegin? || step.RunEnd? || step.CloseStart?)
    ensures tx in Apply(s, step).ledger && Apply(s, step).ledger[tx].phase == s.ledger[tx].phase
    ensures s.ledger[tx].failed ==> Apply(s, step).ledger[tx].failed
  {
  }

  /**
   * Once a Close that found Run unfinished has taken its decision: no root
   * destination ever says commit, no destination of an attachment registered
   * then gains a verdict to commit, and the same holds of a drain any Close met.
   */
  lemma AbandonmentIsFinal(s0: State, before: seq<Step>, s: State, after: seq<Step>, t: State, a: Att, tx: Tx)
    requires Built(s0) && Reaches(s0, before, s) && Reaches(s, after, t)
    requires s.closeAbandoned || (s.closeStarted && a in s.active && s.active[a].draining)
    requires (tx in s.roots && s.closeAbandoned) || (a in s.active && tx in s.active[a].txs)
    ensures tx in s.ledger && tx in t.ledger && t.ledger[tx].failed
    ensures tx in s.roots ==> !SaysCommit(t.ledger[tx])
    ensures SaysCommit(t.ledger[tx]) ==> SaysCommit(s.ledger[tx])
  {
    BuiltInv(s0);
    RunInv(s0, before, s);
    FailedNeverCommits(s, after, t, tx);
  }

  /** No attachment and no destination registers after any Close started. */
  lemma {:induction false} NothingRegistersAfterClose(s: State, steps: seq<Step>, t: State)
    requires s.closeStarted && Reaches(s, steps, t)
    ensures t.closeStarted && t.closeAbandoned == s.closeAbandoned
    ensures forall a :: a in t.active ==> a in s.active
    ensures forall x :: x in t.ledger <==> x in s.ledger
    decreases |steps|
  {
    if steps != [] {
      ClosedStepRegistersNothing(s, steps[0]);
      NothingRegistersAfterClose(Apply(s, steps[0]), steps[1..], t);
    }
  }

  lemma ClosedStepRegistersNothing(s: State, step: Step)
    requires s.closeStarted && Enabled(s, step)
    ensures Apply(s, step).closeStarted && Apply(s, step).closeAbandoned == s.closeAbandoned
    ensures forall a :: a in Apply(s, step).active ==> a in s.active
    ensures forall t :: t in Apply(s, step).ledger <==> t in s.ledger
  {
    if step.RunBegin? || step.RunEnd? || step.CloseStart? || step.Begin? || step.SetDisposition? || step.EndAttachment? {
      ClosedControlStep(s, step);
    } else {
      ClosedFinalizerStep(s, step);
    }
  }

  lemma ClosedControlStep(s: State, step: Step)
    requires s.closeStarted && Enabled(s, step)
    requires step.RunBegin? || step.RunEnd? || step.CloseStart? || step.Begin? || step.SetDisposition? || step.EndAttachment?
    ensures Apply(s, step).closeStarted && Apply(s, step).closeAbandoned == s.closeAbandoned
    ensures forall a :: a in Apply(s, step).active ==> a in s.active
    ensures forall t :: t in Apply(s, step).ledger <==> t in s.ledger
  {
  }

  lemma ClosedFinalizerStep(s: State, step: Step)
    requires s.closeStarted && Enabled(s, step)
    requires step.Bind? || step.GraphFault? || step.DomainFault? || step.HandlerFault? || step.Flush? || step.Load?
          || step.Decide? || step.Settle?
    ensures Apply(s, step).closeStarted && Apply(s, step).closeAbandoned == s.closeAbandoned
    ensures Apply(s, step).active == s.active
    ensures forall t :: t in Apply(s, step).ledger <==> t in s.ledger
  {
  }

  // ---------------------------------------------------------------------
  // Where the verdict, not the write, is the point of no return
  // ---------------------------------------------------------------------

  /** Some continuation records the destination as committed. */
  ghost predicate CanCommit(s: State, tx: Tx) {
    exists after, t :: Reaches(s, after, t) && tx in t.ledger && t.ledger[tx].phase == Settled(true)
  }

  /** A failed destination can still come to be committed exactly when it already holds a verdict to commit. */
  lemma CommitsIffDecided(s: State, tx: Tx)
    requires tx in s.ledger && s.ledger[tx].failed
    ensures CanCommit(s, tx) <==> SaysCommit(s.ledger[tx])
  {
    if CanCommit(s, tx) {
      var after, t :| Reaches(s, after, t) && tx in t.ledger && t.ledger[tx].phase == Settled(true);
      FailedNeverCommits(s, after, t, tx);
    }
    if s.ledger[tx].phase == Settled(true) {
      assert Reaches(s, [], s);
    } else if s.ledger[tx].phase == Decided(true) {
      OneMore(s, [], s, Settle(tx, false));
      var t := Apply(s, Settle(tx, false));
      assert t.ledger[tx].phase == Settled(true);
    }
  }

  /**
   * After an abandoning Close, or of a drain any Close met: a registered destination can still come to be
   * committed exactly when its finalizer had read its verdict before, and a root never can.
   */
  lemma AfterCloseCommitsIffDecided(s0: State, before: seq<Step>, s: State, a: Att, tx: Tx)
    requires Built(s0) && Reaches(s0, before, s)
    requires s.closeAbandoned || (s.closeStarted && a in s.active && s.active[a].draining)
    requires (tx in s.roots && s.closeAbandoned) || (a in s.active && tx in s.active[a].txs)
    ensures tx in s.ledger && (CanCommit(s, tx) <==> SaysCommit(s.ledger[tx]))
    ensures tx in s.roots ==> !CanCommit(s, tx)
  {
    BuiltInv(s0);
    RunInv(s0, before, s);
    CommitsIffDecided(s, tx);
  }

  /** A drain of attachment 7 whose finalizer reads its verdict just before Close takes its decision. */
  const DRAIN_STARTS: seq<Step> := [RunBegin, Begin(7, map[3 := false]), SetDisposition(7, Drain)]
  const VERDICT_READ: seq<Step> := DRAIN_STARTS + [Flush(3, false)] + [Load(3)] + [Decide(3)]

  lemma OneMore(s: State, steps: seq<Step>, t: State, step: Step)
    requires Reaches(s, steps, t) && Enabled(t, step)
    ensures Reaches(s, steps + [step], Apply(t, step))
    decreases |steps|
  {
    if steps == [] {
      assert Reaches(Apply(s, step), [], Apply(t, step));
    } else {
      OneMore(Apply(s, steps[0]), steps[1..], t, step);
      assert (steps + [step])[1..] == steps[1..] + [step];
    }
  }

  lemma DrainStarts(s0: State) returns (s: State)
    requires Built(s0) && s0.ledger == map[]
    ensures Reaches(s0, DRAIN_STARTS, s) && !s.closeStarted && !s.finished
    ensures s.active == map[7 := Attachment({3}, true)] && s.ledger == map[3 := NewDest(false).(succeeded := true)]
  {
    var s1 := Apply(s0, RunBegin);
    var s2 := Apply(s1, Begin(7, map[3 := false]));
    s := Apply(s2, SetDisposition(7, Drain));
    OneMore(s0, [], s0, RunBegin);
    OneMore(s0, [] + [RunBegin], s1, Begin(7, map[3 := false]));
    OneMore(s0, [] + [RunBegin] + [Begin(7, map[3 := false])], s2, SetDisposition(7, Drain));
    assert map[3 := false].Keys == {3};
    assert s.active == map[7 := Attachment({3}, true)];
    assert s.ledger == map[3 := NewDest(false).(succeeded := true)];
    assert [] + [RunBegin] + [Begin(7, map[3 := false])] + [SetDisposition(7, Drain)] == DRAIN_STARTS;
  }

  lemma DrainReadsCommit(s0: State) returns (s: State)
    requires Built(s0) && s0.ledger == map[]
    ensures Reaches(s0, VERDICT_READ, s) && !s.closeStarted && !s.finished
    ensures 7 in s.active && s.active[7].txs == {3} && 3 in s.ledger && s.ledger[3].phase == Decided(true)
  {
    var s3 := DrainStarts(s0);
    var s4 := Apply(s3, Flush(3, false));
    var s5 := Apply(s4, Load(3));
    OneMore(s0, DRAIN_STARTS, s3, Flush(3, false));
    OneMore(s0, DRAIN_STARTS + [Flush(3, false)], s4, Load(3));
    OneMore(s0, DRAIN_STARTS + [Flush(3, false)] + [Load(3)], s5, Decide(3));
    s := Apply(s5, Decide(3));
  }

  /**
   * An attached destination can be recorded committed after an abandoning
   * Close, because its verdict was read before. By AbandonmentIsFinal that is
   * the only way.
   */
  lemma LateCommitHappens(s0: State) returns (s: State, t: State)
    requires Built(s0) && s0.ledger == map[]
    ensures Reaches(s0, VERDICT_READ + [CloseStart], s) && Reaches(s, [Settle(3, false)], t)
    ensures s.closeAbandoned && 7 in s.active && 3 in s.active[7].txs
    ensures 3 in t.ledger && t.ledger[3].phase == Settled(true)
  {
    var r := DrainReadsCommit(s0);
    OneMore(s0, VERDICT_READ, r, CloseStart);
    s := Apply(r, CloseStart);
    OneMore(s, [], s, Settle(3, false));
    t := Apply(s, Settle(3, false));
  }
}
