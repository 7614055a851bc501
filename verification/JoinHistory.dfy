/**
 * What every join run keeps: no frame is lost, duplicated or reordered within
 * its arm, output time moves forward, and the joined stream ends empty.
 */
module JoinHistory {
  import opened Basics
  import opened TimeBase
  import opened JoinSpec
  import opened Seqs

  // ---------------------------------------------------------------------
  // Conservation, over every sequence of the stage's own actions
  // ---------------------------------------------------------------------

  /**
   * The stage's actions: a message, one step of a drain (a drain cut short by
   * an emit error is a shorter run of them), and the reclaim of `Close`.
   */
  datatype Action = Send(m: Message) | Advance | Reclaim

  /** `recyclePending`: every queue is emptied into the free lists. */
  function GivenBack(j: Join): (r: Join)
    requires j.Valid()
    ensures r.Valid() && |r.q| == |j.q| && r.byPts == j.byPts
  {
    j.(q := seq(|j.q|, _ => []),
       gone := seq(|j.q|, i requires 0 <= i < |j.q| => j.gone[i] + AllReclaimed(j.q[i])))
  }

  function AllReclaimed(s: seq<Frame>): (r: seq<Fate>)
    ensures |r| == |s|
    ensures forall k :: 0 <= k < |s| ==> r[k] == Reclaimed(s[k])
  {
    seq(|s|, k requires 0 <= k < |s| => Reclaimed(s[k]))
  }

  predicate Fits(a: Action, arms: nat) {
    a.Send? ==> ForArms(a.m, arms)
  }

  function Act(j: Join, a: Action): (r: (Join, seq<JoinStep>))
    requires j.Valid() && Fits(a, |j.q|)
    ensures r.0.Valid() && |r.0.q| == |j.q| && r.0.byPts == j.byPts
  {
    match a
    case Send(m) => (Deliver(j, m), [])
    case Advance => var (k, s) := StepOnce(j); (k, if s.Some? then [s.value] else [])
    case Reclaim => (GivenBack(j), [])
  }

  predicate AllFit(acts: seq<Action>, arms: nat) {
    forall k :: 0 <= k < |acts| ==> Fits(acts[k], arms)
  }

  function Perform(j: Join, acts: seq<Action>): (r: (Join, seq<JoinStep>))
    requires j.Valid() && AllFit(acts, |j.q|)
    ensures r.0.Valid() && |r.0.q| == |j.q| && r.0.byPts == j.byPts
  {
    if acts == [] then (j, []) else
      var (k, before) := Perform(j, acts[..|acts|-1]);
      var (l, after) := Act(k, acts[|acts|-1]);
      (l, before + after)
  }

  /** The frames in a list of departures. */
  function Departed(g: seq<Fate>): (r: seq<Frame>)
    ensures |r| == |g|
    ensures forall k :: 0 <= k < |g| ==> r[k] == g[k].frame
  {
    seq(|g|, k requires 0 <= k < |g| => g[k].frame)
  }

  /** Everything arm i was ever given and still accounts for, oldest first. */
  function Account(j: Join, i: nat): seq<Frame>
    requires j.Valid() && i < |j.q|
  {
    Departed(j.gone[i]) + j.q[i]
  }

  function Given(a: Action, i: nat): seq<Frame> {
    if a.Send? && a.m.Arrive? && a.m.arm == i then [a.m.frame] else []
  }

  function AllGiven(acts: seq<Action>, i: nat): seq<Frame> {
    if acts == [] then [] else AllGiven(acts[..|acts|-1], i) + Given(acts[|acts|-1], i)
  }

  lemma DepartureKeepsAccount(g: seq<Fate>, q: seq<Frame>, more: seq<Fate>, k: nat)
    requires k == |more| <= |q| && forall x :: 0 <= x < k ==> more[x].frame == q[x]
    ensures Departed(g + more) + q[k..] == Departed(g) + q
  {
    var a, b := Departed(g + more) + q[k..], Departed(g) + q;
    assert |a| == |b|;
    assert forall x :: 0 <= x < |a| ==> a[x] == b[x];
  }

  lemma {:induction false} AdvanceKeepsAccount(j: Join, i: nat)
    requires j.Valid() && i < |j.q|
    ensures Account(StepOnce(j).0, i) == Account(j, i)
  {
    var d := DropStale(j);
    if j.byPts {
      var n := StalePrefix(j.q[i], j.next);
      DepartureKeepsAccount(j.gone[i], j.q[i], AllDropped(j.q[i][..n]), n);
    }
    if Ready(d) && TakesPart(d, i) {
      DepartureKeepsAccount(d.gone[i], d.q[i], [Played(d.q[i][0])], 1);
    }
  }

  lemma FlushKeepsAccount(j: Join, which: Option<nat>, i: nat)
    requires j.Valid() && i < |j.q|
    ensures Account(Flushed(j, which), i) == Account(j, i)
  {
    DepartureKeepsAccount(j.gone[i], j.q[i], AllDropped(j.q[i]), |j.q[i]|);
  }

  /** One action gives arm i exactly the frame it sent, at the back. */
  lemma {:induction false} ActAccounts(j: Join, a: Action, i: nat)
    requires j.Valid() && Fits(a, |j.q|) && i < |j.q|
    ensures Account(Act(j, a).0, i) == Account(j, i) + Given(a, i)
  {
    match a
    case Send(m) =>
      if m.Break? {
        FlushKeepsAccount(j, m.which, i);
      } else if m.Arrive? && m.arm == i {
        Assoc(Departed(j.gone[i]), j.q[i], [m.frame]);
      }
    case Advance =>
      AdvanceKeepsAccount(j, i);
    case Reclaim =>
      DepartureKeepsAccount(j.gone[i], j.q[i], AllReclaimed(j.q[i]), |j.q[i]|);
  }

  /**
   * Conservation: after any actions, an arm's departures followed by its queue
   * are exactly the frames it was given, in order. So each frame is pending or
   * has exactly one fate: in one step, dropped, or reclaimed.
   */
  lemma {:induction false} Conserved(byPts: bool, arms: nat, acts: seq<Action>, i: nat)
    requires AllFit(acts, arms) && i < arms
    ensures Account(Perform(Init(byPts, arms), acts).0, i) == AllGiven(acts, i)
  {
    if acts != [] {
      var early := acts[..|acts|-1];
      Conserved(byPts, arms, early, i);
      ActAccounts(Perform(Init(byPts, arms), early).0, acts[|acts|-1], i);
    }
  }

  lemma {:induction false} DrainKeepsAccount(j: Join, i: nat)
    requires j.Valid() && i < |j.q|
    ensures Account(Drain(j).0, i) == Account(j, i)
    decreases Pending(j.q)
  {
    StepShrinks(j);
    AdvanceKeepsAccount(j, i);
    if StepOnce(j).1.Some? {
      DrainKeepsAccount(StepOnce(j).0, i);
    }
  }

  /** The same for complete runs of `Handle`, breaks included. */
  lemma {:induction false} RunConserved(byPts: bool, arms: nat, ms: seq<Message>, i: nat)
    requires AllForArms(ms, arms) && i < arms
    ensures Account(Run(Init(byPts, arms), ms).0, i) == FramesOf(ms, i)
  {
    if ms != [] {
      var early, m := ms[..|ms|-1], ms[|ms|-1];
      RunConserved(byPts, arms, early, i);
      var k := Run(Init(byPts, arms), early).0;
      ActAccounts(k, Send(m), i);
      if !m.Break? {
        DrainKeepsAccount(Deliver(k, m), i);
      }
    }
  }

  /** After `Close` reclaims, every frame given to an arm has left its queue, once, in order. */
  lemma {:induction false} ReclaimedAll(byPts: bool, arms: nat, acts: seq<Action>, i: nat)
    requires AllFit(acts, arms) && i < arms
    ensures AllFit(acts + [Reclaim], arms)
    ensures Departed(Perform(Init(byPts, arms), acts + [Reclaim]).0.gone[i]) == AllGiven(acts, i)
  {
    var all := acts + [Reclaim];
    assert all[..|all|-1] == acts;
    Conserved(byPts, arms, all, i);
    var end := Perform(Init(byPts, arms), all).0;
    assert end.q[i] == [];
    assert Departed(end.gone[i]) + [] == Departed(end.gone[i]);
    assert AllGiven(acts, i) + [] == AllGiven(acts, i);
  }

  // ---------------------------------------------------------------------
  // Played is exactly what the steps hold
  // ---------------------------------------------------------------------

  function PlayedOf(g: seq<Fate>): seq<Frame> {
    if g == [] then [] else
      PlayedOf(g[..|g|-1]) + (if g[|g|-1].Played? then [g[|g|-1].frame] else [])
  }

  function InSlot(s: JoinStep, i: nat): seq<Frame> {
    if i < |s.slots| && s.slots[i].Some? then [s.slots[i].value] else []
  }

  function InSlots(steps: seq<JoinStep>, i: nat): seq<Frame> {
    if steps == [] then [] else InSlots(steps[..|steps|-1], i) + InSlot(steps[|steps|-1], i)
  }

  lemma {:induction false} PlayedOfMore(g: seq<Fate>, more: seq<Fate>)
    requires forall k :: 0 <= k < |more| ==> !more[k].Played?
    ensures PlayedOf(g + more) == PlayedOf(g)
  {
    if more == [] {
      assert g + more == g;
    } else {
      PlayedOfMore(g, more[..|more|-1]);
      assert (g + more)[..|g + more|-1] == g + more[..|more|-1];
    }
  }

  lemma {:induction false} PlayedOfOne(g: seq<Fate>, f: Frame)
    ensures PlayedOf(g + [Played(f)]) == PlayedOf(g) + [f]
  {
    assert (g + [Played(f)])[..|g|] == g;
  }

  lemma {:induction false} AdvancePlays(j: Join, i: nat)
    requires j.Valid() && i < |j.q|
    ensures PlayedOf(Act(j, Advance).0.gone[i]) == PlayedOf(j.gone[i]) + InSlots(Act(j, Advance).1, i)
  {
    var d := DropStale(j);
    PlayedOfMore(j.gone[i], AllDropped(j.q[i][..StalePrefix(j.q[i], j.next)]));
    if Ready(d) {
      var step := JoinStep(Slots(d), RefArm(d));
      assert InSlots([step], i) == [] + InSlot(step, i) == InSlot(step, i);
      if TakesPart(d, i) {
        PlayedOfOne(d.gone[i], d.q[i][0]);
      }
    }
  }

  lemma {:induction false} ActPlays(j: Join, a: Action, i: nat)
    requires j.Valid() && Fits(a, |j.q|) && i < |j.q|
    ensures PlayedOf(Act(j, a).0.gone[i]) == PlayedOf(j.gone[i]) + InSlots(Act(j, a).1, i)
  {
    match a
    case Send(m) =>
      PlayedOfMore(j.gone[i], AllDropped(j.q[i]));
    case Advance =>
      AdvancePlays(j, i);
    case Reclaim =>
      PlayedOfMore(j.gone[i], AllReclaimed(j.q[i]));
  }

  lemma {:induction false} InSlotsOfMore(a: seq<JoinStep>, b: seq<JoinStep>, i: nat)
    ensures InSlots(a + b, i) == InSlots(a, i) + InSlots(b, i)
  {
    if b == [] {
      assert a + b == a;
    } else {
      InSlotsOfMore(a, b[..|b|-1], i);
      assert (a + b)[..|a + b|-1] == a + b[..|b|-1];
      Assoc(InSlots(a, i), InSlots(b[..|b|-1], i), InSlot(b[|b|-1], i));
    }
  }

  /** The steps' slots for an arm are its played frames, one slot each, in order. */
  lemma {:induction false} PlayedOnce(byPts: bool, arms: nat, acts: seq<Action>, i: nat)
    requires AllFit(acts, arms) && i < arms
    ensures
      var (end, steps) := Perform(Init(byPts, arms), acts);
      PlayedOf(end.gone[i]) == InSlots(steps, i)
  {
    if acts != [] {
      var early := acts[..|acts|-1];
      PlayedOnce(byPts, arms, early, i);
      var (k, before) := Perform(Init(byPts, arms), early);
      ActPlays(k, acts[|acts|-1], i);
      InSlotsOfMore(before, Act(k, acts[|acts|-1]).1, i);
    }
  }

  // ---------------------------------------------------------------------
  // Output time moves forward between breaks
  // ---------------------------------------------------------------------

  /** A step whose reference frame carries a usable time. */
  predicate Timed(s: JoinStep) {
    0 <= s.ref < |s.slots| && s.slots[s.ref].Some? && s.slots[s.ref].value.ns.Some?
  }

  function Time(s: JoinStep): int
    requires Timed(s)
  {
    s.slots[s.ref].value.ns.value
  }

  function Span(s: JoinStep): nat
    requires Timed(s)
  {
    s.slots[s.ref].value.span
  }

  /** Every later timed step starts no earlier than half its span before an earlier one ends. */
  ghost predicate Forward(steps: seq<JoinStep>) {
    forall a, b :: 0 <= a < b < |steps| && Timed(steps[a]) && Timed(steps[b]) ==>
      Time(steps[b]) + Span(steps[b]) / 2 >= Time(steps[a]) + Span(steps[a])
  }

  /** The step clock is at or past the end of every timed step. */
  ghost predicate ClockCovers(next: int, steps: seq<JoinStep>) {
    forall a :: 0 <= a < |steps| && Timed(steps[a]) ==> next != UNSET && Time(steps[a]) + Span(steps[a]) <= next
  }

  /** The step keeps the clock moving: its time is fresh, and the clock ends at its end. */
  lemma {:induction false} StepTiming(j: Join)
    requires j.Valid() && j.byPts && StepOnce(j).1.Some?
    ensures
      var (k, s) := StepOnce(j);
      if Timed(s.value)
      then k.next == Time(s.value) + Span(s.value) && k.next != UNSET
           && (j.next != UNSET ==> Time(s.value) + Span(s.value) / 2 >= j.next)
      else k.next == j.next
  {
    var d := DropStale(j);
    RefTakesPart(d);
    var r := RefArm(d);
    FreshHead(j.q[r], j.next);
    if TimeArm(d) < 0 {
      NoneUsable(d, |d.q|, r);
    }
  }

  lemma {:induction false} FreshHead(s: seq<Frame>, next: int)
    ensures Fresh(s, next) != [] ==> !Stale(Fresh(s, next)[0], next)
  {
    if s != [] && Stale(s[0], next) {
      FreshHead(s[1..], next);
      assert Fresh(s, next) == Fresh(s[1..], next);
    }
  }

  lemma {:induction false} NoneUsable(d: Join, n: nat, i: nat)
    requires i < n <= |d.q| && Earliest(d.q, n) < 0
    ensures !Usable(d.q[i])
  {
    if i < n - 1 {
      NoneUsable(d, n - 1, i);
    }
  }

  /** One more step keeps the steps forward and the clock past them. */
  lemma {:induction false} ForwardOneMore(j: Join, steps: seq<JoinStep>)
    requires j.Valid() && j.byPts && StepOnce(j).1.Some?
    requires Forward(steps) && ClockCovers(j.next, steps)
    ensures Forward(steps + [StepOnce(j).1.value])
    ensures ClockCovers(StepOnce(j).0.next, steps + [StepOnce(j).1.value])
  {
    StepTiming(j);
    ForwardAppend(steps, StepOnce(j).1.value, j.next, StepOnce(j).0.next);
  }

  lemma ForwardAppend(steps: seq<JoinStep>, s: JoinStep, next: int, next': int)
    requires Forward(steps) && ClockCovers(next, steps)
    requires if Timed(s)
             then next' == Time(s) + Span(s) && next' != UNSET && (next != UNSET ==> Time(s) + Span(s) / 2 >= next)
             else next' == next
    ensures Forward(steps + [s]) && ClockCovers(next', steps + [s])
  {
  }

  lemma {:induction false} DrainForward(j: Join, steps: seq<JoinStep>)
    requires j.Valid() && j.byPts && Forward(steps) && ClockCovers(j.next, steps)
    ensures Forward(steps + Drain(j).1) && ClockCovers(Drain(j).0.next, steps + Drain(j).1)
    decreases Pending(j.q)
  {
    StepShrinks(j);
    var (k, s) := StepOnce(j);
    if s.None? {
      assert steps + [] == steps;
    } else {
      ForwardOneMore(j, steps);
      DrainForward(k, steps + [s.value]);
      Assoc(steps, [s.value], Drain(k).1);
    }
  }

  /**
   * In PTS mode, over any run with no break, from any state: a later timed step
   * plus half its span reaches the end of every earlier one.
   */
  lemma {:induction false} RunForward(j: Join, ms: seq<Message>)
    requires j.Valid() && j.byPts && AllForArms(ms, |j.q|)
    requires forall k :: 0 <= k < |ms| ==> !ms[k].Break?
    ensures Forward(Run(j, ms).1) && ClockCovers(Run(j, ms).0.next, Run(j, ms).1)
  {
    if ms != [] {
      var early, m := ms[..|ms|-1], ms[|ms|-1];
      RunForward(j, early);
      var (k, before) := Run(j, early);
      DrainForward(Deliver(k, m), before);
    }
  }

  /** The action neither breaks the time line nor takes the queues back. */
  predicate Onward(a: Action) {
    if a.Send? then !a.m.Break? else a.Advance?
  }

  /** The same over any actions, so with drains that stop early because the mix or the emitter failed. */
  lemma {:induction false} PerformForward(j: Join, acts: seq<Action>)
    requires j.Valid() && j.byPts && AllFit(acts, |j.q|) && forall k :: 0 <= k < |acts| ==> Onward(acts[k])
    ensures Forward(Perform(j, acts).1) && ClockCovers(Perform(j, acts).0.next, Perform(j, acts).1)
  {
    if acts != [] {
      var early, a := acts[..|acts|-1], acts[|acts|-1];
      PerformForward(j, early);
      var (k, before) := Perform(j, early);
      if a.Advance? && StepOnce(k).1.Some? {
        ForwardOneMore(k, before);
      } else {
        assert before + [] == before;
      }
    }
  }

  /** With equal positive spans the output's times strictly increase. */
  lemma {:induction false} StrictlyIncreasing(j: Join, acts: seq<Action>, span: nat)
    requires j.Valid() && j.byPts && AllFit(acts, |j.q|) && span > 0 && forall k :: 0 <= k < |acts| ==> Onward(acts[k])
    requires forall a :: 0 <= a < |Perform(j, acts).1| ==> Timed(Perform(j, acts).1[a]) && Span(Perform(j, acts).1[a]) == span
    ensures forall a, b :: 0 <= a < b < |Perform(j, acts).1| ==> Time(Perform(j, acts).1[a]) < Time(Perform(j, acts).1[b])
  {
    PerformForward(j, acts);
  }

  lemma {:induction false} RunStrictlyIncreasing(j: Join, ms: seq<Message>, span: nat)
    requires j.Valid() && j.byPts && AllForArms(ms, |j.q|) && span > 0 && forall k :: 0 <= k < |ms| ==> !ms[k].Break?
    requires forall a :: 0 <= a < |Run(j, ms).1| ==> Timed(Run(j, ms).1[a]) && Span(Run(j, ms).1[a]) == span
    ensures forall a, b :: 0 <= a < b < |Run(j, ms).1| ==> Time(Run(j, ms).1[a]) < Time(Run(j, ms).1[b])
  {
    RunForward(j, ms);
  }

  // ---------------------------------------------------------------------
  // The joined end of stream
  // ---------------------------------------------------------------------

  lemma {:induction false} DrainStops(j: Join)
    requires j.Valid()
    ensures !Ready(Drain(j).0)
    decreases Pending(j.q)
  {
    StepShrinks(j);
    if StepOnce(j).1.Some? {
      DrainStops(StepOnce(j).0);
    }
  }

  /** When the last arm ends, its handling leaves every queue empty: only then does the joined stream end. */
  lemma EndsEmpty(j: Join, last: nat)
    requires j.Valid() && last < |j.q|
    requires forall i :: 0 <= i < |j.q| && i != last ==> j.eos[i]
    ensures forall i :: 0 <= i < |j.q| ==> Handle(j, End(last)).0.q[i] == []
  {
    DrainStops(Deliver(j, End(last)));
  }
}
