/**
 * The join is confluent: what it emits depends on each arm's own frames, not
 * on how the arms' messages interleave.
 */
module JoinConfluence {
  import opened Basics
  import opened TimeBase
  import opened JoinSpec
  import opened Seqs

  // ---------------------------------------------------------------------
  // Deliveries and steps commute
  // ---------------------------------------------------------------------

  /** A message an arm may still send: not a break, and no frame after the arm's end. */
  predicate Open(j: Join, m: Message)
    requires j.Valid()
  {
    ForArms(m, |j.q|) && !m.Break? && (m.Arrive? ==> !j.eos[m.arm])
  }

  lemma {:induction false} StaleThenAppend(s: seq<Frame>, f: Frame, next: int)
    ensures StalePrefix(s, next) < |s| ==> StalePrefix(s + [f], next) == StalePrefix(s, next)
    ensures StalePrefix(Fresh(s, next) + [f], next) + StalePrefix(s, next) == StalePrefix(s + [f], next)
    ensures StalePrefix(Fresh(s, next), next) == 0
  {
    if s == [] || !Stale(s[0], next) {
      assert Fresh(s, next) == s;
      assert s != [] ==> (s + [f])[0] == s[0];
    } else {
      StaleThenAppend(s[1..], f, next);
      assert (s + [f])[1..] == s[1..] + [f];
      assert Fresh(s, next) == Fresh(s[1..], next);
    }
  }

  /** The stale prefix with a late frame is the stale prefix now plus what is stale after it. */
  lemma {:induction false} StalePrefixSplits(s: seq<Frame>, next: int, late: seq<Frame>)
    requires |late| <= 1
    ensures StalePrefix(s + late, next) == StalePrefix(s, next) + StalePrefix(Fresh(s, next) + late, next)
  {
    if late == [] {
      StaleThenAppend(s, Frame(0, None, 0), next);
      assert Fresh(s, next) + late == Fresh(s, next) && s + late == s;
    } else {
      StaleThenAppend(s, late[0], next);
      assert late == [late[0]];
    }
  }

  lemma {:induction false} FreshAbsorbs(s: seq<Frame>, next: int, late: seq<Frame>)
    requires |late| <= 1
    ensures Fresh(Fresh(s, next) + late, next) == Fresh(s + late, next)
  {
    var n, rest := StalePrefix(s, next), Fresh(s, next) + late;
    StalePrefixSplits(s, next, late);
    DropTwice(s, late, n, StalePrefix(rest, next));
  }

  lemma DropTwice(s: seq<Frame>, late: seq<Frame>, n: nat, k: nat)
    requires n <= |s| && n + k <= |s + late|
    ensures (s[n..] + late)[k..] == (s + late)[n + k..]
    ensures AllDropped((s + late)[..n + k]) == AllDropped(s[..n]) + AllDropped((s[n..] + late)[..k])
  {
    assert (s + late)[..n + k] == s[..n] + (s[n..] + late)[..k];
  }

  lemma {:induction false} DropsAbsorb(s: seq<Frame>, gone: seq<Fate>, next: int, late: seq<Frame>)
    requires |late| <= 1
    ensures gone + AllDropped(s[..StalePrefix(s, next)])
            + AllDropped((Fresh(s, next) + late)[..StalePrefix(Fresh(s, next) + late, next)])
            == gone + AllDropped((s + late)[..StalePrefix(s + late, next)])
  {
    var n, rest := StalePrefix(s, next), Fresh(s, next) + late;
    var k := StalePrefix(rest, next);
    StalePrefixSplits(s, next, late);
    DropTwice(s, late, n, k);
    Assoc(gone, AllDropped(s[..n]), AllDropped(rest[..k]));
  }

  lemma {:induction false} DropAbsorbsAt(j: Join, m: Message, i: nat)
    requires j.Valid() && ForArms(m, |j.q|) && !m.Break? && j.byPts && i < |j.q|
    ensures DropStale(Deliver(DropStale(j), m)).q[i] == DropStale(Deliver(j, m)).q[i]
    ensures DropStale(Deliver(DropStale(j), m)).gone[i] == DropStale(Deliver(j, m)).gone[i]
  {
    var late := if m.Arrive? && m.arm == i then [m.frame] else [];
    FreshAbsorbs(j.q[i], j.next, late);
    DropsAbsorb(j.q[i], j.gone[i], j.next, late);
    assert Deliver(DropStale(j), m).q[i] == Fresh(j.q[i], j.next) + late;
    assert Deliver(j, m).q[i] == j.q[i] + late;
  }

  /** Catching up before a delivery changes nothing once the join catches up after it. */
  lemma {:induction false} DropAbsorbs(j: Join, m: Message)
    requires j.Valid() && ForArms(m, |j.q|) && !m.Break?
    ensures DropStale(Deliver(DropStale(j), m)) == DropStale(Deliver(j, m))
  {
    if j.byPts {
      var x, y := DropStale(Deliver(DropStale(j), m)), DropStale(Deliver(j, m));
      forall i | 0 <= i < |j.q|
        ensures x.q[i] == y.q[i] && x.gone[i] == y.gone[i]
      {
        DropAbsorbsAt(j, m, i);
      }
      SameJoin(x, y);
    }
  }

  /** A step the join can take now, it takes identically after one more open message. */
  lemma StepCommutes(j: Join, m: Message)
    requires j.Valid() && Open(j, m) && StepOnce(j).1.Some?
    ensures StepOnce(Deliver(j, m)) == (Deliver(StepOnce(j).0, m), StepOnce(j).1)
  {
    var d := DropStale(j);
    DropCommutes(j, m);
    ReadyStays(d, m);
    SelectionStays(d, m);
  }

  lemma DropCommutes(j: Join, m: Message)
    requires j.Valid() && Open(j, m) && Ready(DropStale(j))
    ensures DropStale(Deliver(j, m)) == Deliver(DropStale(j), m)
  {
    if j.byPts {
      var x, y := DropStale(Deliver(j, m)), Deliver(DropStale(j), m);
      if m.Arrive? {
        var s := j.q[m.arm];
        StaleThenAppend(s, m.frame, j.next);
        assert DropStale(j).q[m.arm] != [];
        var n := StalePrefix(s, j.next);
        assert (s + [m.frame])[n..] == s[n..] + [m.frame];
        assert (s + [m.frame])[..n] == s[..n];
      }
      assert x.q == y.q;
      assert x.gone == y.gone;
    }
  }

  lemma ReadyStays(d: Join, m: Message)
    requires d.Valid() && Open(d, m) && Ready(d)
    ensures Ready(Deliver(d, m))
  {
    var x := Deliver(d, m);
    var i :| 0 <= i < |d.q| && d.q[i] != [];
    assert x.q[i] != [];
  }

  /** The heads decide the step, and an open message leaves every head of a ready join alone. */
  ghost predicate SameHeads(d: Join, x: Join) {
    && d.byPts == x.byPts && |d.q| == |x.q| && d.next == x.next
    && forall i :: 0 <= i < |d.q| ==> (d.q[i] == [] <==> x.q[i] == []) && (d.q[i] != [] ==> d.q[i][0] == x.q[i][0])
  }

  lemma {:induction false} EarliestByHeads(d: Join, x: Join, n: nat)
    requires SameHeads(d, x) && n <= |d.q|
    ensures Earliest(d.q, n) == Earliest(x.q, n)
    ensures FirstPending(d.q, n) == FirstPending(x.q, n)
  {
    if n > 0 {
      EarliestByHeads(d, x, n - 1);
    }
  }

  lemma SelectionByHeads(d: Join, x: Join)
    requires SameHeads(d, x)
    ensures TimeArm(d) == TimeArm(x) && RefArm(d) == RefArm(x) && Slots(d) == Slots(x)
    ensures forall i :: 0 <= i < |d.q| ==> TakesPart(d, i) == TakesPart(x, i)
  {
    EarliestByHeads(d, x, |d.q|);
  }

  lemma PoppedStaysAt(d: Join, m: Message, i: nat)
    requires d.Valid() && Open(d, m) && Ready(d) && i < |d.q|
    requires TimeArm(Deliver(d, m)) == TimeArm(d) && TakesPart(Deliver(d, m), i) == TakesPart(d, i)
    ensures Popped(Deliver(d, m)).q[i] == Deliver(Popped(d), m).q[i]
    ensures Popped(Deliver(d, m)).gone[i] == Deliver(Popped(d), m).gone[i]
  {
    if m.Arrive? && i == m.arm {
      assert d.q[i] != [];
      assert (d.q[i] + [m.frame])[1..] == d.q[i][1..] + [m.frame];
    }
  }

  lemma {:induction false} SelectionStays(d: Join, m: Message)
    requires d.Valid() && Open(d, m) && Ready(d)
    ensures Popped(Deliver(d, m)) == Deliver(Popped(d), m)
    ensures Slots(Deliver(d, m)) == Slots(d) && RefArm(Deliver(d, m)) == RefArm(d)
  {
    assert SameHeads(d, Deliver(d, m));
    SelectionByHeads(d, Deliver(d, m));
    var x, y := Popped(Deliver(d, m)), Deliver(Popped(d), m);
    forall i | 0 <= i < |d.q|
      ensures x.q[i] == y.q[i] && x.gone[i] == y.gone[i]
    {
      PoppedStaysAt(d, m, i);
    }
    SameJoin(x, y);
  }

  // ---------------------------------------------------------------------
  // Draining early or late is the same
  // ---------------------------------------------------------------------

  /** Draining, delivering and draining again equals delivering first and draining once. */
  lemma {:induction false} DrainAbsorbs(j: Join, m: Message)
    requires j.Valid() && Open(j, m)
    ensures Drain(Deliver(j, m)).0 == Drain(Deliver(Drain(j).0, m)).0
    ensures Drain(Deliver(j, m)).1 == Drain(j).1 + Drain(Deliver(Drain(j).0, m)).1
    decreases Pending(j.q)
  {
    StepShrinks(j);
    DrainUnfolds(j);
    DrainUnfolds(Deliver(j, m));
    var (k, s) := StepOnce(j);
    if s.None? {
      DropAbsorbs(j, m);
      assert StepOnce(Deliver(k, m)) == StepOnce(Deliver(j, m));
      DrainUnfolds(Deliver(k, m));
    } else {
      StepCommutes(j, m);
      DrainAbsorbs(k, m);
      Assoc([s.value], Drain(k).1, Drain(Deliver(Drain(k).0, m)).1);
    }
  }

  /** One step of the drain, then the rest of it. */
  lemma DrainUnfolds(j: Join)
    requires j.Valid()
    ensures StepOnce(j).1.None? ==> Drain(j) == (StepOnce(j).0, [])
    ensures StepOnce(j).1.Some? ==>
              Drain(j) == (Drain(StepOnce(j).0).0, [StepOnce(j).1.value] + Drain(StepOnce(j).0).1)
  {
  }

  /** A message list in which no arm sends a frame after its end, and nothing breaks. */
  ghost predicate Orderly(ms: seq<Message>, arms: nat) {
    && AllForArms(ms, arms)
    && (forall k :: 0 <= k < |ms| ==> !ms[k].Break?)
    && (forall k, l :: 0 <= k < l < |ms| && ms[k].End? && ms[l].Arrive? ==> ms[l].arm != ms[k].arm)
  }

  /** Every delivery with no draining in between. */
  function DeliverAll(j: Join, ms: seq<Message>): (r: Join)
    requires j.Valid() && AllForArms(ms, |j.q|)
    ensures r.Valid() && |r.q| == |j.q| && r.byPts == j.byPts
  {
    if ms == [] then j else Deliver(DeliverAll(j, ms[..|ms|-1]), ms[|ms|-1])
  }

  /** Interleaved handling equals one drain over everything buffered. */
  lemma {:induction false} RunIsOneDrain(byPts: bool, arms: nat, ms: seq<Message>)
    requires Orderly(ms, arms)
    ensures Run(Init(byPts, arms), ms) == Drain(DeliverAll(Init(byPts, arms), ms))
  {
    var j := Init(byPts, arms);
    if ms == [] {
      InitIsDrained(byPts, arms);
    } else {
      var early, m := ms[..|ms|-1], ms[|ms|-1];
      RunIsOneDrain(byPts, arms, early);
      LastIsOpen(j, ms);
      DrainAbsorbs(DeliverAll(j, early), m);
    }
  }

  lemma LastIsOpen(j: Join, ms: seq<Message>)
    requires j.Valid() && Orderly(ms, |j.q|) && ms != [] && forall i :: 0 <= i < |j.q| ==> !j.eos[i]
    ensures Open(DeliverAll(j, ms[..|ms|-1]), ms[|ms|-1])
  {
    var early := ms[..|ms|-1];
    EndedArms(j, early);
    assert forall k :: 0 <= k < |early| ==> early[k] == ms[k];
  }

  lemma InitIsDrained(byPts: bool, arms: nat)
    ensures Drain(Init(byPts, arms)) == (Init(byPts, arms), [])
  {
    var j := Init(byPts, arms);
    var d := DropStale(j);
    assert d.q == j.q;
    assert d.gone == j.gone;
    assert StepOnce(j) == (j, None);
  }

  /** After the deliveries an arm has ended exactly when its end is among them. */
  lemma {:induction false} EndedArms(j: Join, ms: seq<Message>)
    requires j.Valid() && AllForArms(ms, |j.q|)
    ensures forall i :: 0 <= i < |j.q| ==>
              (DeliverAll(j, ms).eos[i] <==> j.eos[i] || exists k :: 0 <= k < |ms| && ms[k] == End(i))
  {
    if ms != [] {
      var early := ms[..|ms|-1];
      EndedArms(j, early);
      forall i | 0 <= i < |j.q|
        ensures DeliverAll(j, ms).eos[i] <==> j.eos[i] || exists k :: 0 <= k < |ms| && ms[k] == End(i)
      {
        if k :| 0 <= k < |early| && early[k] == End(i) {
          assert ms[k] == End(i);
        }
        if k :| 0 <= k < |ms| && ms[k] == End(i) {
          assert k < |early| ==> early[k] == End(i);
        }
      }
    }
  }

  // ---------------------------------------------------------------------
  // Confluence
  // ---------------------------------------------------------------------

  predicate Ends(ms: seq<Message>, i: nat) {
    End(i) in ms
  }

  lemma {:induction false} DeliverAllByArm(j: Join, ms: seq<Message>)
    requires j.Valid() && Orderly(ms, |j.q|)
    ensures forall i :: 0 <= i < |j.q| ==> DeliverAll(j, ms).q[i] == j.q[i] + FramesOf(ms, i)
    ensures DeliverAll(j, ms).gone == j.gone && DeliverAll(j, ms).next == j.next
  {
    if ms != [] {
      DeliverAllByArm(j, ms[..|ms|-1]);
    }
  }

  /**
   * Two interleavings of the same per-arm traffic emit the same steps with the
   * same references, and leave the same state: queues, step clock, and every
   * arm's departures, hence the drop count.
   */
  lemma {:induction false} Confluent(byPts: bool, arms: nat, ms: seq<Message>, ns: seq<Message>)
    requires Orderly(ms, arms) && Orderly(ns, arms)
    requires forall i :: 0 <= i < arms ==> FramesOf(ms, i) == FramesOf(ns, i) && Ends(ms, i) == Ends(ns, i)
    ensures Run(Init(byPts, arms), ms) == Run(Init(byPts, arms), ns)
  {
    var j := Init(byPts, arms);
    RunIsOneDrain(byPts, arms, ms);
    RunIsOneDrain(byPts, arms, ns);
    DeliverAllByArm(j, ms);
    DeliverAllByArm(j, ns);
    EndedArms(j, ms);
    EndedArms(j, ns);
    var a, b := DeliverAll(j, ms), DeliverAll(j, ns);
    assert a.q == b.q;
    forall i | 0 <= i < arms
      ensures a.eos[i] == b.eos[i]
    {
      assert Ends(ms, i) == Ends(ns, i);
    }
    assert a.eos == b.eos;
  }

  // ---------------------------------------------------------------------
  // Arrival mode: step k holds every arm's k-th frame
  // ---------------------------------------------------------------------

  /** The k-th row of the queues. */
  function Row(q: seq<seq<Frame>>, k: nat): seq<Option<Frame>> {
    seq(|q|, i requires 0 <= i < |q| => if k < |q[i]| then Some(q[i][k]) else None)
  }

  ghost predicate FirstFilled(row: seq<Option<Frame>>, ref: int) {
    0 <= ref < |row| && row[ref].Some? && forall i :: 0 <= i < ref ==> row[i].None?
  }

  lemma {:induction false} FirstPendingIsFirst(q: seq<seq<Frame>>, n: nat)
    requires n <= |q|
    ensures FirstPending(q, n) >= 0 ==> forall i :: 0 <= i < FirstPending(q, n) ==> q[i] == []
    ensures FirstPending(q, n) < 0 ==> forall i :: 0 <= i < n ==> q[i] == []
  {
    if n > 0 {
      FirstPendingIsFirst(q, n - 1);
    }
  }

  /** Step k can be formed: every open arm has its k-th frame, and some arm does. */
  ghost predicate RowReady(q: seq<seq<Frame>>, eos: seq<bool>, k: nat)
    requires |q| == |eos|
  {
    (exists i :: 0 <= i < |q| && k < |q[i]|) && forall i :: 0 <= i < |q| ==> eos[i] || k < |q[i]|
  }

  lemma {:induction false} ArrivalStep(j: Join)
    requires j.Valid() && !j.byPts
    ensures StepOnce(j).1.Some? <==> RowReady(j.q, j.eos, 0)
    ensures StepOnce(j).0.eos == j.eos
    ensures StepOnce(j).1.Some? ==> StepOnce(j).1.value.slots == Row(j.q, 0)
                                    && FirstFilled(Row(j.q, 0), StepOnce(j).1.value.ref)
    ensures StepOnce(j).1.Some? ==> StepOnce(j).0.q == seq(|j.q|, i requires 0 <= i < |j.q| => if j.q[i] == [] then [] else j.q[i][1..])
  {
    if AnyPending(j) {
      RefTakesPart(j);
      FirstPendingIsFirst(j.q, |j.q|);
    }
  }

  lemma RowShift(q: seq<seq<Frame>>, r: seq<seq<Frame>>, eos: seq<bool>, k: nat)
    requires |q| == |r| == |eos| && k > 0
    requires forall i :: 0 <= i < |q| ==> r[i] == if q[i] == [] then [] else q[i][1..]
    ensures Row(r, k - 1) == Row(q, k) && (RowReady(r, eos, k - 1) <==> RowReady(q, eos, k))
  {
    assert forall i :: 0 <= i < |q| ==> (k - 1 < |r[i]| <==> k < |q[i]|);
  }

  /** The steps are the rows that can be formed, each stamped by its first filled slot. */
  ghost predicate EmitsRows(steps: seq<JoinStep>, q: seq<seq<Frame>>, eos: seq<bool>)
    requires |q| == |eos|
  {
    && (forall k: nat :: k < |steps| <==> RowReady(q, eos, k))
    && forall k :: 0 <= k < |steps| ==> steps[k].slots == Row(q, k) && FirstFilled(Row(q, k), steps[k].ref)
  }

  lemma {:induction false} RowsThenRows(first: JoinStep, rest: seq<JoinStep>, q: seq<seq<Frame>>, r: seq<seq<Frame>>, eos: seq<bool>)
    requires |q| == |r| == |eos| && RowReady(q, eos, 0)
    requires forall i :: 0 <= i < |q| ==> r[i] == if q[i] == [] then [] else q[i][1..]
    requires first.slots == Row(q, 0) && FirstFilled(Row(q, 0), first.ref)
    requires EmitsRows(rest, r, eos)
    ensures EmitsRows([first] + rest, q, eos)
  {
    var steps := [first] + rest;
    forall k: nat
      ensures k < |steps| <==> RowReady(q, eos, k)
      ensures k < |steps| ==> steps[k].slots == Row(q, k) && FirstFilled(Row(q, k), steps[k].ref)
    {
      if k > 0 {
        RowShift(q, r, eos, k);
      }
    }
  }

  /** No row after one that cannot be formed. */
  lemma RowsEnd(q: seq<seq<Frame>>, eos: seq<bool>)
    requires |q| == |eos| && !RowReady(q, eos, 0)
    ensures EmitsRows([], q, eos)
  {
    assert forall k: nat :: RowReady(q, eos, k) ==> RowReady(q, eos, 0);
  }

  /** An arrival drain emits exactly the rows that can be formed, in order. */
  lemma {:induction false} ArrivalRows(j: Join)
    requires j.Valid() && !j.byPts
    ensures EmitsRows(Drain(j).1, j.q, j.eos)
    decreases Pending(j.q)
  {
    StepShrinks(j);
    ArrivalStep(j);
    DrainUnfolds(j);
    var (next, s) := StepOnce(j);
    if s.Some? {
      ArrivalRows(next);
      RowsThenRows(s.value, Drain(next).1, j.q, next.q, j.eos);
    } else {
      RowsEnd(j.q, j.eos);
    }
  }

  /** What each arm has sent, and which have ended. */
  function Sent(ms: seq<Message>, arms: nat): seq<seq<Frame>> {
    seq(arms, i requires 0 <= i < arms => FramesOf(ms, i))
  }

  function Ended(ms: seq<Message>, arms: nat): seq<bool> {
    seq(arms, i requires 0 <= i < arms => Ends(ms, i))
  }

  lemma {:induction false} AllDelivered(arms: nat, ms: seq<Message>)
    requires Orderly(ms, arms)
    ensures var all := DeliverAll(Init(false, arms), ms);
      all.Valid() && !all.byPts && all.q == Sent(ms, arms) && all.eos == Ended(ms, arms)
  {
    var j := Init(false, arms);
    DeliverAllByArm(j, ms);
    EndedArms(j, ms);
    var all := DeliverAll(j, ms);
    assert forall i :: 0 <= i < arms ==> all.q[i] == [] + FramesOf(ms, i) == Sent(ms, arms)[i];
    forall i | 0 <= i < arms
      ensures all.eos[i] == Ended(ms, arms)[i]
    {
      assert all.eos[i] <==> Ends(ms, i);
    }
  }

  /**
   * Arrival mode from scratch: step k of any interleaving holds the k-th frame
   * of every arm that has one, stamped by the first such arm; it is emitted
   * exactly when every arm that has not ended has sent its k-th frame.
   */
  lemma {:induction false} ArrivalAlignment(arms: nat, ms: seq<Message>)
    requires Orderly(ms, arms)
    ensures EmitsRows(Run(Init(false, arms), ms).1, Sent(ms, arms), Ended(ms, arms))
  {
    RunIsOneDrain(false, arms, ms);
    AllDelivered(arms, ms);
    ArrivalRows(DeliverAll(Init(false, arms), ms));
  }

  function Longest(q: seq<seq<Frame>>): (n: nat)
    ensures forall i :: 0 <= i < |q| ==> |q[i]| <= n
    ensures n > 0 ==> exists i :: 0 <= i < |q| && |q[i]| == n
  {
    if q == [] then 0 else
      var rest := Longest(q[1..]);
      assert forall i :: 1 <= i < |q| ==> q[i] == q[1..][i-1];
      if |q[0]| > rest then |q[0]| else rest
  }

  /** Once every arm has ended there are as many steps as the longest arm has frames. */
  lemma {:induction false} ArrivalCount(arms: nat, ms: seq<Message>)
    requires Orderly(ms, arms) && forall i :: 0 <= i < arms ==> Ends(ms, i)
    ensures |Run(Init(false, arms), ms).1| == Longest(Sent(ms, arms))
  {
    ArrivalAlignment(arms, ms);
    var q, n := Sent(ms, arms), |Run(Init(false, arms), ms).1|;
    assert !RowReady(q, Ended(ms, arms), Longest(q));
    if n < Longest(q) {
      var x :| 0 <= x < |q| && |q[x]| == Longest(q);
      assert n < |q[x]|;
      assert RowReady(q, Ended(ms, arms), n);
    }
  }
}
