/**
 * `joinSyncState` and the stage that drives it, as the objects they are: each
 * method is proved to do what JoinSpec says of the state it finds.
 */
module JoinStage {
  import opened Basics
  import opened TimeBase
  import opened JoinSpec
  import opened JoinHistory
  import opened Seqs

  type StreamID = string

  function DropsIn(g: seq<Fate>): nat {
    if g == [] then 0 else DropsIn(g[..|g|-1]) + if g[|g|-1].Dropped? then 1 else 0
  }

  /** The catch-up drop total: dropped departures over all arms. */
  function DropTotal(gone: seq<seq<Fate>>): nat {
    if gone == [] then 0 else DropTotal(gone[..|gone|-1]) + DropsIn(gone[|gone|-1])
  }

  lemma {:induction false} DropTotalUpdate(gone: seq<seq<Fate>>, i: nat, g: seq<Fate>)
    requires i < |gone|
    ensures DropTotal(gone[i := g]) + DropsIn(gone[i]) == DropTotal(gone) + DropsIn(g)
  {
    var n := |gone| - 1;
    if i == n {
      assert gone[i := g][..n] == gone[..n];
    } else {
      DropTotalUpdate(gone[..n], i, g);
      assert gone[i := g][..n] == gone[..n][i := g];
    }
  }

  lemma {:induction false} DropsInMore(g: seq<Fate>, more: seq<Fate>)
    ensures DropsIn(g + more) == DropsIn(g) + DropsIn(more)
  {
    if more == [] {
      assert g + more == g;
    } else {
      DropsInMore(g, more[..|more|-1]);
      assert (g + more)[..|g + more|-1] == g + more[..|more|-1];
    }
  }

  lemma {:induction false} DropsInUniform(g: seq<Fate>)
    ensures (forall k :: 0 <= k < |g| ==> g[k].Dropped?) ==> DropsIn(g) == |g|
    ensures (forall k :: 0 <= k < |g| ==> !g[k].Dropped?) ==> DropsIn(g) == 0
  {
    if g != [] {
      DropsInUniform(g[..|g|-1]);
    }
  }

  // ---------------------------------------------------------------------
  // Spec states recognised arm by arm
  // ---------------------------------------------------------------------

  /** One stream's entries in a record. */
  function Log(m: map<StreamID, seq<Frame>>, id: StreamID): seq<Frame> {
    if id in m then m[id] else []
  }

  /** A step's slot as a list: one frame or none. */
  function One(slot: Option<Frame>): seq<Frame> {
    if slot.Some? then [slot.value] else []
  }

  lemma AllLeave(s: seq<Frame>)
    ensures Departed(AllDropped(s)) == Departed(AllReclaimed(s)) == s == s[..|s|]
  {
  }

  function Logs(inputs: seq<StreamID>, m: map<StreamID, seq<Frame>>): seq<seq<Frame>> {
    seq(|inputs|, i requires 0 <= i < |inputs| => Log(m, inputs[i]))
  }

  function AllDeparted(gone: seq<seq<Fate>>): seq<seq<Frame>> {
    seq(|gone|, i requires 0 <= i < |gone| => Departed(gone[i]))
  }

  function Joined(a: seq<seq<Frame>>, b: seq<Option<Frame>>): seq<seq<Frame>>
    requires |a| == |b|
  {
    seq(|a|, i requires 0 <= i < |a| => a[i] + One(b[i]))
  }

  lemma DepartedMore(g: seq<Fate>, more: seq<Fate>)
    ensures Departed(g + more) == Departed(g) + Departed(more)
  {
  }

  /** Every arm's account. */
  function Accounts(j: Join): seq<seq<Frame>>
    requires j.Valid()
  {
    seq(|j.q|, i requires 0 <= i < |j.q| => Account(j, i))
  }

  /** Two states with the same arms, mode and ended arms. */
  ghost predicate Alike(j: Join, r: Join) {
    j.Valid() && r.Valid() && |r.q| == |j.q| && r.byPts == j.byPts && r.eos == j.eos
  }

  /** Fates for the first frames of each arm's queue. */
  ghost predicate FatesFit(j: Join, fates: seq<seq<Fate>>) {
    && j.Valid() && |fates| == |j.q|
    && forall i :: 0 <= i < |fates| ==> |fates[i]| <= |j.q[i]| && Departed(fates[i]) == j.q[i][..|fates[i]|]
  }

  /** Arm i's first frames leave its queue with the given fates. */
  ghost function DepartOne(j: Join, i: nat, fates: seq<Fate>): (r: Join)
    requires j.Valid() && i < |j.q|
    ensures Alike(j, r) && r.next == j.next
  {
    j.(q := j.q[i := if |fates| <= |j.q[i]| then j.q[i][|fates|..] else []], gone := j.gone[i := j.gone[i] + fates])
  }

  /** The same on each of the first n arms. */
  ghost function DepartTo(j: Join, fates: seq<seq<Fate>>, n: nat): (r: Join)
    requires j.Valid() && n <= |j.q| == |fates|
    ensures Alike(j, r) && r.next == j.next
  {
    if n == 0 then j else DepartOne(DepartTo(j, fates, n - 1), n - 1, fates[n-1])
  }

  lemma {:induction false} DepartToAt(j: Join, fates: seq<seq<Fate>>, n: nat, i: nat)
    requires j.Valid() && n <= |j.q| == |fates| && i < |j.q|
    ensures DepartTo(j, fates, n).q[i] == if i < n then (if |fates[i]| <= |j.q[i]| then j.q[i][|fates[i]|..] else []) else j.q[i]
    ensures DepartTo(j, fates, n).gone[i] == if i < n then j.gone[i] + fates[i] else j.gone[i]
  {
    if n > 0 {
      DepartToAt(j, fates, n - 1, i);
    }
  }

  lemma {:induction false} DepartToAll(j: Join, fates: seq<seq<Fate>>)
    requires FatesFit(j, fates)
    ensures forall i :: 0 <= i < |j.q| ==>
      DepartTo(j, fates, |j.q|).q[i] == j.q[i][|fates[i]|..] && DepartTo(j, fates, |j.q|).gone[i] == j.gone[i] + fates[i]
  {
    forall i | 0 <= i < |j.q|
      ensures DepartTo(j, fates, |j.q|).q[i] == j.q[i][|fates[i]|..] && DepartTo(j, fates, |j.q|).gone[i] == j.gone[i] + fates[i]
    {
      DepartToAt(j, fates, |j.q|, i);
    }
  }

  /** Departures of queued frames leave every account as it was. */
  lemma {:induction false} DepartToAccounts(j: Join, fates: seq<seq<Fate>>)
    requires FatesFit(j, fates)
    ensures Accounts(DepartTo(j, fates, |j.q|)) == Accounts(j)
  {
    var r := DepartTo(j, fates, |j.q|);
    forall i | 0 <= i < |j.q|
      ensures Account(r, i) == Account(j, i)
    {
      DepartToAt(j, fates, |j.q|, i);
      FateAt(j, fates, i);
      DepartureKeepsAccount(j.gone[i], j.q[i], fates[i], |fates[i]|);
    }
    SameAccounts(r, j);
  }

  lemma SameAccounts(r: Join, j: Join)
    requires r.Valid() && j.Valid() && |r.q| == |j.q| && forall i :: 0 <= i < |j.q| ==> Account(r, i) == Account(j, i)
    ensures Accounts(r) == Accounts(j)
  {
  }

  lemma FateAt(j: Join, fates: seq<seq<Fate>>, i: nat)
    requires FatesFit(j, fates) && i < |fates|
    ensures forall x :: 0 <= x < |fates[i]| ==> fates[i][x].frame == j.q[i][x]
  {
    assert Departed(fates[i]) == j.q[i][..|fates[i]|];
    assert forall x :: 0 <= x < |fates[i]| ==> Departed(fates[i])[x] == j.q[i][x];
  }

  lemma DepartNone(j: Join, i: nat)
    requires j.Valid() && i < |j.q|
    ensures DepartOne(j, i, []) == j
  {
    SameJoin(DepartOne(j, i, []), j);
  }

  /** The stale heads of every arm, dropped. */
  ghost function StaleFates(j: Join): seq<seq<Fate>> {
    seq(|j.q|, i requires 0 <= i < |j.q| => AllDropped(j.q[i][..StalePrefix(j.q[i], j.next)]))
  }

  lemma {:induction false} StaleDepart(j: Join)
    requires j.Valid() && j.byPts
    ensures FatesFit(j, StaleFates(j)) && DepartTo(j, StaleFates(j), |j.q|) == DropStale(j)
  {
    DepartToAll(j, StaleFates(j));
    IsDropStale(j, DepartTo(j, StaleFates(j), |j.q|));
  }

  /** Every queue reclaimed. */
  ghost function ReclaimFates(j: Join): seq<seq<Fate>> {
    seq(|j.q|, i requires 0 <= i < |j.q| => AllReclaimed(j.q[i]))
  }

  lemma {:induction false} ReclaimDepart(j: Join)
    requires j.Valid()
    ensures FatesFit(j, ReclaimFates(j)) && DepartTo(j, ReclaimFates(j), |j.q|) == GivenBack(j)
    ensures Accounts(GivenBack(j)) == Accounts(j)
  {
    AllTaken(j.q);
    DepartToAll(j, ReclaimFates(j));
    IsGivenBack(j, DepartTo(j, ReclaimFates(j), |j.q|));
    DepartToAccounts(j, ReclaimFates(j));
  }

  lemma AllTaken(q: seq<seq<Frame>>)
    ensures forall i :: 0 <= i < |q| ==> q[i][..|q[i]|] == q[i] && q[i][|q[i]|..] == []
  {
  }

  predicate Hit(arm: StreamID, id: StreamID) {
    id == "" || arm == id
  }

  /** The queues of the arms a break names, dropped. */
  ghost function FlushFates(j: Join, inputs: seq<StreamID>, id: StreamID): seq<seq<Fate>>
    requires |inputs| == |j.q|
  {
    seq(|j.q|, i requires 0 <= i < |j.q| => if Hit(inputs[i], id) then AllDropped(j.q[i]) else [])
  }

  ghost function FlushedBy(j: Join, inputs: seq<StreamID>, id: StreamID): Join
    requires j.Valid() && |inputs| == |j.q|
  {
    DepartTo(j, FlushFates(j, inputs, id), |j.q|).(next := UNSET)
  }

  lemma {:induction false} FlushFit(j: Join, inputs: seq<StreamID>, id: StreamID)
    requires j.Valid() && |inputs| == |j.q|
    ensures FatesFit(j, FlushFates(j, inputs, id)) && Accounts(FlushedBy(j, inputs, id)) == Accounts(j)
  {
    AllTaken(j.q);
    DepartToAccounts(j, FlushFates(j, inputs, id));
    forall i | 0 <= i < |j.q|
      ensures Account(FlushedBy(j, inputs, id), i) == Account(DepartTo(j, FlushFates(j, inputs, id), |j.q|), i)
    {
    }
    assert Accounts(FlushedBy(j, inputs, id)) == Accounts(DepartTo(j, FlushFates(j, inputs, id), |j.q|));
  }

  lemma {:induction false} FlushDepart(j: Join, inputs: seq<StreamID>, id: StreamID, which: Option<nat>)
    requires j.Valid() && j.byPts && |inputs| == |j.q| && FatesFit(j, FlushFates(j, inputs, id))
    requires forall i :: 0 <= i < |inputs| ==> (Hit(inputs[i], id) <==> which == None || which == Some(i))
    ensures FlushedBy(j, inputs, id) == Flushed(j, which)
  {
    AllTaken(j.q);
    DepartToAll(j, FlushFates(j, inputs, id));
    IsFlushed(j, FlushedBy(j, inputs, id), which);
  }

  /** A step's frames, played. */
  ghost function PopFates(frames: seq<Option<Frame>>): seq<seq<Fate>> {
    seq(|frames|, i requires 0 <= i < |frames| => if frames[i].Some? then [Played(frames[i].value)] else [])
  }

  lemma PopFit(j: Join, frames: seq<Option<Frame>>)
    requires j.Valid() && |frames| == |j.q|
    requires forall i :: 0 <= i < |frames| && frames[i].Some? ==> j.q[i] != [] && frames[i].value == j.q[i][0]
    ensures FatesFit(j, PopFates(frames))
  {
  }

  /** Popping after the clock has moved is the spec's pop. */
  lemma {:induction false} PopsAlike(j: Join, moved: Join, frames: seq<Option<Frame>>)
    requires j.Valid() && moved == j.(next := Popped(j).next) && frames == Slots(j) && FatesFit(moved, PopFates(frames))
    ensures DepartTo(moved, PopFates(frames), |j.q|) == Popped(j)
  {
    DepartToAll(moved, PopFates(frames));
    IsPopped(j, DepartTo(moved, PopFates(frames), |j.q|));
  }

  lemma IsDropStale(j: Join, r: Join)
    requires Alike(j, r) && j.byPts && r.next == j.next
    requires forall i :: 0 <= i < |j.q| ==>
               && r.q[i] == Fresh(j.q[i], j.next)
               && r.gone[i] == j.gone[i] + AllDropped(j.q[i][..StalePrefix(j.q[i], j.next)])
    ensures r == DropStale(j)
  {
    SameJoin(r, DropStale(j));
  }

  lemma IsUnchangedByDrop(j: Join)
    requires j.Valid() && j.next == UNSET
    ensures j == DropStale(j)
  {
    if j.byPts {
      IsDropStale(j, j);
    }
  }

  lemma IsFlushed(j: Join, r: Join, which: Option<nat>)
    requires Alike(j, r) && j.byPts && r.next == UNSET
    requires forall i :: 0 <= i < |j.q| ==>
               if which == None || which == Some(i)
               then r.q[i] == [] && r.gone[i] == j.gone[i] + AllDropped(j.q[i])
               else r.q[i] == j.q[i] && r.gone[i] == j.gone[i]
    ensures r == Flushed(j, which)
  {
    SameJoin(r, Flushed(j, which));
  }

  lemma IsPopped(j: Join, r: Join)
    requires Alike(j, r) && r.next == Popped(j).next
    requires forall i :: 0 <= i < |j.q| ==>
               if Slots(j)[i].Some?
               then r.q[i] == j.q[i][1..] && r.gone[i] == j.gone[i] + [Played(Slots(j)[i].value)]
               else r.q[i] == j.q[i] && r.gone[i] == j.gone[i]
    ensures r == Popped(j)
  {
    forall i | 0 <= i < |j.q|
      ensures r.q[i] == Popped(j).q[i] && r.gone[i] == Popped(j).gone[i]
    {
      assert Slots(j)[i] == if TakesPart(j, i) then Some(j.q[i][0]) else None;
    }
    SameJoin(r, Popped(j));
  }

  lemma IsGivenBack(j: Join, r: Join)
    requires Alike(j, r) && r.next == j.next
    requires forall i :: 0 <= i < |j.q| ==> r.q[i] == [] && r.gone[i] == j.gone[i] + AllReclaimed(j.q[i])
    ensures r == GivenBack(j)
  {
    SameJoin(r, GivenBack(j));
  }

  /** The map gives each input's position, so no two share an id. */
  ghost predicate Placed(inputs: seq<StreamID>, slot: map<StreamID, nat>) {
    forall i :: 0 <= i < |inputs| ==> inputs[i] in slot && slot[inputs[i]] == i
  }

  lemma LogsUpdate(inputs: seq<StreamID>, slot: map<StreamID, nat>, m: map<StreamID, seq<Frame>>, i: nat, queue: seq<Frame>)
    requires Placed(inputs, slot) && i < |inputs|
    ensures Logs(inputs, m[inputs[i] := queue]) == Logs(inputs, m)[i := queue]
  {
    assert forall k :: 0 <= k < |inputs| && k != i ==> inputs[k] != inputs[i];
  }

  /** As many ended ids as arms means every arm ended, when only arms' ids were marked. */
  lemma AllEnded(inputs: seq<StreamID>, slot: map<StreamID, nat>, eos: set<StreamID>)
    requires Placed(inputs, slot)
    requires forall id :: id in eos ==> id in inputs
    ensures |eos| >= |inputs| <==> forall i :: 0 <= i < |inputs| ==> inputs[i] in eos
  {
    var arms := set i | 0 <= i < |inputs| :: inputs[i];
    CountArms(inputs, slot);
    assert eos <= arms;
    assert arms == eos + (arms - eos);
    assert |arms| == |eos| + |arms - eos|;
    if |eos| >= |inputs| {
      assert arms - eos == {};
      assert forall i :: 0 <= i < |inputs| ==> inputs[i] in arms;
    }
    if forall i :: 0 <= i < |inputs| ==> inputs[i] in eos {
      assert arms - eos == {};
    }
  }

  /** Distinct ids make a set as large as the list. */
  lemma {:induction false} CountArms(ids: seq<StreamID>, slot: map<StreamID, nat>)
    requires Placed(ids, slot)
    ensures |set i | 0 <= i < |ids| :: ids[i]| == |ids|
  {
    if ids != [] {
      var n := |ids| - 1;
      CountArms(ids[..n], slot);
      var a, b := set i | 0 <= i < |ids| :: ids[i], set i | 0 <= i < n :: ids[..n][i];
      assert a == b + {ids[n]} && ids[n] !in b;
    }
  }

  /** Where each of a list of distinct ids stands. */
  ghost function Positions(ids: seq<StreamID>): (m: map<StreamID, nat>)
    requires forall i, k :: 0 <= i < k < |ids| ==> ids[i] != ids[k]
    ensures Placed(ids, m)
  {
    if ids == [] then map[] else Positions(ids[..|ids|-1])[ids[|ids|-1] := |ids| - 1]
  }

  /** The ends of the arms, in input order. */
  function EndedOf(inputs: seq<StreamID>, eos: set<StreamID>): (e: seq<bool>)
    ensures |e| == |inputs| && forall i :: 0 <= i < |inputs| ==> e[i] == (inputs[i] in eos)
  {
    seq(|inputs|, i requires 0 <= i < |inputs| => inputs[i] in eos)
  }

  // ---------------------------------------------------------------------
  // Clones and their references
  // ---------------------------------------------------------------------

  /** The stage's clones: the references taken on their planes, those given back, and the pooled headers. */
  class Recycler {
    var taken: map<StreamID, seq<Frame>>
    var released: map<StreamID, seq<Frame>>
    var free: map<StreamID, nat>

    constructor (ids: seq<StreamID>, depth: nat)
      ensures taken == map[] && released == map[] && forall id :: id in ids ==> id in free && free[id] == depth
    {
      taken, released, free := map[], map[], map id | id in ids :: depth;
    }

    /** `cloneMixFrame`: a pooled header, or a new one, with its own reference to the frame's planes. */
    method Clone(id: StreamID, frame: MediaFrame) returns (clone: Frame)
      modifies this`taken, this`free
      ensures clone == OnClock(frame) && taken == old(taken)[id := Log(old(taken), id) + [clone]]
      ensures id in old(free) && old(free)[id] > 0 ==> free == old(free)[id := old(free)[id] - 1]
      ensures id !in old(free) || old(free)[id] == 0 ==> free == old(free)
    {
      if id in free && free[id] > 0 {
        free := free[id := free[id] - 1];
      }
      clone := OnClock(frame);
      taken := taken[id := Log(taken, id) + [clone]];
    }

    /** `recycleMixFrame`: release the planes and pool the header. */
    method Recycle(id: StreamID, frame: Frame)
      modifies this`released, this`free
      ensures released == old(released)[id := Log(old(released), id) + [frame]]
      ensures free == old(free)[id := (if id in old(free) then old(free)[id] else 0) + 1]
    {
      released := released[id := Log(released, id) + [frame]];
      free := free[id := (if id in free then free[id] else 0) + 1];
    }

    /** Recycle a list of one stream's clones, in order. */
    method RecycleAll(id: StreamID, frames: seq<Frame>)
      modifies this`released, this`free
      ensures forall x :: Log(released, x) == Log(old(released), x) + if x == id then frames else []
    {
      var k := 0;
      while k < |frames|
        modifies this`released, this`free
        invariant 0 <= k <= |frames|
        invariant forall x :: Log(released, x) == Log(old(released), x) + if x == id then frames[..k] else []
      {
        Recycle(id, frames[k]);
        Assoc(Log(old(released), id), frames[..k], [frames[k]]);
        assert frames[..k] + [frames[k]] == frames[..k+1];
        k := k + 1;
      }
      assert frames[..k] == frames;
    }

    /** The end of `Close`: the pooled headers are let go. */
    method Clear()
      modifies this`free
      ensures free == map[]
    {
      free := map[];
    }
  }

  // ---------------------------------------------------------------------
  // The alignment state
  // ---------------------------------------------------------------------

  class JoinSync {
    const byPts: bool
    const inputs: seq<StreamID>
    /** Each input's position: no two inputs share an id. */
    ghost const slot: map<StreamID, nat>
    const recycler: Recycler
    var pending: map<StreamID, seq<Frame>>
    var eos: set<StreamID>
    var nextNS: int
    var dropped: nat
    /** Each arm's departures from its queue, in order. */
    ghost var gone: seq<seq<Fate>>

    ghost predicate Valid()
      reads this
    {
      && Placed(inputs, slot)
      && |gone| == |inputs|
      && dropped == DropTotal(gone)
    }

    /** The spec state this object stands for. */
    ghost function Abs(): (j: Join)
      requires Valid()
      reads this
      ensures j.Valid() && |j.q| == |inputs|
    {
      Join(byPts, Logs(inputs, pending), EndedOf(inputs, eos), nextNS, gone)
    }

    /** What has left the queues has been recycled, but for a step's frames still in the stage's hands. */
    ghost predicate Held(frames: seq<Option<Frame>>)
      requires Valid() && |frames| == |inputs|
      reads this, recycler
    {
      AllDeparted(gone) == Joined(Logs(inputs, recycler.released), frames)
    }

    /** What has left the queues has been recycled, once each. */
    ghost predicate Returned()
      requires Valid()
      reads this, recycler
    {
      AllDeparted(gone) == Logs(inputs, recycler.released)
    }

    constructor (byPts: bool, inputs: seq<StreamID>, recycler: Recycler)
      requires forall i, k :: 0 <= i < k < |inputs| ==> inputs[i] != inputs[k]
      requires recycler.released == map[]
      ensures Valid() && Abs() == Init(byPts, |inputs|) && this.inputs == inputs && this.byPts == byPts
      ensures eos == {} && this.recycler == recycler && Returned()
    {
      this.byPts, this.inputs, this.recycler := byPts, inputs, recycler;
      slot := Positions(inputs);
      pending, eos, nextNS, dropped := map i | i in inputs :: [], {}, UNSET, 0;
      gone := seq(|inputs|, _ => []);
      new;
      NothingDropped(|inputs|);
    }

    static lemma {:induction false} NothingDropped(n: nat)
      ensures DropTotal(seq(n, _ => [])) == 0
    {
      if n > 0 {
        NothingDropped(n - 1);
        assert seq<seq<Fate>>(n, _ => [])[..n-1] == seq<seq<Fate>>(n - 1, _ => []);
      }
    }

    /** The first n frames of an arm leave its queue; its record gains their fates. */
    method Leave(i: nat, n: nat, drops: nat, ghost fates: seq<Fate>)
      requires Valid() && i < |inputs| && drops == DropsIn(fates) && n == |fates| <= |Log(pending, inputs[i])|
      modifies this`pending, this`dropped, this`gone
      ensures Valid() && Abs() == DepartOne(old(Abs()), i, fates) && dropped == old(dropped) + drops
    {
      DropsInMore(gone[i], fates);
      DropTotalUpdate(gone, i, gone[i] + fates);
      gone := gone[i := gone[i] + fates];
      dropped := dropped + drops;
      LogsUpdate(inputs, slot, pending, i, Log(pending, inputs[i])[n..]);
      pending := pending[inputs[i] := Log(pending, inputs[i])[n..]];
    }

    /** They leave it and are recycled. */
    method Discard(i: nat, n: nat, drops: nat, ghost fates: seq<Fate>)
      requires Valid() && Returned() && i < |inputs| && drops == DropsIn(fates) && n == |fates|
      requires n <= |Log(pending, inputs[i])| && Departed(fates) == Log(pending, inputs[i])[..n]
      modifies this`pending, this`dropped, this`gone, recycler`released, recycler`free
      ensures Valid() && Returned()
      ensures Abs() == DepartOne(old(Abs()), i, fates) && dropped == old(dropped) + drops
    {
      recycler.RecycleAll(inputs[i], Log(pending, inputs[i])[..n]);
      ReturnedMore(inputs, slot, old(gone), old(recycler.released), recycler.released, i, fates);
      Leave(i, n, drops, fates);
    }

    static lemma ReturnedMore(inputs: seq<StreamID>, slot: map<StreamID, nat>, gone: seq<seq<Fate>>,
                              before: map<StreamID, seq<Frame>>, after: map<StreamID, seq<Frame>>, i: nat, fates: seq<Fate>)
      requires Placed(inputs, slot)
      requires |gone| == |inputs| && AllDeparted(gone) == Logs(inputs, before) && i < |inputs|
      requires forall x :: Log(after, x) == Log(before, x) + if x == inputs[i] then Departed(fates) else []
      ensures AllDeparted(gone[i := gone[i] + fates]) == Logs(inputs, after)
    {
      DepartedMore(gone[i], fates);
      forall k | 0 <= k < |inputs|
        ensures AllDeparted(gone[i := gone[i] + fates])[k] == Logs(inputs, after)[k]
      {
        assert AllDeparted(gone)[k] == Logs(inputs, before)[k];
        assert k != i ==> inputs[k] != inputs[i];
      }
    }

    /** `buffer`: queue one frame behind the others of its arm. */
    method Buffer(id: StreamID, frame: Frame)
      requires Valid()
      modifies this`pending
      ensures Valid() && pending == old(pending)[id := Log(old(pending), id) + [frame]]
      ensures forall i :: 0 <= i < |inputs| && inputs[i] == id ==> Abs() == Deliver(old(Abs()), Arrive(i, frame))
      ensures id !in inputs ==> Abs() == old(Abs())
    {
      pending := pending[id := Log(pending, id) + [frame]];
      ghost var before := old(Abs());
      forall i | 0 <= i < |inputs| && inputs[i] == id
        ensures Abs() == Deliver(before, Arrive(i, frame))
      {
        assert Abs().q == before.q[i := before.q[i] + [frame]];
      }
      if id !in inputs {
        assert Abs().q == before.q;
      }
    }

    /** `markEOS`: record an arm's end; reports whether as many ids ended as there are arms. */
    method MarkEOS(id: StreamID) returns (all: bool)
      requires Valid()
      modifies this`eos
      ensures Valid() && eos == old(eos) + {id}
      ensures forall i :: 0 <= i < |inputs| && inputs[i] == id ==> Abs() == Deliver(old(Abs()), End(i))
      ensures (forall e :: e in eos ==> e in inputs) ==> (all <==> forall i :: 0 <= i < |inputs| ==> Abs().eos[i])
    {
      eos := eos + {id};
      all := |eos| >= |inputs|;
      ghost var before := old(Abs());
      forall i | 0 <= i < |inputs| && inputs[i] == id
        ensures Abs() == Deliver(before, End(i))
      {
        assert Abs().eos == before.eos[i := true];
      }
      if forall e :: e in eos ==> e in inputs {
        AllEnded(inputs, slot, eos);
      }
    }

    /** `discontinuity`: flush the named arm (every arm without a name) of a PTS join. */
    method Discontinuity(id: StreamID) returns (acted: bool)
      requires Valid() && Returned()
      modifies this`pending, this`dropped, this`nextNS, this`gone, recycler`released, recycler`free
      ensures Valid() && Returned() && acted == byPts
      ensures Accounts(Abs()) == Accounts(old(Abs()))
      ensures id == "" ==> Abs() == Flushed(old(Abs()), None)
      ensures forall i :: 0 <= i < |inputs| && inputs[i] == id && id != "" ==> Abs() == Flushed(old(Abs()), Some(i))
    {
      acted := byPts;
      if acted {
        FlushFit(Abs(), inputs, id);
        FlushArms(id);
        nextNS := UNSET;
        assert Abs() == FlushedBy(old(Abs()), inputs, id);
        if id == "" {
          FlushDepart(old(Abs()), inputs, id, None);
        }
        forall i | 0 <= i < |inputs| && inputs[i] == id && id != ""
          ensures Abs() == Flushed(old(Abs()), Some(i))
        {
          FlushDepart(old(Abs()), inputs, id, Some(i));
        }
      }
    }

    /** One arm of it. */
    method FlushArm(n: nat, id: StreamID, ghost before: Join)
      requires Valid() && Returned() && n < |inputs| == |before.q| && before.Valid()
      requires Abs() == DepartTo(before, FlushFates(before, inputs, id), n)
      modifies this`pending, this`dropped, this`gone, recycler`released, recycler`free
      ensures Valid() && Returned() && Abs() == DepartTo(before, FlushFates(before, inputs, id), n + 1)
    {
      DepartToAt(before, FlushFates(before, inputs, id), n, n);
      if Hit(inputs[n], id) {
        var queue := Log(pending, inputs[n]);
        DropsInUniform(AllDropped(queue));
        AllLeave(queue);
        Discard(n, |queue|, |queue|, AllDropped(queue));
      } else {
        DepartNone(Abs(), n);
      }
    }

    /** Its loop over the arms. */
    method FlushArms(id: StreamID)
      requires Valid() && Returned()
      modifies this`pending, this`dropped, this`gone, recycler`released, recycler`free
      ensures Valid() && Returned()
      ensures Abs() == DepartTo(old(Abs()), FlushFates(old(Abs()), inputs, id), |inputs|)
    {
      ghost var before := old(Abs());
      var n := 0;
      while n < |inputs|
        modifies this`pending, this`dropped, this`gone, recycler`released, recycler`free
        invariant 0 <= n <= |inputs| && Valid() && Returned()
        invariant Abs() == DepartTo(before, FlushFates(before, inputs, id), n)
      {
        FlushArm(n, id, before);
        n := n + 1;
      }
    }

    /** `ready`: some arm has a frame and every arm without one has ended. */
    method CheckReady() returns (ready: bool)
      requires Valid()
      ensures ready == Ready(Abs())
    {
      var any := false;
      for i := 0 to |inputs|
        invariant any <==> exists k :: 0 <= k < i && Abs().q[k] != []
        invariant forall k :: 0 <= k < i && Abs().q[k] == [] ==> Abs().eos[k]
      {
        assert Abs().q[i] == Log(pending, inputs[i]) && Abs().eos[i] == (inputs[i] in eos);
        if |Log(pending, inputs[i])| != 0 {
          any := true;
        } else if inputs[i] !in eos {
          return false;
        }
      }
      return any;
    }

    /** `dropStale`: discard heads behind the emitted timeline. */
    method DropStaleHeads()
      requires Valid() && Returned() && byPts
      modifies this`pending, this`dropped, this`gone, recycler`released, recycler`free
      ensures Valid() && Returned() && Abs() == DropStale(old(Abs()))
    {
      ghost var before := old(Abs());
      if nextNS == UNSET {
        IsUnchangedByDrop(before);
        return;
      }
      StaleDepart(before);
      var i := 0;
      while i < |inputs|
        modifies this`pending, this`dropped, this`gone, recycler`released, recycler`free
        invariant 0 <= i <= |inputs| && Valid() && Returned()
        invariant Abs() == DepartTo(before, StaleFates(before), i)
      {
        DropStaleArm(i, before);
        i := i + 1;
      }
    }

    method DropStaleArm(i: nat, ghost before: Join)
      requires Valid() && Returned() && i < |inputs| == |before.q| && before.Valid() && nextNS != UNSET
      requires Abs() == DepartTo(before, StaleFates(before), i)
      modifies this`pending, this`dropped, this`gone, recycler`released, recycler`free
      ensures Valid() && Returned() && Abs() == DepartTo(before, StaleFates(before), i + 1)
    {
      DepartToAt(before, StaleFates(before), i, i);
      var n := StaleHeads(Log(pending, inputs[i]));
      DropsInUniform(StaleFates(before)[i]);
      AllLeave(Log(pending, inputs[i])[..n]);
      Discard(i, n, n, StaleFates(before)[i]);
    }

    /** The inner loop of `dropStale`: how many heads of one queue it pops. */
    method StaleHeads(queue: seq<Frame>) returns (n: nat)
      requires nextNS != UNSET
      ensures n == StalePrefix(queue, nextNS)
    {
      n := 0;
      while n < |queue|
        invariant n <= |queue|
        invariant n + StalePrefix(queue[n..], nextNS) == StalePrefix(queue, nextNS)
      {
        if queue[n].ns.None? || queue[n].ns.value >= nextNS - queue[n].span / 2 {
          break;
        }
        assert queue[n..][1..] == queue[n+1..];
        n := n + 1;
      }
    }

    /** `selectArrival`: every pending head, stamped by the first. */
    method SelectArrival() returns (frames: seq<Option<Frame>>, ref: int)
      requires Valid()
      ensures |frames| == |inputs| && ref == FirstPending(Abs().q, |inputs|)
      ensures forall i :: 0 <= i < |inputs| ==>
                frames[i] == if Abs().q[i] == [] then None else Some(Abs().q[i][0])
    {
      ref, frames := -1, [];
      for i := 0 to |inputs|
        invariant |frames| == i && ref == FirstPending(Abs().q, i)
        invariant forall k :: 0 <= k < i ==> frames[k] == if Abs().q[k] == [] then None else Some(Abs().q[k][0])
      {
        var queue := Log(pending, inputs[i]);
        assert Abs().q[i] == queue;
        if |queue| == 0 {
          frames := frames + [None];
        } else {
          frames := frames + [Some(queue[0])];
          if ref < 0 {
            ref := i;
          }
        }
      }
    }

    /** The first loop of `selectPTS`: the arm whose head has the least usable time. */
    method FindTimeArm() returns (t: int)
      requires Valid()
      ensures t == Earliest(Abs().q, |inputs|)
    {
      t := -1;
      var tNS := 0;
      for i := 0 to |inputs|
        invariant t == Earliest(Abs().q, i)
        invariant t >= 0 ==> tNS == Abs().q[t][0].ns.value
      {
        var queue := Log(pending, inputs[i]);
        assert Abs().q[i] == queue;
        if |queue| != 0 && queue[0].ns.Some? && (t < 0 || queue[0].ns.value < tNS) {
          t, tNS := i, queue[0].ns.value;
        }
      }
    }

    /** `selectPTS`: heads within half the reference's span take part; the clock moves to the step's end. */
    method SelectPTS() returns (frames: seq<Option<Frame>>, ref: int)
      requires Valid() && byPts
      modifies this`nextNS
      ensures Valid() && frames == Slots(old(Abs())) && ref == RefArm(old(Abs()))
      ensures nextNS == Popped(old(Abs())).next
    {
      ghost var before := Abs();
      var t := FindTimeArm();
      if t < 0 {
        frames, ref := SelectArrival();
        assert frames == Slots(before);
        return;
      }
      var head := Log(pending, inputs[t])[0];
      assert head == before.q[t][0];
      frames := [];
      for i := 0 to |inputs|
        invariant |frames| == i
        invariant forall k :: 0 <= k < i ==> frames[k] == Slots(before)[k]
      {
        var queue := Log(pending, inputs[i]);
        assert before.q[i] == queue;
        if |queue| != 0 && (queue[0].ns.None? || queue[0].ns.value <= head.ns.value + head.span / 2) {
          frames := frames + [Some(queue[0])];
        } else {
          frames := frames + [None];
        }
      }
      nextNS := head.ns.value + head.span;
      ref := t;
    }

    method PopHead(i: nat, frames: seq<Option<Frame>>, ghost before: Join)
      requires Valid() && i < |inputs| == |frames| == |before.q| && before.Valid() && (frames[i].Some? ==> before.q[i] != [])
      requires Abs() == DepartTo(before, PopFates(frames), i)
      modifies this`pending, this`dropped, this`gone
      ensures Valid() && Abs() == DepartTo(before, PopFates(frames), i + 1)
    {
      DepartToAt(before, PopFates(frames), i, i);
      if frames[i].Some? {
        DropsInUniform([Played(frames[i].value)]);
        Leave(i, 1, 0, [Played(frames[i].value)]);
      } else {
        DepartNone(Abs(), i);
      }
    }

    /** The last loop of `step`: pop the head of every arm that takes part. */
    method PopHeads(frames: seq<Option<Frame>>)
      requires Valid() && Returned() && |frames| == |inputs|
      requires forall i :: 0 <= i < |inputs| && frames[i].Some? ==> Abs().q[i] != [] && frames[i].value == Abs().q[i][0]
      modifies this`pending, this`dropped, this`gone
      ensures Valid() && Held(frames)
      ensures Abs() == DepartTo(old(Abs()), PopFates(frames), |inputs|)
    {
      ghost var before := Abs();
      PopEach(frames, before);
      PopFit(before, frames);
      DepartToAll(before, PopFates(frames));
      HeldAfterPop(inputs, before.gone, gone, recycler.released, frames);
    }

    method PopEach(frames: seq<Option<Frame>>, ghost before: Join)
      requires Valid() && Abs() == before && |frames| == |inputs|
      requires forall i :: 0 <= i < |frames| && frames[i].Some? ==> before.q[i] != []
      modifies this`pending, this`dropped, this`gone
      ensures Valid() && Abs() == DepartTo(before, PopFates(frames), |inputs|)
    {
      var i := 0;
      while i < |inputs|
        modifies this`pending, this`dropped, this`gone
        invariant 0 <= i <= |inputs| && Valid()
        invariant Abs() == DepartTo(before, PopFates(frames), i)
      {
        PopHead(i, frames, before);
        i := i + 1;
      }
    }

    static lemma HeldAfterPop(inputs: seq<StreamID>, before: seq<seq<Fate>>, after: seq<seq<Fate>>, released: map<StreamID, seq<Frame>>, frames: seq<Option<Frame>>)
      requires |before| == |after| == |frames| == |inputs| && AllDeparted(before) == Logs(inputs, released)
      requires forall k :: 0 <= k < |frames| ==> after[k] == before[k] + if frames[k].Some? then [Played(frames[k].value)] else []
      ensures AllDeparted(after) == Joined(Logs(inputs, released), frames)
    {
      forall k | 0 <= k < |frames|
        ensures Departed(after[k]) == Log(released, inputs[k]) + One(frames[k])
      {
        assert AllDeparted(before)[k] == Logs(inputs, released)[k];
      }
    }

    /** The heads that take part, by mode; the clock moves as the pop will leave it. */
    method Select() returns (frames: seq<Option<Frame>>, ref: int)
      requires Valid()
      modifies this`nextNS
      ensures Valid() && frames == Slots(old(Abs())) && ref == RefArm(old(Abs()))
      ensures Abs() == old(Abs()).(next := Popped(old(Abs())).next)
    {
      if byPts {
        frames, ref := SelectPTS();
      } else {
        frames, ref := SelectArrival();
        assert frames == Slots(Abs());
      }
    }

    /** Those heads are popped. */
    method TakeHeads() returns (frames: seq<Option<Frame>>, ref: int)
      requires Valid() && Returned()
      modifies this`pending, this`dropped, this`nextNS, this`gone
      ensures Valid() && |frames| == |inputs| && Held(frames)
      ensures Abs() == Popped(old(Abs())) && frames == Slots(old(Abs())) && ref == RefArm(old(Abs()))
    {
      ghost var before := Abs();
      frames, ref := Select();
      ghost var moved := Abs();
      PopFit(moved, frames);
      PopHeads(frames);
      PopsAlike(before, moved, frames);
    }

    /** `step`: the next aligned set of heads, or nothing when the join cannot advance. */
    method Step() returns (frames: seq<Option<Frame>>, ref: int, ok: bool)
      requires Valid() && Returned()
      modifies this`pending, this`dropped, this`nextNS, this`gone, recycler`released, recycler`free
      ensures Valid() && eos == old(eos)
      ensures if ok then |frames| == |inputs| && Held(frames) else Returned()
      ensures Abs() == StepOnce(old(Abs())).0
      ensures ok == StepOnce(old(Abs())).1.Some?
      ensures ok ==> JoinStep(frames, ref) == StepOnce(old(Abs())).1.value
    {
      ghost var start := Abs();
      if byPts {
        DropStaleHeads();
      }
      ghost var before := Abs();
      assert before == DropStale(start);
      var ready := CheckReady();
      if !ready {
        return [], 0, false;
      }
      frames, ref := TakeHeads();
      ok := true;
    }

    method RecycleArm(i: nat, ghost before: Join)
      requires Valid() && Returned() && i < |inputs| == |before.q| && before.Valid()
      requires Abs() == DepartTo(before, ReclaimFates(before), i)
      modifies this`pending, this`dropped, this`gone, recycler`released, recycler`free
      ensures Valid() && Returned() && Abs() == DepartTo(before, ReclaimFates(before), i + 1)
    {
      DepartToAt(before, ReclaimFates(before), i, i);
      var queue := Log(pending, inputs[i]);
      DropsInUniform(AllReclaimed(queue));
      AllLeave(queue);
      Discard(i, |queue|, 0, AllReclaimed(queue));
    }

    /** `recyclePending`: give every buffered frame back. */
    method RecyclePending()
      requires Valid() && Returned()
      modifies this`pending, this`dropped, this`gone, recycler`released, recycler`free
      ensures Valid() && Returned() && Abs() == GivenBack(old(Abs())) && Accounts(Abs()) == Accounts(old(Abs()))
    {
      ghost var before := Abs();
      ReclaimDepart(before);
      var i := 0;
      while i < |inputs|
        modifies this`pending, this`dropped, this`gone, recycler`released, recycler`free
        invariant 0 <= i <= |inputs| && Valid() && Returned()
        invariant Abs() == DepartTo(before, ReclaimFates(before), i)
      {
        RecycleArm(i, before);
        i := i + 1;
      }
    }
  }

  // ---------------------------------------------------------------------
  // The stage around it
  // ---------------------------------------------------------------------

  /** What the stage emits. */
  datatype Output = Mixed(step: JoinStep) | Ended | Broke

  function AllMixed(steps: seq<JoinStep>): (r: seq<Output>)
    ensures |r| == |steps| && forall k :: 0 <= k < |steps| ==> r[k] == Mixed(steps[k])
  {
    seq(|steps|, k requires 0 <= k < |steps| => Mixed(steps[k]))
  }

  lemma AllMixedMore(a: seq<JoinStep>, b: seq<JoinStep>)
    ensures AllMixed(a + b) == AllMixed(a) + AllMixed(b)
  {
  }

  lemma EmittedMore(was: seq<Output>, done: seq<JoinStep>, step: JoinStep)
    ensures was + AllMixed(done) + [Mixed(step)] == was + AllMixed(done + [step])
  {
    AllMixedMore(done, [step]);
    assert AllMixed([step]) == [Mixed(step)];
    Assoc(was, AllMixed(done), [Mixed(step)]);
  }

  /** The drain from start has emitted `done` and stands at cur. */
  ghost predicate Continues(start: Join, done: seq<JoinStep>, cur: Join) {
    && start.Valid() && cur.Valid() && |cur.q| == |start.q|
    && Drain(start).0 == Drain(cur).0 && Drain(start).1 == done + Drain(cur).1
  }

  lemma {:induction false} DrainBegins(start: Join, was: seq<Output>)
    requires start.Valid()
    ensures Continues(start, [], start) && was == was + AllMixed([])
  {
    assert forall s: seq<JoinStep> :: [] + s == s;
    assert AllMixed([]) == [];
  }

  lemma {:induction false} ContinuesStep(start: Join, done: seq<JoinStep>, cur: Join)
    requires Continues(start, done, cur)
    ensures StepOnce(cur).1.None? ==> Drain(start) == (StepOnce(cur).0, done)
    ensures StepOnce(cur).1.Some? ==> Continues(start, done + [StepOnce(cur).1.value], StepOnce(cur).0)
    ensures StepOnce(cur).1.Some? ==> |Drain(start).1| > |done| && Drain(start).1[..|done|] == done
    ensures StepOnce(cur).1.Some? ==> Pending(StepOnce(cur).0.q) < Pending(cur.q)
  {
    StepShrinks(cur);
    var (k, s) := StepOnce(cur);
    if s.None? {
      assert done + [] == done;
    } else {
      Assoc(done, [s.value], Drain(k).1);
    }
  }

  lemma {:induction false} StepAccounts(j: Join)
    requires j.Valid()
    ensures StepOnce(j).0.Valid() && Accounts(StepOnce(j).0) == Accounts(j)
  {
    forall i | 0 <= i < |j.q|
      ensures Account(StepOnce(j).0, i) == Account(j, i)
    {
      AdvanceKeepsAccount(j, i);
    }
    SameAccounts(StepOnce(j).0, j);
  }

  /** Per stream: the references taken are those given back, then those of the queued frames. */
  ghost predicate Balances(inputs: seq<StreamID>, taken: map<StreamID, seq<Frame>>, released: map<StreamID, seq<Frame>>, pending: map<StreamID, seq<Frame>>) {
    forall i :: 0 <= i < |inputs| ==> Log(taken, inputs[i]) == Log(released, inputs[i]) + Log(pending, inputs[i])
  }

  lemma NothingQueued(inputs: seq<StreamID>, taken: map<StreamID, seq<Frame>>, released: map<StreamID, seq<Frame>>, pending: map<StreamID, seq<Frame>>)
    requires Balances(inputs, taken, released, pending) && forall i :: 0 <= i < |inputs| ==> Log(pending, inputs[i]) == []
    ensures Logs(inputs, released) == Logs(inputs, taken)
  {
    forall i | 0 <= i < |inputs|
      ensures Log(released, inputs[i]) == Log(taken, inputs[i])
    {
      assert Log(released, inputs[i]) + [] == Log(released, inputs[i]);
    }
  }

  lemma AllGivenBack(inputs: seq<StreamID>, taken: map<StreamID, seq<Frame>>, released: map<StreamID, seq<Frame>>, pending: map<StreamID, seq<Frame>>, j: Join)
    requires Balances(inputs, taken, released, pending) && j.Valid() && Logs(inputs, pending) == GivenBack(j).q
    ensures (forall i :: 0 <= i < |inputs| ==> Log(pending, inputs[i]) == []) && Logs(inputs, released) == Logs(inputs, taken)
  {
    forall i | 0 <= i < |inputs|
      ensures Log(pending, inputs[i]) == []
    {
      assert Logs(inputs, pending)[i] == GivenBack(j).q[i];
    }
    NothingQueued(inputs, taken, released, pending);
  }

  lemma StillBalances(inputs: seq<StreamID>, taken: map<StreamID, seq<Frame>>, released: map<StreamID, seq<Frame>>, pending: map<StreamID, seq<Frame>>,
                      id: StreamID, clone: Frame)
    requires Balances(inputs, taken, released, pending)
    ensures Balances(inputs, taken[id := Log(taken, id) + [clone]], released, pending[id := Log(pending, id) + [clone]])
  {
    Assoc(Log(released, id), Log(pending, id), [clone]);
  }

  /** With every departure recycled, the stage balances exactly when each arm's account is what was taken for it. */
  lemma {:induction false} BalancesAre(inputs: seq<StreamID>, taken: map<StreamID, seq<Frame>>, released: map<StreamID, seq<Frame>>, pending: map<StreamID, seq<Frame>>, j: Join)
    requires j.Valid() && |j.q| == |inputs| && AllDeparted(j.gone) == Logs(inputs, released)
    requires j.q == Logs(inputs, pending)
    ensures Balances(inputs, taken, released, pending) <==> Logs(inputs, taken) == Accounts(j)
  {
    forall i | 0 <= i < |inputs|
      ensures Account(j, i) == Log(released, inputs[i]) + Log(pending, inputs[i])
    {
      assert AllDeparted(j.gone)[i] == Logs(inputs, released)[i];
    }
    if Logs(inputs, taken) == Accounts(j) {
      forall i | 0 <= i < |inputs|
        ensures Log(taken, inputs[i]) == Log(released, inputs[i]) + Log(pending, inputs[i])
      {
        assert Logs(inputs, taken)[i] == Accounts(j)[i];
      }
    }
  }

  /** How a call of the stage ends. */
  datatype Exit = Drained | MixFailed | EmitFailed | Closed

  /**
   * What a drain does when the mixer fails after `mixes` steps and the emitter
   * after `room` messages: it emits the steps before the first failure, loses
   * that one step, and leaves the rest for the next call.
   */
  ghost predicate Outcome(start: Join, end: Join, before: seq<Output>, after: seq<Output>, exit: Exit, room: nat, mixes: nat) {
    var k := if mixes <= room then mixes else room;
    && start.Valid() && end.Valid()
    && if |Drain(start).1| <= k
       then exit == Drained && end == Drain(start).0 && after == before + AllMixed(Drain(start).1)
       else && exit == (if mixes <= room then MixFailed else EmitFailed)
            && after == before + AllMixed(Drain(start).1[..k])
            && Drain(end) == (Drain(start).0, Drain(start).1[k+1..])
  }

  lemma {:induction false} RanThrough(start: Join, done: seq<JoinStep>, end: Join, was: seq<Output>, room: nat, mixes: nat)
    requires start.Valid() && end.Valid() && Drain(start) == (end, done) && |done| <= room && |done| <= mixes
    ensures Outcome(start, end, was, was + AllMixed(done), Drained, room, mixes)
  {
  }

  lemma {:induction false} LostOne(start: Join, done: seq<JoinStep>, step: JoinStep, cur: Join, was: seq<Output>, room: nat, mixes: nat)
    requires Continues(start, done + [step], cur) && |done| <= room && |done| <= mixes
    requires |done| == room || |done| == mixes
    ensures Outcome(start, cur, was, was + AllMixed(done), if |done| == mixes then MixFailed else EmitFailed, room, mixes)
  {
    assert Drain(start).1 == done + [step] + Drain(cur).1;
    assert Drain(start).1[..|done|] == done;
    assert Drain(start).1[|done|+1..] == Drain(cur).1;
  }

  /** The same for the end of an arm: after the last one's, the joined end follows the steps if there is room. */
  ghost predicate EndOutcome(start: Join, end: Join, before: seq<Output>, after: seq<Output>, exit: Exit, room: nat, mixes: nat) {
    && start.Valid()
    && if |Drain(start).1| <= room && |Drain(start).1| <= mixes && forall k :: 0 <= k < |start.eos| ==> start.eos[k]
       then && end == Drain(start).0
            && exit == (if |Drain(start).1| < room then Drained else EmitFailed)
            && after == before + AllMixed(Drain(start).1) + if exit == Drained then [Ended] else []
       else Outcome(start, end, before, after, exit, room, mixes)
  }

  /** After a drain that ran through, the joined end follows exactly when every arm ended, on empty queues. */
  lemma {:induction false} EndsBy(start: Join, end: Join, before: seq<Output>, after: seq<Output>, exit: Exit, room: nat, mixes: nat)
    requires Outcome(start, end, before, after, exit, room, mixes)
    ensures end.Valid() && (Ended in after <==> Ended in before)
    ensures exit == Drained ==> end.eos == start.eos && |after| == |before| + |Drain(start).1|
    ensures exit == Drained && (forall k :: 0 <= k < |start.eos| ==> start.eos[k]) ==>
      && (forall k :: 0 <= k < |end.q| ==> end.q[k] == [])
      && EndOutcome(start, end, before, if |Drain(start).1| < room then after + [Ended] else after,
                    if |Drain(start).1| < room then Drained else EmitFailed, room, mixes)
    ensures !(exit == Drained && forall k :: 0 <= k < |start.eos| ==> start.eos[k]) ==>
      EndOutcome(start, end, before, after, exit, room, mixes)
  {
    DrainStops(start);
  }

  class MixStage {
    const sync: JoinSync
    var closed: bool
    /** Everything the downstream emitter accepted. */
    var emitted: seq<Output>

    /**
     * Every reference taken for an arm has been given back once, in order, or belongs
     * to a frame still queued; a closed stage holds none, and no pooled header.
     */
    ghost predicate Valid()
      reads this`closed, sync, sync.recycler
    {
      && sync.Valid() && sync.Returned() && Balanced()
      && (closed ==> sync.recycler.free == map[] && forall i :: 0 <= i < |sync.inputs| ==> Log(sync.pending, sync.inputs[i]) == [])
    }

    ghost predicate Balanced()
      reads sync, sync.recycler
    {
      Balances(sync.inputs, sync.recycler.taken, sync.recycler.released, sync.pending)
    }

    constructor (byPts: bool, inputs: seq<StreamID>, depth: nat)
      requires forall i, k :: 0 <= i < k < |inputs| ==> inputs[i] != inputs[k]
      ensures Valid() && fresh(sync) && fresh(sync.recycler) && sync.Abs() == Init(byPts, |inputs|)
      ensures sync.inputs == inputs && sync.byPts == byPts && !closed && emitted == []
    {
      var recycler := new Recycler(inputs, depth);
      sync := new JoinSync(byPts, inputs, recycler);
      closed, emitted := false, [];
      new;
      assert forall i :: 0 <= i < |inputs| ==> Log(sync.pending, inputs[i]) == sync.Abs().q[i] == [];
    }

    /** The stage balances exactly when each arm's account is what was taken for it. */
    lemma BalancedBy()
      requires sync.Valid() && sync.Returned()
      ensures Balanced() <==> Logs(sync.inputs, sync.recycler.taken) == Accounts(sync.Abs())
    {
      BalancesAre(sync.inputs, sync.recycler.taken, sync.recycler.released, sync.pending, sync.Abs());
    }

    /** `recycleStepFrames`: give the step's frames back. */
    method RecycleStepFrames(frames: seq<Option<Frame>>)
      requires sync.Valid() && |frames| == |sync.inputs| && sync.Held(frames)
      modifies sync.recycler`released, sync.recycler`free
      ensures sync.Valid() && sync.Returned()
    {
      var i := 0;
      ghost var before := Logs(sync.inputs, sync.recycler.released);
      while i < |frames|
        modifies sync.recycler`released, sync.recycler`free
        invariant 0 <= i <= |frames|
        invariant forall k :: 0 <= k < |frames| ==> Log(sync.recycler.released, sync.inputs[k]) == before[k] + if k < i then One(frames[k]) else []
      {
        if frames[i].Some? {
          sync.recycler.Recycle(sync.inputs[i], frames[i].value);
        }
        i := i + 1;
      }
      assert Logs(sync.inputs, sync.recycler.released) == Joined(before, frames);
    }

    /** One turn of `drain` up to the emit: the step's frames are recycled after a failed mix, and after a good one. */
    method MixNext(mixes: bool) returns (next: Option<JoinStep>)
      requires sync.Valid() && sync.Returned()
      modifies sync, sync.recycler`released, sync.recycler`free
      ensures sync.Valid() && sync.Returned() && sync.eos == old(sync.eos)
      ensures (sync.Abs(), next) == StepOnce(old(sync.Abs()))
    {
      var frames, ref, stepped := sync.Step();
      if !stepped {
        return None;
      }
      next := Some(JoinStep(frames, ref));
      if !mixes {
        RecycleStepFrames(frames);
        return;
      }
      RecycleStepFrames(frames);
    }

    /** The same turn, in a drain that began at `start` and has done `done`. */
    method Turn(mixes: bool, ghost start: Join, ghost done: seq<JoinStep>) returns (next: Option<JoinStep>)
      requires Valid() && !closed && Continues(start, done, sync.Abs())
      modifies sync, sync.recycler`released, sync.recycler`free
      ensures Valid() && sync.eos == old(sync.eos)
      ensures next.None? ==> Drain(start) == (sync.Abs(), done)
      ensures next.Some? ==> Continues(start, done + [next.value], sync.Abs()) && Pending(sync.Abs().q) < Pending(old(sync.Abs()).q)
    {
      BalancedBy();
      next := MixNext(mixes);
      ContinuesStep(start, done, old(sync.Abs()));
      StepAccounts(old(sync.Abs()));
      BalancedBy();
    }

    /**
     * `drain`: emit steps until the join cannot advance, the mixer fails or the
     * emitter does; a step's frames are recycled on every way out.
     */
    method DrainSteps(room: nat, mixes: nat) returns (exit: Exit)
      requires Valid() && !closed
      modifies sync, sync.recycler`released, sync.recycler`free, this`emitted
      ensures Valid() && sync.eos == old(sync.eos)
      ensures Outcome(old(sync.Abs()), sync.Abs(), old(emitted), emitted, exit, room, mixes)
    {
      ghost var start := sync.Abs();
      ghost var done: seq<JoinStep> := [];
      DrainBegins(start, emitted);
      var n := 0;
      while true
        invariant Valid() && sync.eos == old(sync.eos)
        invariant n == |done| && n <= room && n <= mixes
        invariant Continues(start, done, sync.Abs())
        invariant emitted == old(emitted) + AllMixed(done)
        decreases Pending(sync.Abs().q)
      {
        var next := Turn(n != mixes, start, done);
        if next.None? {
          RanThrough(start, done, sync.Abs(), old(emitted), room, mixes);
          return Drained;
        }
        if n == mixes || n == room {
          LostOne(start, done, next.value, sync.Abs(), old(emitted), room, mixes);
          return if n == mixes then MixFailed else EmitFailed;
        }
        EmittedMore(old(emitted), done, next.value);
        emitted := emitted + [Mixed(next.value)];
        done, n := done + [next.value], n + 1;
      }
    }

    /** `Handle` for a frame: one without an audio header is ignored. */
    method HandleFrame(id: StreamID, frame: MediaFrame, room: nat, mixes: nat) returns (exit: Exit)
      requires Valid()
      modifies sync, sync.recycler, this`emitted
      ensures Valid() && sync.eos == old(sync.eos)
      ensures closed || frame.audio.None? ==>
                && exit == (if closed then Closed else Drained) && sync.Abs() == old(sync.Abs()) && emitted == old(emitted)
                && sync.recycler.taken == old(sync.recycler.taken)
      ensures !closed && frame.audio.Some? ==>
                sync.recycler.taken == old(sync.recycler.taken)[id := Log(old(sync.recycler.taken), id) + [OnClock(frame)]]
      ensures !closed && frame.audio.Some? ==> forall i :: 0 <= i < |sync.inputs| && sync.inputs[i] == id ==>
                Outcome(Deliver(old(sync.Abs()), Arrive(i, OnClock(frame))), sync.Abs(), old(emitted), emitted, exit, room, mixes)
    {
      if closed {
        return Closed;
      }
      if frame.audio.None? {
        return Drained;
      }
      var clone := sync.recycler.Clone(id, frame);
      sync.Buffer(id, clone);
      StillBalances(sync.inputs, old(sync.recycler.taken), sync.recycler.released, old(sync.pending), id, clone);
      exit := DrainSteps(room, mixes);
    }

    /** The joined end follows the drain when the last arm has ended. */
    method DrainThenEnd(last: bool, room: nat, mixes: nat) returns (exit: Exit)
      requires Valid() && !closed && (last <==> forall k :: 0 <= k < |sync.inputs| ==> sync.Abs().eos[k])
      modifies sync, sync.recycler`released, sync.recycler`free, this`emitted
      ensures Valid() && sync.eos == old(sync.eos)
      ensures EndOutcome(old(sync.Abs()), sync.Abs(), old(emitted), emitted, exit, room, mixes)
      ensures Ended in emitted && Ended !in old(emitted) ==> last && forall k :: 0 <= k < |sync.inputs| ==> sync.Abs().q[k] == []
    {
      var start := |emitted|;
      exit := DrainSteps(room, mixes);
      EndsBy(old(sync.Abs()), sync.Abs(), old(emitted), emitted, exit, room, mixes);
      if exit == Drained && last {
        if |emitted| < start + room {
          emitted := emitted + [Ended];
        } else {
          exit := EmitFailed;
        }
      }
    }

    /**
     * `Handle` for the end of an arm: drain what the others can still join, and
     * only after the last arm's end emit the joined end.
     */
    method HandleEnd(id: StreamID, room: nat, mixes: nat) returns (exit: Exit)
      requires Valid() && id in sync.inputs && (forall e :: e in sync.eos ==> e in sync.inputs)
      modifies sync, sync.recycler`released, sync.recycler`free, this`emitted
      ensures Valid() && (forall e :: e in sync.eos ==> e in sync.inputs)
      ensures closed ==> exit == Closed && sync.Abs() == old(sync.Abs()) && emitted == old(emitted)
      ensures !closed ==> forall i :: 0 <= i < |sync.inputs| && sync.inputs[i] == id ==>
                EndOutcome(Deliver(old(sync.Abs()), End(i)), sync.Abs(), old(emitted), emitted, exit, room, mixes)
      ensures Ended in emitted && Ended !in old(emitted) ==>
                forall k :: 0 <= k < |sync.inputs| ==> sync.Abs().eos[k] && sync.Abs().q[k] == []
    {
      if closed {
        return Closed;
      }
      var last := sync.MarkEOS(id);
      exit := DrainThenEnd(last, room, mixes);
    }

    /** `Handle` for a break: a PTS join flushes and forwards it, an arrival join ignores it. */
    method HandleBreak(id: StreamID, room: nat) returns (exit: Exit)
      requires Valid()
      modifies sync, sync.recycler`released, sync.recycler`free, this`emitted
      ensures Valid() && sync.eos == old(sync.eos)
      ensures closed ==> exit == Closed && sync.Abs() == old(sync.Abs()) && emitted == old(emitted)
      ensures !closed ==> exit == (if sync.byPts && room == 0 then EmitFailed else Drained)
      ensures !closed ==> emitted == old(emitted) + if sync.byPts && room > 0 then [Broke] else []
      ensures !closed && id == "" ==> sync.Abs() == Flushed(old(sync.Abs()), None)
      ensures !closed && id != "" ==> forall i :: 0 <= i < |sync.inputs| && sync.inputs[i] == id ==>
                sync.Abs() == Flushed(old(sync.Abs()), Some(i))
    {
      if closed {
        return Closed;
      }
      BalancedBy();
      var acted := sync.Discontinuity(id);
      BalancedBy();
      if !acted {
        return Drained;
      }
      if room == 0 {
        return EmitFailed;
      }
      emitted := emitted + [Broke];
      exit := Drained;
    }

    /** `Close`: give every buffered frame back, and let the pooled headers go, once. */
    method Close()
      requires Valid()
      modifies sync, sync.recycler`released, sync.recycler`free, this`closed
      ensures Valid() && closed && sync.recycler.free == map[]
      ensures sync.Abs() == if old(closed) then old(sync.Abs()) else GivenBack(old(sync.Abs()))
      ensures Logs(sync.inputs, sync.recycler.released) == Logs(sync.inputs, sync.recycler.taken)
    {
      BalancedBy();
      if closed {
        NothingQueued(sync.inputs, sync.recycler.taken, sync.recycler.released, sync.pending);
      } else {
        closed := true;
        sync.RecyclePending();
        BalancedBy();
        AllGivenBack(sync.inputs, sync.recycler.taken, sync.recycler.released, sync.pending, old(sync.Abs()));
        sync.recycler.Clear();
      }
    }
  }
}
