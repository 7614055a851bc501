/** Taking a branch out of a running graph: `stopLocked` in `runtime_attach.go`. */
module BranchStop {
  import opened Graphs
  import opened DrainOrder
  import opened Lifecycle
  import opened LifecycleTask

  /** What the graph answers: done, already stopped, or a real failure. */
  datatype Outcome = Done | Stopped | Failed

  /**
   * The removal of a node: its outcome, whether it runs the node's finalizer, and how that fares if the node is a
   * destination. One that times out or is refused does not run it; it runs later, if at all.
   */
  datatype Removal = Removal(outcome: Outcome, ran: bool, closeErr: bool, writerErr: bool)

  /** A route into the branch from outside it. */
  predicate Ingress(nodes: seq<Vertex>, route: Route) {
    route.from !in nodes
  }

  predicate CutFailed(nodes: seq<Vertex>, routes: seq<Route>, cuts: seq<Outcome>, n: nat)
    requires n <= |routes| == |cuts|
  {
    exists i | 0 <= i < n :: Ingress(nodes, routes[i]) && cuts[i].Failed?
  }

  predicate RemovalFailed(order: seq<Vertex>, removals: map<Vertex, Removal>, n: nat)
    requires n <= |order| && forall i :: 0 <= i < |order| ==> order[i] in removals
  {
    exists i | 0 <= i < n :: removals[order[i]].outcome.Failed?
  }

  /** The destination as its finalizer finds it. */
  function Found(d: Dest, aborted: bool): Dest {
    if aborted then d.(failed := true, muxFailed := true) else d
  }

  /** Whether a destination commits when its node is removed. */
  predicate CommitsWith(d: Dest, graphErr: bool, aborted: bool, removal: Removal) {
    && Committable(Found(d, aborted), graphErr)
    && !removal.closeErr && (d.sink || !removal.writerErr)
  }

  class Branch {
    const owner: Task
    const id: Att
    const nodes: seq<Vertex>
    const routes: seq<Route>
    const txAt: map<Vertex, Tx>

    constructor (owner: Task, id: Att, nodes: seq<Vertex>, routes: seq<Route>, txAt: map<Vertex, Tx>)
      ensures this.owner == owner && this.id == id && this.nodes == nodes && this.routes == routes && this.txAt == txAt
    {
      this.owner, this.id, this.nodes, this.routes, this.txAt := owner, id, nodes, routes, txAt;
    }

    /** The branch is registered, and its destinations are distinct transactions of it. */
    ghost predicate Valid()
      reads owner
    {
      && owner.Valid() && id in owner.attachments && Distinct(nodes)
      && (forall n :: n in txAt ==> n in nodes && txAt[n] in TxSet(owner.attachments[id].transactions))
      && (forall m, n :: m in txAt && n in txAt && txAt[m] == txAt[n] ==> m == n)
    }

    /** The first real failure abandons every destination of the branch. */
    method Abandon(aborted: bool, outcome: Outcome) returns (now: bool)
      requires Valid()
      modifies owner`ledger, owner`attachments
      ensures Valid() && owner.attachments == old(owner.attachments)
      ensures now == (aborted || outcome.Failed?)
      ensures owner.ledger == if now && !aborted
        then Disposed(old(owner.ledger), TxSet(owner.attachments[id].transactions), Abort)
        else old(owner.ledger)
    {
      now := aborted || outcome.Failed?;
      if outcome.Failed? && !aborted {
        ghost var before := owner.Abs();
        owner.SetAttachmentDisposition(id, Abort);
        assert owner.Abs().ledger == Disposed(before.ledger, before.active[id].txs, Abort);
      }
    }

    /** A destination node's removal runs its finalizer. */
    method Finalize(node: Vertex, removal: Removal)
      requires Valid() && node in txAt && owner.ledger[txAt[node]].phase.Live?
      modifies owner`ledger
      ensures Valid()
      ensures var tx, d := txAt[node], old(owner.ledger)[txAt[node]];
        && owner.ledger == old(owner.ledger)[tx := owner.ledger[tx]]
        && owner.ledger[tx].phase == Settled(CommitsWith(d, owner.graphErr, false, removal))
    {
      var tx := txAt[node];
      if owner.ledger[tx].sink {
        var _ := owner.CloseSink(tx, removal.closeErr);
      } else {
        var _ := owner.CloseMuxer(tx, removal.closeErr, removal.writerErr);
      }
    }

    /** Destinations not yet finalized, as the stop has left them. */
    ghost predicate Waiting(before: map<Tx, Dest>, now: map<Tx, Dest>, gone: seq<Vertex>, removals: map<Vertex, Removal>, aborted: bool) {
      forall n :: n in txAt && (n !in gone || (n in removals && !removals[n].ran)) ==>
        txAt[n] in now && txAt[n] in before && now[txAt[n]] == Found(before[txAt[n]], aborted)
    }

    /** The routes into the branch are cut first. */
    method CutIngress(cuts: seq<Outcome>, ghost removals: map<Vertex, Removal>) returns (aborted: bool)
      requires Valid() && |cuts| == |routes|
      modifies owner`ledger, owner`attachments
      ensures Valid() && owner.attachments == old(owner.attachments)
      ensures aborted == CutFailed(nodes, routes, cuts, |routes|)
      ensures Waiting(old(owner.ledger), owner.ledger, [], removals, aborted)
    {
      aborted := false;
      for i := 0 to |routes|
        invariant Valid() && owner.attachments == old(owner.attachments)
        invariant aborted == CutFailed(nodes, routes, cuts, i)
        invariant Waiting(old(owner.ledger), owner.ledger, [], removals, aborted)
      {
        if Ingress(nodes, routes[i]) {
          aborted := Abandon(aborted, cuts[i]);
        }
      }
    }

    /** The k-th node out, if a destination, has settled as what came before it allows. */
    ghost predicate SettledAt(before: map<Tx, Dest>, now: map<Tx, Dest>, graphErr: bool,
                              order: seq<Vertex>, removals: map<Vertex, Removal>, cut: bool, k: nat)
      requires k < |order| && forall i :: 0 <= i < |order| ==> order[i] in removals
    {
      order[k] in txAt && removals[order[k]].ran ==>
        var tx := txAt[order[k]];
        && tx in before && tx in now
        && now[tx].phase ==
           Settled(CommitsWith(before[tx], graphErr, cut || RemovalFailed(order, removals, k), removals[order[k]]))
    }

    /** A node's turn leaves the earlier ones settled and the later ones waiting. */
    lemma TurnTaken(before: map<Tx, Dest>, now: map<Tx, Dest>, after: map<Tx, Dest>, graphErr: bool,
                    order: seq<Vertex>, removals: map<Vertex, Removal>, cut: bool, k: nat)
      requires k < |order| && Distinct(order) && forall i :: 0 <= i < |order| ==> order[i] in removals
      requires forall m, n :: m in txAt && n in txAt && txAt[m] == txAt[n] ==> m == n
      requires Waiting(before, now, order[..k], removals, cut || RemovalFailed(order, removals, k))
      requires forall j :: 0 <= j < k ==> SettledAt(before, now, graphErr, order, removals, cut, j)
      requires SettledAt(before, after, graphErr, order, removals, cut, k)
      requires forall tx :: tx in now && (order[k] in txAt && removals[order[k]].ran ==> tx != txAt[order[k]]) ==> tx in after && after[tx] == now[tx]
      ensures Waiting(before, after, order[..k+1], removals, cut || RemovalFailed(order, removals, k))
      ensures forall j :: 0 <= j < k + 1 ==> SettledAt(before, after, graphErr, order, removals, cut, j)
    {
      forall j | 0 <= j < k
        ensures SettledAt(before, after, graphErr, order, removals, cut, j)
      {
        assert SettledAt(before, now, graphErr, order, removals, cut, j);
        assert order[j] != order[k];
      }
    }

    /** Abandoning the branch touches no outcome already settled. */
    lemma AbandonKeeps(before: map<Tx, Dest>, now: map<Tx, Dest>, txs: set<Tx>, gone: seq<Vertex>, removals: map<Vertex, Removal>)
      requires forall n :: n in txAt ==> txAt[n] in txs
      requires Waiting(before, now, gone, removals, false)
      ensures Waiting(before, Disposed(now, txs, Abort), gone, removals, true)
      ensures forall tx :: tx in now ==> tx in Disposed(now, txs, Abort) && Disposed(now, txs, Abort)[tx].phase == now[tx].phase
    {
    }

    /** One removal: the finalizer first, then what the removal's own failure means for the rest. */
    method RemoveNode(ghost before: map<Tx, Dest>, order: seq<Vertex>, removals: map<Vertex, Removal>, ghost cut: bool, k: nat, aborted: bool)
      returns (failed: bool)
      requires Valid() && Distinct(order) && k < |order| && forall i :: 0 <= i < |order| ==> order[i] in removals
      requires forall n :: n in txAt ==> txAt[n] in before && before[txAt[n]].phase.Live?
      requires aborted == (cut || RemovalFailed(order, removals, k))
      requires Waiting(before, owner.ledger, order[..k], removals, aborted)
      requires forall j :: 0 <= j < k ==> SettledAt(before, owner.ledger, owner.graphErr, order, removals, cut, j)
      modifies owner`ledger, owner`attachments
      ensures Valid() && owner.attachments == old(owner.attachments)
      ensures failed == (cut || RemovalFailed(order, removals, k + 1))
      ensures Waiting(before, owner.ledger, order[..k+1], removals, failed)
      ensures forall j :: 0 <= j < k + 1 ==> SettledAt(before, owner.ledger, owner.graphErr, order, removals, cut, j)
    {
      TakeTurn(before, order, removals, cut, k);
      ghost var after := owner.ledger;
      failed := Abandon(aborted, removals[order[k]].outcome);
      if failed && !aborted {
        AbandonKeeps(before, after, TxSet(owner.attachments[id].transactions), order[..k+1], removals);
        SettledStay(before, after, owner.ledger, owner.graphErr, order, removals, cut, k + 1);
      }
    }

    lemma SettledStay(before: map<Tx, Dest>, now: map<Tx, Dest>, after: map<Tx, Dest>, graphErr: bool,
                      order: seq<Vertex>, removals: map<Vertex, Removal>, cut: bool, k: nat)
      requires k <= |order| && forall i :: 0 <= i < |order| ==> order[i] in removals
      requires forall j :: 0 <= j < k ==> SettledAt(before, now, graphErr, order, removals, cut, j)
      requires forall tx :: tx in now ==> tx in after && after[tx].phase == now[tx].phase
      ensures forall j :: 0 <= j < k ==> SettledAt(before, after, graphErr, order, removals, cut, j)
    {
      forall j | 0 <= j < k
        ensures SettledAt(before, after, graphErr, order, removals, cut, j)
      {
        assert SettledAt(before, now, graphErr, order, removals, cut, j);
      }
    }

    /** The node's finalizer, if the removal runs it. */
    method TakeTurn(ghost before: map<Tx, Dest>, order: seq<Vertex>, removals: map<Vertex, Removal>, ghost cut: bool, k: nat)
      requires Valid() && Distinct(order) && k < |order| && forall i :: 0 <= i < |order| ==> order[i] in removals
      requires forall n :: n in txAt ==> txAt[n] in before && before[txAt[n]].phase.Live?
      requires Waiting(before, owner.ledger, order[..k], removals, cut || RemovalFailed(order, removals, k))
      requires forall j :: 0 <= j < k ==> SettledAt(before, owner.ledger, owner.graphErr, order, removals, cut, j)
      modifies owner`ledger
      ensures Valid() && Waiting(before, owner.ledger, order[..k+1], removals, cut || RemovalFailed(order, removals, k))
      ensures forall j :: 0 <= j < k + 1 ==> SettledAt(before, owner.ledger, owner.graphErr, order, removals, cut, j)
    {
      var node := order[k];
      assert node !in order[..k];
      ghost var now := owner.ledger;
      if node in txAt && removals[node].ran {
        Finalize(node, removals[node]);
      }
      TurnTaken(before, now, owner.ledger, owner.graphErr, order, removals, cut, k);
    }

    /** The nodes leave one by one. */
    method RemoveInOrder(ghost before: map<Tx, Dest>, order: seq<Vertex>, removals: map<Vertex, Removal>, cut: bool) returns (failed: bool)
      requires Valid() && Distinct(order) && forall i :: 0 <= i < |order| ==> order[i] in removals
      requires forall n :: n in txAt ==> txAt[n] in before && before[txAt[n]].phase.Live?
      requires Waiting(before, owner.ledger, [], removals, cut)
      modifies owner`ledger, owner`attachments
      ensures Valid() && owner.attachments == old(owner.attachments)
      ensures failed == (cut || RemovalFailed(order, removals, |order|))
      ensures Waiting(before, owner.ledger, order, removals, failed)
      ensures forall j :: 0 <= j < |order| ==> SettledAt(before, owner.ledger, owner.graphErr, order, removals, cut, j)
    {
      failed := cut;
      for k := 0 to |order|
        invariant Valid() && owner.attachments == old(owner.attachments)
        invariant failed == (cut || RemovalFailed(order, removals, k))
        invariant Waiting(before, owner.ledger, order[..k], removals, failed)
        invariant forall j :: 0 <= j < k ==> SettledAt(before, owner.ledger, owner.graphErr, order, removals, cut, j)
      {
        failed := RemoveNode(before, order, removals, cut, k, failed);
      }
      assert order[..|order|] == order;
    }

    /**
     * Routes in are cut, then nodes leave upstream first. A destination whose finalizer runs commits only if nothing
     * real failed before its turn; so with an acyclic branch it never commits once a cut, or a removal anywhere
     * upstream of it, has failed. One whose finalizer has not run is as before, but failed if anything has.
     */
    method StopLocked(cuts: seq<Outcome>, removals: map<Vertex, Removal>) returns (failed: bool)
      requires Valid() && |cuts| == |routes| && forall n :: n in nodes ==> n in removals
      requires forall n :: n in txAt ==> owner.ledger[txAt[n]].phase.Live?
      modifies owner`ledger, owner`attachments
      ensures Valid()
      ensures failed <==> CutFailed(nodes, routes, cuts, |routes|) || exists n :: n in nodes && removals[n].outcome.Failed?
      ensures forall n :: n in txAt ==>
        if removals[n].ran then owner.ledger[txAt[n]].phase.Settled? else owner.ledger[txAt[n]] == Found(old(owner.ledger)[txAt[n]], failed)
      ensures CutFailed(nodes, routes, cuts, |routes|) ==>
        forall n :: n in txAt && removals[n].ran ==> owner.ledger[txAt[n]].phase == Settled(false)
      ensures !failed ==> forall n :: n in txAt && removals[n].ran ==>
        owner.ledger[txAt[n]].phase == Settled(CommitsWith(old(owner.ledger)[txAt[n]], owner.graphErr, false, removals[n]))
      ensures Acyclic(Edges(nodes, routes)) ==>
        forall path :: IsPath(Edges(nodes, routes), path) && |path| >= 2 && path[0] in removals && removals[path[0]].outcome.Failed?
                       && path[|path|-1] in txAt && removals[path[|path|-1]].ran ==>
          owner.ledger[txAt[path[|path|-1]]].phase == Settled(false)
    {
      var cut := CutIngress(cuts, removals);
      var order := UpstreamFirst(nodes, routes);
      OrderHasTheNodes(nodes, routes);
      failed := RemoveInOrder(old(owner.ledger), order, removals, cut);
      forall n | n in txAt && removals[n].ran
        ensures owner.ledger[txAt[n]].phase.Settled?
        ensures cut ==> owner.ledger[txAt[n]].phase == Settled(false)
        ensures !failed ==>
          owner.ledger[txAt[n]].phase == Settled(CommitsWith(old(owner.ledger)[txAt[n]], owner.graphErr, false, removals[n]))
      {
        EverySettles(old(owner.ledger), order, removals, cut, n);
      }
      if Acyclic(Edges(nodes, routes)) {
        forall path | IsPath(Edges(nodes, routes), path) && |path| >= 2 && path[0] in removals && removals[path[0]].outcome.Failed?
                      && path[|path|-1] in txAt && removals[path[|path|-1]].ran
          ensures owner.ledger[txAt[path[|path|-1]]].phase == Settled(false)
        {
          var k := FailureComesFirst(nodes, routes, removals, path);
          assert SettledAt(old(owner.ledger), owner.ledger, owner.graphErr, order, removals, cut, k);
        }
      }
    }

    lemma EverySettles(before: map<Tx, Dest>, order: seq<Vertex>, removals: map<Vertex, Removal>, cut: bool, n: Vertex)
      requires forall i :: 0 <= i < |order| ==> order[i] in removals
      requires forall j :: 0 <= j < |order| ==> SettledAt(before, owner.ledger, owner.graphErr, order, removals, cut, j)
      requires n in txAt && n in order && removals[n].ran
      ensures txAt[n] in owner.ledger && owner.ledger[txAt[n]].phase.Settled?
      ensures cut ==> owner.ledger[txAt[n]].phase == Settled(false)
      ensures !cut && !RemovalFailed(order, removals, |order|) ==>
        && txAt[n] in before
        && owner.ledger[txAt[n]].phase == Settled(CommitsWith(before[txAt[n]], owner.graphErr, false, removals[n]))
    {
      var k :| 0 <= k < |order| && order[k] == n;
      assert SettledAt(before, owner.ledger, owner.graphErr, order, removals, cut, k);
    }
  }

  /** A removal that fails upstream has failed before the downstream node's turn. */
  lemma FailureComesFirst(nodes: seq<Vertex>, routes: seq<Route>, removals: map<Vertex, Removal>, path: seq<Vertex>) returns (k: nat)
    requires Distinct(nodes) && Acyclic(Edges(nodes, routes)) && forall n :: n in nodes ==> n in removals
    requires IsPath(Edges(nodes, routes), path) && |path| >= 2
    requires path[0] in removals && removals[path[0]].outcome.Failed?
    ensures k < |nodes| && Order(nodes, routes)[k] == path[|path|-1]
    ensures forall n :: n in Order(nodes, routes) ==> n in removals
    ensures RemovalFailed(Order(nodes, routes), removals, k)
  {
    var order, last := Order(nodes, routes), |path| - 1;
    OrderHasTheNodes(nodes, routes);
    UpstreamFirstIffAcyclic(nodes, routes);
    assert (path[0], path[1]) in Edges(nodes, routes) && (path[last-1], path[last]) in Edges(nodes, routes);
    assert path[0] in order && path[last] in order;
    var i :| 0 <= i < |order| && order[i] == path[0];
    k :| 0 <= k < |order| && order[k] == path[last];
    PathsRunForward(order, routes, path, i, k);
  }

  /**
   * Whatever the task does meanwhile and afterwards: once a failure has abandoned a branch, each of its
   * destinations can still come to be committed exactly when its finalizer had already decided so.
   */
  lemma AbandonedCommitsIffDecided(s0: State, before: seq<Step>, s: State, a: Att, tx: Tx)
    requires Built(s0) && Reaches(s0, before, s) && a in s.active && tx in s.active[a].txs
    ensures tx in s.ledger && (CanCommit(Apply(s, SetDisposition(a, Abort)), tx) <==> SaysCommit(s.ledger[tx]))
  {
    BuiltInv(s0);
    RunInv(s0, before, s);
    CommitsIffDecided(Apply(s, SetDisposition(a, Abort)), tx);
  }
}
