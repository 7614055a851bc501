/**
 * What an attach plan installs: its nodes, the edges inside the patch, and the
 * ingress routes from the running graph (`attach_plan.go`). Edges are counted,
 * since a node may read the same input twice.
 */
module AttachSpec {

  datatype Edge = Edge(from: string, to: string, policy: string, tag: string)

  datatype Route = Route(from: string, to: seq<string>, policy: string, tag: string)

  datatype AnchorRoute = AnchorRoute(policy: string, tag: string)

  /** A planned node; `routes` says how it reads a live anchor at each input. */
  datatype PlanNode = PlanNode(name: string, inputs: seq<string>, routes: seq<AnchorRoute>)

  const ROUTE_ALL := "all"

  /** The route a node reads its i-th input by: the anchor's own, else everything. */
  function RouteAt(node: PlanNode, i: nat): AnchorRoute {
    if i < |node.routes| && node.routes[i].policy != "" then node.routes[i] else AnchorRoute(ROUTE_ALL, "")
  }

  function Names(plan: seq<PlanNode>): seq<string> {
    seq(|plan|, i requires 0 <= i < |plan| => plan[i].name)
  }

  function InnerEdge(node: PlanNode, i: nat): Edge
    requires i < |node.inputs|
  {
    Edge(node.inputs[i], node.name, ROUTE_ALL, "")
  }

  function OuterEdge(node: PlanNode, i: nat): Edge
    requires i < |node.inputs|
  {
    Edge(node.inputs[i], node.name, RouteAt(node, i).policy, RouteAt(node, i).tag)
  }

  function One(b: bool): nat {
    if b then 1 else 0
  }

  // ---------------------------------------------------------------------
  // How often an edge is planned, and how often it is installed
  // ---------------------------------------------------------------------

  /** An edge among a node's first k inputs, as an inner edge from the known nodes. */
  function Inner(node: PlanNode, known: seq<string>, k: nat, e: Edge): nat
    requires k <= |node.inputs|
  {
    if k == 0 then 0
    else Inner(node, known, k - 1, e) + One(node.inputs[k-1] in known && InnerEdge(node, k - 1) == e)
  }

  /** An edge among a node's first k inputs, as an edge from outside the known nodes. */
  function Outer(node: PlanNode, known: seq<string>, k: nat, e: Edge): nat
    requires k <= |node.inputs|
  {
    if k == 0 then 0
    else Outer(node, known, k - 1, e) + One(node.inputs[k-1] !in known && OuterEdge(node, k - 1) == e)
  }

  /** What node n's inner edges are when it is added: only nodes up to it are known. */
  function InnerAt(plan: seq<PlanNode>, n: nat, e: Edge): nat
    requires n < |plan|
  {
    Inner(plan[n], Names(plan[..n+1]), |plan[n].inputs|, e)
  }

  function InnerEdges(plan: seq<PlanNode>, n: nat, e: Edge): nat
    requires n <= |plan|
  {
    if n == 0 then 0 else InnerEdges(plan, n - 1, e) + InnerAt(plan, n - 1, e)
  }

  function OuterEdges(plan: seq<PlanNode>, known: seq<string>, n: nat, e: Edge): nat
    requires n <= |plan|
  {
    if n == 0 then 0 else OuterEdges(plan, known, n - 1, e) + Outer(plan[n-1], known, |plan[n-1].inputs|, e)
  }

  /** Every planned edge: one for each input of each node, whatever the schedule. */
  function PlannedEdges(plan: seq<PlanNode>, n: nat, e: Edge): nat
    requires n <= |plan|
  {
    if n == 0 then 0
    else
      var node := plan[n-1];
      PlannedEdges(plan, n - 1, e) + Inner(node, Names(plan), |node.inputs|, e) + Outer(node, Names(plan), |node.inputs|, e)
  }

  function Planned(plan: seq<PlanNode>, e: Edge): nat {
    PlannedEdges(plan, |plan|, e)
  }

  function Installed(plan: seq<PlanNode>, e: Edge): nat {
    InnerEdges(plan, |plan|, e) + OuterEdges(plan, Names(plan), |plan|, e)
  }

  /** The schedule lists every planned input no later than its reader. */
  ghost predicate InputsFirst(plan: seq<PlanNode>) {
    forall m :: 0 <= m < |plan| ==> InputsFirstAt(plan, m)
  }

  ghost predicate InputsFirstAt(plan: seq<PlanNode>, m: nat)
    requires m < |plan|
  {
    var inputs := plan[m].inputs;
    forall i :: 0 <= i < |inputs| && inputs[i] in Names(plan) ==> inputs[i] in Names(plan[..m+1])
  }

  // ---------------------------------------------------------------------
  // Exactly the planned edges
  // ---------------------------------------------------------------------

  lemma PrefixNames(plan: seq<PlanNode>, n: nat)
    requires n <= |plan|
    ensures forall x :: x in Names(plan[..n]) ==> x in Names(plan)
  {
    forall x | x in Names(plan[..n])
      ensures x in Names(plan)
    {
      var i :| 0 <= i < n && Names(plan[..n])[i] == x;
      assert Names(plan)[i] == x;
    }
  }

  /** Knowing more nodes gives no fewer inner edges, and the same ones if every input was known before. */
  lemma {:induction false} InnerGrows(node: PlanNode, known: seq<string>, all: seq<string>, k: nat, e: Edge)
    requires k <= |node.inputs| && forall x :: x in known ==> x in all
    ensures Inner(node, known, k, e) <= Inner(node, all, k, e)
    ensures (forall i :: 0 <= i < k && node.inputs[i] in all ==> node.inputs[i] in known) ==>
      Inner(node, known, k, e) == Inner(node, all, k, e)
  {
    if k > 0 {
      InnerGrows(node, known, all, k - 1, e);
    }
  }

  /** An input not yet known costs its edge. */
  lemma {:induction false} InnerMisses(node: PlanNode, known: seq<string>, all: seq<string>, k: nat, i: nat)
    requires i < k <= |node.inputs| && forall x :: x in known ==> x in all
    requires node.inputs[i] in all && node.inputs[i] !in known
    ensures Inner(node, known, k, InnerEdge(node, i)) < Inner(node, all, k, InnerEdge(node, i))
  {
    if i == k - 1 {
      InnerGrows(node, known, all, k - 1, InnerEdge(node, i));
    } else {
      InnerMisses(node, known, all, k - 1, i);
    }
  }

  lemma {:induction false} InstalledWithinPlanned(plan: seq<PlanNode>, n: nat, e: Edge)
    requires n <= |plan|
    ensures InnerEdges(plan, n, e) + OuterEdges(plan, Names(plan), n, e) <= PlannedEdges(plan, n, e)
    ensures InputsFirst(plan) ==> InnerEdges(plan, n, e) + OuterEdges(plan, Names(plan), n, e) == PlannedEdges(plan, n, e)
  {
    if n > 0 {
      InstalledWithinPlanned(plan, n - 1, e);
      NodeWithinPlanned(plan, n - 1, e);
      assert InputsFirst(plan) ==> InputsFirstAt(plan, n - 1);
    }
  }

  lemma NodeWithinPlanned(plan: seq<PlanNode>, n: nat, e: Edge)
    requires n < |plan|
    ensures InnerAt(plan, n, e) <= Inner(plan[n], Names(plan), |plan[n].inputs|, e)
    ensures InputsFirstAt(plan, n) ==> InnerAt(plan, n, e) == Inner(plan[n], Names(plan), |plan[n].inputs|, e)
  {
    PrefixNames(plan, n + 1);
    InnerGrows(plan[n], Names(plan[..n+1]), Names(plan), |plan[n].inputs|, e);
  }

  lemma {:induction false} LateMisses(plan: seq<PlanNode>, n: nat, m: nat, e: Edge)
    requires m < n <= |plan|
    requires InnerAt(plan, m, e) < Inner(plan[m], Names(plan), |plan[m].inputs|, e)
    ensures InnerEdges(plan, n, e) + OuterEdges(plan, Names(plan), n, e) < PlannedEdges(plan, n, e)
  {
    if m == n - 1 {
      InstalledWithinPlanned(plan, n - 1, e);
    } else {
      LateMisses(plan, n - 1, m, e);
      NodeWithinPlanned(plan, n - 1, e);
    }
  }

  /** An input scheduled after its reader: the edge between them is never installed. */
  lemma LateInputLosesItsEdge(plan: seq<PlanNode>, m: nat, i: nat)
    requires m < |plan| && i < |plan[m].inputs|
    requires plan[m].inputs[i] in Names(plan) && plan[m].inputs[i] !in Names(plan[..m+1])
    ensures Installed(plan, InnerEdge(plan[m], i)) < Planned(plan, InnerEdge(plan[m], i))
  {
    PrefixNames(plan, m + 1);
    InnerMisses(plan[m], Names(plan[..m+1]), Names(plan), |plan[m].inputs|, i);
    LateMisses(plan, |plan|, m, InnerEdge(plan[m], i));
  }

  /** Installation gives exactly the planned edges if and only if inputs are scheduled before readers. */
  lemma ExactIffInputsFirst(plan: seq<PlanNode>)
    ensures (forall e :: Installed(plan, e) == Planned(plan, e)) <==> InputsFirst(plan)
  {
    if InputsFirst(plan) {
      forall e
        ensures Installed(plan, e) == Planned(plan, e)
      {
        InstalledWithinPlanned(plan, |plan|, e);
      }
    } else {
      var m :| 0 <= m < |plan| && !InputsFirstAt(plan, m);
      var i :| 0 <= i < |plan[m].inputs| && plan[m].inputs[i] in Names(plan) && plan[m].inputs[i] !in Names(plan[..m+1]);
      LateInputLosesItsEdge(plan, m, i);
    }
  }

  // ---------------------------------------------------------------------
  // Which edges those are
  // ---------------------------------------------------------------------

  /**
   * Input i of node m is connected by this edge: from another planned node, listed no later, everything unlabelled;
   * from the running graph as the node's own route says if it sets a policy, else everything unlabelled.
   */
  ghost predicate Lays(plan: seq<PlanNode>, m: nat, i: nat, e: Edge)
    requires m < |plan| && i < |plan[m].inputs|
  {
    && e.from == plan[m].inputs[i] && e.to == plan[m].name
    && if plan[m].inputs[i] in Names(plan) then
         plan[m].inputs[i] in Names(plan[..m+1]) && e.policy == "all" && e.tag == ""
       else if i < |plan[m].routes| && plan[m].routes[i].policy != "" then
         e.policy == plan[m].routes[i].policy && e.tag == plan[m].routes[i].tag
       else
         e.policy == "all" && e.tag == ""
  }

  ghost function LaidAt(plan: seq<PlanNode>, m: nat, k: nat, e: Edge): (r: set<(nat, nat)>)
    requires m < |plan| && k <= |plan[m].inputs|
    ensures forall x: nat, i: nat :: (x, i) in r <==> x == m && i < k && Lays(plan, m, i, e)
  {
    if k == 0 then {} else LaidAt(plan, m, k - 1, e) + if Lays(plan, m, k - 1, e) then {(m, k - 1)} else {}
  }

  /** The inputs of the first n nodes that are connected by an edge. */
  ghost function Laid(plan: seq<PlanNode>, n: nat, e: Edge): (r: set<(nat, nat)>)
    requires n <= |plan|
    ensures forall m: nat, i: nat :: (m, i) in r <==> m < n && i < |plan[m].inputs| && Lays(plan, m, i, e)
  {
    if n == 0 then {} else Laid(plan, n - 1, e) + LaidAt(plan, n - 1, |plan[n-1].inputs|, e)
  }

  /** How often an edge connects a node's first k inputs, as it is counted. */
  ghost function Counted(plan: seq<PlanNode>, m: nat, k: nat, e: Edge): nat
    requires m < |plan| && k <= |plan[m].inputs|
  {
    Inner(plan[m], Names(plan[..m+1]), k, e) + Outer(plan[m], Names(plan), k, e)
  }

  lemma LaysIs(plan: seq<PlanNode>, m: nat, k: nat, e: Edge)
    requires m < |plan| && 0 < k <= |plan[m].inputs|
    ensures Counted(plan, m, k, e) == Counted(plan, m, k - 1, e) + One(Lays(plan, m, k - 1, e))
  {
    PrefixNames(plan, m + 1);
  }

  lemma OneMore<T>(s: set<T>, x: T, b: bool)
    requires x !in s
    ensures |s + if b then {x} else {}| == |s| + One(b)
  {
    if !b {
      assert s + {} == s;
    }
  }

  lemma InputLays(plan: seq<PlanNode>, m: nat, k: nat, e: Edge)
    requires m < |plan| && 0 < k <= |plan[m].inputs|
    ensures |LaidAt(plan, m, k, e)| == |LaidAt(plan, m, k - 1, e)| + One(Lays(plan, m, k - 1, e))
  {
    OneMore(LaidAt(plan, m, k - 1, e), (m, k - 1), Lays(plan, m, k - 1, e));
  }

  lemma {:induction false} NodeLays(plan: seq<PlanNode>, m: nat, k: nat, e: Edge)
    requires m < |plan| && k <= |plan[m].inputs|
    ensures |LaidAt(plan, m, k, e)| == Counted(plan, m, k, e)
  {
    if k > 0 {
      NodeLays(plan, m, k - 1, e);
      LaysIs(plan, m, k, e);
      InputLays(plan, m, k, e);
    }
  }

  lemma LaidApart(plan: seq<PlanNode>, n: nat, e: Edge)
    requires 0 < n <= |plan|
    ensures |Laid(plan, n, e)| == |Laid(plan, n - 1, e)| + |LaidAt(plan, n - 1, |plan[n-1].inputs|, e)|
  {
    var before, more := Laid(plan, n - 1, e), LaidAt(plan, n - 1, |plan[n-1].inputs|, e);
    forall x: (nat, nat) | x in before
      ensures x !in more
    {
      assert (x.0, x.1) in before;
    }
  }

  /** An edge is installed once for each input of each node that is connected by it, and no more. */
  lemma {:induction false} InstalledIs(plan: seq<PlanNode>, n: nat, e: Edge)
    requires n <= |plan|
    ensures InnerEdges(plan, n, e) + OuterEdges(plan, Names(plan), n, e) == |Laid(plan, n, e)|
    ensures n == |plan| ==> Installed(plan, e) == |Laid(plan, n, e)|
  {
    if n > 0 {
      InstalledIs(plan, n - 1, e);
      NodeLays(plan, n - 1, |plan[n-1].inputs|, e);
      LaidApart(plan, n, e);
    }
  }

  // ---------------------------------------------------------------------
  // Ingress grouping
  // ---------------------------------------------------------------------

  predicate SameKey(r: Route, s: Route) {
    r.from == s.from && r.policy == s.policy && r.tag == s.tag
  }

  /** How often a route carries an edge. */
  function Carries(r: Route, e: Edge): nat {
    if r.from == e.from && r.policy == e.policy && r.tag == e.tag then multiset(r.to)[e.to] else 0
  }

  function Flat(routes: seq<Route>, n: nat, e: Edge): nat
    requires n <= |routes|
  {
    if n == 0 then 0 else Flat(routes, n - 1, e) + Carries(routes[n-1], e)
  }

  /** One route per anchor node, policy and label, and none without a target. */
  ghost predicate Grouped(routes: seq<Route>) {
    && (forall r :: 0 <= r < |routes| ==> routes[r].to != [])
    && (forall r, s :: 0 <= r < s < |routes| ==> !SameKey(routes[r], routes[s]))
  }

  lemma {:induction false} FlatSame(a: seq<Route>, b: seq<Route>, n: nat, e: Edge)
    requires n <= |a| && n <= |b| && forall i :: 0 <= i < n ==> a[i] == b[i]
    ensures Flat(a, n, e) == Flat(b, n, e)
  {
    if n > 0 {
      FlatSame(a, b, n - 1, e);
    }
  }

  lemma {:induction false} FlatGrows(routes: seq<Route>, at: nat, name: string, n: nat, e: Edge)
    requires at < n <= |routes|
    ensures var r := routes[at];
      Flat(routes[at := r.(to := r.to + [name])], n, e) == Flat(routes, n, e) + One(Edge(r.from, name, r.policy, r.tag) == e)
  {
    var r := routes[at];
    var grown := routes[at := r.(to := r.to + [name])];
    if n == at + 1 {
      FlatSame(grown, routes, at, e);
    } else {
      FlatGrows(routes, at, name, n - 1, e);
    }
  }

  method FindGroup(routes: seq<Route>, key: Route) returns (at: nat)
    ensures at <= |routes|
    ensures at < |routes| ==> SameKey(routes[at], key)
    ensures at == |routes| ==> forall r :: 0 <= r < |routes| ==> !SameKey(routes[r], key)
  {
    at := 0;
    while at < |routes| && !SameKey(routes[at], key)
      invariant at <= |routes|
      invariant forall r :: 0 <= r < at ==> !SameKey(routes[r], key)
    {
      at := at + 1;
    }
  }

  /** One ingress edge joins its group, or starts one. */
  method AddIngress(routes: seq<Route>, edge: Edge) returns (out: seq<Route>)
    requires Grouped(routes)
    ensures Grouped(out) && forall e :: Flat(out, |out|, e) == Flat(routes, |routes|, e) + One(edge == e)
  {
    var key := Route(edge.from, [], edge.policy, edge.tag);
    var at := FindGroup(routes, key);
    if at < |routes| {
      out := routes[at := routes[at].(to := routes[at].to + [edge.to])];
      forall e
        ensures Flat(out, |out|, e) == Flat(routes, |routes|, e) + One(edge == e)
      {
        FlatGrows(routes, at, edge.to, |routes|, e);
      }
    } else {
      out := routes + [key.(to := [edge.to])];
      forall e
        ensures Flat(out, |out|, e) == Flat(routes, |routes|, e) + One(edge == e)
      {
        FlatSame(out, routes, |routes|, e);
      }
    }
  }

  method IngressOf(routes: seq<Route>, node: PlanNode, planned: seq<string>) returns (out: seq<Route>)
    requires Grouped(routes)
    ensures Grouped(out)
    ensures forall e :: Flat(out, |out|, e) == Flat(routes, |routes|, e) + Outer(node, planned, |node.inputs|, e)
  {
    out := routes;
    for i := 0 to |node.inputs|
      invariant Grouped(out)
      invariant forall e :: Flat(out, |out|, e) == Flat(routes, |routes|, e) + Outer(node, planned, i, e)
    {
      if node.inputs[i] !in planned {
        out := AddIngress(out, OuterEdge(node, i));
      }
    }
  }

  /** `ingress`: the edges from the running graph, grouped; none is lost and none is added. */
  method Ingress(plan: seq<PlanNode>, planned: seq<string>) returns (out: seq<Route>)
    ensures Grouped(out) && forall e :: Flat(out, |out|, e) == OuterEdges(plan, planned, |plan|, e)
  {
    out := [];
    for n := 0 to |plan|
      invariant Grouped(out) && forall e :: Flat(out, |out|, e) == OuterEdges(plan, planned, n, e)
    {
      out := IngressOf(out, plan[n], planned);
    }
  }

  /** An ingress edge leads into a planned node, from outside the plan. */
  lemma {:induction false} OuterLeadsIn(node: PlanNode, known: seq<string>, k: nat, e: Edge)
    requires k <= |node.inputs| && Outer(node, known, k, e) > 0
    ensures e.to == node.name && e.from !in known
  {
    if !(node.inputs[k-1] !in known && OuterEdge(node, k - 1) == e) {
      OuterLeadsIn(node, known, k - 1, e);
    }
  }

  lemma {:induction false} OuterEdgesLeadIn(plan: seq<PlanNode>, known: seq<string>, n: nat, e: Edge)
    requires n <= |plan| && OuterEdges(plan, known, n, e) > 0
    ensures e.to in Names(plan) && e.from !in known
  {
    if Outer(plan[n-1], known, |plan[n-1].inputs|, e) > 0 {
      OuterLeadsIn(plan[n-1], known, |plan[n-1].inputs|, e);
      assert Names(plan)[n-1] == e.to;
    } else {
      OuterEdgesLeadIn(plan, known, n - 1, e);
    }
  }
}
