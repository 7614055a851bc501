/**
 * Applying an attach plan to a running graph, and taking it back when a step
 * fails: `apply`, `close` and `rollbackRuntimeBranch`.
 */
module AttachApply {
  import opened AttachSpec
  import opened Graphs

  /** A Connect call, with the graph it met. */
  datatype Call = Call(route: Route, nodes: set<string>, edges: seq<Edge>)

  /** An opened component: whether the plan must close it, and whether the graph took it over. */
  datatype Opened = Opened(owned: bool, transferred: bool)

  function RouteEdges(r: Route): seq<Edge> {
    seq(|r.to|, i requires 0 <= i < |r.to| => Edge(r.from, r.to[i], r.policy, r.tag))
  }

  /** How often the graph has an edge. */
  ghost function Count(edges: seq<Edge>, e: Edge): nat {
    multiset(edges)[e]
  }

  lemma {:induction false} RouteCounts(r: Route, e: Edge)
    ensures Count(RouteEdges(r), e) == Carries(r, e)
    decreases |r.to|
  {
    if r.to != [] {
      var n := |r.to| - 1;
      var first := r.(to := r.to[..n]);
      RouteCounts(first, e);
      assert RouteEdges(r) == RouteEdges(first) + [Edge(r.from, r.to[n], r.policy, r.tag)];
      assert r.to == r.to[..n] + [r.to[n]];
    }
  }

  predicate Touches(e: Edge, name: string) {
    e.from == name || e.to == name
  }

  /** The edges that do not touch a node, in order. */
  function Drop(edges: seq<Edge>, name: string): seq<Edge> {
    if edges == [] then [] else
      var last := edges[|edges|-1];
      Drop(edges[..|edges|-1], name) + if Touches(last, name) then [] else [last]
  }

  lemma {:induction false} DropKeeps(edges: seq<Edge>, name: string)
    ensures forall e :: e in Drop(edges, name) ==> e in edges && !Touches(e, name)
  {
    if edges != [] {
      DropKeeps(edges[..|edges|-1], name);
    }
  }

  /** Without the edges that touch any of these nodes. */
  ghost function Without(edges: seq<Edge>, gone: set<string>): seq<Edge> {
    if edges == [] then [] else
      var last := edges[|edges|-1];
      Without(edges[..|edges|-1], gone) + if last.from in gone || last.to in gone then [] else [last]
  }

  lemma {:induction false} WithoutNone(edges: seq<Edge>)
    ensures Without(edges, {}) == edges
  {
    WithoutUntouched(edges, {});
  }

  lemma {:induction false} DropLast(edges: seq<Edge>, e: Edge, name: string)
    ensures Drop(edges + [e], name) == Drop(edges, name) + if Touches(e, name) then [] else [e]
  {
    assert (edges + [e])[..|edges|] == edges;
  }

  lemma {:induction false} WithoutOneMore(edges: seq<Edge>, gone: set<string>, name: string)
    ensures Drop(Without(edges, gone), name) == Without(edges, gone + {name})
  {
    if edges != [] {
      var n := |edges| - 1;
      WithoutOneMore(edges[..n], gone, name);
      if edges[n].from !in gone && edges[n].to !in gone {
        DropLast(Without(edges[..n], gone), edges[n], name);
      } else {
        assert Without(edges, gone) == Without(edges[..n], gone);
        assert Without(edges, gone + {name}) == Without(edges[..n], gone + {name});
      }
    }
  }

  /** What was there before stays in front, and what follows touches none of the nodes taken out. */
  lemma {:induction false} WithoutPatch(before: seq<Edge>, now: seq<Edge>, gone: set<string>)
    requires before <= now && forall i :: 0 <= i < |before| ==> before[i].from !in gone && before[i].to !in gone
    ensures before <= Without(now, gone)
    ensures forall i :: |before| <= i < |Without(now, gone)| ==> Without(now, gone)[i] in now[|before|..] && Without(now, gone)[i].to !in gone
    decreases |now|
  {
    if now == before {
      WithoutUntouched(before, gone);
    } else {
      var n := |now| - 1;
      assert now[..n][|before|..] + [now[n]] == now[|before|..];
      WithoutPatch(before, now[..n], gone);
    }
  }

  lemma {:induction false} WithoutUntouched(edges: seq<Edge>, gone: set<string>)
    requires forall i :: 0 <= i < |edges| ==> edges[i].from !in gone && edges[i].to !in gone
    ensures Without(edges, gone) == edges
  {
    if edges != [] {
      var n := |edges| - 1;
      WithoutUntouched(edges[..n], gone);
      assert edges == edges[..n] + [edges[n]];
    }
  }

  /** The route joins nodes the graph has. */
  predicate Joins(route: Route, nodes: set<string>) {
    route.to != [] && route.from in nodes && forall i :: 0 <= i < |route.to| ==> route.to[i] in nodes
  }

  /**
   * The pipeline graph as a set of nodes and a list of edges. Its calls are numbered: it takes no change at a
   * call that finds it closed or draining (`accepts`), and an add or a connection may fail for a reason of its own.
   */
  class Graph {
    const accepts: nat -> bool
    const fails: nat -> bool
    var clock: nat
    var nodes: set<string>
    var edges: seq<Edge>
    var calls: seq<Call>
    var retired: multiset<string>

    ghost predicate Valid()
      reads this
    {
      forall e :: e in edges ==> e.from in nodes && e.to in nodes
    }

    constructor (nodes: set<string>, edges: seq<Edge>, accepts: nat -> bool, fails: nat -> bool)
      requires forall e :: e in edges ==> e.from in nodes && e.to in nodes
      ensures Valid() && this.nodes == nodes && this.edges == edges && this.accepts == accepts && this.fails == fails
      ensures clock == 0 && calls == [] && retired == multiset{}
    {
      this.nodes, this.edges, this.accepts, this.fails := nodes, edges, accepts, fails;
      clock, calls, retired := 0, [], multiset{};
    }

    method Add(name: string) returns (ok: bool)
      requires Valid()
      modifies this`nodes, this`clock
      ensures Valid() && clock == old(clock) + 1
      ensures ok <==> accepts(old(clock)) && !fails(old(clock)) && name !in old(nodes)
      ensures nodes == if ok then old(nodes) + {name} else old(nodes)
    {
      ok := accepts(clock) && !fails(clock) && name !in nodes;
      if ok {
        nodes := nodes + {name};
      }
      clock := clock + 1;
    }

    /** A connection is checked in full before any of its edges is added. */
    method Connect(route: Route) returns (ok: bool)
      requires Valid()
      modifies this`edges, this`calls, this`clock
      ensures Valid() && clock == old(clock) + 1 && calls == old(calls) + [Call(route, nodes, old(edges))]
      ensures ok <==> accepts(old(clock)) && !fails(old(clock)) && Joins(route, nodes)
      ensures edges == if ok then old(edges) + RouteEdges(route) else old(edges)
    {
      calls := calls + [Call(route, nodes, edges)];
      ok := accepts(clock) && !fails(clock) && Joins(route, nodes);
      if ok {
        edges := edges + RouteEdges(route);
      }
      clock := clock + 1;
    }

    /**
     * The node leaves with its edges, and its component is closed, now or once its work is done; a graph
     * that takes no changes keeps all of it.
     */
    method Remove(name: string) returns (ok: bool)
      requires Valid()
      modifies this`nodes, this`edges, this`retired, this`clock
      ensures Valid() && clock == old(clock) + 1 && (ok <==> accepts(old(clock)) && name in old(nodes))
      ensures nodes == (if ok then old(nodes) - {name} else old(nodes)) && edges == if ok then Drop(old(edges), name) else old(edges)
      ensures retired == old(retired) + if ok then multiset{name} else multiset{}
    {
      ok := accepts(clock) && name in nodes;
      if ok {
        nodes := nodes - {name};
        DropKeeps(edges, name);
        edges := Drop(edges, name);
        retired := retired + multiset{name};
      }
      clock := clock + 1;
    }
  }

  /** Beyond what was there, every edge leads into an added node. */
  ghost predicate Patch(before: seq<Edge>, now: seq<Edge>, added: seq<string>) {
    before <= now && forall i :: |before| <= i < |now| ==> now[i].to in added
  }

  lemma PatchGrows(before: seq<Edge>, now: seq<Edge>, route: Route, added: seq<string>)
    requires Patch(before, now, added) && forall t :: t in route.to ==> t in added
    ensures Patch(before, now + RouteEdges(route), added)
  {
  }

  /** Every call since a point connects from one of these nodes. */
  ghost predicate AllFrom(calls: seq<Call>, since: nat, known: seq<string>) {
    forall i :: since <= i < |calls| ==> calls[i].route.from in known
  }

  /** One connection into the patch. */
  method Extend(graph: Graph, route: Route, known: seq<string>, ghost before: seq<Edge>) returns (ok: bool)
    requires graph.Valid() && Patch(before, graph.edges, known) && forall t :: t in route.to ==> t in known
    modifies graph`edges, graph`calls, graph`clock
    ensures graph.Valid() && Patch(before, graph.edges, known) && graph.clock == old(graph.clock) + 1
    ensures graph.calls == old(graph.calls) + [Call(route, graph.nodes, old(graph.edges))]
    ensures ok ==> graph.accepts(old(graph.clock)) && forall e :: Count(graph.edges, e) == Count(old(graph.edges), e) + Carries(route, e)
    ensures !ok ==> graph.edges == old(graph.edges)
  {
    PatchGrows(before, graph.edges, route, known);
    ok := graph.Connect(route);
    forall e
      ensures Count(RouteEdges(route), e) == Carries(route, e)
    {
      RouteCounts(route, e);
    }
  }

  /** Names are claimed once each, and none that is already taken. */
  ghost predicate Claimable(names: seq<string>, taken: set<string>) {
    Distinct(names) && forall x :: x in names ==> x !in taken
  }

  method ClaimAll(names: seq<string>, taken: set<string>) returns (ok: bool)
    ensures ok <==> Claimable(names, taken)
  {
    var seen := taken;
    for i := 0 to |names|
      invariant Claimable(names[..i], taken)
      invariant seen == taken + SetOf(names[..i])
    {
      if names[i] in seen {
        if names[i] in names[..i] {
          assert !Distinct(names);
        }
        return false;
      }
      seen := seen + {names[i]};
      assert names[..i+1] == names[..i] + [names[i]];
    }
    assert names[..|names|] == names;
    return true;
  }

  /** `reserve`: taps against the task's taps, node names against the graph and every attachment's nodes. */
  method Reserve(taps: seq<string>, liveTaps: set<string>, names: seq<string>, live: set<string>, attached: set<string>)
    returns (ok: bool)
    ensures ok <==> Claimable(taps, liveTaps) && Claimable(names, live + attached)
  {
    ok := ClaimAll(taps, liveTaps);
    if ok {
      ok := ClaimAll(names, live + attached);
    }
  }

  /** The calls at which the first m nodes were added: one each, in order, all accepted. */
  ghost predicate AddedAt(graph: Graph, when: seq<nat>, m: nat, start: nat) {
    |when| == m && forall n :: 0 <= n < m ==> start + n <= when[n] && graph.accepts(when[n])
  }

  /** The edges have grown by the inner edges of the first n nodes. */
  ghost predicate Inside(plan: seq<PlanNode>, n: nat, before: seq<Edge>, now: seq<Edge>)
    requires n <= |plan|
  {
    forall e :: Count(now, e) == Count(before, e) + InnerEdges(plan, n, e)
  }

  /** By those of node n. */
  ghost predicate InsideAt(plan: seq<PlanNode>, n: nat, before: seq<Edge>, now: seq<Edge>)
    requires n < |plan|
  {
    forall e :: Count(now, e) == Count(before, e) + InnerAt(plan, n, e)
  }

  lemma OneMoreInside(plan: seq<PlanNode>, n: nat, before: seq<Edge>, now: seq<Edge>, later: seq<Edge>)
    requires n < |plan| && Inside(plan, n, before, now) && InsideAt(plan, n, now, later)
    ensures Inside(plan, n + 1, before, later)
  {
  }

  class Plan {
    const plan: seq<PlanNode>
    var components: seq<Opened>

    constructor (plan: seq<PlanNode>, components: seq<Opened>)
      ensures this.plan == plan && this.components == components
    {
      this.plan, this.components := plan, components;
    }

    /** Reserved names: distinct, and as many components as nodes. */
    ghost predicate Valid()
      reads this
    {
      |components| == |plan| && Distinct(Names(plan))
    }

    /** One edge into node n for each of its inputs already known. */
    method ConnectInputs(graph: Graph, n: nat, known: seq<string>, ghost before: seq<Edge>) returns (ok: bool)
      requires graph.Valid() && n < |plan| && plan[n].name in known
      requires Patch(before, graph.edges, known)
      modifies graph`edges, graph`calls, graph`clock
      ensures graph.Valid() && Patch(before, graph.edges, known)
      ensures ok ==> forall e :: Count(graph.edges, e) == Count(old(graph.edges), e) + Inner(plan[n], known, |plan[n].inputs|, e)
      ensures old(graph.calls) <= graph.calls && AllFrom(graph.calls, |old(graph.calls)|, known) && old(graph.clock) <= graph.clock
    {
      var node := plan[n];
      for i := 0 to |node.inputs|
        invariant graph.Valid() && Patch(before, graph.edges, known)
        invariant forall e :: Count(graph.edges, e) == Count(old(graph.edges), e) + Inner(node, known, i, e)
        invariant old(graph.calls) <= graph.calls && AllFrom(graph.calls, |old(graph.calls)|, known) && old(graph.clock) <= graph.clock
      {
        if node.inputs[i] in known {
          ok := Extend(graph, Route(node.inputs[i], [node.name], ROUTE_ALL, ""), known, before);
          if !ok {
            return;
          }
        }
      }
      ok := true;
    }

    /** Node n, then the edges into it; `added` says whether the graph took the node. */
    method InstallNode(graph: Graph, n: nat, ghost before: seq<Edge>) returns (ok: bool, added: bool)
      requires |components| == |plan| && graph.Valid() && n < |plan|
      requires Patch(before, graph.edges, Names(plan[..n]))
      modifies this`components, graph`nodes, graph`edges, graph`calls, graph`clock
      ensures graph.Valid() && Patch(before, graph.edges, Names(plan[..if added then n + 1 else n]))
      ensures components == if added then old(components)[n := old(components)[n].(transferred := true)] else old(components)
      ensures added <==> graph.accepts(old(graph.clock)) && !graph.fails(old(graph.clock)) && plan[n].name !in old(graph.nodes)
      ensures graph.nodes == if added then old(graph.nodes) + {plan[n].name} else old(graph.nodes)
      ensures old(graph.clock) < graph.clock
      ensures ok ==> added && InsideAt(plan, n, old(graph.edges), graph.edges)
      ensures old(graph.calls) <= graph.calls && AllFrom(graph.calls, |old(graph.calls)|, Names(plan[..n+1]))
    {
      added := graph.Add(plan[n].name);
      if !added {
        return false, false;
      }
      components := components[n := components[n].(transferred := true)];
      var known := Names(plan[..n+1]);
      assert known == Names(plan[..n]) + [plan[n].name];
      ok := ConnectInputs(graph, n, known, before);
    }

    /** The nodes in schedule order, each connected to its known inputs as it is added. */
    method Build(graph: Graph) returns (ok: bool, nodes: seq<string>, ghost when: seq<nat>)
      requires Valid() && graph.Valid() && Fresh(components) && forall x :: x in Names(plan) ==> x !in graph.nodes
      modifies this`components, graph`nodes, graph`edges, graph`calls, graph`clock
      ensures Valid() && graph.Valid()
      ensures |nodes| <= |plan| && nodes == Names(plan[..|nodes|]) && Taken(old(components), components, |nodes|)
      ensures graph.nodes == old(graph.nodes) + SetOf(nodes) && Patch(old(graph.edges), graph.edges, nodes)
      ensures ok ==> |nodes| == |plan| && Inside(plan, |plan|, old(graph.edges), graph.edges)
      ensures old(graph.calls) <= graph.calls && AllFrom(graph.calls, |old(graph.calls)|, Names(plan))
      ensures AddedAt(graph, when, |nodes|, old(graph.clock)) && old(graph.clock) + |nodes| <= graph.clock
      ensures plan != [] && graph.accepts(old(graph.clock)) && !graph.fails(old(graph.clock)) ==> nodes != []
    {
      ok, nodes, when := true, [], [];
      assert Names(plan[..0]) == [];
      var n := 0;
      while ok && n < |plan|
        invariant n <= |plan| && graph.Valid()
        invariant |nodes| <= n && nodes == Names(plan[..|nodes|]) && Taken(old(components), components, |nodes|)
        invariant graph.nodes == old(graph.nodes) + SetOf(nodes) && Patch(old(graph.edges), graph.edges, nodes)
        invariant ok ==> |nodes| == n && Inside(plan, n, old(graph.edges), graph.edges)
        invariant old(graph.calls) <= graph.calls && AllFrom(graph.calls, |old(graph.calls)|, Names(plan))
        invariant AddedAt(graph, when, |nodes|, old(graph.clock)) && old(graph.clock) + n <= graph.clock
        invariant n == 0 ==> ok && graph.clock == old(graph.clock)
        invariant n > 0 && graph.accepts(old(graph.clock)) && !graph.fails(old(graph.clock)) ==> nodes != []
      {
        var added: bool;
        ghost var now, edges := graph.clock, graph.edges;
        ok, added := InstallNode(graph, n, old(graph.edges));
        if ok {
          OneMoreInside(plan, n, old(graph.edges), edges, graph.edges);
        }
        OneMoreName(plan, n);
        if added {
          nodes, when := nodes + [plan[n].name], when + [now];
        }
        n := n + 1;
      }
    }

    /** The edges from the running graph, one route at a time, into the whole patch. */
    method ConnectIngress(graph: Graph, routes: seq<Route>, ghost before: seq<Edge>) returns (ok: bool)
      requires graph.Valid() && Patch(before, graph.edges, Names(plan)) && SetOf(Names(plan)) <= graph.nodes
      requires forall r :: 0 <= r < |routes| ==> LeadsIn(routes[r], Names(plan))
      requires Inside(plan, |plan|, before, graph.edges)
      modifies graph`edges, graph`calls, graph`clock
      ensures graph.Valid() && Patch(before, graph.edges, Names(plan))
      ensures ok ==> forall e :: Count(graph.edges, e) == Count(old(graph.edges), e) + Flat(routes, |routes|, e)
      ensures old(graph.calls) <= graph.calls && old(graph.clock) <= graph.clock
      ensures forall i :: |old(graph.calls)| <= i < |graph.calls| ==> MetWhole(graph.calls[i], plan)
    {
      for r := 0 to |routes|
        invariant graph.Valid() && Patch(before, graph.edges, Names(plan))
        invariant forall e :: Count(graph.edges, e) == Count(old(graph.edges), e) + Flat(routes, r, e)
        invariant old(graph.calls) <= graph.calls && old(graph.clock) <= graph.clock
        invariant forall i :: |old(graph.calls)| <= i < |graph.calls| ==> MetWhole(graph.calls[i], plan)
      {
        ok := Extend(graph, routes[r], Names(plan), before);
        if !ok {
          return;
        }
      }
      ok := true;
    }

    /** All of the ingress. */
    method Reach(graph: Graph, nodes: seq<string>, ghost before: seq<Edge>) returns (ok: bool)
      requires graph.Valid() && nodes == Names(plan) && Patch(before, graph.edges, nodes) && SetOf(nodes) <= graph.nodes
      requires Inside(plan, |plan|, before, graph.edges)
      modifies graph`edges, graph`calls, graph`clock
      ensures graph.Valid() && Patch(before, graph.edges, nodes)
      ensures ok ==> forall e :: Count(graph.edges, e) == Count(before, e) + Installed(plan, e)
      ensures old(graph.calls) <= graph.calls && old(graph.clock) <= graph.clock
      ensures forall i :: |old(graph.calls)| <= i < |graph.calls| ==> MetWhole(graph.calls[i], plan)
    {
      var routes := Ingress(plan, nodes);
      forall r | 0 <= r < |routes|
        ensures LeadsIn(routes[r], Names(plan))
      {
        IngressLeadsIn(plan, routes, r);
      }
      ok := ConnectIngress(graph, routes, before);
    }

    /** `close`: every owned component the graph did not take is closed, and never again. */
    method Close() returns (closed: multiset<string>)
      requires Valid()
      modifies this`components
      ensures Valid()
      ensures forall i :: 0 <= i < |plan| ==> closed[plan[i].name] == One(Leftover(old(components)[i]))
      ensures forall i :: 0 <= i < |plan| ==> !Leftover(components[i])
      ensures forall i :: 0 <= i < |plan| ==> components[i].transferred == old(components)[i].transferred
    {
      closed := multiset{};
      for n := 0 to |plan|
        invariant Valid()
        invariant forall i :: 0 <= i < n ==> closed[plan[i].name] == One(Leftover(old(components)[i]))
        invariant forall i :: n <= i < |plan| ==> closed[plan[i].name] == 0 && components[i] == old(components)[i]
        invariant forall i :: 0 <= i < n ==> !Leftover(components[i]) && components[i].transferred == old(components)[i].transferred
      {
        NamesDiffer(plan, n);
        if !components[n].transferred {
          if components[n].owned {
            closed := closed + multiset{plan[n].name};
          }
          components := components[n := components[n].(owned := false)];
        }
      }
    }

    /** `fail`: what the plan still owns is closed, then what was added is taken back. */
    method Undo(graph: Graph, nodes: seq<string>, ghost before: set<string>, ghost edges: seq<Edge>, ghost parts: seq<Opened>)
      returns (closed: multiset<string>)
      requires Valid() && graph.Valid() && |nodes| <= |plan| && nodes == Names(plan[..|nodes|])
      requires |parts| == |plan| && Taken(parts, components, |nodes|)
      requires graph.nodes == before + SetOf(nodes) && forall x :: x in Names(plan) ==> x !in before
      requires Patch(edges, graph.edges, nodes) && forall e :: e in edges ==> e.from in before && e.to in before
      modifies this`components, graph`nodes, graph`edges, graph`retired, graph`clock
      ensures Valid() && graph.Valid() && graph.clock == old(graph.clock) + |nodes|
      ensures RolledBack(graph, nodes, before, edges, old(graph.retired))
      ensures graph.nodes == before && graph.edges == edges <==> forall t :: old(graph.clock) <= t < graph.clock ==> graph.accepts(t)
      ensures forall i :: 0 <= i < |plan| ==> closed[plan[i].name] == One(parts[i].owned && i >= |nodes|)
      ensures forall i :: 0 <= i < |plan| && parts[i].owned ==>
        closed[plan[i].name] + graph.retired[plan[i].name] + One(plan[i].name in graph.nodes) == old(graph.retired)[plan[i].name] + 1
    {
      PrefixDistinct(plan, |nodes|);
      PrefixNames(plan, |nodes|);
      closed := Close();
      Rollback(graph, nodes, before, edges);
      forall i | 0 <= i < |plan|
        ensures One(plan[i].name in graph.nodes) + graph.retired[plan[i].name] == old(graph.retired)[plan[i].name] + One(i < |nodes|)
      {
        ClosedOnce(plan, |nodes|, i);
        assert plan[i].name in Names(plan) by {
          assert Names(plan)[i] == plan[i].name;
        }
        StaysOrGoes(graph, nodes, before, edges, old(graph.retired), plan[i].name);
      }
    }

    /**
     * `apply`. On success the patch is in the graph, node for node and edge for edge. On failure the graph has
     * exactly the added nodes it would not remove, with edges into those only: it is as before if and only if it
     * took changes at every removal. Each owned component has been closed once, by the plan or by the graph, or
     * is in the graph still. No edge from the running graph is connected before the patch is whole.
     */
    method Apply(graph: Graph, begun: bool) returns (ok: bool, closed: multiset<string>, ghost when: seq<nat>)
      requires Valid() && graph.Valid() && Fresh(components) && forall x :: x in Names(plan) ==> x !in graph.nodes
      modifies this`components, graph
      ensures Valid() && graph.Valid() && |when| <= |plan| && AddedAt(graph, when, |when|, old(graph.clock))
      ensures old(graph.clock) + |when| <= graph.clock - (if ok then 0 else |when|)
      ensures begun && plan != [] && graph.accepts(old(graph.clock)) && !graph.fails(old(graph.clock)) ==> when != []
      ensures ok ==> |when| == |plan| && graph.nodes == old(graph.nodes) + SetOf(Names(plan))
      ensures ok ==> old(graph.edges) <= graph.edges && forall e :: Count(graph.edges, e) == Count(old(graph.edges), e) + Installed(plan, e)
      ensures ok ==> Taken(old(components), components, |plan|) && closed == multiset{} && graph.retired == old(graph.retired)
      ensures !ok ==> RolledBack(graph, Names(plan[..|when|]), old(graph.nodes), old(graph.edges), old(graph.retired))
      ensures !ok ==> forall i :: 0 <= i < |plan| ==> closed[plan[i].name] == One(old(components)[i].owned && i >= |when|)
      ensures !ok ==> (graph.nodes == old(graph.nodes) && graph.edges == old(graph.edges) <==>
        forall t :: graph.clock - |when| <= t < graph.clock ==> graph.accepts(t))
      ensures !ok ==> forall i :: 0 <= i < |plan| && old(components)[i].owned ==>
        closed[plan[i].name] + graph.retired[plan[i].name] + One(plan[i].name in graph.nodes) == old(graph.retired)[plan[i].name] + 1
      ensures old(graph.calls) <= graph.calls
      ensures forall i :: |old(graph.calls)| <= i < |graph.calls| ==>
        graph.calls[i].route.from in Names(plan) || MetWhole(graph.calls[i], plan)
    {
      ok, closed, when := begun, multiset{}, [];
      var nodes := [];
      assert Names(plan[..0]) == [];
      if ok {
        ok, nodes, when := Build(graph);
      }
      if ok {
        var isolated: bool := *;
        ok := isolated;
      }
      assert plan[..|plan|] == plan;
      if ok {
        ok := Reach(graph, nodes, old(graph.edges));
      }
      if !ok {
        closed := Undo(graph, nodes, old(graph.nodes), old(graph.edges), old(components));
      }
    }
  }

  /** A route from outside the plan into planned nodes only. */
  ghost predicate LeadsIn(r: Route, names: seq<string>) {
    r.from !in names && forall t :: t in r.to ==> t in names
  }

  /** The call found every planned node and every inner edge in place. */
  ghost predicate MetWhole(call: Call, plan: seq<PlanNode>) {
    && SetOf(Names(plan)) <= call.nodes
    && forall e :: Count(call.edges, e) >= InnerEdges(plan, |plan|, e)
  }

  predicate Leftover(c: Opened) {
    c.owned && !c.transferred
  }

  /** Of the nodes from k on, asked to leave in reverse beginning at call `start`, those that stay. */
  ghost function Kept(nodes: seq<string>, accepts: nat -> bool, start: nat, k: nat): set<string> {
    set i | k <= i < |nodes| && !accepts(start + |nodes| - 1 - i) :: nodes[i]
  }

  /** And those that go. */
  ghost function Gone(nodes: seq<string>, accepts: nat -> bool, start: nat, k: nat): set<string> {
    set i | k <= i < |nodes| && accepts(start + |nodes| - 1 - i) :: nodes[i]
  }

  lemma KeptOrGone(nodes: seq<string>, accepts: nat -> bool, start: nat, x: string)
    requires Distinct(nodes)
    ensures x in nodes <==> x in Kept(nodes, accepts, start, 0) || x in Gone(nodes, accepts, start, 0)
    ensures !(x in Kept(nodes, accepts, start, 0) && x in Gone(nodes, accepts, start, 0))
  {
    if x in nodes {
      var i :| 0 <= i < |nodes| && nodes[i] == x;
      if accepts(start + |nodes| - 1 - i) {
        assert x in Gone(nodes, accepts, start, 0);
      } else {
        assert x in Kept(nodes, accepts, start, 0);
      }
    }
  }

  lemma NoneKept(nodes: seq<string>, accepts: nat -> bool, start: nat)
    ensures Kept(nodes, accepts, start, 0) == {} <==> forall t :: start <= t < start + |nodes| ==> accepts(t)
  {
    forall t | start <= t < start + |nodes| && !accepts(t)
      ensures Kept(nodes, accepts, start, 0) != {}
    {
      assert nodes[start + |nodes| - 1 - t] in Kept(nodes, accepts, start, 0);
    }
  }

  /** After the removals: the nodes that stayed, the edges into them, and nothing else new; the others are retired. */
  ghost predicate RolledBack(graph: Graph, nodes: seq<string>, before: set<string>, edges: seq<Edge>, retired: multiset<string>)
    reads graph
  {
    && |nodes| <= graph.clock
    && graph.nodes == before + Kept(nodes, graph.accepts, graph.clock - |nodes|, 0)
    && OnlyInto(edges, graph.edges, Kept(nodes, graph.accepts, graph.clock - |nodes|, 0))
    && forall x :: graph.retired[x] == retired[x] + One(x in Gone(nodes, graph.accepts, graph.clock - |nodes|, 0))
  }

  /** Beyond what was there, every edge leads into one of these nodes. */
  ghost predicate OnlyInto(before: seq<Edge>, now: seq<Edge>, kept: set<string>) {
    before <= now && forall i :: |before| <= i < |now| ==> now[i].to in kept
  }

  /** Each node that was added is in the graph still or retired, once. */
  lemma StaysOrGoes(graph: Graph, nodes: seq<string>, before: set<string>, edges: seq<Edge>, retired: multiset<string>, x: string)
    requires Distinct(nodes) && RolledBack(graph, nodes, before, edges, retired) && x !in before
    ensures One(x in graph.nodes) + graph.retired[x] == retired[x] + One(x in nodes)
  {
    KeptOrGone(nodes, graph.accepts, graph.clock - |nodes|, x);
  }

  /**
   * `rollbackRuntimeBranch`: the nodes are asked to leave in reverse, each taking its edges along; a refusal is
   * ignored. So the graph is as before exactly when none was refused.
   */
  method Rollback(graph: Graph, nodes: seq<string>, ghost before: set<string>, ghost edges: seq<Edge>)
    requires graph.Valid() && Distinct(nodes)
    requires graph.nodes == before + SetOf(nodes) && forall x :: x in nodes ==> x !in before
    requires Patch(edges, graph.edges, nodes) && forall e :: e in edges ==> e.from in before && e.to in before
    modifies graph`nodes, graph`edges, graph`retired, graph`clock
    ensures graph.Valid() && graph.clock == old(graph.clock) + |nodes|
    ensures RolledBack(graph, nodes, before, edges, old(graph.retired))
    ensures graph.edges == Without(old(graph.edges), Gone(nodes, graph.accepts, old(graph.clock), 0))
    ensures graph.nodes == before && graph.edges == edges <==> forall t :: old(graph.clock) <= t < graph.clock ==> graph.accepts(t)
  {
    RemoveAll(graph, nodes, before);
    AllAsked(graph, nodes, old(graph.clock), before, edges, old(graph.edges), old(graph.retired));
  }

  /** Once every node has been asked. */
  lemma AllAsked(graph: Graph, nodes: seq<string>, start: nat, before: set<string>, edges: seq<Edge>, now: seq<Edge>, retired: multiset<string>)
    requires Distinct(nodes) && Asked(graph, nodes, 0, start, before, now, retired) && forall x :: x in nodes ==> x !in before
    requires Patch(edges, now, nodes) && forall e :: e in edges ==> e.from in before && e.to in before
    ensures RolledBack(graph, nodes, before, edges, retired)
    ensures graph.nodes == before && graph.edges == edges <==> forall t :: start <= t < graph.clock ==> graph.accepts(t)
  {
    var kept, gone := Kept(nodes, graph.accepts, start, 0), Gone(nodes, graph.accepts, start, 0);
    assert SetOf(nodes[..0]) == {};
    assert graph.nodes == before + kept;
    KeptsAndGones(nodes, graph.accepts, start);
    PatchOfKept(edges, now, nodes, kept, gone);
    NoneKept(nodes, graph.accepts, start);
    AsBefore(before, edges, graph.nodes, graph.edges, kept);
  }

  lemma KeptsAndGones(nodes: seq<string>, accepts: nat -> bool, start: nat)
    requires Distinct(nodes)
    ensures forall x :: x in nodes <==> x in Kept(nodes, accepts, start, 0) || x in Gone(nodes, accepts, start, 0)
  {
    forall x
      ensures x in nodes <==> x in Kept(nodes, accepts, start, 0) || x in Gone(nodes, accepts, start, 0)
    {
      KeptOrGone(nodes, accepts, start, x);
    }
  }

  lemma PatchOfKept(edges: seq<Edge>, now: seq<Edge>, nodes: seq<string>, kept: set<string>, gone: set<string>)
    requires Patch(edges, now, nodes) && forall x :: x in nodes ==> x in kept || x in gone
    requires forall e :: e in edges ==> e.from !in gone && e.to !in gone
    ensures OnlyInto(edges, Without(now, gone), kept)
  {
    WithoutPatch(edges, now, gone);
    var later := Without(now, gone);
    forall i | |edges| <= i < |later|
      ensures later[i].to in kept
    {
      var j :| 0 <= j < |now[|edges|..]| && now[|edges|..][j] == later[i];
      assert now[|edges|+j].to in nodes;
    }
  }

  lemma AsBefore(before: set<string>, edges: seq<Edge>, nodes: set<string>, now: seq<Edge>, kept: set<string>)
    requires nodes == before + kept && OnlyInto(edges, now, kept) && kept !! before
    ensures nodes == before && now == edges <==> kept == {}
  {
    if |now| > |edges| {
      assert now[|edges|].to in kept;
    }
    if kept != {} {
      var x :| x in kept;
      assert x in nodes && x !in before;
    }
  }

  /** The nodes from k on have been asked to leave, beginning at call `start`. */
  ghost predicate Asked(graph: Graph, nodes: seq<string>, k: nat, start: nat, before: set<string>, edges: seq<Edge>, retired: multiset<string>)
    reads graph
  {
    && k <= |nodes| && graph.clock == start + |nodes| - k
    && graph.nodes == before + SetOf(nodes[..k]) + Kept(nodes, graph.accepts, start, k)
    && graph.edges == Without(edges, Gone(nodes, graph.accepts, start, k))
    && forall x :: graph.retired[x] == retired[x] + One(x in Gone(nodes, graph.accepts, start, k))
  }

  /** Its loop. */
  method RemoveAll(graph: Graph, nodes: seq<string>, ghost before: set<string>)
    requires graph.Valid() && Distinct(nodes)
    requires graph.nodes == before + SetOf(nodes) && forall x :: x in nodes ==> x !in before
    modifies graph`nodes, graph`edges, graph`retired, graph`clock
    ensures graph.Valid() && Asked(graph, nodes, 0, old(graph.clock), before, old(graph.edges), old(graph.retired))
  {
    var k := |nodes|;
    assert nodes[..k] == nodes && Kept(nodes, graph.accepts, graph.clock, k) == {} && Gone(nodes, graph.accepts, graph.clock, k) == {};
    WithoutNone(graph.edges);
    while k > 0
      invariant k <= |nodes| && graph.Valid() && Asked(graph, nodes, k, old(graph.clock), before, old(graph.edges), old(graph.retired))
    {
      k := k - 1;
      RemoveOne(graph, nodes, k, old(graph.clock), before, old(graph.edges), old(graph.retired));
    }
  }

  method RemoveOne(graph: Graph, nodes: seq<string>, k: nat, ghost start: nat, ghost before: set<string>, ghost edges: seq<Edge>, ghost retired: multiset<string>)
    requires graph.Valid() && Distinct(nodes) && k < |nodes| && nodes[k] !in before
    requires Asked(graph, nodes, k + 1, start, before, edges, retired)
    modifies graph`nodes, graph`edges, graph`retired, graph`clock
    ensures graph.Valid() && Asked(graph, nodes, k, start, before, edges, retired)
  {
    ghost var gone := Gone(nodes, graph.accepts, start, k + 1);
    OneNodeLess(nodes, k, before, graph.accepts, start);
    WithoutOneMore(edges, gone, nodes[k]);
    var ok := graph.Remove(nodes[k]);
    ghost var now := Gone(nodes, graph.accepts, start, k);
    assert now == if ok then gone + {nodes[k]} else gone;
    forall x
      ensures graph.retired[x] == retired[x] + One(x in now)
    {
      assert graph.retired[x] == old(graph.retired)[x] + One(ok && x == nodes[k]);
    }
  }

  /** The sets after one more removal, refused or not. */
  lemma OneNodeLess(nodes: seq<string>, k: nat, before: set<string>, accepts: nat -> bool, start: nat)
    requires k < |nodes| && Distinct(nodes) && nodes[k] !in before
    ensures var was := before + SetOf(nodes[..k+1]) + Kept(nodes, accepts, start, k + 1);
      var now := before + SetOf(nodes[..k]) + Kept(nodes, accepts, start, k);
      nodes[k] in was && now == if accepts(start + |nodes| - 1 - k) then was - {nodes[k]} else was
    ensures nodes[k] !in Gone(nodes, accepts, start, k + 1)
    ensures Gone(nodes, accepts, start, k) == Gone(nodes, accepts, start, k + 1) + if accepts(start + |nodes| - 1 - k) then {nodes[k]} else {}
  {
    assert nodes[..k+1] == nodes[..k] + [nodes[k]];
    assert nodes[k] in nodes[..k+1] && nodes[k] !in nodes[..k];
    KeptStep(nodes, k, accepts, start);
  }

  lemma KeptStep(nodes: seq<string>, k: nat, accepts: nat -> bool, start: nat)
    requires k < |nodes| && Distinct(nodes)
    ensures nodes[k] !in Gone(nodes, accepts, start, k + 1) && nodes[k] !in Kept(nodes, accepts, start, k + 1)
    ensures Kept(nodes, accepts, start, k) == Kept(nodes, accepts, start, k + 1) + if accepts(start + |nodes| - 1 - k) then {} else {nodes[k]}
    ensures Gone(nodes, accepts, start, k) == Gone(nodes, accepts, start, k + 1) + if accepts(start + |nodes| - 1 - k) then {nodes[k]} else {}
  {
  }

  lemma SecondAdd(graph: Graph, when: seq<nat>, start: nat)
    requires AddedAt(graph, when, |when|, start)
    ensures |when| > 1 ==> exists t :: t > start && graph.accepts(t)
  {
    if |when| > 1 {
      assert when[1] > start && graph.accepts(when[1]);
    }
  }

  /**
   * A run in which it is not: the graph takes the first node and then drains, so it refuses the second, and the
   * removal of the first.
   */
  method DrainingGraphKeepsANode() returns (graph: Graph, closed: multiset<string>)
    ensures graph.nodes == {"a"} && graph.retired == multiset{} && closed["a"] == 0 && closed["b"] == 1
  {
    var nodes := [PlanNode("a", [], []), PlanNode("b", ["a"], [])];
    graph := new Graph({}, [], t => t == 0, t => false);
    var plan := new Plan(nodes, [Opened(true, false), Opened(true, false)]);
    assert Names(nodes) == ["a", "b"];
    assert forall t :: graph.accepts(t) <==> t == 0;
    var ok, all, when := plan.Apply(graph, true);
    SecondAdd(graph, when, 0);
    assert nodes[..1] == [nodes[0]] && Names(nodes[..1]) == ["a"];
    var last := graph.clock - 1;
    assert Kept(["a"], graph.accepts, last, 0) == {"a"} && Gone(["a"], graph.accepts, last, 0) == {};
    closed := all;
    assert nodes[0].name == "a" && nodes[1].name == "b";
  }

  lemma NamesDiffer(plan: seq<PlanNode>, n: nat)
    requires Distinct(Names(plan)) && n < |plan|
    ensures forall i :: 0 <= i < |plan| && i != n ==> plan[i].name != plan[n].name
  {
    forall i | 0 <= i < |plan| && i != n
      ensures plan[i].name != plan[n].name
    {
      assert Names(plan)[i] != Names(plan)[n];
    }
  }

  /** The ingress routes lead from outside the plan into it. */
  lemma {:induction false} IngressLeadsIn(plan: seq<PlanNode>, routes: seq<Route>, r: nat)
    requires r < |routes| && routes[r].to != []
    requires forall e :: Flat(routes, |routes|, e) == OuterEdges(plan, Names(plan), |plan|, e)
    ensures LeadsIn(routes[r], Names(plan))
  {
    var route := routes[r];
    forall t | t in route.to
      ensures t in Names(plan) && route.from !in Names(plan)
    {
      var e := Edge(route.from, t, route.policy, route.tag);
      CarriedIsFlat(routes, r, |routes|, e);
      OuterEdgesLeadIn(plan, Names(plan), |plan|, e);
    }
    assert route.to[0] in route.to;
  }

  lemma {:induction false} CarriedIsFlat(routes: seq<Route>, r: nat, n: nat, e: Edge)
    requires r < n <= |routes|
    ensures Flat(routes, n, e) >= Carries(routes[r], e)
  {
    if r < n - 1 {
      CarriedIsFlat(routes, r, n - 1, e);
    }
  }

  /** A planned name is among the first m exactly at its own position. */
  lemma ClosedOnce(plan: seq<PlanNode>, m: nat, i: nat)
    requires Distinct(Names(plan)) && m <= |plan| && i < |plan|
    ensures plan[i].name in Names(plan[..m]) <==> i < m
  {
    if i < m {
      assert Names(plan[..m])[i] == plan[i].name;
    }
    forall j | 0 <= j < m && j != i
      ensures plan[j].name != plan[i].name
    {
      NamesDiffer(plan, i);
    }
  }

  lemma PrefixDistinct(plan: seq<PlanNode>, m: nat)
    requires Distinct(Names(plan)) && m <= |plan|
    ensures Distinct(Names(plan[..m]))
  {
    var nodes := Names(plan[..m]);
    forall a, b | 0 <= a < b < m
      ensures nodes[a] != nodes[b]
    {
      assert Names(plan)[a] != Names(plan)[b];
    }
  }

  lemma OneMoreName(plan: seq<PlanNode>, n: nat)
    requires n < |plan|
    ensures Names(plan[..n+1]) == Names(plan[..n]) + [plan[n].name]
    ensures forall x :: x in Names(plan[..n+1]) ==> x in Names(plan)
  {
    PrefixNames(plan, n + 1);
  }

  /** No component has been handed to the graph yet. */
  ghost predicate Fresh(components: seq<Opened>) {
    forall i :: 0 <= i < |components| ==> !components[i].transferred
  }

  /** The graph has taken over the first m components. */
  ghost predicate Taken(before: seq<Opened>, now: seq<Opened>, m: nat) {
    && |now| == |before|
    && forall i :: 0 <= i < |now| ==> now[i] == Opened(before[i].owned, i < m)
  }

  function SetOf(s: seq<string>): set<string> {
    set x | x in s
  }
}
