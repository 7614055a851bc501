/** The order in which a branch leaves the graph: `upstreamFirst` in `runtime_attach.go`. */
module DrainOrder {
  import opened Graphs
  import Seqs

  datatype Route = Route(from: Vertex, to: seq<Vertex>)

  /** Some route leads from a to another node b. */
  predicate Feeds(routes: seq<Route>, a: Vertex, b: Vertex) {
    a != b && exists i | 0 <= i < |routes| :: routes[i].from == a && b in routes[i].to
  }

  /** Some node still in the branch feeds this one. */
  predicate FedFrom(left: seq<Vertex>, routes: seq<Route>, node: Vertex) {
    exists i | 0 <= i < |left| :: Feeds(routes, left[i], node)
  }

  function FirstUnfed(left: seq<Vertex>, routes: seq<Route>, i: nat): (n: nat)
    requires i <= |left|
    ensures i <= n <= |left|
    ensures forall k {:trigger FedFrom(left, routes, left[k])} :: i <= k < n ==> FedFrom(left, routes, left[k])
    ensures n < |left| ==> !FedFrom(left, routes, left[n])
    decreases |left| - i
  {
    if i == |left| then i else if !FedFrom(left, routes, left[i]) then i else FirstUnfed(left, routes, i + 1)
  }

  /** The next node to leave: the first that nothing left feeds, or the first of all. */
  function Pick(left: seq<Vertex>, routes: seq<Route>): (n: nat)
    requires left != []
    ensures n < |left|
  {
    var n := FirstUnfed(left, routes, 0);
    if n < |left| then n else 0
  }

  function Without<T>(s: seq<T>, n: nat): seq<T>
    requires n < |s|
  {
    s[..n] + s[n+1..]
  }

  function Order(left: seq<Vertex>, routes: seq<Route>): (out: seq<Vertex>)
    ensures |out| == |left|
    decreases |left|
  {
    if left == [] then [] else
      var n := Pick(left, routes);
      [left[n]] + Order(Without(left, n), routes)
  }

  method PickNext(left: seq<Vertex>, routes: seq<Route>) returns (next: nat)
    requires left != []
    ensures next == Pick(left, routes)
  {
    next := 0;
    while next < |left| && FedFrom(left, routes, left[next])
      invariant next <= |left|
      invariant FirstUnfed(left, routes, 0) == FirstUnfed(left, routes, next)
    {
      next := next + 1;
    }
    if next == |left| {
      next := 0;
    }
  }

  method UpstreamFirst(nodes: seq<Vertex>, routes: seq<Route>) returns (out: seq<Vertex>)
    ensures out == Order(nodes, routes)
  {
    var left := nodes;
    out := [];
    while left != []
      invariant out + Order(left, routes) == Order(nodes, routes)
      decreases |left|
    {
      var next := PickNext(left, routes);
      Seqs.Assoc(out, [left[next]], Order(Without(left, next), routes));
      out := out + [left[next]];
      left := Without(left, next);
    }
  }

  // ---------------------------------------------------------------------
  // What the order promises
  // ---------------------------------------------------------------------

  /** The branch's own edges. */
  ghost function Edges(nodes: seq<Vertex>, routes: seq<Route>): set<(Vertex, Vertex)> {
    set a, b | a in nodes && b in nodes && Feeds(routes, a, b) :: (a, b)
  }

  /** No node comes before a node routed into it. */
  ghost predicate FeedersFirst(out: seq<Vertex>, routes: seq<Route>) {
    forall p, q :: 0 <= p < q < |out| ==> !Feeds(routes, out[q], out[p])
  }

  lemma SplitAt<T>(s: seq<T>, n: nat)
    requires n < |s|
    ensures multiset(s) == multiset{s[n]} + multiset(Without(s, n))
  {
    assert s == s[..n] + [s[n]] + s[n+1..];
  }

  /** Every node leaves exactly once. */
  lemma {:induction false} OrderIsPermutation(left: seq<Vertex>, routes: seq<Route>)
    ensures multiset(Order(left, routes)) == multiset(left)
    decreases |left|
  {
    if left != [] {
      var n := Pick(left, routes);
      OrderIsPermutation(Without(left, n), routes);
      SplitAt(left, n);
    }
  }

  lemma SameMembers<T>(a: seq<T>, b: seq<T>)
    requires multiset(a) == multiset(b)
    ensures forall x :: x in a <==> x in b
  {
    forall x
      ensures x in a <==> x in b
    {
      assert x in a <==> x in multiset(a);
      assert x in b <==> x in multiset(b);
    }
  }

  lemma FedIsFed(left: seq<Vertex>, routes: seq<Route>, edges: set<(Vertex, Vertex)>, S: set<Vertex>, k: nat)
    requires k < |left| && S == set i | 0 <= i < |left| :: left[i]
    requires forall a, b :: a in left && b in left && Feeds(routes, a, b) ==> (a, b) in edges
    ensures FedFrom(left, routes, left[k]) ==> Fed(edges, S, left[k])
  {
    if FedFrom(left, routes, left[k]) {
      var i :| 0 <= i < |left| && Feeds(routes, left[i], left[k]);
      assert left[i] in S && (left[i], left[k]) in edges;
    }
  }

  lemma UnfedIsPicked(left: seq<Vertex>, routes: seq<Route>, edges: set<(Vertex, Vertex)>)
    requires Acyclic(edges) && left != []
    requires forall a, b :: a in left && b in left && Feeds(routes, a, b) ==> (a, b) in edges
    ensures !FedFrom(left, routes, left[Pick(left, routes)])
  {
    var S := set i | 0 <= i < |left| :: left[i];
    assert left[0] in S;
    AcyclicHasSource(edges, S);
    var v :| v in S && !Fed(edges, S, v);
    var k :| 0 <= k < |left| && left[k] == v;
    FedIsFed(left, routes, edges, S, k);
    assert FirstUnfed(left, routes, 0) <= k;
  }

  lemma {:induction false} AcyclicOrder(left: seq<Vertex>, routes: seq<Route>, edges: set<(Vertex, Vertex)>)
    requires Acyclic(edges)
    requires forall a, b :: a in left && b in left && Feeds(routes, a, b) ==> (a, b) in edges
    ensures FeedersFirst(Order(left, routes), routes)
    decreases |left|
  {
    if left != [] {
      var n := Pick(left, routes);
      var rest := Without(left, n);
      UnfedIsPicked(left, routes, edges);
      AcyclicOrder(rest, routes, edges);
      OrderIsPermutation(rest, routes);
      SameMembers(Order(rest, routes), rest);
      var out := Order(left, routes);
      forall q | 0 < q < |out|
        ensures !Feeds(routes, out[q], out[0])
      {
        assert out[q] in Order(rest, routes);
        assert out[q] in rest && out[q] in left;
      }
    }
  }

  /** With feeders first, every path of the branch runs forward through the order. */
  lemma {:induction false} PathsRunForward(out: seq<Vertex>, routes: seq<Route>, path: seq<Vertex>, i: nat, j: nat)
    requires FeedersFirst(out, routes) && Distinct(out)
    requires IsPath(Edges(out, routes), path) && |path| >= 2
    requires i < |out| && j < |out| && out[i] == path[0] && out[j] == path[|path|-1]
    ensures i < j
    decreases |path|
  {
    assert (path[0], path[1]) in Edges(out, routes);
    var k :| 0 <= k < |out| && out[k] == path[1];
    assert i < k;
    if |path| > 2 {
      var rest := path[1..];
      assert IsPath(Edges(out, routes), rest) by {
        forall m | 0 <= m < |rest| - 1
          ensures (rest[m], rest[m+1]) in Edges(out, routes)
        {
          assert rest[m] == path[m+1] && rest[m+1] == path[m+2];
        }
      }
      PathsRunForward(out, routes, rest, k, j);
    }
  }

  lemma DistinctStays(a: seq<Vertex>, b: seq<Vertex>)
    requires Distinct(a) && multiset(a) == multiset(b)
    ensures Distinct(b)
  {
    forall i, j | 0 <= i < j < |b|
      ensures b[i] != b[j]
    {
      if b[i] == b[j] {
        Twice(b, i, j);
        Once(a, b[i]);
      }
    }
  }

  lemma Twice<T>(s: seq<T>, i: nat, j: nat)
    requires i < j < |s| && s[i] == s[j]
    ensures multiset(s)[s[i]] >= 2
  {
    assert s == s[..j] + s[j..];
    assert s[i] in s[..j] && s[j] in s[j..];
  }

  lemma {:induction false} Once<T>(s: seq<T>, x: T)
    requires Distinct(s)
    ensures multiset(s)[x] <= 1
  {
    if s != [] {
      var n := |s| - 1;
      Once(s[..n], x);
      assert s == s[..n] + [s[n]];
    }
  }

  lemma ForwardIsAcyclic(out: seq<Vertex>, routes: seq<Route>)
    requires FeedersFirst(out, routes) && Distinct(out)
    ensures Acyclic(Edges(out, routes))
  {
    var edges := Edges(out, routes);
    forall p | IsPath(edges, p) && |p| >= 2
      ensures p[0] != p[|p|-1]
    {
      var last := |p| - 1;
      assert (p[0], p[1]) in edges && (p[last-1], p[last]) in edges;
      var i :| 0 <= i < |out| && out[i] == p[0];
      var j :| 0 <= j < |out| && out[j] == p[last];
      PathsRunForward(out, routes, p, i, j);
    }
  }

  /** The order holds the branch's nodes, each once, and so has its edges. */
  lemma OrderHasTheNodes(nodes: seq<Vertex>, routes: seq<Route>)
    requires Distinct(nodes)
    ensures var out := Order(nodes, routes);
      Distinct(out) && Edges(out, routes) == Edges(nodes, routes) && forall x :: x in out <==> x in nodes
  {
    var out := Order(nodes, routes);
    OrderIsPermutation(nodes, routes);
    DistinctStays(nodes, out);
    SameMembers(out, nodes);
  }

  /** Nodes leave after everything routed into them exactly when the branch has no cycle. */
  lemma UpstreamFirstIffAcyclic(nodes: seq<Vertex>, routes: seq<Route>)
    requires Distinct(nodes)
    ensures FeedersFirst(Order(nodes, routes), routes) <==> Acyclic(Edges(nodes, routes))
  {
    var out := Order(nodes, routes);
    OrderHasTheNodes(nodes, routes);
    if Acyclic(Edges(nodes, routes)) {
      AcyclicOrder(nodes, routes, Edges(nodes, routes));
    }
    if FeedersFirst(out, routes) {
      ForwardIsAcyclic(out, routes);
    }
  }

  /** The node picked while an earlier one waits: the earlier one is fed by a node still to leave. */
  lemma PickedWhileFed(left: seq<Vertex>, routes: seq<Route>, a: nat) returns (r: nat)
    requires left != [] && a < Pick(left, routes)
    ensures r < |left| && Feeds(routes, Order(left, routes)[r], left[a])
  {
    assert FedFrom(left, routes, left[a]);
    var i :| 0 <= i < |left| && Feeds(routes, left[i], left[a]);
    OrderIsPermutation(left, routes);
    SameMembers(Order(left, routes), left);
    assert left[i] in Order(left, routes);
    r :| 0 <= r < |left| && Order(left, routes)[r] == left[i];
  }

  /** Where an element other than the removed one ends up. */
  function Shifted(n: nat, i: nat): nat
    requires i != n
  {
    if i < n then i else i - 1
  }

  lemma WithoutAt<T>(s: seq<T>, n: nat, i: nat)
    requires n < |s| && i < |s| && i != n
    ensures Shifted(n, i) < |Without(s, n)| && Without(s, n)[Shifted(n, i)] == s[i]
  {
  }

  lemma DistinctWithout<T>(s: seq<T>, n: nat)
    requires Distinct(s) && n < |s|
    ensures Distinct(Without(s, n))
  {
    var t := Without(s, n);
    forall i, j | 0 <= i < j < |t|
      ensures t[i] != t[j]
    {
      assert t[i] == s[if i < n then i else i + 1] && t[j] == s[if j < n then j else j + 1];
    }
  }

  /** Past the first pick, places in the order and in the attach order shift together. */
  lemma PlaceShifts(left: seq<Vertex>, routes: seq<Route>, a: nat, p: nat)
    requires Distinct(left) && a < |left| && 0 < p < |left| && Order(left, routes)[p] == left[a]
    ensures var n := Pick(left, routes); var rest := Without(left, n);
      a != n && Shifted(n, a) < |rest| && rest[Shifted(n, a)] == left[a] && Order(rest, routes)[p-1] == left[a]
  {
    var n := Pick(left, routes);
    OrderHasTheNodes(left, routes);
    assert Order(left, routes)[0] == left[n];
    WithoutAt(left, n, a);
  }

  /** What follows the first pick is an order of its own. */
  lemma OrderGoesOn(left: seq<Vertex>, routes: seq<Route>, a: nat, b: nat, p: nat, q: nat)
    returns (rest: seq<Vertex>, a': nat, b': nat)
    requires Distinct(left) && a < b < |left| && 0 < p < q < |left|
    requires Order(left, routes)[q] == left[a] && Order(left, routes)[p] == left[b]
    ensures Distinct(rest) && |rest| == |left| - 1 && Order(left, routes)[1..] == Order(rest, routes)
    ensures a' < b' < |rest| && rest[a'] == left[a] && rest[b'] == left[b]
  {
    var n := Pick(left, routes);
    PlaceShifts(left, routes, a, q);
    PlaceShifts(left, routes, b, p);
    DistinctWithout(left, n);
    rest, a', b' := Without(left, n), Shifted(n, a), Shifted(n, b);
  }

  /** Ties keep the attach order: a node overtaken by one attached later was still being fed. */
  lemma {:induction false} TiesKeepAttachOrder(left: seq<Vertex>, routes: seq<Route>, a: nat, b: nat, p: nat, q: nat) returns (r: nat)
    requires Distinct(left) && a < b < |left| && p < q < |left|
    requires Order(left, routes)[q] == left[a] && Order(left, routes)[p] == left[b]
    ensures p <= r < |left| && Feeds(routes, Order(left, routes)[r], left[a])
    decreases |left|
  {
    if p == 0 {
      assert Order(left, routes)[0] == left[Pick(left, routes)];
      r := PickedWhileFed(left, routes, a);
    } else {
      var rest, a', b' := OrderGoesOn(left, routes, a, b, p, q);
      assert Order(rest, routes)[q-1] == rest[a'] && Order(rest, routes)[p-1] == rest[b'];
      r := TiesKeepAttachOrder(rest, routes, a', b', p - 1, q - 1);
      r := r + 1;
    }
  }
}
