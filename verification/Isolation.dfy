/** Failure-isolation membership: `exclusiveSuffix` and `isolationPlans` in `branch_failure.go`. */
module Isolation {
  import opened Graphs

  /** Source, join, the four destination kinds, and everything else. */
  datatype Kind = Source | Join | Terminal | Other

  datatype Node = Node(name: Vertex, inputs: seq<Vertex>, kind: Kind, output: nat)

  datatype Refusal = NoBoundary | SharesDownstream | CrossesJoin | BordersJoin | SharesDestination

  datatype Result<T> = Ok(value: T) | Refused(why: Refusal)

  ghost function EdgesOf(nodes: seq<Node>): set<(Vertex, Vertex)> {
    set i, j | 0 <= i < |nodes| && 0 <= j < |nodes[i].inputs| :: (nodes[i].inputs[j], nodes[i].name)
  }

  ghost function NamesOf(nodes: seq<Node>): set<Vertex> {
    set i | 0 <= i < |nodes| :: nodes[i].name
  }

  // ---------------------------------------------------------------------
  // The reference: maximal downstream paths
  // ---------------------------------------------------------------------

  ghost predicate HasNext(edges: set<(Vertex, Vertex)>, v: Vertex) {
    exists w :: (v, w) in edges
  }

  /** A path from v that cannot be extended. */
  ghost predicate Maximal(edges: set<(Vertex, Vertex)>, p: seq<Vertex>, v: Vertex) {
    IsPath(edges, p) && p[0] == v && !HasNext(edges, p[|p|-1])
  }

  /** Every maximal downstream path of v ends in a chosen terminal. */
  ghost predicate Exclusive(edges: set<(Vertex, Vertex)>, terminals: set<Vertex>, v: Vertex) {
    forall p :: Maximal(edges, p, v) ==> p[|p|-1] in terminals
  }

  lemma PathStep(edges: set<(Vertex, Vertex)>, v: Vertex, p: seq<Vertex>)
    requires IsPath(edges, p) && (v, p[0]) in edges
    ensures IsPath(edges, [v] + p)
  {
    var q := [v] + p;
    forall i | 0 <= i < |q| - 1
      ensures (q[i], q[i+1]) in edges
    {
      assert i > 0 ==> q[i] == p[i-1] && q[i+1] == p[i];
    }
  }

  lemma PathTail(edges: set<(Vertex, Vertex)>, p: seq<Vertex>)
    requires IsPath(edges, p) && |p| >= 2
    ensures IsPath(edges, p[1..])
  {
    var q := p[1..];
    forall i | 0 <= i < |q| - 1
      ensures (q[i], q[i+1]) in edges
    {
      assert q[i] == p[i+1] && q[i+1] == p[i+2];
    }
  }

  /** A leaf is exclusive if chosen; any other node exactly when all its successors are. */
  lemma ExclusiveUnfolds(edges: set<(Vertex, Vertex)>, terminals: set<Vertex>, v: Vertex)
    ensures !HasNext(edges, v) ==> (Exclusive(edges, terminals, v) <==> v in terminals)
    ensures HasNext(edges, v) ==>
      (Exclusive(edges, terminals, v) <==> forall w :: (v, w) in edges ==> Exclusive(edges, terminals, w))
  {
    if !HasNext(edges, v) {
      LeafExclusive(edges, terminals, v);
    } else {
      if Exclusive(edges, terminals, v) {
        forall w, p | (v, w) in edges && Maximal(edges, p, w)
          ensures p[|p|-1] in terminals
        {
          PathStep(edges, v, p);
          assert Maximal(edges, [v] + p, v);
        }
      }
      if forall w :: (v, w) in edges ==> Exclusive(edges, terminals, w) {
        forall p | Maximal(edges, p, v)
          ensures p[|p|-1] in terminals
        {
          PathTail(edges, p);
          assert (p[0], p[1]) in edges && Maximal(edges, p[1..], p[1]);
        }
      }
    }
  }

  lemma LeafExclusive(edges: set<(Vertex, Vertex)>, terminals: set<Vertex>, v: Vertex)
    requires !HasNext(edges, v)
    ensures Exclusive(edges, terminals, v) <==> v in terminals
  {
    assert Maximal(edges, [v], v);
    forall p | Maximal(edges, p, v)
      ensures p == [v]
    {
      if |p| >= 2 {
        LongPathHasNext(edges, p);
      }
    }
  }

  lemma LongPathHasNext(edges: set<(Vertex, Vertex)>, p: seq<Vertex>)
    requires IsPath(edges, p) && |p| >= 2
    ensures HasNext(edges, p[0])
  {
    assert (p[0], p[1]) in edges;
  }

  lemma {:induction false} ExtendToMaximal(edges: set<(Vertex, Vertex)>, V: set<Vertex>, p: seq<Vertex>) returns (q: seq<Vertex>)
    requires Acyclic(edges) && IsPath(edges, p) && forall i :: 0 <= i < |p| ==> p[i] in V
    requires forall u, w :: (u, w) in edges ==> w in V
    requires |p| <= |V|
    ensures Maximal(edges, q, p[0])
    decreases |V| - |p|
  {
    if HasNext(edges, p[|p|-1]) {
      var w :| (p[|p|-1], w) in edges;
      var longer := p + [w];
      assert IsPath(edges, longer);
      AcyclicPathsAreDistinct(edges, longer);
      DistinctFits(longer, V);
      q := ExtendToMaximal(edges, V, longer);
    } else {
      q := p;
    }
  }

  /** Every node of an acyclic plan has a maximal downstream path. */
  lemma MaximalPathExists(nodes: seq<Node>, v: Vertex) returns (p: seq<Vertex>)
    requires Acyclic(EdgesOf(nodes))
    ensures Maximal(EdgesOf(nodes), p, v)
  {
    var V := NamesOf(nodes) + {v};
    assert |{v}| <= |V| by { assert V == {v} + (V - {v}); }
    EdgesEndInNames(nodes);
    p := ExtendToMaximal(EdgesOf(nodes), V, [v]);
  }

  /** Disjoint terminals make disjoint suffixes. */
  lemma DisjointSuffixes(nodes: seq<Node>, a: set<Vertex>, b: set<Vertex>, v: Vertex)
    requires Acyclic(EdgesOf(nodes)) && a !! b
    ensures !(Exclusive(EdgesOf(nodes), a, v) && Exclusive(EdgesOf(nodes), b, v))
  {
    var p := MaximalPathExists(nodes, v);
    assert Maximal(EdgesOf(nodes), p, v);
  }

  // ---------------------------------------------------------------------
  // The memoised search
  // ---------------------------------------------------------------------

  /** The successors of every node that has any. */
  ghost predicate IsNext(next: map<Vertex, seq<Vertex>>, edges: set<(Vertex, Vertex)>) {
    forall u, w :: (u, w) in edges <==> u in next && w in next[u]
  }

  ghost predicate Reaches(edges: set<(Vertex, Vertex)>, u: Vertex, v: Vertex) {
    exists p :: PathFrom(edges, p, u, v) && |p| >= 2
  }

  lemma ReachesStep(edges: set<(Vertex, Vertex)>, u: Vertex, v: Vertex, w: Vertex)
    requires u == v || Reaches(edges, u, v)
    requires (v, w) in edges
    ensures Reaches(edges, u, w)
  {
    if u == v {
      assert PathFrom(edges, [v, w], u, w);
    } else {
      var p :| PathFrom(edges, p, u, v) && |p| >= 2;
      assert PathFrom(edges, p + [w], u, w);
    }
  }

  lemma AllReachOn(edges: set<(Vertex, Vertex)>, visiting: set<Vertex>, v: Vertex, w: Vertex)
    requires forall u :: u in visiting && u != v ==> Reaches(edges, u, v)
    requires (v, w) in edges
    ensures forall u :: u in visiting ==> Reaches(edges, u, w)
  {
    forall u | u in visiting
      ensures Reaches(edges, u, w)
    {
      ReachesStep(edges, u, v, w);
    }
  }

  lemma AcyclicNeverReturns(edges: set<(Vertex, Vertex)>, v: Vertex)
    requires Reaches(edges, v, v)
    ensures !Acyclic(edges)
  {
    var p :| PathFrom(edges, p, v, v) && |p| >= 2;
    assert IsPath(edges, p) && p[0] == p[|p|-1];
  }

  /** The first i of these nodes are all in. */
  ghost predicate AllIn(s: seq<Vertex>, right: iset<Vertex>, i: nat)
    requires i <= |s|
  {
    i == 0 || (AllIn(s, right, i - 1) && s[i-1] in right)
  }

  lemma {:induction false} AllInMeans(s: seq<Vertex>, right: iset<Vertex>, i: nat)
    requires i <= |s|
    ensures AllIn(s, right, i) <==> forall k :: 0 <= k < i ==> s[k] in right
  {
    if i > 0 {
      AllInMeans(s, right, i - 1);
    }
  }

  /** The verdict on v agrees with the verdicts on its successors. */
  ghost predicate Settled(next: map<Vertex, seq<Vertex>>, terminals: set<Vertex>, right: iset<Vertex>, v: Vertex) {
    v in right <==>
      if v in next && next[v] != [] then AllIn(next[v], right, |next[v]|) else v in terminals
  }

  ghost predicate AllSettled(next: map<Vertex, seq<Vertex>>, terminals: set<Vertex>, right: iset<Vertex>) {
    forall v {:trigger Settled(next, terminals, right, v)} :: Settled(next, terminals, right, v)
  }

  /** The exclusive nodes are verdicts that agree with each other. */
  lemma ExclusiveIsSettled(next: map<Vertex, seq<Vertex>>, edges: set<(Vertex, Vertex)>, terminals: set<Vertex>)
    requires IsNext(next, edges)
    ensures AllSettled(next, terminals, iset v | Exclusive(edges, terminals, v))
  {
    var right := iset v | Exclusive(edges, terminals, v);
    forall v
      ensures Settled(next, terminals, right, v)
    {
      ExclusiveUnfolds(edges, terminals, v);
      if v in next && next[v] != [] {
        AllInMeans(next[v], right, |next[v]|);
        assert (v, next[v][0]) in edges;
        assert forall k :: 0 <= k < |next[v]| ==> (v, next[v][k]) in edges;
      }
    }
  }

  lemma OneMoreVisited(V: set<Vertex>, visiting: set<Vertex>, v: Vertex)
    requires v in V && v !in visiting
    ensures |V - (visiting + {v})| < |V - visiting|
  {
    assert V - visiting == (V - (visiting + {v})) + {v};
  }

  class Search {
    const next: map<Vertex, seq<Vertex>>
    const terminals: set<Vertex>
    var memo: map<Vertex, bool>
    var visiting: set<Vertex>

    constructor (next: map<Vertex, seq<Vertex>>, terminals: set<Vertex>)
      ensures this.next == next && this.terminals == terminals && memo == map[] && visiting == {}
    {
      this.next, this.terminals, memo, visiting := next, terminals, map[], {};
    }

    /** On an acyclic graph every remembered verdict is the right one. */
    ghost predicate MemoRight(acyclic: bool, right: iset<Vertex>)
      reads this
    {
      acyclic ==> forall v :: v in memo ==> (memo[v] <==> v in right)
    }

    /** The nodes being visited all lead to v. */
    ghost predicate OnTheWay(edges: set<(Vertex, Vertex)>, v: Vertex)
      reads this
    {
      forall u :: u in visiting ==> Reaches(edges, u, v)
    }

    /** The graph searched: its successor lists, its nodes, and the verdicts to be found. */
    ghost predicate Over(edges: set<(Vertex, Vertex)>, V: set<Vertex>, acyclic: bool, right: iset<Vertex>) {
      && IsNext(next, edges) && (forall u, w :: (u, w) in edges ==> w in V)
      && (acyclic ==> Acyclic(edges)) && AllSettled(next, terminals, right)
    }

    /** The recursive closure; it stops on any graph, and is right on an acyclic one. */
    method Decide(v: Vertex, ghost edges: set<(Vertex, Vertex)>, ghost V: set<Vertex>, ghost acyclic: bool, ghost right: iset<Vertex>)
      returns (value: bool)
      requires Over(edges, V, acyclic, right) && v in V && visiting <= V
      requires MemoRight(acyclic, right) && OnTheWay(edges, v)
      modifies this
      ensures visiting == old(visiting) && MemoRight(acyclic, right)
      ensures acyclic ==> (value <==> v in right)
      decreases |V - visiting|, 1
    {
      if v in memo {
        return memo[v];
      }
      if v in visiting {
        AcyclicNeverReturns(edges, v);
        return false;
      }
      value := v in terminals;
      if v in next && next[v] != [] {
        value := DecideAll(v, edges, V, acyclic, right);
      }
      assert Settled(next, terminals, right, v);
      memo := memo[v := value];
    }

    /** All successors are asked, even once one has said no. */
    method DecideAll(v: Vertex, ghost edges: set<(Vertex, Vertex)>, ghost V: set<Vertex>, ghost acyclic: bool, ghost right: iset<Vertex>)
      returns (value: bool)
      requires Over(edges, V, acyclic, right) && v in V && visiting <= V && v !in visiting && v in next
      requires MemoRight(acyclic, right) && OnTheWay(edges, v)
      modifies this
      ensures visiting == old(visiting) && MemoRight(acyclic, right)
      ensures acyclic ==> (value <==> AllIn(next[v], right, |next[v]|))
      decreases |V - visiting|, 0
    {
      OneMoreVisited(V, visiting, v);
      value := true;
      visiting := visiting + {v};
      for i := 0 to |next[v]|
        invariant visiting == old(visiting) + {v} && MemoRight(acyclic, right)
        invariant acyclic ==> (value <==> AllIn(next[v], right, i))
      {
        var answer := Ask(v, i, edges, V, acyclic, right, old(visiting));
        value := answer && value;
      }
      visiting := visiting - {v};
    }

    /** One successor of a node being visited. */
    method Ask(v: Vertex, i: nat, ghost edges: set<(Vertex, Vertex)>, ghost V: set<Vertex>, ghost acyclic: bool, ghost right: iset<Vertex>,
               ghost before: set<Vertex>)
      returns (value: bool)
      requires Over(edges, V, acyclic, right) && visiting == before + {v} <= V && v in next && i < |next[v]|
      requires MemoRight(acyclic, right) && forall u :: u in before ==> Reaches(edges, u, v)
      modifies this
      ensures visiting == old(visiting) && MemoRight(acyclic, right)
      ensures acyclic ==> (value <==> next[v][i] in right)
      decreases |V - visiting|, 2
    {
      var w := next[v][i];
      assert (v, w) in edges;
      AllReachOn(edges, visiting, v, w);
      value := Decide(w, edges, V, acyclic, right);
    }
  }

  // ---------------------------------------------------------------------
  // exclusiveSuffix
  // ---------------------------------------------------------------------

  ghost function EdgesInto(node: Node, j: nat): set<(Vertex, Vertex)>
    requires j <= |node.inputs|
  {
    set k | 0 <= k < j :: (node.inputs[k], node.name)
  }

  lemma EdgesGrow(nodes: seq<Node>, i: nat)
    requires i < |nodes|
    ensures EdgesOf(nodes[..i+1]) == EdgesOf(nodes[..i]) + EdgesInto(nodes[i], |nodes[i].inputs|)
  {
    var a, b := nodes[..i], nodes[..i+1];
    forall e | e in EdgesOf(b)
      ensures e in EdgesOf(a) + EdgesInto(nodes[i], |nodes[i].inputs|)
    {
      var m, j :| 0 <= m < |b| && 0 <= j < |b[m].inputs| && (b[m].inputs[j], b[m].name) == e;
      if m < i {
        assert a[m] == b[m];
      }
    }
    forall e | e in EdgesOf(a)
      ensures e in EdgesOf(b)
    {
      var m, j :| 0 <= m < |a| && 0 <= j < |a[m].inputs| && (a[m].inputs[j], a[m].name) == e;
      assert b[m] == a[m];
    }
    forall e | e in EdgesInto(nodes[i], |nodes[i].inputs|)
      ensures e in EdgesOf(b)
    {
      var j :| 0 <= j < |nodes[i].inputs| && (nodes[i].inputs[j], nodes[i].name) == e;
      assert b[i] == nodes[i];
    }
  }

  method Append(next: map<Vertex, seq<Vertex>>, from: Vertex, to: Vertex, ghost edges: set<(Vertex, Vertex)>)
    returns (out: map<Vertex, seq<Vertex>>)
    requires IsNext(next, edges)
    ensures IsNext(out, edges + {(from, to)})
  {
    out := next[from := (if from in next then next[from] else []) + [to]];
  }

  method BuildNext(nodes: seq<Node>) returns (next: map<Vertex, seq<Vertex>>)
    ensures IsNext(next, EdgesOf(nodes))
  {
    next := map[];
    for i := 0 to |nodes|
      invariant IsNext(next, EdgesOf(nodes[..i]))
    {
      var node := nodes[i];
      assert EdgesOf(nodes[..i]) + EdgesInto(node, 0) == EdgesOf(nodes[..i]);
      for j := 0 to |node.inputs|
        invariant IsNext(next, EdgesOf(nodes[..i]) + EdgesInto(node, j))
      {
        ghost var edges := EdgesOf(nodes[..i]) + EdgesInto(node, j);
        next := Append(next, node.inputs[j], node.name, edges);
        assert edges + {(node.inputs[j], node.name)} == EdgesOf(nodes[..i]) + EdgesInto(node, j + 1);
      }
      EdgesGrow(nodes, i);
    }
    assert nodes[..|nodes|] == nodes;
  }

  /** The non-source nodes among the first k that are exclusive, in plan order. */
  ghost function Members(nodes: seq<Node>, terminals: set<Vertex>, k: nat): seq<Vertex>
    requires k <= |nodes|
  {
    if k == 0 then [] else
      var n := nodes[k-1];
      Members(nodes, terminals, k - 1)
        + if n.kind != Source && Exclusive(EdgesOf(nodes), terminals, n.name) then [n.name] else []
  }

  ghost function Suffix(nodes: seq<Node>, terminals: set<Vertex>): seq<Vertex> {
    Members(nodes, terminals, |nodes|)
  }

  /** The node is in the suffix, or reads from it. */
  predicate Touches(node: Node, members: set<Vertex>) {
    node.name in members || exists j | 0 <= j < |node.inputs| :: node.inputs[j] in members
  }

  predicate Crosses(node: Node, members: set<Vertex>) {
    Touches(node, members) && (node.kind == Join || |node.inputs| > 1)
  }

  /** A member that reads from a join. */
  predicate Borders(nodes: seq<Node>, node: Node, members: set<Vertex>) {
    node.name in members
    && exists j, m | 0 <= j < |node.inputs| && 0 <= m < |nodes| :: nodes[m].name == node.inputs[j] && nodes[m].kind == Join
  }

  ghost function Elements(s: seq<Vertex>): set<Vertex> {
    set x | x in s
  }

  /** What an isolated Output's boundary has to satisfy. */
  ghost predicate Safe(nodes: seq<Node>, terminals: set<Vertex>, members: set<Vertex>) {
    && members != {} && terminals <= members
    && forall i :: 0 <= i < |nodes| ==> !Crosses(nodes[i], members) && !Borders(nodes, nodes[i], members)
  }

  method Collect(nodes: seq<Node>, terminals: set<Vertex>) returns (members: seq<Vertex>)
    ensures Acyclic(EdgesOf(nodes)) ==> members == Suffix(nodes, terminals)
  {
    var next := BuildNext(nodes);
    ghost var edges, V := EdgesOf(nodes), NamesOf(nodes);
    ghost var acyclic, right := Acyclic(edges), iset v | Exclusive(edges, terminals, v);
    ExclusiveIsSettled(next, edges, terminals);
    EdgesEndInNames(nodes);
    var search := new Search(next, terminals);
    members := [];
    for i := 0 to |nodes|
      invariant search.Over(edges, V, acyclic, right) && search.visiting == {} && search.MemoRight(acyclic, right)
      invariant acyclic ==> members == Members(nodes, terminals, i)
    {
      assert nodes[i].name in V;
      var member := IsMember(search, nodes[i], edges, V, acyclic, right);
      if member {
        members := members + [nodes[i].name];
      }
    }
  }

  method IsMember(search: Search, n: Node, ghost edges: set<(Vertex, Vertex)>, ghost V: set<Vertex>, ghost acyclic: bool, ghost right: iset<Vertex>)
    returns (member: bool)
    requires search.Over(edges, V, acyclic, right) && search.visiting == {} && search.MemoRight(acyclic, right) && n.name in V
    modifies search
    ensures search.visiting == {} && search.MemoRight(acyclic, right)
    ensures acyclic ==> (member <==> n.kind != Source && n.name in right)
  {
    if n.kind == Source {
      return false;
    }
    member := search.Decide(n.name, edges, V, acyclic, right);
  }

  lemma EdgesEndInNames(nodes: seq<Node>)
    ensures forall u, w :: (u, w) in EdgesOf(nodes) ==> w in NamesOf(nodes)
  {
    forall u, w | (u, w) in EdgesOf(nodes)
      ensures w in NamesOf(nodes)
    {
      var i, j :| 0 <= i < |nodes| && 0 <= j < |nodes[i].inputs| && (nodes[i].inputs[j], nodes[i].name) == (u, w);
      assert nodes[i].name in NamesOf(nodes);
    }
  }

  /**
   * `exclusiveSuffix`: on an acyclic plan it accepts exactly the safe boundaries, and
   * what it accepts is exactly the suffix.
   */
  method ExclusiveSuffix(nodes: seq<Node>, terminals: set<Vertex>) returns (r: Result<seq<Vertex>>)
    ensures Acyclic(EdgesOf(nodes)) ==> (r.Ok? <==> Safe(nodes, terminals, Elements(Suffix(nodes, terminals))))
    ensures Acyclic(EdgesOf(nodes)) && r.Ok? ==> r.value == Suffix(nodes, terminals)
    ensures Acyclic(EdgesOf(nodes)) ==> (r == Refused(NoBoundary) <==> Suffix(nodes, terminals) == [])
  {
    var members := Collect(nodes, terminals);
    if members == [] {
      return Refused(NoBoundary);
    }
    assert members[0] in Elements(members);
    var all := set x | x in members;
    if !(terminals <= all) {
      return Refused(SharesDownstream);
    }
    for i := 0 to |nodes|
      invariant forall k :: 0 <= k < i ==> !Crosses(nodes[k], all) && !Borders(nodes, nodes[k], all)
    {
      if Crosses(nodes[i], all) {
        return Refused(CrossesJoin);
      }
      if Borders(nodes, nodes[i], all) {
        return Refused(BordersJoin);
      }
    }
    return Ok(members);
  }

  lemma {:induction false} MembersAre(nodes: seq<Node>, terminals: set<Vertex>, k: nat, v: Vertex)
    requires k <= |nodes|
    ensures v in Members(nodes, terminals, k) <==> Exclusive(EdgesOf(nodes), terminals, v) && Named(nodes, k, v)
  {
    if k > 0 {
      MembersAre(nodes, terminals, k - 1, v);
      NamedStep(nodes, k, v);
    }
  }

  /** One of the first k nodes, not a source, has the name. */
  ghost predicate Named(nodes: seq<Node>, k: nat, v: Vertex)
    requires k <= |nodes|
  {
    exists i :: 0 <= i < k && nodes[i].name == v && nodes[i].kind != Source
  }

  lemma NamedStep(nodes: seq<Node>, k: nat, v: Vertex)
    requires 0 < k <= |nodes|
    ensures Named(nodes, k, v) <==> Named(nodes, k - 1, v) || (nodes[k-1].name == v && nodes[k-1].kind != Source)
  {
  }

  /** Lowering gives a source no inputs. */
  predicate SourcesReadNothing(nodes: seq<Node>) {
    forall i :: 0 <= i < |nodes| && nodes[i].kind == Source ==> nodes[i].inputs == []
  }

  /** What a member feeds is a member too. */
  lemma ClosedUnderSuccessors(nodes: seq<Node>, terminals: set<Vertex>, v: Vertex, i: nat, j: nat)
    requires SourcesReadNothing(nodes)
    requires v in Suffix(nodes, terminals)
    requires i < |nodes| && j < |nodes[i].inputs| && nodes[i].inputs[j] == v
    ensures nodes[i].name in Suffix(nodes, terminals)
  {
    var edges, w := EdgesOf(nodes), nodes[i].name;
    MembersAre(nodes, terminals, |nodes|, v);
    assert (v, w) in edges;
    ExclusiveUnfolds(edges, terminals, v);
    MembersAre(nodes, terminals, |nodes|, w);
  }

  /** A safe boundary holds its terminals, and no join or multi-input node is in it or reads from it. */
  lemma SafeBoundary(nodes: seq<Node>, terminals: set<Vertex>, i: nat)
    requires Safe(nodes, terminals, Elements(Suffix(nodes, terminals))) && i < |nodes|
    ensures forall t :: t in terminals ==> t in Suffix(nodes, terminals)
    ensures nodes[i].name in Suffix(nodes, terminals) ==> nodes[i].kind != Join && |nodes[i].inputs| <= 1
    ensures forall j :: 0 <= j < |nodes[i].inputs| && nodes[i].inputs[j] in Suffix(nodes, terminals) ==>
      nodes[i].kind != Join && |nodes[i].inputs| <= 1
  {
    var members := Elements(Suffix(nodes, terminals));
    assert !Crosses(nodes[i], members);
    forall j | 0 <= j < |nodes[i].inputs| && nodes[i].inputs[j] in Suffix(nodes, terminals)
      ensures Touches(nodes[i], members)
    {
      assert nodes[i].inputs[j] in members;
    }
    forall t | t in terminals
      ensures t in Suffix(nodes, terminals)
    {
      assert t in members;
    }
  }

  /** The node, or one it reads, is among these. */
  ghost predicate NextTo(node: Node, members: seq<Vertex>) {
    node.name in members || exists v :: v in node.inputs && v in members
  }

  /**
   * A boundary is safe exactly when there is a suffix, it holds every terminal, only nodes with one input
   * that are no joins are in it or read it, and none of it reads a join.
   */
  lemma SafeIff(nodes: seq<Node>, terminals: set<Vertex>, members: seq<Vertex>)
    ensures Safe(nodes, terminals, Elements(members)) <==>
      && members != [] && (forall t :: t in terminals ==> t in members)
      && (forall i :: 0 <= i < |nodes| && NextTo(nodes[i], members) ==> nodes[i].kind != Join && |nodes[i].inputs| <= 1)
      && (forall i, m :: 0 <= i < |nodes| && 0 <= m < |nodes| && nodes[i].name in members && nodes[m].kind == Join ==>
            nodes[m].name !in nodes[i].inputs)
  {
    var held := Elements(members);
    assert members != [] ==> members[0] in held;
    forall i | 0 <= i < |nodes|
      ensures Touches(nodes[i], held) <==> NextTo(nodes[i], members)
      ensures Borders(nodes, nodes[i], held) <==>
        nodes[i].name in members && exists m :: 0 <= m < |nodes| && nodes[m].kind == Join && nodes[m].name in nodes[i].inputs
    {
      TouchesIff(nodes[i], members);
      BordersIff(nodes, nodes[i], members);
    }
  }

  lemma TouchesIff(node: Node, members: seq<Vertex>)
    ensures Touches(node, Elements(members)) <==> NextTo(node, members)
  {
  }

  lemma BordersIff(nodes: seq<Node>, node: Node, members: seq<Vertex>)
    ensures Borders(nodes, node, Elements(members)) <==>
      node.name in members && exists m :: 0 <= m < |nodes| && nodes[m].kind == Join && nodes[m].name in node.inputs
  {
    if node.name in members {
      forall m | 0 <= m < |nodes| && nodes[m].kind == Join && nodes[m].name in node.inputs
        ensures Borders(nodes, node, Elements(members))
      {
        var j :| 0 <= j < |node.inputs| && node.inputs[j] == nodes[m].name;
        assert nodes[m].name == node.inputs[j];
      }
    }
  }

  // ---------------------------------------------------------------------
  // isolationPlans
  // ---------------------------------------------------------------------

  /** An Output: its destination nodes, and whether its failures are isolated. */
  datatype Output = Output(dests: seq<nat>, isolate: bool)

  datatype Domain = Domain(output: nat, nodes: seq<Vertex>)

  /** Some other Output routes to one of this one's destinations. */
  predicate Shares(outputs: seq<Output>, i: nat)
    requires i < |outputs|
  {
    exists k, j | 0 <= k < |outputs[i].dests| && 0 <= j < |outputs| ::
      j != i && outputs[i].dests[k] in outputs[j].dests
  }

  /** The output numbers of an Output's destinations. */
  function Selected(out: Output, slotOf: map<nat, nat>): set<nat> {
    set k | 0 <= k < |out.dests| && out.dests[k] in slotOf :: slotOf[out.dests[k]]
  }

  /** The planned destination nodes that stand for the selected outputs. */
  function TerminalsOf(nodes: seq<Node>, slots: seq<nat>, selected: set<nat>): set<Vertex> {
    set i | 0 <= i < |nodes| && nodes[i].kind == Terminal && nodes[i].output < |slots| && slots[nodes[i].output] in selected
      :: nodes[i].name
  }

  function OutputTerminals(nodes: seq<Node>, slots: seq<nat>, out: Output, slotOf: map<nat, nat>): set<Vertex> {
    TerminalsOf(nodes, slots, Selected(out, slotOf))
  }

  ghost function DomainOf(outputs: seq<Output>, slotOf: map<nat, nat>, nodes: seq<Node>, slots: seq<nat>, i: nat): Domain
    requires i < |outputs|
  {
    Domain(i, Suffix(nodes, OutputTerminals(nodes, slots, outputs[i], slotOf)))
  }

  ghost function Domains(outputs: seq<Output>, slotOf: map<nat, nat>, nodes: seq<Node>, slots: seq<nat>, n: nat): seq<Domain>
    requires n <= |outputs|
  {
    if n == 0 then [] else
      Domains(outputs, slotOf, nodes, slots, n - 1)
        + if outputs[n-1].isolate then [DomainOf(outputs, slotOf, nodes, slots, n - 1)] else []
  }

  ghost predicate Isolable(outputs: seq<Output>, slotOf: map<nat, nat>, nodes: seq<Node>, slots: seq<nat>, i: nat)
    requires i < |outputs|
  {
    var terminals := OutputTerminals(nodes, slots, outputs[i], slotOf);
    !Shares(outputs, i) && Safe(nodes, terminals, Elements(Suffix(nodes, terminals)))
  }

  /** Every isolated Output among the first n can be isolated. */
  ghost predicate AllIsolable(outputs: seq<Output>, slotOf: map<nat, nat>, nodes: seq<Node>, slots: seq<nat>, n: nat)
    requires n <= |outputs|
  {
    n == 0 || (AllIsolable(outputs, slotOf, nodes, slots, n - 1)
               && (outputs[n-1].isolate ==> Isolable(outputs, slotOf, nodes, slots, n - 1)))
  }

  /** An Output can be isolated exactly when no other Output has one of its destinations and its boundary is safe. */
  lemma IsolableIff(outputs: seq<Output>, slotOf: map<nat, nat>, nodes: seq<Node>, slots: seq<nat>, i: nat)
    requires i < |outputs|
    ensures var terminals := OutputTerminals(nodes, slots, outputs[i], slotOf);
      Isolable(outputs, slotOf, nodes, slots, i) <==>
        && (forall j, d :: 0 <= j < |outputs| && j != i && d in outputs[i].dests ==> d !in outputs[j].dests)
        && Safe(nodes, terminals, Elements(Suffix(nodes, terminals)))
  {
    if Shares(outputs, i) {
      var k, j :| 0 <= k < |outputs[i].dests| && 0 <= j < |outputs| && j != i && outputs[i].dests[k] in outputs[j].dests;
      assert outputs[i].dests[k] in outputs[i].dests;
    } else {
      forall j, d | 0 <= j < |outputs| && j != i && d in outputs[i].dests
        ensures d !in outputs[j].dests
      {
        var k :| 0 <= k < |outputs[i].dests| && outputs[i].dests[k] == d;
      }
    }
  }

  /** The terminals are the planned destination nodes of this Output's own output numbers. */
  lemma TerminalsAre(nodes: seq<Node>, slots: seq<nat>, out: Output, slotOf: map<nat, nat>, v: Vertex)
    ensures v in OutputTerminals(nodes, slots, out, slotOf) <==>
      exists n, d :: 0 <= n < |nodes| && d in out.dests && nodes[n].name == v && nodes[n].kind == Terminal &&
                     nodes[n].output < |slots| && d in slotOf && slots[nodes[n].output] == slotOf[d]
  {
    forall n, d | 0 <= n < |nodes| && d in out.dests && d in slotOf && nodes[n].name == v && nodes[n].kind == Terminal &&
                  nodes[n].output < |slots| && slots[nodes[n].output] == slotOf[d]
      ensures v in OutputTerminals(nodes, slots, out, slotOf)
    {
      var k :| 0 <= k < |out.dests| && out.dests[k] == d;
      assert slots[nodes[n].output] in Selected(out, slotOf);
    }
  }

  /** Every domain is an isolated Output's, with the suffix of its own terminals, in the order of the Outputs. */
  lemma {:induction false} DomainAt(outputs: seq<Output>, slotOf: map<nat, nat>, nodes: seq<Node>, slots: seq<nat>, n: nat, a: nat)
    requires n <= |outputs| && a < |Domains(outputs, slotOf, nodes, slots, n)|
    ensures var ds := Domains(outputs, slotOf, nodes, slots, n);
      && ds[a].output < n && outputs[ds[a].output].isolate && ds[a] == DomainOf(outputs, slotOf, nodes, slots, ds[a].output)
      && forall b :: 0 <= b < a ==> ds[b].output < ds[a].output
  {
    var before := Domains(outputs, slotOf, nodes, slots, n - 1);
    if a < |before| {
      DomainAt(outputs, slotOf, nodes, slots, n - 1, a);
    } else {
      forall b | 0 <= b < a
        ensures before[b].output < n - 1
      {
        DomainAt(outputs, slotOf, nodes, slots, n - 1, b);
      }
    }
  }

  /** Every isolated Output has one. */
  lemma {:induction false} DomainOfEach(outputs: seq<Output>, slotOf: map<nat, nat>, nodes: seq<Node>, slots: seq<nat>, n: nat, i: nat)
    requires i < n <= |outputs| && outputs[i].isolate
    ensures DomainOf(outputs, slotOf, nodes, slots, i) in Domains(outputs, slotOf, nodes, slots, n)
  {
    if i < n - 1 {
      DomainOfEach(outputs, slotOf, nodes, slots, n - 1, i);
    }
  }

  /**
   * The domains of an accepted plan: one for each isolated Output and no others, in their order, each holding
   * exactly the non-source nodes whose maximal downstream paths all end in that Output's terminals.
   */
  lemma DomainsAre(outputs: seq<Output>, slotOf: map<nat, nat>, nodes: seq<Node>, slots: seq<nat>, i: nat)
    requires i < |outputs|
    ensures var ds := Domains(outputs, slotOf, nodes, slots, |outputs|);
      && (outputs[i].isolate <==> exists a :: 0 <= a < |ds| && ds[a].output == i)
      && (forall a, b :: 0 <= b < a < |ds| ==> ds[b].output < ds[a].output)
      && forall a :: 0 <= a < |ds| && ds[a].output == i ==>
           ds[a].nodes == Suffix(nodes, OutputTerminals(nodes, slots, outputs[i], slotOf))
  {
    var ds := Domains(outputs, slotOf, nodes, slots, |outputs|);
    forall a | 0 <= a < |ds|
      ensures ds[a].output < |outputs| && outputs[ds[a].output].isolate && ds[a] == DomainOf(outputs, slotOf, nodes, slots, ds[a].output)
      ensures forall b :: 0 <= b < a ==> ds[b].output < ds[a].output
    {
      DomainAt(outputs, slotOf, nodes, slots, |outputs|, a);
    }
    if outputs[i].isolate {
      DomainOfEach(outputs, slotOf, nodes, slots, |outputs|, i);
    }
  }

  lemma {:induction false} EachIsolable(outputs: seq<Output>, slotOf: map<nat, nat>, nodes: seq<Node>, slots: seq<nat>, n: nat, i: nat)
    requires i < n <= |outputs| && outputs[i].isolate && AllIsolable(outputs, slotOf, nodes, slots, n)
    ensures Isolable(outputs, slotOf, nodes, slots, i)
  {
    if i < n - 1 {
      EachIsolable(outputs, slotOf, nodes, slots, n - 1, i);
    }
  }

  lemma {:induction false} OneRefusalRefusesAll(outputs: seq<Output>, slotOf: map<nat, nat>, nodes: seq<Node>, slots: seq<nat>, m: nat, n: nat)
    requires m <= n <= |outputs| && !AllIsolable(outputs, slotOf, nodes, slots, m)
    ensures !AllIsolable(outputs, slotOf, nodes, slots, n)
  {
    if m < n {
      OneRefusalRefusesAll(outputs, slotOf, nodes, slots, m, n - 1);
    }
  }

  /** `isolationPlans`: every isolated Output gets its own domain, or none does. */
  method IsolationPlans(outputs: seq<Output>, slotOf: map<nat, nat>, nodes: seq<Node>, slots: seq<nat>) returns (r: Result<seq<Domain>>)
    ensures Acyclic(EdgesOf(nodes)) ==> (r.Ok? <==> AllIsolable(outputs, slotOf, nodes, slots, |outputs|))
    ensures Acyclic(EdgesOf(nodes)) && r.Ok? ==> r.value == Domains(outputs, slotOf, nodes, slots, |outputs|)
  {
    r := IsolateAll(outputs, slotOf, nodes, slots, Acyclic(EdgesOf(nodes)));
  }

  lemma NotIsolated(outputs: seq<Output>, slotOf: map<nat, nat>, nodes: seq<Node>, slots: seq<nat>, i: nat)
    requires i < |outputs| && !outputs[i].isolate
    ensures Domains(outputs, slotOf, nodes, slots, i + 1) == Domains(outputs, slotOf, nodes, slots, i)
    ensures AllIsolable(outputs, slotOf, nodes, slots, i + 1) <==> AllIsolable(outputs, slotOf, nodes, slots, i)
  {
  }

  /** Its loop over the Outputs. */
  method IsolateAll(outputs: seq<Output>, slotOf: map<nat, nat>, nodes: seq<Node>, slots: seq<nat>, ghost acyclic: bool)
    returns (r: Result<seq<Domain>>)
    requires acyclic == Acyclic(EdgesOf(nodes))
    ensures acyclic ==> (r.Ok? <==> AllIsolable(outputs, slotOf, nodes, slots, |outputs|))
    ensures acyclic && r.Ok? ==> r.value == Domains(outputs, slotOf, nodes, slots, |outputs|)
  {
    r := Ok([]);
    for i := 0 to |outputs|
      invariant r.Ok? && (acyclic ==> Planned(outputs, slotOf, nodes, slots, i, r))
    {
      r := IsolateNext(outputs, slotOf, nodes, slots, i, r.value, acyclic);
      if r.Refused? {
        return;
      }
    }
  }

  /** The domains so far, or a refusal that stands. */
  ghost predicate Planned(outputs: seq<Output>, slotOf: map<nat, nat>, nodes: seq<Node>, slots: seq<nat>, n: nat, r: Result<seq<Domain>>)
    requires n <= |outputs|
  {
    if r.Ok? then AllIsolable(outputs, slotOf, nodes, slots, n) && r.value == Domains(outputs, slotOf, nodes, slots, n)
    else !AllIsolable(outputs, slotOf, nodes, slots, |outputs|)
  }

  /** One turn of it. */
  method IsolateNext(outputs: seq<Output>, slotOf: map<nat, nat>, nodes: seq<Node>, slots: seq<nat>, i: nat, plans: seq<Domain>, ghost acyclic: bool)
    returns (r: Result<seq<Domain>>)
    requires i < |outputs| && acyclic == Acyclic(EdgesOf(nodes))
    requires acyclic ==> Planned(outputs, slotOf, nodes, slots, i, Ok(plans))
    ensures acyclic ==> Planned(outputs, slotOf, nodes, slots, i + 1, r)
  {
    if !outputs[i].isolate {
      NotIsolated(outputs, slotOf, nodes, slots, i);
      return Ok(plans);
    }
    var plan := IsolateOne(outputs, slotOf, nodes, slots, i, acyclic);
    if plan.Ok? {
      return Ok(plans + [plan.value]);
    }
    if acyclic {
      OneRefusalRefusesAll(outputs, slotOf, nodes, slots, i + 1, |outputs|);
    }
    return Refused(plan.why);
  }

  method IsolateOne(outputs: seq<Output>, slotOf: map<nat, nat>, nodes: seq<Node>, slots: seq<nat>, i: nat, ghost acyclic: bool)
    returns (r: Result<Domain>)
    requires i < |outputs| && outputs[i].isolate && acyclic == Acyclic(EdgesOf(nodes))
    ensures acyclic ==> (AllIsolable(outputs, slotOf, nodes, slots, i + 1) <==> AllIsolable(outputs, slotOf, nodes, slots, i) && r.Ok?)
    ensures acyclic && r.Ok? ==>
      Domains(outputs, slotOf, nodes, slots, i + 1) == Domains(outputs, slotOf, nodes, slots, i) + [r.value]
  {
    if Shares(outputs, i) {
      return Refused(SharesDestination);
    }
    var suffix := ExclusiveSuffix(nodes, OutputTerminals(nodes, slots, outputs[i], slotOf));
    return if suffix.Ok? then Ok(Domain(i, suffix.value)) else Refused(suffix.why);
  }

  /** Destinations of the recipe have output numbers of their own. */
  ghost predicate OwnSlots(slotOf: map<nat, nat>) {
    forall a, b :: a in slotOf && b in slotOf && slotOf[a] == slotOf[b] ==> a == b
  }

  lemma DisjointTerminals(outputs: seq<Output>, slotOf: map<nat, nat>, nodes: seq<Node>, slots: seq<nat>, i: nat, j: nat)
    requires i < |outputs| && j < |outputs| && i != j && !Shares(outputs, i) && OwnSlots(slotOf)
    requires forall a, b :: 0 <= a < b < |nodes| ==> nodes[a].name != nodes[b].name
    ensures OutputTerminals(nodes, slots, outputs[i], slotOf) !! OutputTerminals(nodes, slots, outputs[j], slotOf)
  {
    forall t | t in OutputTerminals(nodes, slots, outputs[i], slotOf)
      ensures t !in OutputTerminals(nodes, slots, outputs[j], slotOf)
    {
      var n :| 0 <= n < |nodes| && nodes[n].name == t && slots[nodes[n].output] in Selected(outputs[i], slotOf);
      DisjointSelections(outputs, slotOf, i, j);
    }
  }

  lemma DisjointSelections(outputs: seq<Output>, slotOf: map<nat, nat>, i: nat, j: nat)
    requires i < |outputs| && j < |outputs| && i != j && !Shares(outputs, i) && OwnSlots(slotOf)
    ensures Selected(outputs[i], slotOf) !! Selected(outputs[j], slotOf)
  {
    forall s | s in Selected(outputs[i], slotOf)
      ensures s !in Selected(outputs[j], slotOf)
    {
      var k :| 0 <= k < |outputs[i].dests| && outputs[i].dests[k] in slotOf && slotOf[outputs[i].dests[k]] == s;
      assert outputs[i].dests[k] !in outputs[j].dests;
    }
  }

  /** Two isolated Outputs that were accepted fail apart: no node is in both domains. */
  lemma DisjointDomains(outputs: seq<Output>, slotOf: map<nat, nat>, nodes: seq<Node>, slots: seq<nat>, i: nat, j: nat, v: Vertex)
    requires Acyclic(EdgesOf(nodes)) && OwnSlots(slotOf)
    requires forall a, b :: 0 <= a < b < |nodes| ==> nodes[a].name != nodes[b].name
    requires i < |outputs| && j < |outputs| && i != j && Isolable(outputs, slotOf, nodes, slots, i)
    requires v in Suffix(nodes, OutputTerminals(nodes, slots, outputs[i], slotOf))
    ensures v !in Suffix(nodes, OutputTerminals(nodes, slots, outputs[j], slotOf))
  {
    var a, b := OutputTerminals(nodes, slots, outputs[i], slotOf), OutputTerminals(nodes, slots, outputs[j], slotOf);
    DisjointTerminals(outputs, slotOf, nodes, slots, i, j);
    DisjointSuffixes(nodes, a, b, v);
    MembersAre(nodes, a, |nodes|, v);
    MembersAre(nodes, b, |nodes|, v);
  }
}
