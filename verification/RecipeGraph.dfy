/** Compiling Outputs into one recipe DAG (`recipe_graph.go`). */
module RecipeGraph {
  import opened Basics
  import opened RecipeSpec

  datatype Reason = ZeroStream | Broken | NoParent | NoInput | NoOutputs | NoDestination | UnknownPolicy

  /** Compiled, refused for a reason, or with copies of one handle that disagree. */
  datatype Outcome = Compiled | Refused(reason: Reason) | Conflicting

  datatype Result<T> = Ok(value: T) | Err(reason: Reason)

  // ---------------------------------------------------------------------
  // What the intern tables hold
  // ---------------------------------------------------------------------

  /** An interned input is the node of the handle made with that identity. */
  ghost predicate InputsRight(g: Dag, byInput: map<nat, nat>, handles: Handles) {
    forall id :: id in byInput ==> id in handles && InputAt(g, byInput[id], handles[id])
  }

  ghost predicate InputAt(g: Dag, n: nat, input: Input) {
    n < |g.nodes| && g.nodes[n].InputNode? && g.nodes[n].input < |g.inputs| && g.inputs[g.nodes[n].input] == input
  }

  /** The node stands for the stream's operation tree. */
  ghost predicate StandsFor(arena: Arena, g: Dag, i: nat, n: nat)
    requires Backward(arena) && AllLower(g)
  {
    i < |arena| && Good(arena, i) && n < |g.nodes| && IsStream(g.nodes[n]) && Unfold(g, n) == Meaning(arena, i)
  }

  ghost predicate StreamsRight(arena: Arena, g: Dag, byNode: map<nat, nat>)
    requires Backward(arena) && AllLower(g)
  {
    forall i :: i in byNode ==> StandsFor(arena, g, i, byNode[i])
  }

  /** Walking back from a node over its operation nodes, each carrying one stage, leads to another node. */
  ghost predicate Chain(g: Dag, from: nat, stages: seq<nat>, to: nat) {
    && |stages| <= to < |g.nodes|
    && forall k :: 0 <= k < |stages| ==>
      g.nodes[to - |stages| + 1 + k] == OpNode(if k == 0 then from else to - |stages| + k, Do([stages[k]]))
  }

  /** The node of an operation: one, or one per stage of a `Do` of several, in order, on the parent's. */
  ghost predicate OpShape(g: Dag, from: nat, op: Op, n: nat) {
    if op.Do? && |op.stages| >= 2 then Chain(g, from, op.stages, n) else n < |g.nodes| && g.nodes[n] == OpNode(from, op)
  }

  /** The arms' nodes and places, in order. */
  ghost predicate JoinShape(g: Dag, byNode: map<nat, nat>, kind: nat, layers: seq<Layer>, n: nat) {
    && n < |g.nodes| && g.nodes[n].JoinNode? && g.nodes[n].kind == kind
    && |g.nodes[n].parents| == |g.nodes[n].places| == |layers|
    && forall k :: 0 <= k < |layers| ==>
      && layers[k].stream.At? && layers[k].stream.i in byNode
      && g.nodes[n].parents[k] == byNode[layers[k].stream.i] && g.nodes[n].places[k] == layers[k].place
  }

  ghost predicate RootShape(g: Dag, byNode: map<nat, nat>, root: Root, n: nat) {
    n < |g.nodes| &&
    match root
    case Join(kind, layers) => JoinShape(g, byNode, kind, layers, n)
    case Anchor(point, track) =>
      && g.nodes[n].AnchorNode? && g.nodes[n].point == point && (g.nodes[n].track.Some? <==> track.Some?)
      && (track.Some? ==> g.nodes[n].track.value < |g.inputs| && g.inputs[g.nodes[n].track.value] == track.value)
    case Rule(input, rule) =>
      g.nodes[n].RuleNode? && InputAt(g, g.nodes[n].source, input) && g.nodes[n].rule < |g.matches| && g.matches[g.nodes[n].rule] == rule
    case Select(input, select) =>
      g.nodes[n].SelectNode? && InputAt(g, g.nodes[n].source, input) && g.nodes[n].select == select
  }

  /** A stream's node is built as the stream says, on the nodes of what it reads. */
  ghost predicate Shape(arena: Arena, g: Dag, byNode: map<nat, nat>, i: nat) {
    i in byNode && i < |arena| &&
    match arena[i].body
    case OpOn(parent, op) => parent.At? && parent.i in byNode && OpShape(g, byNode[parent.i], op, byNode[i])
    case RootOf(root) => RootShape(g, byNode, root, byNode[i])
  }

  ghost predicate ShapesRight(arena: Arena, g: Dag, byNode: map<nat, nat>) {
    forall i :: i in byNode ==> Shape(arena, g, byNode, i)
  }

  lemma StepsShape(g: Dag, h: Dag, from: nat, op: Op, id: nat)
    requires id == |g.nodes| + |Split(op)| - 1 < |h.nodes|
    requires forall k :: 0 <= k < |Split(op)| ==> h.nodes[|g.nodes| + k] == OpNode(if k == 0 then from else |g.nodes| + k - 1, Split(op)[k])
    requires from < |g.nodes|
    ensures OpShape(h, from, op, id)
  {
    if op.Do? && |op.stages| >= 2 {
      assert |g.nodes| == id - |op.stages| + 1;
      forall k | 0 <= k < |op.stages|
        ensures h.nodes[id - |op.stages| + 1 + k] == OpNode(if k == 0 then from else id - |op.stages| + k, Do([op.stages[k]]))
      {
        assert h.nodes[|g.nodes| + k] == OpNode(if k == 0 then from else |g.nodes| + k - 1, Split(op)[k]);
      }
    } else {
      assert h.nodes[|g.nodes| + 0] == OpNode(from, Split(op)[0]);
    }
  }

  lemma OpStays(g: Dag, h: Dag, from: nat, op: Op, n: nat)
    requires Extends(g, h) && OpShape(g, from, op, n)
    ensures OpShape(h, from, op, n)
  {
    if op.Do? && |op.stages| >= 2 {
      forall k | 0 <= k < |op.stages|
        ensures h.nodes[n - |op.stages| + 1 + k] == OpNode(if k == 0 then from else n - |op.stages| + k, Do([op.stages[k]]))
      {
        assert g.nodes[n - |op.stages| + 1 + k] == OpNode(if k == 0 then from else n - |op.stages| + k, Do([op.stages[k]]));
        assert SameNode(g.nodes[n - |op.stages| + 1 + k], h.nodes[n - |op.stages| + 1 + k]);
      }
    } else {
      assert SameNode(g.nodes[n], h.nodes[n]);
    }
  }

  lemma RootStays(g: Dag, h: Dag, byNode: map<nat, nat>, after: map<nat, nat>, root: Root, n: nat)
    requires Extends(g, h) && Kept(byNode, after) && RootShape(g, byNode, root, n)
    ensures RootShape(h, after, root, n)
  {
    assert SameNode(g.nodes[n], h.nodes[n]);
    if root.Rule? || root.Select? {
      InputStays(g, h, g.nodes[n].source, root.input);
    }
  }

  lemma ShapesStay(arena: Arena, g: Dag, h: Dag, byNode: map<nat, nat>)
    requires Extends(g, h) && ShapesRight(arena, g, byNode)
    ensures ShapesRight(arena, h, byNode)
  {
    forall i | i in byNode
      ensures Shape(arena, h, byNode, i)
    {
      assert Shape(arena, g, byNode, i);
      match arena[i].body
      case OpOn(parent, op) => OpStays(g, h, byNode[parent.i], op, byNode[i]);
      case RootOf(root) => RootStays(g, h, byNode, byNode, root, byNode[i]);
    }
  }

  /** One more stream in the table. */
  lemma ShapesGrow(arena: Arena, g: Dag, byNode: map<nat, nat>, i: nat, id: nat)
    requires ShapesRight(arena, g, byNode) && i !in byNode && Shape(arena, g, byNode[i := id], i)
    ensures ShapesRight(arena, g, byNode[i := id])
  {
    var after := byNode[i := id];
    forall x | x in after && x != i
      ensures Shape(arena, g, after, x)
    {
      assert Shape(arena, g, byNode, x);
      if arena[x].body.RootOf? {
        RootStays(g, g, byNode, after, arena[x].body.root, byNode[x]);
      }
    }
  }

  /**
   * A `Do` of several stages, compiled: going back one operation node per stage from the stream's node, the k-th of
   * them carries exactly the k-th stage, and before the first comes the parent's node. Any other operation is one node.
   */
  lemma StagesInOrder(arena: Arena, g: Dag, byNode: map<nat, nat>, i: nat, parent: nat, op: Op)
    requires ShapesRight(arena, g, byNode) && i in byNode && i < |arena| && arena[i].body == OpOn(At(parent), op)
    ensures parent in byNode && byNode[i] < |g.nodes|
    ensures op.Do? && |op.stages| >= 2 ==> |op.stages| <= byNode[i] && forall k :: 0 <= k < |op.stages| ==>
      g.nodes[byNode[i] - |op.stages| + 1 + k]
        == OpNode(if k == 0 then byNode[parent] else byNode[i] - |op.stages| + k, Do([op.stages[k]]))
    ensures op.Other? || |op.stages| <= 1 ==> g.nodes[byNode[i]] == OpNode(byNode[parent], op)
  {
    assert Shape(arena, g, byNode, i);
  }

  /** No two streams share a node. */
  ghost predicate OneNodeEach(byNode: map<nat, nat>) {
    forall i, j :: i in byNode && j in byNode && byNode[i] == byNode[j] ==> i == j
  }

  // ---------------------------------------------------------------------
  // Destinations
  // ---------------------------------------------------------------------

  /** A destination handle: its identity (zero for none) and its configuration. */
  datatype Dest = Dest(id: nat, config: nat)

  /** One destination of one Output: the node it routes, the handle it names, the node it reaches. */
  datatype Routing = Routing(output: nat, from: nat, handle: Dest, node: nat)

  /** The node is the output node of a handle with this identity. */
  ghost predicate DestAt(g: Dag, dests: seq<Dest>, n: nat, id: nat) {
    n < |g.nodes| && g.nodes[n].OutputNode? && g.nodes[n].output < |dests| && dests[g.nodes[n].output].id == id
  }

  /** The handle whose configuration the node has. */
  function HandleAt(g: Dag, dests: seq<Dest>, n: nat): Dest
    requires n < |g.nodes| && g.nodes[n].OutputNode? && g.nodes[n].output < |dests|
  {
    dests[g.nodes[n].output]
  }

  ghost predicate DestsRight(g: Dag, dests: seq<Dest>, byDest: map<nat, nat>) {
    forall k :: k in byDest ==> k != 0 && DestAt(g, dests, byDest[k], k)
  }

  /** A routing reaches the node of its handle, which knows it as a reader. */
  ghost predicate RoutingRight(g: Dag, dests: seq<Dest>, byDest: map<nat, nat>, r: Routing) {
    && DestAt(g, dests, r.node, r.handle.id) && r.from in g.nodes[r.node].readers
    && (r.handle.id != 0 ==> r.handle.id in byDest && byDest[r.handle.id] == r.node)
  }

  ghost predicate RoutingsRight(g: Dag, dests: seq<Dest>, byDest: map<nat, nat>, routings: seq<Routing>) {
    && (forall a :: 0 <= a < |routings| ==> RoutingRight(g, dests, byDest, routings[a]))
    && (forall a, b :: 0 <= a < b < |routings| && routings[a].handle.id == 0 && routings[b].handle.id == 0 ==>
          routings[a].node != routings[b].node)
  }

  /** The output nodes of the graph. */
  ghost function Outputs(g: Dag): map<nat, Node> {
    map n | 0 <= n < |g.nodes| && g.nodes[n].OutputNode? :: g.nodes[n]
  }

  /** Where the routings to a node come from, in order. */
  ghost function ReadersOf(routings: seq<Routing>, n: nat): seq<nat> {
    if routings == [] then [] else
      var last := routings[|routings|-1];
      ReadersOf(routings[..|routings|-1], n) + if last.node == n then [last.from] else []
  }

  /** Each output node is read from exactly by the routings to it. */
  ghost predicate ReadersRight(outputs: map<nat, Node>, routings: seq<Routing>) {
    forall n :: n in outputs ==> outputs[n].OutputNode? && outputs[n].readers == ReadersOf(routings, n)
  }

  lemma {:induction false} NoReaders(routings: seq<Routing>, n: nat)
    requires forall a :: 0 <= a < |routings| ==> routings[a].node != n
    ensures ReadersOf(routings, n) == []
  {
    if routings != [] {
      NoReaders(routings[..|routings|-1], n);
    }
  }

  lemma {:induction false} OneMoreReader(outputs: map<nat, Node>, routings: seq<Routing>, r: Routing, output: nat, readers: seq<nat>)
    requires ReadersRight(outputs, routings) && readers == ReadersOf(routings, r.node)
    ensures ReadersRight(outputs[r.node := OutputNode(output, readers + [r.from])], routings + [r])
  {
    assert (routings + [r])[..|routings|] == routings;
  }

  lemma AddedOutput(g: Dag, n: Node)
    ensures var h := g.(nodes := g.nodes + [n]); Outputs(h) == if n.OutputNode? then Outputs(g)[|g.nodes| := n] else Outputs(g)
  {
  }

  lemma ChangedOutput(g: Dag, h: Dag, n: nat)
    requires n < |g.nodes| == |h.nodes| && h.nodes == g.nodes[n := h.nodes[n]] && h.nodes[n].OutputNode?
    ensures Outputs(h) == Outputs(g)[n := h.nodes[n]]
  {
  }

  /** Two routings of one handle disagree about it. */
  ghost predicate Clash(routings: seq<Routing>, a: nat, b: nat)
    requires a < |routings| && b < |routings|
  {
    routings[a].handle.id == routings[b].handle.id != 0 && routings[a].handle.config != routings[b].handle.config
  }

  ghost predicate Clashes(routings: seq<Routing>) {
    exists a, b :: 0 <= a < |routings| && 0 <= b < |routings| && Clash(routings, a, b)
  }

  /** Every interned handle's configuration came from a routing, and without conflict all agree with it. */
  ghost predicate ConfigsRight(g: Dag, dests: seq<Dest>, byDest: map<nat, nat>, routings: seq<Routing>, conflict: bool)
    requires DestsRight(g, dests, byDest) && RoutingsRight(g, dests, byDest, routings)
  {
    && (forall k :: k in byDest ==> exists a :: 0 <= a < |routings| && routings[a].handle == HandleAt(g, dests, byDest[k]))
    && (if conflict then Clashes(routings)
        else forall a :: 0 <= a < |routings| ==> routings[a].handle == HandleAt(g, dests, routings[a].node))
  }

  /** Two routings reach one node exactly when they name one handle. */
  lemma SharedExactly(g: Dag, dests: seq<Dest>, byDest: map<nat, nat>, routings: seq<Routing>, a: nat, b: nat)
    requires RoutingsRight(g, dests, byDest, routings) && a < b < |routings|
    ensures routings[a].node == routings[b].node <==> routings[a].handle.id == routings[b].handle.id != 0
  {
    assert RoutingRight(g, dests, byDest, routings[a]) && RoutingRight(g, dests, byDest, routings[b]);
  }

  lemma DestStays(g: Dag, h: Dag, dests: seq<Dest>, more: seq<Dest>, n: nat, id: nat)
    requires Extends(g, h) && dests <= more && DestAt(g, dests, n, id)
    ensures DestAt(h, more, n, id) && HandleAt(h, more, n) == HandleAt(g, dests, n) && g.nodes[n].readers <= h.nodes[n].readers
  {
    assert SameNode(g.nodes[n], h.nodes[n]);
  }

  lemma RoutingStays(g: Dag, h: Dag, dests: seq<Dest>, more: seq<Dest>, byDest: map<nat, nat>, r: Routing)
    requires Extends(g, h) && dests <= more && RoutingRight(g, dests, byDest, r)
    ensures RoutingRight(h, more, byDest, r) && HandleAt(h, more, r.node) == HandleAt(g, dests, r.node)
  {
    DestStays(g, h, dests, more, r.node, r.handle.id);
  }

  /** Everything the compiler knows about destinations. */
  ghost predicate AllRouted(g: Dag, dests: seq<Dest>, byDest: map<nat, nat>, routings: seq<Routing>, conflict: bool) {
    && DestsRight(g, dests, byDest) && RoutingsRight(g, dests, byDest, routings)
    && ConfigsRight(g, dests, byDest, routings, conflict)
  }

  /** It survives the graph, and the list of handles, growing. */
  lemma RoutedStays(g: Dag, h: Dag, dests: seq<Dest>, more: seq<Dest>, byDest: map<nat, nat>, routings: seq<Routing>, conflict: bool)
    requires Extends(g, h) && dests <= more && AllRouted(g, dests, byDest, routings, conflict)
    ensures AllRouted(h, more, byDest, routings, conflict)
  {
    forall k | k in byDest
      ensures k != 0 && DestAt(h, more, byDest[k], k) && HandleAt(h, more, byDest[k]) == HandleAt(g, dests, byDest[k])
    {
      DestStays(g, h, dests, more, byDest[k], k);
    }
    forall a | 0 <= a < |routings|
      ensures RoutingRight(h, more, byDest, routings[a]) && HandleAt(h, more, routings[a].node) == HandleAt(g, dests, routings[a].node)
    {
      RoutingStays(g, h, dests, more, byDest, routings[a]);
    }
  }

  lemma RoutingJoins(g: Dag, dests: seq<Dest>, byDest: map<nat, nat>, routings: seq<Routing>, r: Routing)
    requires RoutingsRight(g, dests, byDest, routings) && RoutingRight(g, dests, byDest, r) && r.handle.id != 0
    ensures RoutingsRight(g, dests, byDest, routings + [r])
  {
    var more := routings + [r];
    forall a | 0 <= a < |more|
      ensures RoutingRight(g, dests, byDest, more[a])
    {
      if a < |routings| {
        assert more[a] == routings[a];
      }
    }
  }

  /** The handle's node was there already: a conflict is recorded if this copy disagrees. */
  lemma RoutedAgain(g: Dag, dests: seq<Dest>, byDest: map<nat, nat>, routings: seq<Routing>, conflict: bool, r: Routing)
    requires AllRouted(g, dests, byDest, routings, conflict)
    requires r.handle.id in byDest && byDest[r.handle.id] == r.node && r.node < |g.nodes| && g.nodes[r.node].OutputNode? && r.from in g.nodes[r.node].readers
    ensures DestAt(g, dests, r.node, r.handle.id)
    ensures AllRouted(g, dests, byDest, routings + [r], conflict || HandleAt(g, dests, r.node).config != r.handle.config)
  {
    assert DestAt(g, dests, byDest[r.handle.id], r.handle.id);
    var more, first := routings + [r], HandleAt(g, dests, r.node);
    RoutingJoins(g, dests, byDest, routings, r);
    forall k | k in byDest
      ensures exists a :: 0 <= a < |more| && more[a].handle == HandleAt(g, dests, byDest[k])
    {
      var a :| 0 <= a < |routings| && routings[a].handle == HandleAt(g, dests, byDest[k]);
      assert more[a] == routings[a];
    }
    if conflict {
      ClashStays(routings, r);
    } else if first.config != r.handle.config {
      var a :| 0 <= a < |routings| && routings[a].handle == HandleAt(g, dests, byDest[r.handle.id]);
      assert more[a] == routings[a] && Clash(more, a, |routings|);
    }
  }

  lemma ClashStays(routings: seq<Routing>, r: Routing)
    requires Clashes(routings)
    ensures Clashes(routings + [r])
  {
    var a, b :| 0 <= a < |routings| && 0 <= b < |routings| && Clash(routings, a, b);
    assert Clash(routings + [r], a, b);
  }

  /** A handle seen for the first time, or one without identity: its node is new. */
  lemma RoutedFirst(g: Dag, dests: seq<Dest>, byDest: map<nat, nat>, routings: seq<Routing>, conflict: bool, r: Routing)
    requires AllRouted(g, dests, byDest, routings, conflict)
    requires r.handle.id !in byDest && DestAt(g, dests, r.node, r.handle.id) && HandleAt(g, dests, r.node) == r.handle
    requires r.from in g.nodes[r.node].readers && forall a :: 0 <= a < |routings| ==> routings[a].node != r.node
    ensures AllRouted(g, dests, if r.handle.id == 0 then byDest else byDest[r.handle.id := r.node], routings + [r], conflict)
  {
    var table := if r.handle.id == 0 then byDest else byDest[r.handle.id := r.node];
    var more := routings + [r];
    forall a | 0 <= a < |routings|
      ensures RoutingRight(g, dests, table, more[a])
    {
      assert RoutingRight(g, dests, byDest, routings[a]);
    }
    forall k | k in table
      ensures k != 0 && DestAt(g, dests, table[k], k)
      ensures exists a :: 0 <= a < |more| && more[a].handle == HandleAt(g, dests, table[k])
    {
      if k in byDest {
        assert DestAt(g, dests, byDest[k], k);
        var a :| 0 <= a < |routings| && routings[a].handle == HandleAt(g, dests, byDest[k]);
        assert more[a] == routings[a];
      } else {
        assert more[|routings|].handle == HandleAt(g, dests, table[k]);
      }
    }
    if conflict {
      ClashStays(routings, r);
    }
  }

  /** One more reader of a handle's node, and the routing it stands for. */
  lemma ReadAgain(g: Dag, h: Dag, dests: seq<Dest>, byDest: map<nat, nat>, routings: seq<Routing>, conflict: bool, r: Routing)
    requires AllRouted(g, dests, byDest, routings, conflict) && ReadersRight(Outputs(g), routings) && Extends(g, h)
    requires r.handle.id in byDest && byDest[r.handle.id] == r.node && DestAt(g, dests, r.node, r.handle.id) && r.node < |h.nodes|
    requires h.nodes[r.node] == OutputNode(g.nodes[r.node].output, g.nodes[r.node].readers + [r.from])
    requires Outputs(h) == Outputs(g)[r.node := h.nodes[r.node]]
    ensures AllRouted(h, dests, byDest, routings + [r], conflict || HandleAt(g, dests, r.node).config != r.handle.config)
    ensures ReadersRight(Outputs(h), routings + [r])
  {
    RoutedStays(g, h, dests, dests, byDest, routings, conflict);
    RoutedAgain(h, dests, byDest, routings, conflict, r);
    assert r.node in Outputs(g);
    OneMoreReader(Outputs(g), routings, r, g.nodes[r.node].output, g.nodes[r.node].readers);
  }

  /** A new handle's node, and the routing it was made for. */
  lemma ReadFirst(g: Dag, h: Dag, dests: seq<Dest>, byDest: map<nat, nat>, routings: seq<Routing>, conflict: bool, r: Routing)
    requires AllRouted(g, dests, byDest, routings, conflict) && ReadersRight(Outputs(g), routings) && Extends(g, h)
    requires r.handle.id !in byDest && r.node == |g.nodes| < |h.nodes| && h.nodes[r.node] == OutputNode(|dests|, [r.from])
    requires Outputs(h) == Outputs(g)[r.node := h.nodes[r.node]]
    ensures AllRouted(h, dests + [r.handle], if r.handle.id == 0 then byDest else byDest[r.handle.id := r.node], routings + [r], conflict)
    ensures ReadersRight(Outputs(h), routings + [r])
  {
    RoutedStays(g, h, dests, dests + [r.handle], byDest, routings, conflict);
    OlderNodes(g, dests, byDest, routings);
    RoutedFirst(h, dests + [r.handle], byDest, routings, conflict, r);
    NoReaders(routings, r.node);
    OneMoreReader(Outputs(g), routings, r, |dests|, []);
  }

  lemma StandsStill(arena: Arena, g: Dag, h: Dag, i: nat, n: nat)
    requires Backward(arena) && AllLower(g) && AllLower(h) && Extends(g, h) && StandsFor(arena, g, i, n)
    ensures StandsFor(arena, h, i, n)
  {
    UnfoldStays(g, h, n);
  }

  lemma StreamsStay(arena: Arena, g: Dag, h: Dag, byNode: map<nat, nat>)
    requires Backward(arena) && AllLower(g) && AllLower(h) && Extends(g, h) && StreamsRight(arena, g, byNode)
    ensures StreamsRight(arena, h, byNode)
  {
    forall i | i in byNode
      ensures StandsFor(arena, h, i, byNode[i])
    {
      StandsStill(arena, g, h, i, byNode[i]);
    }
  }

  lemma InputStays(g: Dag, h: Dag, n: nat, input: Input)
    requires Extends(g, h) && InputAt(g, n, input)
    ensures InputAt(h, n, input)
  {
    assert SameNode(g.nodes[n], h.nodes[n]);
  }

  /** The node's parents are in place before it is added. */
  ghost predicate Ready(g: Dag, n: Node) {
    match n
    case InputNode(k) => k < |g.inputs|
    case OpNode(p, _) => p < |g.nodes| && IsStream(g.nodes[p])
    case JoinNode(_, parents, places) =>
      |places| == |parents| && forall k :: 0 <= k < |parents| ==> parents[k] < |g.nodes| && IsStream(g.nodes[parents[k]])
    case AnchorNode(_, track) => track.Some? ==> track.value < |g.inputs|
    case RuleNode(p, r) => p < |g.nodes| && g.nodes[p].InputNode? && g.nodes[p].input < |g.inputs| && r < |g.matches|
    case SelectNode(p, _) => p < |g.nodes| && g.nodes[p].InputNode? && g.nodes[p].input < |g.inputs|
    case OutputNode(_, _) => true
  }

  lemma AddKeeps(g: Dag, n: Node)
    requires AllLower(g) && Ready(g, n)
    ensures var h := g.(nodes := g.nodes + [n]); AllLower(h) && Extends(g, h)
  {
    var h := g.(nodes := g.nodes + [n]);
    forall id | 0 <= id < |h.nodes|
      ensures Lower(h, id)
    {
      if id < |g.nodes| {
        assert Lower(g, id);
      }
    }
  }

  class Compiler {
    const arena: Arena
    ghost const handles: Handles
    var g: Dag
    var byNode: map<nat, nat>
    var byInput: map<nat, nat>
    var dests: seq<Dest>
    var byDest: map<nat, nat>
    var conflict: bool
    var routings: seq<Routing>

    ghost predicate Valid()
      reads this
    {
      && Backward(arena) && AllKnown(handles, arena) && AllLower(g) && InputsRight(g, byInput, handles)
      && StreamsRight(arena, g, byNode) && OneNodeEach(byNode) && ShapesRight(arena, g, byNode)
    }

    /** Everything routed so far reaches the node of its handle, and nothing else reads a destination. */
    ghost predicate Routed()
      reads this
    {
      AllRouted(g, dests, byDest, routings, conflict) && ReadersRight(Outputs(g), routings)
    }

    constructor (arena: Arena, ghost handles: Handles)
      requires Backward(arena) && AllKnown(handles, arena)
      ensures this.arena == arena && this.handles == handles && Valid() && g.nodes == [] && byNode == map[]
      ensures dests == [] && byDest == map[] && !conflict && routings == [] && Routed()
    {
      this.arena, this.handles := arena, handles;
      g, byNode, byInput := Dag([], [], []), map[], map[];
      dests, byDest, conflict, routings := [], map[], false, [];
    }

    /** `add`: the next number. */
    method Add(n: Node) returns (id: nat)
      requires Valid() && Ready(g, n)
      modifies this`g
      ensures Valid() && id == |old(g).nodes| && g == old(g).(nodes := old(g).nodes + [n]) && Extends(old(g), g)
      ensures Outputs(g) == if n.OutputNode? then Outputs(old(g))[id := n] else Outputs(old(g))
    {
      AddedOutput(g, n);
      AddKeeps(g, n);
      StreamsStay(arena, g, g.(nodes := g.nodes + [n]), byNode);
      ShapesStay(arena, g, g.(nodes := g.nodes + [n]), byNode);
      forall i | i in byInput
        ensures i in handles && InputAt(g.(nodes := g.nodes + [n]), byInput[i], handles[i])
      {
        InputStays(g, g.(nodes := g.nodes + [n]), byInput[i], handles[i]);
      }
      id := |g.nodes|;
      g := g.(nodes := g.nodes + [n]);
    }

    /** `input`: one node per input identity; an input without one gets a node of its own. */
    method InputNodeOf(spec: Input) returns (id: nat)
      requires Valid() && Known(handles, spec)
      modifies this`g, this`byInput
      ensures Valid() && Extends(old(g), g) && Outputs(g) == Outputs(old(g)) && InputAt(g, id, spec)
      ensures spec.id.Some? ==> spec.id.value in byInput && byInput[spec.id.value] == id
      ensures spec.id.Some? && spec.id.value in old(byInput) ==> g == old(g) && id == old(byInput)[spec.id.value]
    {
      if spec.id.Some? && spec.id.value in byInput {
        return byInput[spec.id.value];
      }
      var index := |g.inputs|;
      KeepInput(spec);
      id := Add(InputNode(index));
      ExtendsTransitive(old(g), old(g).(inputs := old(g).inputs + [spec]), g);
      if spec.id.Some? {
        byInput := byInput[spec.id.value := id];
      }
    }

    /** A handle recorded; no node refers to it yet. */
    method KeepInput(spec: Input)
      requires Valid()
      modifies this`g
      ensures Valid() && g == old(g).(inputs := old(g).inputs + [spec]) && Extends(old(g), g) && Outputs(g) == Outputs(old(g))
    {
      var h := g.(inputs := g.inputs + [spec]);
      HandlesGrow(g, h);
      StreamsStay(arena, g, h, byNode);
      ShapesStay(arena, g, h, byNode);
      g := h;
    }

    method KeepMatch(rule: nat)
      requires Valid()
      modifies this`g
      ensures Valid() && g == old(g).(matches := old(g).matches + [rule]) && Extends(old(g), g) && Outputs(g) == Outputs(old(g))
    {
      var h := g.(matches := g.matches + [rule]);
      HandlesGrow(g, h);
      StreamsStay(arena, g, h, byNode);
      ShapesStay(arena, g, h, byNode);
      g := h;
    }

    /** One operation node after another, each on the one before. */
    method AddSteps(parent: nat, ops: seq<Op>) returns (id: nat)
      requires Valid() && parent < |g.nodes| && IsStream(g.nodes[parent]) && ops != []
      modifies this`g
      ensures Valid() && Extends(old(g), g) && Outputs(g) == Outputs(old(g))
      ensures |old(g).nodes| <= id < |g.nodes| && IsStream(g.nodes[id])
      ensures Unfold(g, id) == Steps(old(Unfold(g, parent)), ops)
      ensures id == |old(g).nodes| + |ops| - 1
      ensures forall k :: 0 <= k < |ops| ==>
        g.nodes[|old(g).nodes| + k] == OpNode(if k == 0 then parent else |old(g).nodes| + k - 1, ops[k])
    {
      id := parent;
      assert ops[..0] == [];
      for k := 0 to |ops|
        invariant Valid() && Extends(old(g), g) && Outputs(g) == Outputs(old(g))
        invariant id < |g.nodes| && IsStream(g.nodes[id]) && (k > 0 ==> |old(g).nodes| <= id)
        invariant Unfold(g, id) == Steps(old(Unfold(g, parent)), ops[..k])
        invariant |g.nodes| == |old(g).nodes| + k && (k > 0 ==> id == |old(g).nodes| + k - 1) && (k == 0 ==> id == parent)
        invariant forall m :: 0 <= m < k ==>
          g.nodes[|old(g).nodes| + m] == OpNode(if m == 0 then parent else |old(g).nodes| + m - 1, ops[m])
      {
        ghost var before, was := g, id;
        id := Add(OpNode(id, ops[k]));
        ExtendsTransitive(old(g), before, g);
        UnfoldStays(before, g, was);
        assert ops[..k+1][..k] == ops[..k];
      }
      assert ops[..|ops|] == ops;
    }

    /** A stream and its node enter the table. */
    method Intern(i: nat, id: nat)
      requires Valid() && StandsFor(arena, g, i, id) && forall j :: j in byNode ==> byNode[j] != id
      requires i !in byNode && Shape(arena, g, byNode[i := id], i)
      modifies this`byNode
      ensures Valid() && byNode == old(byNode)[i := id]
    {
      ShapesGrow(arena, g, byNode, i, id);
      byNode := byNode[i := id];
    }

    /** `stream`: a stream already seen is its node; otherwise what it reads is interned first. */
    method Stream(p: Ptr) returns (r: Result<nat>)
      requires Valid() && (p.At? ==> p.i < |arena|)
      modifies this`g, this`byNode, this`byInput
      ensures Valid() && Extends(old(g), g) && Outputs(g) == Outputs(old(g)) && Kept(old(byNode), byNode) && Only(old(byNode), byNode, if p.At? then p.i + 1 else 0)
      ensures r.Ok? <==> p.At? && Good(arena, p.i)
      ensures r.Ok? ==> p.i in byNode && byNode[p.i] == r.value
      ensures p.At? && p.i in old(byNode) ==> g == old(g) && byNode == old(byNode)
      decreases if p.At? then p.i + 1 else 0, 1
    {
      if p.Nil? {
        return Err(ZeroStream);
      }
      if p.i in byNode {
        assert StandsFor(arena, g, p.i, byNode[p.i]);
        return Ok(byNode[p.i]);
      }
      var n := arena[p.i];
      if n.broken {
        return Err(Broken);
      }
      assert PointsBack(n.body, p.i);
      if n.body.OpOn? {
        r := StreamOp(p.i, n.body.parent, n.body.op);
      } else {
        r := StreamRoot(p.i, n.body.root);
      }
    }

    /** A stream that is an operation on another. */
    method StreamOp(i: nat, parent: Ptr, op: Op) returns (r: Result<nat>)
      requires Valid() && i < |arena| && i !in byNode && !arena[i].broken && arena[i].body == OpOn(parent, op) && PointsBack(arena[i].body, i)
      modifies this`g, this`byNode, this`byInput
      ensures Valid() && Extends(old(g), g) && Outputs(g) == Outputs(old(g)) && Kept(old(byNode), byNode) && Only(old(byNode), byNode, i + 1)
      ensures r.Ok? <==> Good(arena, i)
      ensures r.Ok? ==> i in byNode && byNode[i] == r.value
      decreases i + 1, 0
    {
      if parent.Nil? {
        return Err(NoParent);
      }
      var before := Stream(parent);
      if before.Err? {
        return before;
      }
      assert i !in byNode;
      ghost var h := g;
      r := AddOp(i, parent.i, op);
      ExtendsTransitive(old(g), h, g);
    }

    /** Its nodes, on the parent's. */
    method AddOp(i: nat, parent: nat, op: Op) returns (r: Result<nat>)
      requires Valid() && i < |arena| && i !in byNode && !arena[i].broken && arena[i].body == OpOn(At(parent), op) && parent < i
      requires parent in byNode
      modifies this`g, this`byNode
      ensures Valid() && Extends(old(g), g) && Outputs(g) == Outputs(old(g)) && r.Ok? && byNode == old(byNode)[i := r.value]
      ensures Good(arena, i)
    {
      assert StandsFor(arena, g, parent, byNode[parent]);
      var id := AddSteps(byNode[parent], Split(op));
      OpReady(arena, old(g), g, byNode, i, parent, op, id);
      Intern(i, id);
      r := Ok(id);
    }

    /** A stream that is a root of its own. */
    method StreamRoot(i: nat, root: Root) returns (r: Result<nat>)
      requires Valid() && i < |arena| && i !in byNode && !arena[i].broken && arena[i].body == RootOf(root) && PointsBack(arena[i].body, i)
      modifies this`g, this`byNode, this`byInput
      ensures Valid() && Extends(old(g), g) && Outputs(g) == Outputs(old(g)) && Kept(old(byNode), byNode) && Only(old(byNode), byNode, i + 1)
      ensures r.Ok? <==> Good(arena, i)
      ensures r.Ok? ==> i in byNode && byNode[i] == r.value
      decreases i + 1, 0
    {
      r := RootNode(root, i);
      if r.Ok? {
        RootStays(g, g, byNode, byNode[i := r.value], root, r.value);
        Intern(i, r.value);
      }
    }

    /** `root`: a join of interned arms, an anchor, a rule, or a selection. */
    method RootNode(root: Root, i: nat) returns (r: Result<nat>)
      requires Valid() && i <= |arena| && PointsBack(RootOf(root), i) && RootKnown(handles, root)
      modifies this`g, this`byNode, this`byInput
      ensures Valid() && Extends(old(g), g) && Outputs(g) == Outputs(old(g)) && Kept(old(byNode), byNode) && Only(old(byNode), byNode, i)
      ensures r.Ok? <==> GoodRoot(arena, root, i)
      ensures r.Ok? ==> r.value < |g.nodes| && IsStream(g.nodes[r.value]) && Unfold(g, r.value) == RootMeaning(arena, root, i)
      ensures r.Ok? ==> RootShape(g, byNode, root, r.value)
      ensures r.Ok? ==> forall j :: j in byNode ==> byNode[j] != r.value
      decreases i, 4
    {
      match root
      case Join(kind, layers) =>
        r := JoinNodeOf(kind, layers, i);
      case Anchor(point, track) =>
        r := AnchorNodeOf(point, track);
      case Rule(input, rule) =>
        r := RuleNodeOf(input, rule);
      case Select(input, select) =>
        r := SelectNodeOf(input, select);
    }

    /** The arms first, in order, then the join over them. */
    method JoinNodeOf(kind: nat, layers: seq<Layer>, i: nat) returns (r: Result<nat>)
      requires Valid() && i <= |arena| && PointsBack(RootOf(Join(kind, layers)), i)
      modifies this`g, this`byNode, this`byInput
      ensures Valid() && Extends(old(g), g) && Outputs(g) == Outputs(old(g)) && Kept(old(byNode), byNode) && Only(old(byNode), byNode, i)
      ensures r.Ok? <==> GoodRoot(arena, Join(kind, layers), i)
      ensures r.Ok? ==> r.value < |g.nodes| && IsStream(g.nodes[r.value]) && Unfold(g, r.value) == RootMeaning(arena, Join(kind, layers), i)
      ensures r.Ok? ==> JoinShape(g, byNode, kind, layers, r.value)
      ensures r.Ok? ==> forall j :: j in byNode ==> byNode[j] != r.value
      decreases i, 3
    {
      var arms := ArmNodesOf(kind, layers, i);
      if arms.Err? {
        return Err(arms.reason);
      }
      var parents := arms.value;
      ghost var h := g;
      JoinReady(arena, g, layers, parents, kind);
      var id := Add(JoinNode(kind, parents, Places(layers)));
      ExtendsTransitive(old(g), h, g);
      Fresh(arena, h, byNode, id);
      ArmsStay(arena, h, g, layers, parents);
      JoinStands(arena, g, kind, layers, parents, i, id);
      r := Ok(id);
    }

    /** The arms' nodes, in order; the first arm that has none refuses the join. */
    method ArmNodesOf(kind: nat, layers: seq<Layer>, i: nat) returns (r: Result<seq<nat>>)
      requires Valid() && i <= |arena| && PointsBack(RootOf(Join(kind, layers)), i)
      modifies this`g, this`byNode, this`byInput
      ensures Valid() && Extends(old(g), g) && Outputs(g) == Outputs(old(g)) && Kept(old(byNode), byNode) && Only(old(byNode), byNode, i)
      ensures r.Ok? ==> |r.value| == |layers|
      ensures r.Ok? ==> forall m :: 0 <= m < |layers| ==> layers[m].stream.At? && StandsFor(arena, g, layers[m].stream.i, r.value[m])
      ensures r.Ok? ==> forall m :: 0 <= m < |layers| ==> layers[m].stream.i in byNode && r.value[m] == byNode[layers[m].stream.i]
      ensures r.Err? ==> !GoodRoot(arena, Join(kind, layers), i)
      decreases i, 2
    {
      var parents: seq<nat> := [];
      for k := 0 to |layers|
        invariant Valid() && Extends(old(g), g) && Outputs(g) == Outputs(old(g)) && Kept(old(byNode), byNode) && Only(old(byNode), byNode, i) && |parents| == k
        invariant forall m :: 0 <= m < k ==>
          layers[m].stream.At? && layers[m].stream.i in byNode && parents[m] == byNode[layers[m].stream.i]
      {
        ghost var h := g;
        var arm := Stream(layers[k].stream);
        ExtendsTransitive(old(g), h, g);
        if arm.Err? {
          return Err(arm.reason);
        }
        parents := parents + [arm.value];
      }
      ArmsStand(arena, g, byNode, layers, parents);
      r := Ok(parents);
    }

    method AnchorNodeOf(point: nat, track: Option<Input>) returns (r: Result<nat>)
      requires Valid() && (track.Some? ==> Known(handles, track.value))
      modifies this`g, this`byInput
      ensures Valid() && Extends(old(g), g) && Outputs(g) == Outputs(old(g)) && r.Ok?
      ensures r.value < |g.nodes| && IsStream(g.nodes[r.value])
      ensures Unfold(g, r.value) == Anchored(point, track) && RootShape(g, byNode, Anchor(point, track), r.value)
      ensures forall j :: j in byNode ==> byNode[j] != r.value
    {
      var index: Option<nat> := None;
      if track.Some? {
        var input := InputNodeOf(track.value);
        index := Some(g.nodes[input].input);
      }
      ghost var h := g;
      var id := Add(AnchorNode(point, index));
      ExtendsTransitive(old(g), h, g);
      Fresh(arena, h, byNode, id);
      assert Lower(g, id);
      r := Ok(id);
    }

    method RuleNodeOf(input: Input, rule: nat) returns (r: Result<nat>)
      requires Valid() && Known(handles, input)
      modifies this`g, this`byInput
      ensures Valid() && Extends(old(g), g) && Outputs(g) == Outputs(old(g)) && (r.Ok? <==> input.id.Some?)
      ensures r.Ok? ==> r.value < |g.nodes| && IsStream(g.nodes[r.value]) && Unfold(g, r.value) == Discovered(input, rule)
      ensures r.Ok? ==> RootShape(g, byNode, Rule(input, rule), r.value)
      ensures r.Ok? ==> forall j :: j in byNode ==> byNode[j] != r.value
    {
      if input.id.None? {
        return Err(NoInput);
      }
      var source := InputNodeOf(input);
      ghost var h1 := g;
      KeepMatch(rule);
      ghost var h2 := g;
      var id := Add(RuleNode(source, |g.matches| - 1));
      ExtendsTransitive(old(g), h1, h2);
      ExtendsTransitive(old(g), h2, g);
      Fresh(arena, h2, byNode, id);
      assert Lower(g, id);
      r := Ok(id);
    }

    method SelectNodeOf(input: Input, select: nat) returns (r: Result<nat>)
      requires Valid() && Known(handles, input)
      modifies this`g, this`byInput
      ensures Valid() && Extends(old(g), g) && Outputs(g) == Outputs(old(g)) && (r.Ok? <==> input.id.Some?)
      ensures r.Ok? ==> r.value < |g.nodes| && IsStream(g.nodes[r.value]) && Unfold(g, r.value) == Selected(input, select)
      ensures r.Ok? ==> RootShape(g, byNode, Select(input, select), r.value)
      ensures r.Ok? ==> forall j :: j in byNode ==> byNode[j] != r.value
    {
      if input.id.None? {
        return Err(NoInput);
      }
      var source := InputNodeOf(input);
      ghost var h := g;
      var id := Add(SelectNode(source, select));
      ExtendsTransitive(old(g), h, g);
      Fresh(arena, h, byNode, id);
      assert Lower(g, id);
      r := Ok(id);
    }

    /** A destination node gains a reader. */
    method AddReader(n: nat, from: nat)
      requires Valid() && n < |g.nodes| && g.nodes[n].OutputNode?
      modifies this`g
      ensures Valid() && Extends(old(g), g) && |g.nodes| == |old(g).nodes|
      ensures g.nodes[n] == OutputNode(old(g).nodes[n].output, old(g).nodes[n].readers + [from])
      ensures Outputs(g) == Outputs(old(g))[n := g.nodes[n]]
    {
      var h := g.(nodes := g.nodes[n := OutputNode(g.nodes[n].output, g.nodes[n].readers + [from])]);
      ReaderKeeps(g, h, n);
      ChangedOutput(g, h, n);
      StreamsStay(arena, g, h, byNode);
      ShapesStay(arena, g, h, byNode);
      forall i | i in byInput
        ensures i in handles && InputAt(h, byInput[i], handles[i])
      {
        InputStays(g, h, byInput[i], handles[i]);
      }
      g := h;
    }

    /** `destination` and the routing to it: one node per handle, a new one for a handle without identity. */
    method RouteTo(output: nat, from: nat, dest: Dest)
      requires Valid() && Routed()
      modifies this`g, this`dests, this`byDest, this`conflict, this`routings
      ensures Valid() && Routed() && Extends(old(g), g)
      ensures |routings| == |old(routings)| + 1 && routings[..|old(routings)|] == old(routings)
      ensures routings[|old(routings)|] == Routing(output, from, dest, routings[|old(routings)|].node)
    {
      if dest.id in byDest {
        RouteAgain(output, from, dest);
      } else {
        RouteFirst(output, from, dest);
      }
    }

    method RouteAgain(output: nat, from: nat, dest: Dest)
      requires Valid() && Routed() && dest.id in byDest
      modifies this`g, this`conflict, this`routings
      ensures Valid() && Routed() && Extends(old(g), g)
      ensures routings == old(routings) + [Routing(output, from, dest, byDest[dest.id])]
    {
      var n := byDest[dest.id];
      assert DestAt(g, dests, byDest[dest.id], dest.id);
      var differs := HandleAt(g, dests, n).config != dest.config;
      AddReader(n, from);
      ReadAgain(old(g), g, dests, byDest, routings, conflict, Routing(output, from, dest, n));
      conflict := conflict || differs;
      routings := routings + [Routing(output, from, dest, n)];
    }

    method RouteFirst(output: nat, from: nat, dest: Dest)
      requires Valid() && Routed() && dest.id !in byDest
      modifies this`g, this`dests, this`byDest, this`routings
      ensures Valid() && Routed() && Extends(old(g), g)
      ensures |routings| == |old(routings)| + 1 && routings[..|old(routings)|] == old(routings)
      ensures routings[|old(routings)|] == Routing(output, from, dest, |old(g).nodes|)
    {
      var n := NewOutput(from);
      ReadFirst(old(g), g, dests, byDest, routings, conflict, Routing(output, from, dest, n));
      dests := dests + [dest];
      if dest.id != 0 {
        byDest := byDest[dest.id := n];
      }
      routings := routings + [Routing(output, from, dest, n)];
    }

    /** A node for the next handle, with its first reader. */
    method NewOutput(from: nat) returns (n: nat)
      requires Valid()
      modifies this`g
      ensures Valid() && Extends(old(g), g) && n == |old(g).nodes| < |g.nodes| && g.nodes[n] == OutputNode(|dests|, [from])
      ensures Outputs(g) == Outputs(old(g))[n := g.nodes[n]]
    {
      n := Add(OutputNode(|dests|, []));
      ghost var h := g;
      AddReader(n, from);
      ExtendsTransitive(old(g), h, g);
      assert Outputs(h)[n := g.nodes[n]] == Outputs(old(g))[n := g.nodes[n]];
    }

    method FromOf(out: Out) returns (r: Result<nat>)
      requires Valid() && (out.stream.At? ==> out.stream.i < |arena|) && (out.remux.Some? ==> Known(handles, out.remux.value))
      modifies this`g, this`byNode, this`byInput
      ensures Valid() && Extends(old(g), g) && Outputs(g) == Outputs(old(g)) && Kept(old(byNode), byNode)
      ensures r.Ok? <==> out.remux.Some? || (out.stream.At? && Good(arena, out.stream.i))
      ensures r.Ok? ==> FromAt(g, byNode, out, r.value)
    {
      if out.remux.Some? {
        var id := InputNodeOf(out.remux.value);
        return Ok(id);
      }
      r := Stream(out.stream);
    }

    /** An Output's destinations in order. */
    method RouteAll(output: nat, from: nat, list: seq<Dest>)
      requires Valid() && Routed()
      modifies this`g, this`dests, this`byDest, this`conflict, this`routings
      ensures Valid() && Routed() && Extends(old(g), g)
      ensures Adds(old(routings), routings, output, from, list)
    {
      for k := 0 to |list|
        invariant Valid() && Routed() && Extends(old(g), g)
        invariant |routings| == |old(routings)| + k && routings[..|old(routings)|] == old(routings)
        invariant forall a :: |old(routings)| <= a < |routings| ==>
          routings[a] == Routing(output, from, list[a-|old(routings)|], routings[a].node)
      {
        ghost var h, before := g, routings;
        RouteTo(output, from, list[k]);
        ExtendsTransitive(old(g), h, g);
        assert forall a :: 0 <= a < |before| ==> routings[a] == before[a];
      }
    }

    /** One Output: checked, its stream interned, its destinations routed. */
    method CompileOne(outs: seq<Out>, i: nat) returns (refusal: Option<Reason>)
      requires Valid() && Routed()
      requires i < |outs| && (outs[i].stream.At? ==> outs[i].stream.i < |arena|)
      requires outs[i].remux.Some? ==> Known(handles, outs[i].remux.value)
      requires Answers(g, byNode, outs, i, routings)
      modifies this
      ensures Valid() && Routed()
      ensures refusal.None? <==> OutGood(arena, outs[i])
      ensures refusal.None? ==> Answers(g, byNode, outs, i + 1, routings)
    {
      var out := outs[i];
      if !out.policyKnown {
        return Some(UnknownPolicy);
      }
      if out.dests == [] {
        return Some(NoDestination);
      }
      var from := FromOf(out);
      RoutedStays(old(g), g, dests, dests, byDest, routings, conflict);
      if from.Err? {
        return Some(from.reason);
      }
      ghost var h := g;
      RouteAll(i, from.value, out.dests);
      ExtendsTransitive(old(g), h, g);
      FromStays(h, g, byNode, byNode, out, from.value);
      AnswersGrow(old(g), g, old(byNode), byNode, outs, i, old(routings), routings, from.value);
      return None;
    }

    /**
     * `compileGraph`: it compiles exactly the Outputs that are properly made and whose copies of a
     * handle agree, each routed from the node of what it routes to the node of each handle it names.
     */
    method CompileGraph(outs: seq<Out>) returns (r: Outcome)
      requires Valid() && routings == [] && Routed()
      requires forall i :: 0 <= i < |outs| && outs[i].stream.At? ==> outs[i].stream.i < |arena|
      requires forall i :: 0 <= i < |outs| && outs[i].remux.Some? ==> Known(handles, outs[i].remux.value)
      modifies this
      ensures Valid() && Routed()
      ensures !r.Refused? <==> outs != [] && AllGood(arena, outs, |outs|)
      ensures !r.Refused? ==> Answers(g, byNode, outs, |outs|, routings) && (r.Conflicting? <==> Clashes(routings))
    {
      if outs == [] {
        return Refused(NoOutputs);
      }
      var refusal := CompileAll(outs);
      if refusal.Some? {
        return Refused(refusal.value);
      }
      ConflictIsClash(g, dests, byDest, routings, conflict);
      return if conflict then Conflicting else Compiled;
    }

    method CompileAll(outs: seq<Out>) returns (refusal: Option<Reason>)
      requires Valid() && routings == [] && Routed()
      requires forall i :: 0 <= i < |outs| && outs[i].stream.At? ==> outs[i].stream.i < |arena|
      requires forall i :: 0 <= i < |outs| && outs[i].remux.Some? ==> Known(handles, outs[i].remux.value)
      modifies this
      ensures Valid() && Routed()
      ensures refusal.None? <==> AllGood(arena, outs, |outs|)
      ensures refusal.None? ==> Answers(g, byNode, outs, |outs|, routings)
    {
      refusal := None;
      var i := 0;
      while i < |outs| && refusal.None?
        invariant i <= |outs| && Valid() && Routed()
        invariant refusal.None? <==> AllGood(arena, outs, i)
        invariant refusal.None? ==> Answers(g, byNode, outs, i, routings)
        decreases |outs| - i
      {
        refusal := CompileOne(outs, i);
        i := i + 1;
      }
      if refusal.Some? {
        OneBadSpoilsAll(arena, outs, i, |outs|);
      }
    }
  }

  /** An Output: its policy is known or not, what it routes, and its destinations. */
  datatype Out = Out(policyKnown: bool, remux: Option<Input>, stream: Ptr, dests: seq<Dest>)

  /** Properly made: a known policy, a destination, and something to route. */
  ghost predicate OutGood(arena: Arena, out: Out)
    requires Backward(arena) && (out.stream.At? ==> out.stream.i < |arena|)
  {
    out.policyKnown && out.dests != [] && (out.remux.Some? || (out.stream.At? && Good(arena, out.stream.i)))
  }

  /** The first n Outputs are all properly made. */
  ghost predicate AllGood(arena: Arena, outs: seq<Out>, n: nat)
    requires Backward(arena) && n <= |outs|
    requires forall i :: 0 <= i < |outs| && outs[i].stream.At? ==> outs[i].stream.i < |arena|
  {
    n == 0 || (AllGood(arena, outs, n - 1) && OutGood(arena, outs[n-1]))
  }

  lemma {:induction false} OneBadSpoilsAll(arena: Arena, outs: seq<Out>, m: nat, n: nat)
    requires Backward(arena) && m <= n <= |outs|
    requires forall i :: 0 <= i < |outs| && outs[i].stream.At? ==> outs[i].stream.i < |arena|
    requires !AllGood(arena, outs, m)
    ensures !AllGood(arena, outs, n)
  {
    if m < n {
      OneBadSpoilsAll(arena, outs, m, n - 1);
    }
  }

  /** What an Output routes: the input it copies, or its stream's node. */
  ghost predicate FromAt(g: Dag, byNode: map<nat, nat>, out: Out, from: nat) {
    if out.remux.Some? then InputAt(g, from, out.remux.value)
    else out.stream.At? && out.stream.i in byNode && byNode[out.stream.i] == from
  }

  /** The destinations of the first n Outputs, in order. */
  function Calls(outs: seq<Out>, n: nat): seq<(nat, Dest)>
    requires n <= |outs|
  {
    if n == 0 then [] else
      var out := outs[n-1];
      Calls(outs, n - 1) + seq(|out.dests|, k requires 0 <= k < |out.dests| => (n - 1, out.dests[k]))
  }

  /** One routing for each destination of each Output, from what that Output routes. */
  ghost predicate Answers(g: Dag, byNode: map<nat, nat>, outs: seq<Out>, n: nat, routings: seq<Routing>)
    requires n <= |outs|
  {
    Matches(Calls(outs, n), routings) && Sourced(g, byNode, outs, routings)
  }

  ghost predicate Matches(calls: seq<(nat, Dest)>, routings: seq<Routing>) {
    |routings| == |calls| && forall a :: 0 <= a < |routings| ==> (routings[a].output, routings[a].handle) == calls[a]
  }

  ghost predicate Sourced(g: Dag, byNode: map<nat, nat>, outs: seq<Out>, routings: seq<Routing>) {
    forall a :: 0 <= a < |routings| ==> routings[a].output < |outs| && FromAt(g, byNode, outs[routings[a].output], routings[a].from)
  }

  /** A stream Output routes the node that stands for its stream; two route one node exactly when they route one stream. */
  lemma StreamsShareNodes(c: Compiler, outs: seq<Out>, a: nat, b: nat)
    requires c.Valid() && Answers(c.g, c.byNode, outs, |outs|, c.routings) && a < |c.routings| && b < |c.routings|
    requires outs[c.routings[a].output].remux.None? && outs[c.routings[b].output].remux.None?
    ensures outs[c.routings[a].output].stream.At? && StandsFor(c.arena, c.g, outs[c.routings[a].output].stream.i, c.routings[a].from)
    ensures c.routings[a].from == c.routings[b].from <==> outs[c.routings[a].output].stream == outs[c.routings[b].output].stream
  {
    var p, q := outs[c.routings[a].output], outs[c.routings[b].output];
    assert FromAt(c.g, c.byNode, p, c.routings[a].from) && FromAt(c.g, c.byNode, q, c.routings[b].from);
    assert StandsFor(c.arena, c.g, p.stream.i, c.byNode[p.stream.i]);
  }

  lemma FromStays(g: Dag, h: Dag, byNode: map<nat, nat>, after: map<nat, nat>, out: Out, from: nat)
    requires Extends(g, h) && Kept(byNode, after) && FromAt(g, byNode, out, from)
    ensures FromAt(h, after, out, from)
  {
    if out.remux.Some? {
      InputStays(g, h, from, out.remux.value);
    }
  }

  /** The routings of one more Output, from one node. */
  ghost predicate Adds(before: seq<Routing>, routings: seq<Routing>, i: nat, from: nat, dests: seq<Dest>) {
    && |routings| == |before| + |dests| && routings[..|before|] == before
    && forall a :: |before| <= a < |routings| ==> routings[a] == Routing(i, from, dests[a-|before|], routings[a].node)
  }

  lemma MatchesGrow(calls: seq<(nat, Dest)>, before: seq<Routing>, routings: seq<Routing>, i: nat, from: nat, dests: seq<Dest>)
    requires Matches(calls, before) && Adds(before, routings, i, from, dests)
    ensures Matches(calls + seq(|dests|, k requires 0 <= k < |dests| => (i, dests[k])), routings)
  {
    forall a | 0 <= a < |before|
      ensures (routings[a].output, routings[a].handle) == calls[a]
    {
      assert routings[a] == routings[..|before|][a];
    }
  }

  lemma SourcedGrow(g: Dag, h: Dag, byNode: map<nat, nat>, after: map<nat, nat>, outs: seq<Out>, before: seq<Routing>, routings: seq<Routing>,
                    i: nat, from: nat, dests: seq<Dest>)
    requires i < |outs| && Extends(g, h) && Kept(byNode, after) && Sourced(g, byNode, outs, before)
    requires Adds(before, routings, i, from, dests) && FromAt(h, after, outs[i], from)
    ensures Sourced(h, after, outs, routings)
  {
    forall a | 0 <= a < |routings|
      ensures routings[a].output < |outs| && FromAt(h, after, outs[routings[a].output], routings[a].from)
    {
      if a < |before| {
        assert routings[a] == routings[..|before|][a] == before[a];
        FromStays(g, h, byNode, after, outs[before[a].output], before[a].from);
      }
    }
  }

  lemma {:induction false} AnswersGrow(g: Dag, h: Dag, byNode: map<nat, nat>, after: map<nat, nat>, outs: seq<Out>, i: nat,
                                       before: seq<Routing>, routings: seq<Routing>, from: nat)
    requires i < |outs| && Extends(g, h) && Kept(byNode, after) && Answers(g, byNode, outs, i, before)
    requires Adds(before, routings, i, from, outs[i].dests) && FromAt(h, after, outs[i], from)
    ensures Answers(h, after, outs, i + 1, routings)
  {
    MatchesGrow(Calls(outs, i), before, routings, i, from, outs[i].dests);
    SourcedGrow(g, h, byNode, after, outs, before, routings, i, from, outs[i].dests);
  }

  lemma ConflictIsClash(g: Dag, dests: seq<Dest>, byDest: map<nat, nat>, routings: seq<Routing>, conflict: bool)
    requires AllRouted(g, dests, byDest, routings, conflict)
    ensures conflict <==> Clashes(routings)
  {
    if !conflict {
      forall a, b | 0 <= a < |routings| && 0 <= b < |routings|
        ensures !Clash(routings, a, b)
      {
        assert RoutingRight(g, dests, byDest, routings[a]) && RoutingRight(g, dests, byDest, routings[b]);
      }
    }
  }

  lemma ReaderKeeps(g: Dag, h: Dag, n: nat)
    requires AllLower(g) && n < |g.nodes| && g.nodes[n].OutputNode? && h.inputs == g.inputs && h.matches == g.matches
    requires |h.nodes| == |g.nodes| && h.nodes[n].OutputNode? && h.nodes[n].output == g.nodes[n].output && g.nodes[n].readers <= h.nodes[n].readers
    requires forall id :: 0 <= id < |g.nodes| && id != n ==> h.nodes[id] == g.nodes[id]
    ensures AllLower(h) && Extends(g, h)
  {
    forall id | 0 <= id < |h.nodes|
      ensures Lower(h, id)
    {
      assert Lower(g, id);
    }
  }

  lemma OlderNodes(g: Dag, dests: seq<Dest>, byDest: map<nat, nat>, routings: seq<Routing>)
    requires RoutingsRight(g, dests, byDest, routings)
    ensures forall a :: 0 <= a < |routings| ==> routings[a].node < |g.nodes|
  {
    forall a | 0 <= a < |routings|
      ensures routings[a].node < |g.nodes|
    {
      assert RoutingRight(g, dests, byDest, routings[a]);
    }
  }

  /** Only streams below n are new in the table. */
  ghost predicate Only(before: map<nat, nat>, after: map<nat, nat>, n: nat) {
    forall x :: x in after ==> x in before || x < n
  }

  /** Streams keep their nodes. */
  ghost predicate Kept(before: map<nat, nat>, after: map<nat, nat>) {
    forall i :: i in before ==> i in after && after[i] == before[i]
  }

  lemma OpStands(arena: Arena, g: Dag, i: nat, parent: nat, op: Op, id: nat)
    requires Backward(arena) && AllLower(g) && i < |arena| && !arena[i].broken && arena[i].body == OpOn(At(parent), op)
    requires parent < i && Good(arena, parent) && id < |g.nodes| && IsStream(g.nodes[id])
    requires Unfold(g, id) == Steps(Meaning(arena, parent), Split(op))
    ensures StandsFor(arena, g, i, id)
  {
  }

  /** The nodes of an operation may enter the table. */
  lemma OpReady(arena: Arena, g: Dag, h: Dag, byNode: map<nat, nat>, i: nat, parent: nat, op: Op, id: nat)
    requires Backward(arena) && AllLower(g) && AllLower(h) && StreamsRight(arena, g, byNode)
    requires i < |arena| && i !in byNode && !arena[i].broken && arena[i].body == OpOn(At(parent), op) && parent < i && parent in byNode
    requires StandsFor(arena, g, parent, byNode[parent]) && id == |g.nodes| + |Split(op)| - 1 < |h.nodes| && IsStream(h.nodes[id])
    requires Unfold(h, id) == Steps(Unfold(g, byNode[parent]), Split(op))
    requires forall k :: 0 <= k < |Split(op)| ==>
      h.nodes[|g.nodes| + k] == OpNode(if k == 0 then byNode[parent] else |g.nodes| + k - 1, Split(op)[k])
    ensures StandsFor(arena, h, i, id) && Shape(arena, h, byNode[i := id], i)
    ensures forall j :: j in byNode ==> byNode[j] != id
  {
    OpStands(arena, h, i, parent, op, id);
    Fresh(arena, g, byNode, id);
    StepsShape(g, h, byNode[parent], op, id);
  }

  /** The arms interned so far keep standing for their streams. */
  lemma ArmsStay(arena: Arena, g: Dag, h: Dag, layers: seq<Layer>, parents: seq<nat>)
    requires Backward(arena) && AllLower(g) && AllLower(h) && Extends(g, h) && |parents| <= |layers|
    requires forall m :: 0 <= m < |parents| ==> layers[m].stream.At? && StandsFor(arena, g, layers[m].stream.i, parents[m])
    ensures forall m :: 0 <= m < |parents| ==> StandsFor(arena, h, layers[m].stream.i, parents[m])
  {
    forall m | 0 <= m < |parents|
      ensures StandsFor(arena, h, layers[m].stream.i, parents[m])
    {
      StandsStill(arena, g, h, layers[m].stream.i, parents[m]);
    }
  }

  lemma ArmsStand(arena: Arena, g: Dag, byNode: map<nat, nat>, layers: seq<Layer>, parents: seq<nat>)
    requires Backward(arena) && AllLower(g) && StreamsRight(arena, g, byNode) && |parents| == |layers|
    requires forall m :: 0 <= m < |layers| ==>
      layers[m].stream.At? && layers[m].stream.i in byNode && parents[m] == byNode[layers[m].stream.i]
    ensures forall m :: 0 <= m < |layers| ==> StandsFor(arena, g, layers[m].stream.i, parents[m])
  {
  }

  lemma JoinReady(arena: Arena, g: Dag, layers: seq<Layer>, parents: seq<nat>, kind: nat)
    requires Backward(arena) && AllLower(g) && |parents| == |layers|
    requires forall m :: 0 <= m < |parents| ==> layers[m].stream.At? && StandsFor(arena, g, layers[m].stream.i, parents[m])
    ensures Ready(g, JoinNode(kind, parents, Places(layers)))
  {
    forall m | 0 <= m < |parents|
      ensures parents[m] < |g.nodes| && IsStream(g.nodes[parents[m]])
    {
      assert StandsFor(arena, g, layers[m].stream.i, parents[m]);
    }
  }

  lemma JoinStands(arena: Arena, g: Dag, kind: nat, layers: seq<Layer>, parents: seq<nat>, i: nat, id: nat)
    requires Backward(arena) && AllLower(g) && |parents| == |layers| && i <= |arena| && PointsBack(RootOf(Join(kind, layers)), i)
    requires forall m :: 0 <= m < |parents| ==> layers[m].stream.At? && StandsFor(arena, g, layers[m].stream.i, parents[m])
    requires id < |g.nodes| && g.nodes[id] == JoinNode(kind, parents, Places(layers))
    ensures GoodRoot(arena, Join(kind, layers), i) && Unfold(g, id) == RootMeaning(arena, Join(kind, layers), i)
  {
    assert Lower(g, id);
    forall m | 0 <= m < |layers|
      ensures Good(arena, layers[m].stream.i) && Unfold(g, parents[m]) == Meaning(arena, layers[m].stream.i)
    {
      assert StandsFor(arena, g, layers[m].stream.i, parents[m]);
    }
    assert seq(|parents|, k requires 0 <= k < |parents| => Unfold(g, parents[k]))
        == seq(|layers|, k requires 0 <= k < |layers| => Meaning(arena, layers[k].stream.i));
  }

  lemma Fresh(arena: Arena, g: Dag, byNode: map<nat, nat>, id: nat)
    requires Backward(arena) && AllLower(g) && StreamsRight(arena, g, byNode) && id >= |g.nodes|
    ensures forall j :: j in byNode ==> byNode[j] != id
  {
    forall j | j in byNode
      ensures byNode[j] != id
    {
      assert StandsFor(arena, g, j, byNode[j]);
    }
  }

  lemma HandlesGrow(g: Dag, h: Dag)
    requires AllLower(g) && h.nodes == g.nodes && g.inputs <= h.inputs && g.matches <= h.matches
    ensures AllLower(h) && Extends(g, h)
  {
    forall id | 0 <= id < |h.nodes|
      ensures Lower(h, id)
    {
      assert Lower(g, id);
    }
  }
}
