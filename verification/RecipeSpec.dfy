/**
 * Stream values and the recipe DAG they compile to (`stream.go`, `recipe_graph.go`).
 * Stream nodes live in an arena in the order they were made, so a node only
 * points at earlier ones; inputs, rules, stages and options are opaque numbers.
 */
module RecipeSpec {
  import opened Basics

  datatype Ptr = Nil | At(i: nat)

  /** A `Do` runs stages in order; every other operation is one step. */
  datatype Op = Do(stages: seq<nat>) | Other(code: nat)

  /** An input handle: its identity, if it was constructed, and its configuration. */
  datatype Input = Input(id: Option<nat>, config: nat)

  datatype Layer = Layer(stream: Ptr, place: nat)

  datatype Root =
    | Join(kind: nat, layers: seq<Layer>)
    | Anchor(point: nat, track: Option<Input>)     // a tap, a route, or a track of an input
    | Rule(input: Input, rule: nat)
    | Select(input: Input, select: nat)

  datatype Body = OpOn(parent: Ptr, op: Op) | RootOf(root: Root)

  /** One stream node; `broken` is a construction error it carries. */
  datatype Value = Value(broken: bool, body: Body)

  type Arena = seq<Value>

  /** Values are immutable: each points only at values made before it. */
  ghost predicate Backward(arena: Arena) {
    forall i :: 0 <= i < |arena| ==> PointsBack(arena[i].body, i)
  }

  ghost predicate PointsBack(body: Body, i: nat) {
    match body
    case OpOn(parent, _) => parent.At? ==> parent.i < i
    case RootOf(root) => root.Join? ==> forall k :: 0 <= k < |root.layers| && root.layers[k].stream.At? ==> root.layers[k].stream.i < i
  }

  // ---------------------------------------------------------------------
  // Input handles: every constructor and copy-with-options makes a new identity
  // ---------------------------------------------------------------------

  /** The handle made with each identity. */
  type Handles = map<nat, Input>

  /** A copy of a handle is the handle: its identity was made together with its configuration. */
  ghost predicate Known(handles: Handles, input: Input) {
    input.id.Some? ==> input.id.value in handles && handles[input.id.value] == input
  }

  ghost predicate RootKnown(handles: Handles, root: Root) {
    match root
    case Join(_, _) => true
    case Anchor(_, track) => track.Some? ==> Known(handles, track.value)
    case Rule(input, _) => Known(handles, input)
    case Select(input, _) => Known(handles, input)
  }

  ghost predicate AllKnown(handles: Handles, arena: Arena) {
    forall i :: 0 <= i < |arena| && arena[i].body.RootOf? ==> RootKnown(handles, arena[i].body.root)
  }

  /** Making a handle under a new identity leaves every stream's handles as they were. */
  lemma MadeAnew(handles: Handles, arena: Arena, id: nat, config: nat)
    requires AllKnown(handles, arena) && id !in handles
    ensures var made := Input(Some(id), config); Known(handles[id := made], made) && AllKnown(handles[id := made], arena)
  {
    var made := handles[id := Input(Some(id), config)];
    forall i | 0 <= i < |arena| && arena[i].body.RootOf?
      ensures RootKnown(made, arena[i].body.root)
    {
      assert RootKnown(handles, arena[i].body.root);
    }
  }

  // ---------------------------------------------------------------------
  // What a stream means: its operation tree, down to the inputs it reads
  // ---------------------------------------------------------------------

  datatype Tree =
    | Step(before: Tree, op: Op)
    | Joined(kind: nat, arms: seq<Tree>, places: seq<nat>)
    | Anchored(point: nat, track: Option<Input>)
    | Discovered(input: Input, rule: nat)
    | Selected(input: Input, select: nat)

  /** A `Do` of several stages is one operation per stage, in order. */
  function Split(op: Op): seq<Op> {
    if op.Do? && |op.stages| >= 2 then seq(|op.stages|, i requires 0 <= i < |op.stages| => Do([op.stages[i]])) else [op]
  }

  function Steps(tree: Tree, ops: seq<Op>): Tree {
    if ops == [] then tree else Step(Steps(tree, ops[..|ops|-1]), ops[|ops|-1])
  }

  /** Everything the value reaches was constructed properly. */
  ghost predicate Good(arena: Arena, i: nat)
    requires Backward(arena) && i < |arena|
    decreases i
  {
    && !arena[i].broken
    && match arena[i].body
       case OpOn(parent, _) => parent.At? && (assert PointsBack(arena[i].body, i); Good(arena, parent.i))
       case RootOf(root) => GoodRoot(arena, root, i)
  }

  ghost predicate GoodRoot(arena: Arena, root: Root, i: nat)
    requires Backward(arena) && i <= |arena| && PointsBack(RootOf(root), i)
    decreases i, 0
  {
    match root
    case Join(_, layers) => forall k :: 0 <= k < |layers| ==> layers[k].stream.At? && Good(arena, layers[k].stream.i)
    case Anchor(_, _) => true
    case Rule(input, _) => input.id.Some?
    case Select(input, _) => input.id.Some?
  }

  ghost function Meaning(arena: Arena, i: nat): Tree
    requires Backward(arena) && i < |arena| && Good(arena, i)
    decreases i
  {
    match arena[i].body
    case OpOn(parent, op) => assert PointsBack(arena[i].body, i); Steps(Meaning(arena, parent.i), Split(op))
    case RootOf(root) => assert PointsBack(arena[i].body, i); RootMeaning(arena, root, i)
  }

  ghost function RootMeaning(arena: Arena, root: Root, i: nat): Tree
    requires Backward(arena) && i <= |arena| && PointsBack(RootOf(root), i) && GoodRoot(arena, root, i)
    decreases i, 0
  {
    match root
    case Join(kind, layers) =>
      Joined(kind, seq(|layers|, k requires 0 <= k < |layers| => Meaning(arena, layers[k].stream.i)), Places(layers))
    case Anchor(point, track) => Anchored(point, track)
    case Rule(input, rule) => Discovered(input, rule)
    case Select(input, select) => Selected(input, select)
  }

  function Places(layers: seq<Layer>): seq<nat> {
    seq(|layers|, k requires 0 <= k < |layers| => layers[k].place)
  }

  // ---------------------------------------------------------------------
  // The DAG
  // ---------------------------------------------------------------------

  datatype Node =
    | InputNode(input: nat)
    | OpNode(parent: nat, op: Op)
    | JoinNode(kind: nat, parents: seq<nat>, places: seq<nat>)
    | AnchorNode(point: nat, track: Option<nat>)
    | RuleNode(source: nat, rule: nat)
    | SelectNode(source: nat, select: nat)
    | OutputNode(output: nat, readers: seq<nat>)

  /** The graph and the handles its nodes index. */
  datatype Dag = Dag(nodes: seq<Node>, inputs: seq<Input>, matches: seq<nat>)

  predicate IsStream(n: Node) {
    !n.InputNode? && !n.OutputNode?
  }

  /** A stream node's parents are lower-numbered stream nodes, or the input it selects from. */
  ghost predicate Lower(g: Dag, id: nat)
    requires id < |g.nodes|
  {
    match g.nodes[id]
    case InputNode(k) => k < |g.inputs|
    case OpNode(p, _) => p < id && IsStream(g.nodes[p])
    case JoinNode(_, parents, places) =>
      |places| == |parents| && forall k :: 0 <= k < |parents| ==> parents[k] < id && IsStream(g.nodes[parents[k]])
    case AnchorNode(_, track) => track.Some? ==> track.value < |g.inputs|
    case RuleNode(p, r) => p < id && g.nodes[p].InputNode? && g.nodes[p].input < |g.inputs| && r < |g.matches|
    case SelectNode(p, _) => p < id && g.nodes[p].InputNode? && g.nodes[p].input < |g.inputs|
    case OutputNode(_, _) => true
  }

  ghost predicate AllLower(g: Dag) {
    forall id :: 0 <= id < |g.nodes| ==> Lower(g, id)
  }

  /** The operation tree a node stands for. */
  ghost function Unfold(g: Dag, id: nat): Tree
    requires AllLower(g) && id < |g.nodes| && IsStream(g.nodes[id])
    decreases id
  {
    assert Lower(g, id);
    match g.nodes[id]
    case OpNode(p, op) => Step(Unfold(g, p), op)
    case JoinNode(kind, parents, places) =>
      Joined(kind, seq(|parents|, k requires 0 <= k < |parents| => Unfold(g, parents[k])), places)
    case AnchorNode(point, track) => Anchored(point, if track.Some? then Some(g.inputs[track.value]) else None)
    case RuleNode(p, r) => Discovered(g.inputs[g.nodes[p].input], g.matches[r])
    case SelectNode(p, select) => Selected(g.inputs[g.nodes[p].input], select)
  }

  /** The later graph only adds to the earlier one; an output node may gain readers. */
  ghost predicate Extends(g: Dag, h: Dag) {
    && |g.nodes| <= |h.nodes| && g.inputs <= h.inputs && g.matches <= h.matches
    && forall id :: 0 <= id < |g.nodes| ==> SameNode(g.nodes[id], h.nodes[id])
  }

  ghost predicate SameNode(a: Node, b: Node) {
    if a.OutputNode? then b.OutputNode? && a.output == b.output && a.readers <= b.readers else a == b
  }

  lemma ExtendsTransitive(a: Dag, b: Dag, c: Dag)
    requires Extends(a, b) && Extends(b, c)
    ensures Extends(a, c)
  {
    forall id | 0 <= id < |a.nodes|
      ensures SameNode(a.nodes[id], c.nodes[id])
    {
      assert SameNode(a.nodes[id], b.nodes[id]) && SameNode(b.nodes[id], c.nodes[id]);
    }
  }

  /** What a node stands for does not change as the graph grows. */
  lemma {:induction false} UnfoldStays(g: Dag, h: Dag, id: nat)
    requires AllLower(g) && AllLower(h) && Extends(g, h) && id < |g.nodes| && IsStream(g.nodes[id])
    ensures IsStream(h.nodes[id]) && Unfold(h, id) == Unfold(g, id)
    decreases id
  {
    assert Lower(g, id) && SameNode(g.nodes[id], h.nodes[id]) && Lower(h, id);
    match g.nodes[id]
    case OpNode(p, op) =>
      UnfoldStays(g, h, p);
    case JoinNode(kind, parents, places) =>
      forall k | 0 <= k < |parents|
        ensures Unfold(h, parents[k]) == Unfold(g, parents[k])
      {
        UnfoldStays(g, h, parents[k]);
      }
      assert seq(|parents|, k requires 0 <= k < |parents| => Unfold(h, parents[k]))
          == seq(|parents|, k requires 0 <= k < |parents| => Unfold(g, parents[k]));
    case RuleNode(p, r) =>
      assert SameNode(g.nodes[p], h.nodes[p]);
    case SelectNode(p, select) =>
      assert SameNode(g.nodes[p], h.nodes[p]);
    case AnchorNode(_, _) =>
  }
}
