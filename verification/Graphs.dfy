/** Finite directed graphs: paths, acyclicity, and what it gives. */
module Graphs {

  type Vertex = string

  ghost predicate IsPath(edges: set<(Vertex, Vertex)>, p: seq<Vertex>) {
    p != [] && forall i :: 0 <= i < |p| - 1 ==> (p[i], p[i+1]) in edges
  }

  ghost predicate PathFrom(edges: set<(Vertex, Vertex)>, p: seq<Vertex>, a: Vertex, b: Vertex) {
    IsPath(edges, p) && p[0] == a && p[|p|-1] == b
  }

  /** No path of two or more vertices ends where it starts. */
  ghost predicate Acyclic(edges: set<(Vertex, Vertex)>) {
    forall p :: IsPath(edges, p) && |p| >= 2 ==> p[0] != p[|p|-1]
  }

  ghost predicate Distinct<T>(s: seq<T>) {
    forall i, j :: 0 <= i < j < |s| ==> s[i] != s[j]
  }

  /** More places than values: two places agree. */
  lemma {:induction false} DistinctFits<T>(s: seq<T>, values: set<T>)
    requires Distinct(s) && forall i :: 0 <= i < |s| ==> s[i] in values
    ensures |s| <= |values|
  {
    if s != [] {
      var n := |s| - 1;
      DistinctFits(s[..n], values - {s[n]});
    }
  }

  /** A path of an acyclic graph never repeats a vertex. */
  lemma AcyclicPathsAreDistinct(edges: set<(Vertex, Vertex)>, p: seq<Vertex>)
    requires Acyclic(edges) && IsPath(edges, p)
    ensures Distinct(p)
  {
    forall i, j | 0 <= i < j < |p|
      ensures p[i] != p[j]
    {
      var q := p[i..j+1];
      assert IsPath(edges, q) && q[0] == p[i] && q[|q|-1] == p[j];
    }
  }

  ghost predicate Fed(edges: set<(Vertex, Vertex)>, S: set<Vertex>, v: Vertex) {
    exists u :: u in S && (u, v) in edges
  }

  /** Every vertex of S has a predecessor in S. */
  ghost predicate AllFed(edges: set<(Vertex, Vertex)>, S: set<Vertex>) {
    forall v {:trigger Fed(edges, S, v)} :: v in S ==> Fed(edges, S, v)
  }

  lemma {:induction false} BackwardPath(edges: set<(Vertex, Vertex)>, S: set<Vertex>, v: Vertex, n: nat) returns (p: seq<Vertex>)
    requires AllFed(edges, S) && v in S && n > 0
    ensures |p| == n && IsPath(edges, p) && p[n-1] == v && forall i :: 0 <= i < n ==> p[i] in S
    decreases n
  {
    if n == 1 {
      p := [v];
    } else {
      assert Fed(edges, S, v);
      var u :| u in S && (u, v) in edges;
      var q := BackwardPath(edges, S, u, n - 1);
      p := q + [v];
    }
  }

  /** A nonempty finite set of vertices of an acyclic graph has one nothing in the set leads to. */
  lemma AcyclicHasSource(edges: set<(Vertex, Vertex)>, S: set<Vertex>)
    requires Acyclic(edges) && S != {}
    ensures !AllFed(edges, S)
  {
    if AllFed(edges, S) {
      var v :| v in S;
      var p := BackwardPath(edges, S, v, |S| + 1);
      AcyclicPathsAreDistinct(edges, p);
      DistinctFits(p, S);
    }
  }
}
