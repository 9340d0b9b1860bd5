/** Dependency graphs: a name maps to the names it depends on. Names that are
    not keys of the graph are ignored, as both algorithms do. */
module Graph {

  type Graph = map<string, seq<string>>

  ghost predicate Edge(g: Graph, a: string, b: string) {
    a in g && b in g && b in g[a]
  }

  /** A non-empty sequence of loaded names, each depending on the next. */
  ghost predicate Walk(g: Graph, p: seq<string>) {
    && p != []
    && (forall i :: 0 <= i < |p| ==> p[i] in g)
    && forall i :: 0 <= i < |p| - 1 ==> Edge(g, p[i], p[i + 1])
  }

  ghost predicate ClosedPath(g: Graph, c: seq<string>) {
    Walk(g, c) && |c| >= 2 && c[0] == c[|c| - 1]
  }

  ghost predicate Cyclic(g: Graph) {
    exists c :: ClosedPath(g, c)
  }

  ghost predicate LeadsTo(g: Graph, n: string, p: seq<string>, c: seq<string>) {
    Walk(g, p) && p[0] == n && ClosedPath(g, c) && p[|p| - 1] == c[0]
  }

  /** A cycle can be reached from `n` by following dependencies. */
  ghost predicate ReachesCycle(g: Graph, n: string) {
    exists p, c :: LeadsTo(g, n, p, c)
  }

  lemma {:induction false} CyclicIffReached(g: Graph)
    ensures Cyclic(g) <==> exists n :: ReachesCycle(g, n)
  {
    if Cyclic(g) {
      var c :| ClosedPath(g, c);
      assert LeadsTo(g, c[0], [c[0]], c);
      assert ReachesCycle(g, c[0]);
    }
    if n :| ReachesCycle(g, n) {
      var p, c :| LeadsTo(g, n, p, c);
    }
  }

  /** A name reaches a cycle exactly when one of its dependencies does. */
  lemma {:induction false} ReachesCycleStep(g: Graph, n: string)
    ensures ReachesCycle(g, n) <==> exists m :: Edge(g, n, m) && ReachesCycle(g, m)
  {
    if ReachesCycle(g, n) {
      var p, c :| LeadsTo(g, n, p, c);
      if |p| >= 2 {
        assert Edge(g, p[0], p[1]) && LeadsTo(g, p[1], p[1..], c);
      } else {
        assert Edge(g, c[0], c[1]);
        assert LeadsTo(g, c[1], [c[1]], c[1..] + [c[1]]);
      }
    }
    if m :| Edge(g, n, m) && ReachesCycle(g, m) {
      var p, c :| LeadsTo(g, m, p, c);
      assert LeadsTo(g, n, [n] + p, c);
    }
  }

  lemma {:induction false} Pigeonhole(p: seq<string>, s: set<string>) returns (i: nat, j: nat)
    requires |p| > |s|
    requires forall k :: 0 <= k < |p| ==> p[k] in s
    ensures i < j < |p| && p[i] == p[j]
  {
    var last := |p| - 1;
    if k :| 0 <= k < last && p[k] == p[last] {
      i, j := k, last;
    } else {
      i, j := Pigeonhole(p[..last], s - {p[last]});
    }
  }

  ghost predicate DependsInto(g: Graph, stuck: set<string>, a: string) {
    exists b :: b in stuck && Edge(g, a, b)
  }

  /** Every name of the set depends on a name of the set. */
  ghost predicate Trapped(g: Graph, stuck: set<string>) {
    stuck <= g.Keys && forall a {:trigger DependsInto(g, stuck, a)} :: a in stuck ==> DependsInto(g, stuck, a)
  }

  lemma {:induction false} WalkInside(g: Graph, stuck: set<string>, n: string, length: nat) returns (p: seq<string>)
    requires Trapped(g, stuck) && n in stuck
    ensures Walk(g, p) && |p| == length + 1 && p[0] == n
    ensures forall k :: 0 <= k < |p| ==> p[k] in stuck
    decreases length
  {
    if length == 0 {
      p := [n];
    } else {
      assert DependsInto(g, stuck, n);
      var b :| b in stuck && Edge(g, n, b);
      var q := WalkInside(g, stuck, b, length - 1);
      p := [n] + q;
    }
  }

  lemma {:induction false} StuckReachesCycle(g: Graph, stuck: set<string>, n: string)
    requires Trapped(g, stuck) && n in stuck
    ensures ReachesCycle(g, n)
  {
    var p := WalkInside(g, stuck, n, |stuck|);
    var i, j := Pigeonhole(p, stuck);
    assert p[0..i + 1] == p[..i + 1];
    assert LeadsTo(g, n, p[..i + 1], p[i..j + 1]);
  }
}
