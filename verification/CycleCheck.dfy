/** `_has_cycle`: the grey/black depth-first cycle check of engine/src/inandout/config/connector.py. */
module CycleCheck {
  import opened Graph

  ghost predicate CycleFree(g: Graph, names: set<string>) {
    forall n :: n in names ==> !ReachesCycle(g, n)
  }

  /** The grey names are those of one dependency walk, ending just before `node`. */
  ghost predicate GreyPath(g: Graph, visiting: set<string>, path: seq<string>, node: string) {
    && node in g
    && visiting <= g.Keys
    && (forall n :: n in visiting <==> n in path)
    && (path != [] ==> Walk(g, path) && Edge(g, path[|path| - 1], node))
  }

  lemma {:induction false} GreyHitIsCycle(g: Graph, visiting: set<string>, path: seq<string>, node: string)
    requires GreyPath(g, visiting, path, node) && node in visiting
    ensures Cyclic(g)
  {
    var i :| 0 <= i < |path| && path[i] == node;
    assert ClosedPath(g, path[i..] + [node]);
  }

  /** The two sets shared by the recursive calls of `dfs`. */
  class Dfs {
    const graph: Graph
    var visiting: set<string>
    var visited: set<string>

    constructor (g: Graph)
      ensures graph == g && visiting == {} && visited == {}
    {
      graph, visiting, visited := g, {}, {};
    }

    method Visit(node: string, ghost path: seq<string>) returns (found: bool)
      requires GreyPath(graph, visiting, path, node) && CycleFree(graph, visited)
      modifies this
      ensures found ==> Cyclic(graph)
      ensures !found ==> visiting == old(visiting) && visited >= old(visited) + {node} && CycleFree(graph, visited)
      decreases graph.Keys - visiting
    {
      if node in visiting {
        GreyHitIsCycle(graph, visiting, path, node);
        return true;
      }
      if node in visited {
        return false;
      }
      visiting := visiting + {node};
      var deps, i := graph[node], 0;
      while i < |deps|
        invariant 0 <= i <= |deps|
        invariant visiting == old(visiting) + {node} && visited >= old(visited)
        invariant CycleFree(graph, visited)
        invariant forall k :: 0 <= k < i && deps[k] in graph ==> deps[k] in visited
      {
        if deps[i] in graph {
          assert Edge(graph, node, deps[i]);
          var hit := Visit(deps[i], path + [node]);
          if hit { return true; }
        }
        i := i + 1;
      }
      ReachesCycleStep(graph, node);
      visiting := visiting - {node};
      visited := visited + {node};
      return false;
    }
  }

  /** Starts one search per name, in any order, and stops at the first cycle. */
  method HasCycle(graph: Graph) returns (found: bool)
    ensures found <==> Cyclic(graph)
  {
    var dfs := new Dfs(graph);
    var todo := graph.Keys;
    while todo != {}
      invariant dfs.graph == graph && dfs.visiting == {} && CycleFree(graph, dfs.visited)
      invariant todo <= graph.Keys && graph.Keys - todo <= dfs.visited
      decreases todo
    {
      var node :| node in todo;
      found := dfs.Visit(node, []);
      if found { return; }
      todo := todo - {node};
    }
    CyclicIffReached(graph);
    if n :| ReachesCycle(graph, n) { ReachesCycleStep(graph, n); }
    return false;
  }
}
