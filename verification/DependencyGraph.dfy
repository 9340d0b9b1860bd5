/** `topological_sort` of engine/src/inandout/config/dependency_graph.py: Kahn's algorithm
    with an alphabetically sorted ready queue. */
module DependencyGraph {
  import opened Ordering
  import opened Graph
  import opened CycleCheck

  datatype Config = Config(name: string, dependsOn: seq<string>)

  /** The returned list, or the ValueError with the names it reports. */
  datatype SortResult = Ordered(configs: seq<Config>) | Circular(stuck: seq<string>)

  /** The dict `name -> config`: a later config of the same name replaces an earlier one. */
  function ByName(configs: seq<Config>): map<string, Config> {
    if configs == [] then map[]
    else
      var last := configs[|configs| - 1];
      ByName(configs[..|configs| - 1])[last.name := last]
  }

  function GraphOf(configs: seq<Config>): Graph {
    var cfgs := ByName(configs);
    map n | n in cfgs :: cfgs[n].dependsOn
  }

  // ---------------------------------------------------------------- orders

  /** `n` is not yet placed and all its loaded dependencies are. */
  ghost predicate Ready(g: Graph, placed: seq<string>, n: string) {
    n in g && n !in placed && forall d :: d in g[n] && d in g ==> d in placed
  }

  /** Every name exactly once, each after all of its loaded dependencies. */
  ghost predicate TopologicalOrder(g: Graph, s: seq<string>) {
    && (forall n :: n in s <==> n in g)
    && forall i {:trigger s[..i]} :: 0 <= i < |s| ==> Ready(g, s[..i], s[i])
  }

  /** Lexicographic order on sequences of names. */
  ghost predicate SeqLeq(s: seq<string>, t: seq<string>) {
    s == t || exists k :: 0 <= k < |s| && k < |t| && s[..k] == t[..k] && StrLess(s[k], t[k])
  }

  ghost predicate LeastTopologicalOrder(g: Graph, s: seq<string>) {
    TopologicalOrder(g, s) && forall t :: TopologicalOrder(g, t) ==> SeqLeq(s, t)
  }

  ghost predicate FirstReady(g: Graph, placed: seq<string>, n: string) {
    Ready(g, placed, n) && forall m :: Ready(g, placed, m) ==> StrLeq(n, m)
  }

  /** Each placed name was the alphabetically first ready one. */
  ghost predicate Greedy(g: Graph, s: seq<string>) {
    forall i {:trigger s[..i]} :: 0 <= i < |s| ==> FirstReady(g, s[..i], s[i])
  }

  lemma {:induction false} FirstDifference(s: seq<string>, t: seq<string>) returns (k: nat)
    ensures k <= |s| && k <= |t| && s[..k] == t[..k]
    ensures k < |s| && k < |t| ==> s[k] != t[k]
    ensures k == |s| || k == |t| || s[k] != t[k]
  {
    k := 0;
    while k < |s| && k < |t| && s[k] == t[k]
      invariant k <= |s| && k <= |t| && s[..k] == t[..k]
    {
      k := k + 1;
    }
  }

  lemma {:induction false} GreedyIsLeast(g: Graph, s: seq<string>)
    requires Greedy(g, s) && forall n :: n in s <==> n in g
    ensures LeastTopologicalOrder(g, s)
  {
    forall t | TopologicalOrder(g, t) ensures SeqLeq(s, t) {
      GreedyBeats(g, s, t);
    }
  }

  /** At the first difference both choices were ready, and the greedy one is the smaller. */
  lemma {:induction false} GreedyBeats(g: Graph, s: seq<string>, t: seq<string>)
    requires Greedy(g, s) && TopologicalOrder(g, t) && forall n :: n in s <==> n in g
    ensures SeqLeq(s, t)
  {
    OrderedSize(g, s);
    OrderedSize(g, t);
    assert Elements(s) == Elements(t);
    var k := FirstDifference(s, t);
    if k < |s| {
      assert FirstReady(g, s[..k], s[k]) && Ready(g, t[..k], t[k]);
    } else {
      assert s[..k] == s && t[..k] == t;
    }
  }

  ghost function Elements(s: seq<string>): set<string> {
    set n | n in s
  }

  lemma {:induction false} DistinctSize(s: seq<string>)
    requires forall i, j :: 0 <= i < j < |s| ==> s[i] != s[j]
    ensures |Elements(s)| == |s|
  {
    if s != [] {
      var k := |s| - 1;
      DistinctSize(s[..k]);
      assert s == s[..k] + [s[k]];
      assert Elements(s) == Elements(s[..k]) + {s[k]};
    }
  }

  lemma {:induction false} OrderedSize(g: Graph, s: seq<string>)
    requires forall i {:trigger s[..i]} :: 0 <= i < |s| ==> Ready(g, s[..i], s[i])
    ensures |Elements(s)| == |s|
  {
    forall i, j | 0 <= i < j < |s| ensures s[i] != s[j] {
      assert Ready(g, s[..j], s[j]);
      assert s[..j][i] == s[i];
    }
    DistinctSize(s);
  }

  lemma {:induction false} SubsetOfEqualSize(a: set<string>, b: set<string>)
    requires a <= b && |a| == |b|
    ensures a == b
  {
    assert |b - a| == |b| - |a|;
  }

  // ---------------------------------------------------------------- in-degrees

  /** How many entries of a dependency list name something in `live`, repetitions included. */
  function Pending(deps: seq<string>, live: set<string>): nat {
    if deps == [] then 0
    else Pending(deps[..|deps| - 1], live) + if deps[|deps| - 1] in live then 1 else 0
  }

  lemma {:induction false} PendingZero(deps: seq<string>, live: set<string>)
    ensures Pending(deps, live) == 0 <==> forall d :: d in deps ==> d !in live
  {
    if deps != [] {
      var n := |deps| - 1;
      PendingZero(deps[..n], live);
      assert deps == deps[..n] + [deps[n]];
    }
  }

  lemma {:induction false} PendingRemove(deps: seq<string>, live: set<string>, d: string)
    requires d in live
    ensures Pending(deps, live - {d}) == Pending(deps, live) - multiset(deps)[d]
  {
    if deps != [] {
      var n := |deps| - 1;
      PendingRemove(deps[..n], live, d);
      assert deps == deps[..n] + [deps[n]];
    }
  }

  /** `list` holds each counted name as often as that name lists `d`, and nothing else. */
  ghost predicate Column(g: Graph, counted: set<string>, d: string, list: seq<string>) {
    forall n {:trigger multiset(list)[n]} :: multiset(list)[n] == if n in counted && n in g then multiset(g[n])[d] else 0
  }

  /** `dependents` is the transposed graph: the same edges with the same multiplicities. */
  ghost predicate Transposed(g: Graph, counted: set<string>, dependents: map<string, seq<string>>) {
    dependents.Keys == g.Keys && forall d :: d in g ==> Column(g, counted, d, dependents[d])
  }

  /** The in-degrees of the connectors counted so far. */
  ghost predicate InDegrees(g: Graph, counted: set<string>, inDegree: map<string, nat>) {
    inDegree.Keys == g.Keys && forall n :: n in g ==> inDegree[n] == if n in counted then Pending(g[n], g.Keys) else 0
  }

  method CountEdges(g: Graph) returns (inDegree: map<string, nat>, dependents: map<string, seq<string>>)
    ensures InDegrees(g, g.Keys, inDegree) && Transposed(g, g.Keys, dependents)
  {
    inDegree := map n | n in g :: 0;
    dependents := map n | n in g :: [];
    ghost var counted: set<string> := {};
    var todo := g.Keys;
    while todo != {}
      invariant todo <= g.Keys && counted == g.Keys - todo
      invariant InDegrees(g, counted, inDegree) && Transposed(g, counted, dependents)
      decreases todo
    {
      var name :| name in todo;
      inDegree, dependents := CountEdgesOf(g, name, counted, inDegree, dependents);
      todo, counted := todo - {name}, counted + {name};
    }
    assert counted == g.Keys;
  }

  /** One pass of the outer loop: the dependency list of `name`. */
  method CountEdgesOf(g: Graph, name: string, ghost counted: set<string>,
                      inDegree0: map<string, nat>, dependents0: map<string, seq<string>>)
    returns (inDegree: map<string, nat>, dependents: map<string, seq<string>>)
    requires name in g && name !in counted
    requires inDegree0.Keys == g.Keys && inDegree0[name] == 0 && Transposed(g, counted, dependents0)
    ensures inDegree == inDegree0[name := Pending(g[name], g.Keys)]
    ensures Transposed(g, counted + {name}, dependents)
  {
    inDegree, dependents := inDegree0, dependents0;
    var deps, i := g[name], 0;
    while i < |deps|
      invariant 0 <= i <= |deps|
      invariant inDegree == inDegree0[name := Pending(deps[..i], g.Keys)]
      invariant Transposed(g[name := deps[..i]], counted + {name}, dependents)
    {
      AppendDependent(g, name, i, counted, dependents);
      assert deps[..i + 1][..i] == deps[..i];
      if deps[i] in inDegree {
        inDegree := inDegree[name := inDegree[name] + 1];
        dependents := dependents[deps[i] := dependents[deps[i]] + [name]];
      }
      i := i + 1;
    }
    assert deps[..i] == deps;
    assert g[name := deps[..i]] == g;
  }

  lemma {:induction false} AppendDependent(g: Graph, name: string, i: nat, counted: set<string>, dependents: map<string, seq<string>>)
    requires name in g && i < |g[name]|
    requires Transposed(g[name := g[name][..i]], counted + {name}, dependents)
    ensures var dep := g[name][i];
      Transposed(g[name := g[name][..i + 1]], counted + {name},
                 if dep in g then dependents[dep := dependents[dep] + [name]] else dependents)
  {
    var dep := g[name][i];
    forall d | d in g
      ensures Column(g[name := g[name][..i + 1]], counted + {name}, d, if d == dep then dependents[d] + [name] else dependents[d])
    {
      AppendColumn(g, name, i, counted, d, dependents[d]);
    }
  }

  lemma {:induction false} AppendColumn(g: Graph, name: string, i: nat, counted: set<string>, d: string, list: seq<string>)
    requires name in g && i < |g[name]| && Column(g[name := g[name][..i]], counted + {name}, d, list)
    ensures Column(g[name := g[name][..i + 1]], counted + {name}, d, if d == g[name][i] then list + [name] else list)
  {
    assert g[name][..i + 1] == g[name][..i] + [g[name][i]];
  }

  /** `sorted` applied to the names of a dict that pass a test. */
  method SortedNames(names: set<string>) returns (s: seq<string>)
    ensures IsSorted(s)
    ensures forall n :: n in s <==> n in names
    ensures forall n :: multiset(s)[n] <= 1
  {
    s := [];
    var todo := names;
    while todo != {}
      invariant todo <= names && forall n :: n in s <==> n in names - todo
      invariant forall n :: multiset(s)[n] <= 1
      decreases todo
    {
      var n :| n in todo;
      assert n !in s;
      assert multiset(s)[n] == 0;
      s := s + [n];
      todo := todo - {n};
    }
    SortSorted(s);
    forall n ensures n in Sort(s) <==> n in s {
      assert n in multiset(Sort(s)) <==> n in multiset(s);
    }
    s := Sort(s);
  }

  // ---------------------------------------------------------------- the main loop

  /** The queue lists, once each, the unplaced names with nothing pending. */
  ghost predicate QueueFor(unplaced: set<string>, inDegree: map<string, nat>, queue: seq<string>) {
    && unplaced <= inDegree.Keys
    && (forall n :: n in queue <==> n in unplaced && inDegree[n] == 0)
    && (forall n :: multiset(queue)[n] <= 1)
  }

  /** What holds each time the ready queue is inspected. `live` are the names not yet placed. */
  ghost predicate KahnState(g: Graph, live: set<string>, inDegree: map<string, nat>, queue: seq<string>) {
    && live <= g.Keys == inDegree.Keys
    && (forall n :: n in g ==> inDegree[n] == Pending(g[n], live))
    && QueueFor(live, inDegree, queue)
  }

  /** The inner loop: every entry of `names` takes one pending dependency away;
      a name that has none left joins the queue. */
  method Decrement(names: seq<string>, ghost unplaced: set<string>, inDegree0: map<string, nat>, queue0: seq<string>)
    returns (inDegree: map<string, nat>, queue: seq<string>)
    requires QueueFor(unplaced, inDegree0, queue0)
    requires forall n :: n in multiset(names) ==> n in unplaced && multiset(names)[n] <= inDegree0[n]
    ensures inDegree.Keys == inDegree0.Keys
    ensures forall n :: n in inDegree ==> inDegree[n] + multiset(names)[n] == inDegree0[n]
    ensures QueueFor(unplaced, inDegree, queue)
  {
    inDegree, queue := inDegree0, queue0;
    var i := 0;
    while i < |names|
      invariant 0 <= i <= |names|
      invariant inDegree.Keys == inDegree0.Keys
      invariant forall n :: n in inDegree ==> inDegree[n] + multiset(names[..i])[n] == inDegree0[n]
      invariant QueueFor(unplaced, inDegree, queue)
    {
      var n := names[i];
      TakeOneMore(names, i);
      assert n in multiset(names);
      inDegree := inDegree[n := inDegree[n] - 1];
      if inDegree[n] == 0 {
        assert n !in queue;
        assert multiset(queue)[n] == 0;
        queue := queue + [n];
      }
      i := i + 1;
    }
    assert names[..i] == names;
  }

  /** One turn of the main loop after `node` has been placed. */
  method Release(ghost g: Graph, node: string, ghost live: set<string>, dependents: map<string, seq<string>>,
                 inDegree0: map<string, nat>, queue0: seq<string>)
    returns (inDegree: map<string, nat>, queue: seq<string>)
    requires Transposed(g, g.Keys, dependents)
    requires queue0 != [] && queue0[0] == node && KahnState(g, live, inDegree0, queue0)
    requires forall n :: n in g && n !in live ==> node !in g[n]
    ensures KahnState(g, live - {node}, inDegree, queue) && IsSorted(queue)
  {
    PopFront(queue0);
    var names := Sort(dependents[node]);
    assert Column(g, g.Keys, node, dependents[node]);
    DependentsPending(g, node, live, names, inDegree0);
    var queue1;
    inDegree, queue1 := Decrement(names, live - {node}, inDegree0, queue0[1..]);
    forall n | n in g ensures inDegree[n] == Pending(g[n], live - {node}) {
      PendingRemove(g[n], live, node);
      assert multiset(names)[n] == multiset(dependents[node])[n];
    }
    queue := Sort(queue1);
    SortSorted(queue1);
    SameElements(queue1, queue);
  }

  lemma {:induction false} PopFront(queue: seq<string>)
    requires queue != [] && forall n :: multiset(queue)[n] <= 1
    ensures forall n :: n in queue[1..] <==> n in queue && n != queue[0]
    ensures forall n :: multiset(queue[1..])[n] <= 1
  {
    assert queue == [queue[0]] + queue[1..];
    assert multiset(queue) == multiset{queue[0]} + multiset(queue[1..]);
    forall n
      ensures multiset(queue[1..])[n] <= 1
      ensures n in queue[1..] <==> n in queue && n != queue[0]
    {
      assert multiset(queue)[n] <= 1;
      assert n in queue[1..] <==> multiset(queue[1..])[n] > 0;
    }
  }

  lemma {:induction false} TakeOneMore(s: seq<string>, i: nat)
    requires i < |s|
    ensures multiset(s[..i + 1]) == multiset(s[..i]) + multiset{s[i]}
    ensures multiset(s[..i + 1])[s[i]] <= multiset(s)[s[i]]
  {
    assert s[..i + 1] == s[..i] + [s[i]] && s == s[..i + 1] + s[i + 1..];
  }

  lemma {:induction false} SameElements(s: seq<string>, t: seq<string>)
    requires multiset(s) == multiset(t)
    ensures forall n :: n in s <==> n in t
  {
    forall n ensures n in s <==> n in t {
      assert n in multiset(s) <==> n in multiset(t);
    }
  }

  /** Every listed dependent is unplaced, is not `node`, and has at least as many pending entries as listings. */
  lemma {:induction false} DependentsPending(g: Graph, node: string, live: set<string>, names: seq<string>, inDegree: map<string, nat>)
    requires Column(g, g.Keys, node, names)
    requires live <= g.Keys == inDegree.Keys && node in live && inDegree[node] == 0
    requires forall n :: n in g ==> inDegree[n] == Pending(g[n], live)
    requires forall n :: n in g && n !in live ==> node !in g[n]
    ensures forall n :: n in multiset(names) ==>
      n in live && n != node && multiset(names)[n] <= inDegree[n]
  {
    forall n | n in multiset(names)
      ensures n in live && n != node && multiset(names)[n] <= inDegree[n]
    {
      assert node in multiset(g[n]);
      PendingRemove(g[n], live, node);
    }
  }

  ghost predicate Names(configs: seq<Config>, s: seq<string>) {
    |configs| == |s| && forall i :: 0 <= i < |s| ==> configs[i].name == s[i]
  }

  /** What `topological_sort` promises of its outcome. */
  ghost predicate SortPost(configs: seq<Config>, r: SortResult) {
    var g := GraphOf(configs);
    match r
    case Ordered(out) =>
      && !Cyclic(g)
      && (exists s :: Names(out, s) && LeastTopologicalOrder(g, s))
      && forall i :: 0 <= i < |out| ==> out[i].name in ByName(configs) && out[i] == ByName(configs)[out[i].name]
    case Circular(stuck) =>
      && Cyclic(g)
      && IsSorted(stuck)
      && (forall n :: n in stuck <==> ReachesCycle(g, n))
      && forall n :: multiset(stuck)[n] <= 1
  }

  method TopologicalSort(configs: seq<Config>) returns (r: SortResult)
    ensures SortPost(configs, r)
  {
    var nameToCfg: map<string, Config> := map[];
    var i := 0;
    while i < |configs|
      invariant 0 <= i <= |configs| && nameToCfg == ByName(configs[..i])
    {
      assert configs[..i + 1][..i] == configs[..i];
      nameToCfg := nameToCfg[configs[i].name := configs[i]];
      i := i + 1;
    }
    assert configs[..i] == configs;
    ByNameNames(configs);
    var dependsOn: Graph := map n | n in nameToCfg :: nameToCfg[n].dependsOn;

    var inDegree, result := Kahn(dependsOn);
    assert dependsOn.Keys == nameToCfg.Keys;
    if |result| != |nameToCfg| {
      var stuck := SortedNames(set n | n in inDegree && inDegree[n] > 0);
      StuckSet(dependsOn, result, inDegree);
      return Circular(stuck);
    }
    AllPlaced(dependsOn, result, inDegree);
    var out := seq(|result|, k requires 0 <= k < |result| => nameToCfg[result[k]]);
    assert Names(out, result);
    return Ordered(out);
  }

  lemma {:induction false} ByNameNames(configs: seq<Config>)
    ensures forall n :: n in ByName(configs) ==> ByName(configs)[n].name == n
  {
    if configs != [] { ByNameNames(configs[..|configs| - 1]); }
  }

  ghost function Unplaced(g: Graph, result: seq<string>): set<string> {
    set n | n in g && n !in result
  }

  /** The state in which the main loop ends: nothing is ready any more. */
  ghost predicate KahnDone(g: Graph, result: seq<string>, inDegree: map<string, nat>) {
    && Greedy(g, result)
    && (forall n :: n in result ==> n in g && !ReachesCycle(g, n))
    && KahnState(g, Unplaced(g, result), inDegree, [])
  }

  method Kahn(g: Graph) returns (inDegree: map<string, nat>, result: seq<string>)
    ensures KahnDone(g, result, inDegree)
  {
    var dependents;
    inDegree, dependents := CountEdges(g);
    var queue := SortedNames(set n | n in inDegree && inDegree[n] == 0);
    result := [];
    assert Unplaced(g, result) == g.Keys;
    while queue != []
      invariant KahnState(g, Unplaced(g, result), inDegree, queue) && IsSorted(queue)
      invariant Transposed(g, g.Keys, dependents)
      invariant Greedy(g, result)
      invariant forall n :: n in result ==> n in g && !ReachesCycle(g, n)
      invariant forall n :: n in result ==> Placed(g, result, n)
      decreases Unplaced(g, result)
    {
      var node := queue[0];
      QueueIsReady(g, result, inDegree, queue);
      assert node in queue;
      forall n | n in g && n !in Unplaced(g, result) ensures node !in g[n] {
        assert Placed(g, result, n);
      }
      ghost var live := Unplaced(g, result);
      ghost var before := result;
      result := result + [node];
      assert Unplaced(g, result) == live - {node};
      assert result[..|before|] == before && forall i :: 0 <= i < |before| ==> result[..i] == before[..i];
      ReachesCycleStep(g, node);
      inDegree, queue := Release(g, node, live, dependents, inDegree, queue);
      forall n | n in result ensures Placed(g, result, n) {
        assert n in before ==> Placed(g, before, n);
      }
    }
  }

  ghost predicate Placed(g: Graph, result: seq<string>, n: string) {
    n in g && forall d :: d in g[n] && d in g ==> d in result
  }

  /** The queue holds exactly the ready names, the alphabetically first one in front. */
  lemma {:induction false} QueueIsReady(g: Graph, result: seq<string>, inDegree: map<string, nat>, queue: seq<string>)
    requires KahnState(g, Unplaced(g, result), inDegree, queue) && IsSorted(queue)
    ensures forall n :: n in queue <==> Ready(g, result, n)
    ensures queue != [] ==> forall n :: n in queue ==> StrLeq(queue[0], n)
  {
    forall n | n in g ensures n in queue <==> Ready(g, result, n) {
      PendingZero(g[n], Unplaced(g, result));
    }
  }

  /** Names left with a pending dependency are exactly those from which a cycle is reachable. */
  lemma {:induction false} StuckIffReachesCycle(g: Graph, result: seq<string>, inDegree: map<string, nat>)
    requires KahnDone(g, result, inDegree)
    ensures forall n :: n in g ==> (inDegree[n] > 0 <==> n !in result)
    ensures forall n :: n in Unplaced(g, result) <==> ReachesCycle(g, n)
  {
    var stuck := Unplaced(g, result);
    forall n | n in g ensures inDegree[n] > 0 <==> n !in result {
      PendingZero(g[n], stuck);
      if n in result { PlacedDone(g, result, n); }
    }
    forall n | n in stuck ensures DependsInto(g, stuck, n) {
      PendingZero(g[n], stuck);
      var d :| d in g[n] && d in stuck;
      assert Edge(g, n, d);
    }
    forall n ensures n in stuck <==> ReachesCycle(g, n) {
      if n in stuck { StuckReachesCycle(g, stuck, n); }
      if ReachesCycle(g, n) { ReachesCycleStep(g, n); }
    }
  }

  lemma {:induction false} PlacedDone(g: Graph, result: seq<string>, n: string)
    requires Greedy(g, result) && n in result
    ensures Placed(g, result, n)
  {
    var i :| 0 <= i < |result| && result[i] == n;
    assert Ready(g, result[..i], result[i]);
  }

  lemma {:induction false} StuckSet(g: Graph, result: seq<string>, inDegree: map<string, nat>)
    requires KahnDone(g, result, inDegree) && |result| != |g.Keys|
    ensures Cyclic(g)
    ensures (set n | n in inDegree && inDegree[n] > 0) == set n | n in g && ReachesCycle(g, n)
    ensures forall n :: ReachesCycle(g, n) ==> n in g
  {
    StuckIffReachesCycle(g, result, inDegree);
    OrderedSize(g, result);
    assert Elements(result) + Unplaced(g, result) == g.Keys;
    assert Elements(result) != g.Keys;
    var n :| n in Unplaced(g, result);
    assert ReachesCycle(g, n);
    CyclicIffReached(g);
  }

  lemma {:induction false} AllPlaced(g: Graph, result: seq<string>, inDegree: map<string, nat>)
    requires KahnDone(g, result, inDegree) && |result| == |g.Keys|
    ensures !Cyclic(g) && LeastTopologicalOrder(g, result)
  {
    StuckIffReachesCycle(g, result, inDegree);
    OrderedSize(g, result);
    assert Elements(result) <= g.Keys;
    SubsetOfEqualSize(Elements(result), g.Keys);
    assert Unplaced(g, result) == {};
    CyclicIffReached(g);
    GreedyIsLeast(g, result);
  }

  /** The start-up order is refused exactly when the depth-first check finds a cycle in the same graph. */
  method SortRaisesIffHasCycle(configs: seq<Config>) returns (r: SortResult, cyclic: bool)
    ensures SortPost(configs, r) && (r.Circular? <==> cyclic)
  {
    r := TopologicalSort(configs);
    cyclic := HasCycle(GraphOf(configs));
  }
}
