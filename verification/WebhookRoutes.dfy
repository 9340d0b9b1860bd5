/** Sequenced events that arrive for one source row by any number of routes, each of which is filtered on its own. */
module WebhookRoutes {
  import opened Wrappers
  import opened SourceTable
  import opened Webhooks
  import opened WebhookOrdering
  import opened Ordering

  datatype Arrival = Arrival(route: string, stamp: Stamp, payload: Record, fails: bool)

  /** The routes' stored sequence values for the row, and the row. */
  datatype Slot = Slot(last: map<string, Stamp>, row: Option<Row>)

  predicate Through(s: Slot, a: Arrival) {
    a.route in s.last ==> !Stale(a.stamp, s.last[a.route])
  }

  /** What an upsert makes of the row. */
  function Stored(r: Option<Row>, p: Record): Row {
    Row(if r.Some? && r.value.hash == RawHash(p) then r.value.data else p, RawHash(p), false)
  }

  function Take(s: Slot, a: Arrival): Slot {
    if !Through(s, a) then s
    else Slot(s.last[a.route := a.stamp], if a.fails then s.row else Some(Stored(s.row, a.payload)))
  }

  function TakeAll(r: Option<Row>, xs: seq<Arrival>): Slot {
    if xs == [] then Slot(map[], r) else Take(TakeAll(r, xs[..|xs| - 1]), xs[|xs| - 1])
  }

  predicate LetIn(r: Option<Row>, xs: seq<Arrival>, i: nat)
    requires i < |xs|
  {
    Through(TakeAll(r, xs[..i]), xs[i])
  }

  predicate Writes(r: Option<Row>, xs: seq<Arrival>, i: nat)
    requires i < |xs|
  {
    LetIn(r, xs, i) && !xs[i].fails
  }

  lemma {:induction false} TakeNext(r: Option<Row>, xs: seq<Arrival>, i: nat)
    requires i < |xs|
    ensures TakeAll(r, xs[..i + 1]) == Take(TakeAll(r, xs[..i]), xs[i])
  {
    assert xs[..i + 1][..i] == xs[..i];
  }

  // ---------------------------------------------------------------- the row is the last written arrival's

  /** Of the first `n` arrivals `i` was the last to write. */
  ghost predicate LastWrite(r: Option<Row>, xs: seq<Arrival>, n: nat, i: int)
    requires n <= |xs|
  {
    0 <= i < n && Writes(r, xs, i) && forall j :: i < j < n ==> !Writes(r, xs, j)
  }

  ghost predicate NoneWrites(r: Option<Row>, xs: seq<Arrival>, n: nat)
    requires n <= |xs|
  {
    forall i :: 0 <= i < n ==> !Writes(r, xs, i)
  }

  lemma {:induction false} SomeWroteLast(r: Option<Row>, xs: seq<Arrival>, n: nat)
    requires n <= |xs| && !NoneWrites(r, xs, n)
    ensures exists i :: LastWrite(r, xs, n, i)
  {
    var m := n - 1;
    if Writes(r, xs, m) {
      assert LastWrite(r, xs, n, m);
    } else {
      SomeWroteLast(r, xs, m);
      var i :| LastWrite(r, xs, m, i);
      assert LastWrite(r, xs, n, i);
    }
  }

  /** The row was there before with data that does not belong to its hash, and only payloads with that hash have been
      written since. */
  ghost predicate KeptHollow(r: Option<Row>, xs: seq<Arrival>, n: nat)
    requires n <= |xs|
  {
    && r.Some? && r.value.hash != RawHash(r.value.data)
    && forall i :: 0 <= i < n && Writes(r, xs, i) ==> RawHash(xs[i].payload) == r.value.hash
  }

  /** A live row with the hash of `p`, and with the data of `p` unless the row was kept hollow. */
  ghost predicate RowFrom(r: Option<Row>, xs: seq<Arrival>, n: nat, p: Record)
    requires n <= |xs|
  {
    TakeAll(r, xs[..n]).row == Some(Row(if KeptHollow(r, xs, n) then r.value.data else p, RawHash(p), false))
  }

  lemma {:induction false} NoWriteNoChange(r: Option<Row>, xs: seq<Arrival>, n: nat)
    requires n <= |xs| && NoneWrites(r, xs, n)
    ensures TakeAll(r, xs[..n]).row == r
  {
    assert xs[..0] == [];
    if n > 0 {
      NoWriteNoChange(r, xs, n - 1);
      TakeNext(r, xs, n - 1);
      assert !Writes(r, xs, n - 1);
    }
  }

  lemma {:induction false} LastWriteMakesRow(r: Option<Row>, xs: seq<Arrival>, n: nat, i: nat)
    requires n <= |xs| && LastWrite(r, xs, n, i)
    ensures RowFrom(r, xs, n, xs[i].payload)
  {
    var m := n - 1;
    if i < m {
      assert LastWrite(r, xs, m, i) && !Writes(r, xs, m);
      LastWriteMakesRow(r, xs, m, i);
      UnwrittenRow(r, xs, m);
    } else if NoneWrites(r, xs, m) {
      NoWriteNoChange(r, xs, m);
      FirstWrittenRow(r, xs, m);
    } else {
      SomeWroteLast(r, xs, m);
      var k :| LastWrite(r, xs, m, k);
      LastWriteMakesRow(r, xs, m, k);
      WrittenRow(r, xs, m, k);
    }
  }

  lemma {:induction false} UnwrittenRow(r: Option<Row>, xs: seq<Arrival>, m: nat)
    requires m < |xs| && !Writes(r, xs, m)
    ensures forall p :: RowFrom(r, xs, m + 1, p) <==> RowFrom(r, xs, m, p)
  {
    TakeNext(r, xs, m);
    assert KeptHollow(r, xs, m + 1) <==> KeptHollow(r, xs, m);
  }

  lemma {:induction false} FirstWrittenRow(r: Option<Row>, xs: seq<Arrival>, m: nat)
    requires m < |xs| && Writes(r, xs, m) && NoneWrites(r, xs, m) && TakeAll(r, xs[..m]).row == r
    ensures RowFrom(r, xs, m + 1, xs[m].payload)
  {
    TakeNext(r, xs, m);
  }

  lemma {:induction false} WrittenRow(r: Option<Row>, xs: seq<Arrival>, m: nat, k: nat)
    requires m < |xs| && Writes(r, xs, m) && LastWrite(r, xs, m, k) && RowFrom(r, xs, m, xs[k].payload)
    ensures RowFrom(r, xs, m + 1, xs[m].payload)
  {
    TakeNext(r, xs, m);
  }

  /** Over any run by any number of routes: the row is that of the last arrival written, and it holds that payload if
      and only if it was not kept hollow. */
  lemma {:induction false} RowIsLastWritten(r: Option<Row>, xs: seq<Arrival>, i: nat)
    requires LastWrite(r, xs, |xs|, i)
    ensures var row := TakeAll(r, xs).row;
      && row.Some? && !row.value.deleted && row.value.hash == RawHash(xs[i].payload)
      && (row.value.data == xs[i].payload <==> !KeptHollow(r, xs, |xs|))
  {
    LastWriteMakesRow(r, xs, |xs|, i);
    assert xs[..|xs|] == xs;
  }

  // ---------------------------------------------------------------- winners

  /** `w` is newer than every other arrival on its route. */
  ghost predicate Winner(xs: seq<Arrival>, w: int) {
    0 <= w < |xs| && forall i :: 0 <= i < |xs| && i != w && xs[i].route == xs[w].route ==>
      Beats(xs[w].stamp, xs[i].stamp) && !Beats(xs[i].stamp, xs[w].stamp)
  }

  /** A stored sequence value is that of an earlier arrival on its route. */
  lemma {:induction false} StoredComesFrom(r: Option<Row>, xs: seq<Arrival>, n: nat, route: string)
    requires n <= |xs| && route in TakeAll(r, xs[..n]).last
    ensures exists j :: 0 <= j < n && xs[j].route == route && xs[j].stamp == TakeAll(r, xs[..n]).last[route]
  {
    assert xs[..0] == [];
    if n > 0 {
      var m := n - 1;
      TakeNext(r, xs, m);
      if !(Through(TakeAll(r, xs[..m]), xs[m]) && xs[m].route == route) {
        StoredComesFrom(r, xs, m, route);
      }
    }
  }

  lemma {:induction false} WinnerLetIn(r: Option<Row>, xs: seq<Arrival>, w: nat)
    requires Winner(xs, w)
    ensures LetIn(r, xs, w)
  {
    if xs[w].route in TakeAll(r, xs[..w]).last { StoredComesFrom(r, xs, w, xs[w].route); }
  }

  /** From its arrival on a winner's sequence value stays stored, and nothing more of its route is let in. */
  lemma {:induction false} WinnerStays(r: Option<Row>, xs: seq<Arrival>, w: nat, n: nat)
    requires Winner(xs, w) && w < n <= |xs|
    ensures var s := TakeAll(r, xs[..n]); xs[w].route in s.last && s.last[xs[w].route] == xs[w].stamp
    ensures forall j :: w < j < n && xs[j].route == xs[w].route ==> !LetIn(r, xs, j)
  {
    var m := n - 1;
    TakeNext(r, xs, m);
    if m == w {
      WinnerLetIn(r, xs, w);
    } else {
      WinnerStays(r, xs, w, m);
    }
  }

  /** Whatever the arrival order, a route that has a winner ends with its sequence value; and the row is the winner's
      if and only if its write succeeded and no other route wrote after it. */
  lemma {:induction false} LastWriterWins(r: Option<Row>, xs: seq<Arrival>, w: nat)
    requires Winner(xs, w)
    ensures var s := TakeAll(r, xs); xs[w].route in s.last && s.last[xs[w].route] == xs[w].stamp
    ensures LastWrite(r, xs, |xs|, w) <==>
      !xs[w].fails && forall j :: w < j < |xs| && xs[j].route != xs[w].route ==> !Writes(r, xs, j)
  {
    WinnerStays(r, xs, w, |xs|);
    WinnerLetIn(r, xs, w);
    assert xs[..|xs|] == xs;
  }

  // ---------------------------------------------------------------- one route

  ghost predicate OneRoute(xs: seq<Arrival>) {
    forall i, j :: 0 <= i < |xs| && 0 <= j < |xs| ==> xs[i].route == xs[j].route
  }

  function Stamps(xs: seq<Arrival>): (stamps: seq<Stamp>)
    ensures |stamps| == |xs|
  {
    seq(|xs|, i requires 0 <= i < |xs| => xs[i].stamp)
  }

  /** On a single route the stored sequence value is the register's. */
  lemma {:induction false} RouteIsRegister(r: Option<Row>, xs: seq<Arrival>)
    requires xs != [] && OneRoute(xs)
    ensures var s := TakeAll(r, xs); xs[0].route in s.last && Some(s.last[xs[0].route]) == Register(Stamps(xs))
  {
    var m := |xs| - 1;
    var stamps := Stamps(xs);
    assert stamps[..m] == Stamps(xs[..m]);
    if m == 0 {
      assert xs[..0] == [] && stamps[..0] == [];
    } else {
      RouteIsRegister(r, xs[..m]);
    }
  }

  /** On a single route with comparable values every arrival order ends with the newest arrival: with its sequence
      value, and with its row if its write succeeded. */
  lemma {:induction false} ComparableRunsConverge(r: Option<Row>, xs: seq<Arrival>) returns (w: nat)
    requires xs != [] && OneRoute(xs) && Comparable(Stamps(xs))
    ensures Newest(Stamps(xs), w) && Winner(xs, w)
    ensures var s := TakeAll(r, xs); xs[w].route in s.last && s.last[xs[w].route] == xs[w].stamp
    ensures !xs[w].fails ==> LastWrite(r, xs, |xs|, w)
  {
    var stamps := Stamps(xs);
    w := ComparableHasNewest(stamps);
    forall i | 0 <= i < |xs| && i != w ensures Beats(xs[w].stamp, xs[i].stamp) && !Beats(xs[i].stamp, xs[w].stamp) {
      assert Beats(stamps[w], stamps[i]) && !Beats(stamps[i], stamps[w]);
    }
    LastWriterWins(r, xs, w);
  }

  // ---------------------------------------------------------------- several routes

  /** Every index exactly once. */
  ghost predicate Order(p: seq<nat>, n: nat) {
    && |p| == n && (forall i :: 0 <= i < n ==> p[i] < n)
    && (forall i, j :: 0 <= i < j < n ==> p[i] != p[j])
    && forall k :: 0 <= k < n ==> k in p
  }

  /** The arrivals in another order. */
  function Arranged<T>(xs: seq<T>, p: seq<nat>): (ys: seq<T>)
    requires forall i :: 0 <= i < |p| ==> p[i] < |xs|
    ensures |ys| == |p| && forall i :: 0 <= i < |p| ==> ys[i] == xs[p[i]]
  {
    seq(|p|, i requires 0 <= i < |p| => xs[p[i]])
  }

  /** The hash the row ends with after the arrivals in this order. */
  function FinalHash(r: Option<Row>, xs: seq<Arrival>, p: seq<nat>): Option<Digest>
    requires forall i :: 0 <= i < |p| ==> p[i] < |xs|
  {
    HashOf(TakeAll(r, Arranged(xs, p)).row)
  }

  function HashOf(r: Option<Row>): Option<Digest> {
    if r.Some? then Some(r.value.hash) else None
  }

  /** No arrival on its route is newer. */
  ghost predicate Unbeaten(xs: seq<Arrival>, w: int) {
    0 <= w < |xs| && forall j :: 0 <= j < |xs| && xs[j].route == xs[w].route ==> !Beats(xs[j].stamp, xs[w].stamp)
  }

  ghost predicate HasUnbeaten(xs: seq<Arrival>, route: string) {
    exists w :: Unbeaten(xs, w) && xs[w].route == route
  }

  /** Every route has unbeaten arrivals, and these beat all others on the route. Arrivals may be repeated or tied. */
  ghost predicate Ranked(xs: seq<Arrival>) {
    && (forall i :: 0 <= i < |xs| ==> HasUnbeaten(xs, xs[i].route))
    && forall w, j :: Unbeaten(xs, w) && 0 <= j < |xs| && xs[j].route == xs[w].route && !Unbeaten(xs, j) ==>
         Beats(xs[w].stamp, xs[j].stamp)
  }

  ghost predicate FailingTop(xs: seq<Arrival>, f: int, route: string) {
    Unbeaten(xs, f) && xs[f].fails && xs[f].route == route
  }

  ghost predicate MayFail(xs: seq<Arrival>, route: string) {
    exists f :: FailingTop(xs, f, route)
  }

  /** Its write succeeds; and it is unbeaten, or an unbeaten one of its route has a write that fails. */
  ghost predicate Candidate(xs: seq<Arrival>, i: int) {
    0 <= i < |xs| && !xs[i].fails && (Unbeaten(xs, i) || MayFail(xs, xs[i].route))
  }

  ghost predicate AllMayFail(xs: seq<Arrival>) {
    forall i :: 0 <= i < |xs| ==> MayFail(xs, xs[i].route)
  }

  // ---------------------------------------------------------------- the unbeaten arrivals of a route

  /** After `n` arrivals the route's stored value is that of the unbeaten arrival `v`. */
  ghost predicate TopHeld(r: Option<Row>, xs: seq<Arrival>, route: string, n: nat, v: int)
    requires n <= |xs|
  {
    && 0 <= v < n && Unbeaten(xs, v) && xs[v].route == route
    && route in TakeAll(r, xs[..n]).last && TakeAll(r, xs[..n]).last[route] == xs[v].stamp
  }

  lemma {:induction false} TopArrives(r: Option<Row>, xs: seq<Arrival>, w: nat) returns (v: int)
    requires Ranked(xs) && Unbeaten(xs, w)
    ensures TopHeld(r, xs, xs[w].route, w + 1, v)
  {
    TakeNext(r, xs, w);
    v := w;
    if !LetIn(r, xs, w) {
      StoredComesFrom(r, xs, w, xs[w].route);
      v :| 0 <= v < w && xs[v].route == xs[w].route && xs[v].stamp == TakeAll(r, xs[..w]).last[xs[w].route];
    }
  }

  lemma {:induction false} TopRemains(r: Option<Row>, xs: seq<Arrival>, route: string, m: nat, v: int)
    requires m < |xs| && TopHeld(r, xs, route, m, v)
    ensures TopHeld(r, xs, route, m + 1, v)
  {
    TakeNext(r, xs, m);
  }

  /** When an unbeaten arrival has come, the stored value is that of an unbeaten one. */
  lemma {:induction false} TopStored(r: Option<Row>, xs: seq<Arrival>, w: nat, n: nat) returns (v: int)
    requires Ranked(xs) && Unbeaten(xs, w) && w < n <= |xs|
    ensures TopHeld(r, xs, xs[w].route, n, v)
    decreases n
  {
    if n == w + 1 {
      v := TopArrives(r, xs, w);
    } else {
      v := TopStored(r, xs, w, n - 1);
      TopRemains(r, xs, xs[w].route, n - 1, v);
    }
  }

  /** The first unbeaten arrival of a route is let in, and nothing of the route after it. */
  lemma {:induction false} FirstTop(r: Option<Row>, xs: seq<Arrival>, w: nat) returns (v: nat)
    requires Ranked(xs) && Unbeaten(xs, w)
    ensures v <= w && Unbeaten(xs, v) && xs[v].route == xs[w].route && LetIn(r, xs, v)
    ensures forall j :: v < j < |xs| && xs[j].route == xs[w].route ==> !LetIn(r, xs, j)
  {
    if u :| 0 <= u < w && Unbeaten(xs, u) && xs[u].route == xs[w].route {
      v := FirstTop(r, xs, u);
    } else {
      v := w;
      if xs[w].route in TakeAll(r, xs[..w]).last { StoredComesFrom(r, xs, w, xs[w].route); }
      NothingAfterTop(r, xs, w);
    }
  }

  lemma {:induction false} NothingAfterTop(r: Option<Row>, xs: seq<Arrival>, w: nat)
    requires Ranked(xs) && Unbeaten(xs, w)
    ensures forall j :: w < j < |xs| && xs[j].route == xs[w].route ==> !LetIn(r, xs, j)
  {
    forall j | w < j < |xs| && xs[j].route == xs[w].route ensures !LetIn(r, xs, j) {
      var v := TopStored(r, xs, w, j);
    }
  }

  /** Whatever the run, the last one to write is a candidate .. */
  lemma {:induction false} LastIsCandidate(r: Option<Row>, xs: seq<Arrival>, i: nat)
    requires Ranked(xs) && LastWrite(r, xs, |xs|, i)
    ensures Candidate(xs, i)
  {
    assert HasUnbeaten(xs, xs[i].route);
    var w :| Unbeaten(xs, w) && xs[w].route == xs[i].route;
    var v := FirstTop(r, xs, w);
    if v != i {
      assert i < v && !Writes(r, xs, v);
      assert FailingTop(xs, v, xs[i].route);
    }
  }

  /** .. and when none writes, every route has an unbeaten arrival that fails. */
  lemma {:induction false} NoWriteMeansFailing(r: Option<Row>, xs: seq<Arrival>)
    requires Ranked(xs) && NoneWrites(r, xs, |xs|)
    ensures AllMayFail(xs)
  {
    forall i | 0 <= i < |xs| ensures MayFail(xs, xs[i].route) {
      assert HasUnbeaten(xs, xs[i].route);
      var w :| Unbeaten(xs, w) && xs[w].route == xs[i].route;
      var v := FirstTop(r, xs, w);
      assert !Writes(r, xs, v);
      assert FailingTop(xs, v, xs[i].route);
    }
  }

  // ---------------------------------------------------------------- the same arrivals in another order

  lemma {:induction false} ArrangedUnbeaten(xs: seq<Arrival>, p: seq<nat>, x: nat)
    requires Order(p, |xs|) && x < |p|
    ensures Unbeaten(Arranged(xs, p), x) <==> Unbeaten(xs, p[x])
  {
    var ys := Arranged(xs, p);
    if Unbeaten(ys, x) {
      forall j | 0 <= j < |xs| && xs[j].route == xs[p[x]].route ensures !Beats(xs[j].stamp, xs[p[x]].stamp) {
        var y := PlaceOf(p, |xs|, j);
        assert ys[y] == xs[j];
      }
    }
  }

  lemma {:induction false} PlaceOf(p: seq<nat>, n: nat, k: nat) returns (y: nat)
    requires Order(p, n) && k < n
    ensures y < |p| && p[y] == k
  {
    assert k in p;
    y :| 0 <= y < |p| && p[y] == k;
  }

  lemma {:induction false} ArrangedMayFail(xs: seq<Arrival>, p: seq<nat>, route: string)
    requires Order(p, |xs|)
    ensures MayFail(Arranged(xs, p), route) <==> MayFail(xs, route)
  {
    var ys := Arranged(xs, p);
    if x :| FailingTop(ys, x, route) {
      ArrangedUnbeaten(xs, p, x);
      assert FailingTop(xs, p[x], route);
    }
    if f :| FailingTop(xs, f, route) {
      var x := PlaceOf(p, |xs|, f);
      ArrangedUnbeaten(xs, p, x);
      assert FailingTop(ys, x, route);
    }
  }

  lemma {:induction false} ArrangedRanked(xs: seq<Arrival>, p: seq<nat>)
    requires Order(p, |xs|) && Ranked(xs)
    ensures Ranked(Arranged(xs, p))
  {
    var ys := Arranged(xs, p);
    forall x | 0 <= x < |ys| ensures HasUnbeaten(ys, ys[x].route) {
      assert HasUnbeaten(xs, xs[p[x]].route);
      var w :| Unbeaten(xs, w) && xs[w].route == xs[p[x]].route;
      var y := PlaceOf(p, |xs|, w);
      ArrangedUnbeaten(xs, p, y);
    }
    forall w, j | Unbeaten(ys, w) && 0 <= j < |ys| && ys[j].route == ys[w].route && !Unbeaten(ys, j)
      ensures Beats(ys[w].stamp, ys[j].stamp)
    {
      ArrangedUnbeaten(xs, p, w);
      ArrangedUnbeaten(xs, p, j);
    }
  }

  /** Any order ends with a candidate's payload, or leaves the row alone if every route may fail. */
  lemma {:induction false} EndsWithCandidate(r: Option<Row>, xs: seq<Arrival>, p: seq<nat>) returns (i: int)
    requires Ranked(xs) && Order(p, |xs|)
    ensures if Candidate(xs, i) then FinalHash(r, xs, p) == Some(RawHash(xs[i].payload))
            else AllMayFail(xs) && FinalHash(r, xs, p) == HashOf(r)
  {
    var ys := Arranged(xs, p);
    ArrangedRanked(xs, p);
    if NoneWrites(r, ys, |ys|) {
      i := -1;
      NoWriteNoChange(r, ys, |ys|);
      assert ys[..|ys|] == ys;
      NoWriteMeansFailing(r, ys);
      forall k | 0 <= k < |xs| ensures MayFail(xs, xs[k].route) {
        var y := PlaceOf(p, |xs|, k);
        ArrangedMayFail(xs, p, ys[y].route);
      }
    } else {
      SomeWroteLast(r, ys, |ys|);
      var x :| LastWrite(r, ys, |ys|, x);
      LastIsCandidate(r, ys, x);
      RowIsLastWritten(r, ys, x);
      ArrangedUnbeaten(xs, p, x);
      ArrangedMayFail(xs, p, ys[x].route);
      i := p[x];
    }
  }

  // ---------------------------------------------------------------- orders for every outcome

  /** An order by rank. */
  lemma {:induction false} OrderBy(n: nat, rank: nat -> int) returns (p: seq<nat>)
    ensures Order(p, n) && forall a, b :: 0 <= a < b < n ==> rank(p[a]) <= rank(p[b])
  {
    if n == 0 {
      p := [];
    } else {
      var q := OrderBy(n - 1, rank);
      var k := RoomFor(q, rank, rank(n - 1));
      p := q[..k] + [n - 1] + q[k..];
      forall i | 0 <= i < n ensures i in p {
        if i == n - 1 {
          assert p[k] == n - 1;
        } else {
          var y := PlaceOf(q, n - 1, i);
          assert p[if y < k then y else y + 1] == i;
        }
      }
    }
  }

  lemma {:induction false} RoomFor(q: seq<nat>, rank: nat -> int, v: int) returns (k: nat)
    requires forall a, b :: 0 <= a < b < |q| ==> rank(q[a]) <= rank(q[b])
    ensures k <= |q| && (forall a :: 0 <= a < k ==> rank(q[a]) <= v) && forall a :: k <= a < |q| ==> v <= rank(q[a])
  {
    k := |q|;
    while k > 0 && rank(q[k - 1]) > v
      invariant k <= |q| && forall a :: k <= a < |q| ==> v <= rank(q[a])
    {
      k := k - 1;
    }
  }

  /** Other routes first, then the candidate, then the failing unbeaten arrival, then the rest of the route. */
  ghost function RankFor(xs: seq<Arrival>, i: nat, f: nat): nat -> int
    requires i < |xs|
  {
    (k: nat) => if k < |xs| && xs[k].route != xs[i].route then 0 else if k == i then 1 else if k == f then 2 else 3
  }

  lemma {:induction false} RankedOrder(xs: seq<Arrival>, i: nat, f: nat) returns (p: seq<nat>, x: nat)
    requires i < |xs| && f < |xs| && xs[f].route == xs[i].route
    ensures Order(p, |xs|) && x < |p| && p[x] == i
    ensures forall y :: 0 <= y < x ==> xs[p[y]].route != xs[i].route
    ensures forall y :: x < y < |p| ==> xs[p[y]].route == xs[i].route
    ensures f != i ==> x + 1 < |p| && p[x + 1] == f
  {
    var rank := RankFor(xs, i, f);
    p := OrderBy(|xs|, rank);
    x := PlaceOf(p, |xs|, i);
    forall y | 0 <= y < x ensures xs[p[y]].route != xs[i].route {
      assert rank(p[y]) <= rank(p[x]) && p[y] != p[x];
    }
    forall y | x < y < |p| ensures xs[p[y]].route == xs[i].route {
      assert rank(p[x]) <= rank(p[y]);
    }
    if f != i {
      var z := PlaceOf(p, |xs|, f);
      assert x < z && 1 == rank(p[x]) <= rank(p[x + 1]) <= rank(p[z]) == 2;
      assert p[x + 1] != p[x];
    }
  }

  lemma {:induction false} FirstOfRoute(r: Option<Row>, ys: seq<Arrival>, x: nat)
    requires x < |ys| && forall y :: 0 <= y < x ==> ys[y].route != ys[x].route
    ensures LetIn(r, ys, x)
  {
    if ys[x].route in TakeAll(r, ys[..x]).last { StoredComesFrom(r, ys, x, ys[x].route); }
  }

  /** All after `x` are of its route; and `x`, or else the failing arrival right behind it, is unbeaten. */
  lemma {:induction false} NoneAfter(r: Option<Row>, ys: seq<Arrival>, x: nat, top: nat)
    requires Ranked(ys) && x < |ys| && !ys[x].fails && Unbeaten(ys, top)
    requires top == x || (top == x + 1 < |ys| && ys[top].fails)
    requires forall y :: 0 <= y < x ==> ys[y].route != ys[x].route
    requires forall y :: x < y < |ys| ==> ys[y].route == ys[x].route
    ensures LastWrite(r, ys, |ys|, x)
  {
    FirstOfRoute(r, ys, x);
    NothingAfterTop(r, ys, top);
  }

  /** Every candidate is the last to write in some order. */
  lemma {:induction false} CandidateLast(r: Option<Row>, xs: seq<Arrival>, i: nat) returns (p: seq<nat>)
    requires Ranked(xs) && Candidate(xs, i)
    ensures Order(p, |xs|) && FinalHash(r, xs, p) == Some(RawHash(xs[i].payload))
  {
    var f := i;
    if !Unbeaten(xs, i) { f :| FailingTop(xs, f, xs[i].route); }
    var x;
    p, x := RankedOrder(xs, i, f);
    var ys := Arranged(xs, p);
    ArrangedRanked(xs, p);
    var top := if f == i then x else x + 1;
    ArrangedUnbeaten(xs, p, top);
    NoneAfter(r, ys, x, top);
    RowIsLastWritten(r, ys, x);
  }

  /** If every route may fail, in some order nothing is written. */
  lemma {:induction false} NothingWritten(r: Option<Row>, xs: seq<Arrival>) returns (p: seq<nat>)
    requires Ranked(xs) && AllMayFail(xs)
    ensures Order(p, |xs|) && FinalHash(r, xs, p) == HashOf(r)
  {
    var rank := (k: nat) => if k < |xs| && FailingTop(xs, k, xs[k].route) then 0 else 1;
    p := OrderBy(|xs|, rank);
    var ys := Arranged(xs, p);
    ArrangedRanked(xs, p);
    forall y | 0 <= y < |ys| ensures !Writes(r, ys, y) {
      if rank(p[y]) == 1 {
        assert MayFail(xs, xs[p[y]].route);
        var f :| FailingTop(xs, f, xs[p[y]].route);
        var z := PlaceOf(p, |xs|, f);
        ArrangedUnbeaten(xs, p, z);
        NothingAfterTop(r, ys, z);
        assert z < y;
      }
    }
    NoWriteNoChange(r, ys, |ys|);
    assert ys[..|ys|] == ys;
  }

  // ---------------------------------------------------------------- when all orders agree

  /** All candidates store the same payload; and if every route may fail, the row has its version already. */
  ghost predicate CandidatesAgree(r: Option<Row>, xs: seq<Arrival>) {
    && (forall i, j :: Candidate(xs, i) && Candidate(xs, j) ==> xs[i].payload == xs[j].payload)
    && (AllMayFail(xs) ==> forall i :: Candidate(xs, i) ==> HashOf(r) == Some(RawHash(xs[i].payload)))
  }

  ghost predicate OrdersAgree(r: Option<Row>, xs: seq<Arrival>) {
    forall p, q :: Order(p, |xs|) && Order(q, |xs|) ==> FinalHash(r, xs, p) == FinalHash(r, xs, q)
  }

  /** Routes are not ordered against each other, and writes may fail: every arrival order leaves the same version in the
      row if and only if the candidates agree. */
  lemma {:induction false} RoutesAgreeIff(r: Option<Row>, xs: seq<Arrival>)
    requires Ranked(xs)
    ensures OrdersAgree(r, xs) <==> CandidatesAgree(r, xs)
  {
    if CandidatesAgree(r, xs) {
      forall p, q | Order(p, |xs|) && Order(q, |xs|) ensures FinalHash(r, xs, p) == FinalHash(r, xs, q) {
        var i := EndsWithCandidate(r, xs, p);
        var j := EndsWithCandidate(r, xs, q);
      }
    }
    if OrdersAgree(r, xs) {
      forall i, j | Candidate(xs, i) && Candidate(xs, j) ensures xs[i].payload == xs[j].payload {
        var p := CandidateLast(r, xs, i);
        var q := CandidateLast(r, xs, j);
        assert FinalHash(r, xs, p) == FinalHash(r, xs, q);
      }
      if AllMayFail(xs) {
        var p := NothingWritten(r, xs);
        forall i | Candidate(xs, i) ensures HashOf(r) == Some(RawHash(xs[i].payload)) {
          var q := CandidateLast(r, xs, i);
          assert FinalHash(r, xs, p) == FinalHash(r, xs, q);
        }
      }
    }
  }

  /** All sequence values of a route parse as numbers, or none does; equal ones are allowed. */
  ghost predicate OneKind(xs: seq<Arrival>) {
    forall i, j :: 0 <= i < |xs| && 0 <= j < |xs| && xs[i].route == xs[j].route ==>
      (xs[i].stamp.number.Some? <==> xs[j].stamp.number.Some?)
  }

  lemma {:induction false} KindOrdered(k: Stamp, w: Stamp, j: Stamp)
    requires (k.number.Some? <==> w.number.Some?) && (w.number.Some? <==> j.number.Some?)
    ensures Beats(k, j) && !Beats(k, w) ==> Beats(w, j)
    ensures !Beats(k, w) || !Beats(w, k)
  {
    StrLessTotal(k.text, w.text);
    StrLessTotal(k.text, j.text);
    StrLessTotal(w.text, j.text);
    if StrLess(j.text, k.text) && StrLess(k.text, w.text) { StrLessTransitive(j.text, k.text, w.text); }
  }

  /** None of the first `n` arrivals on the route beats `w`, which is one of them. */
  ghost predicate UnbeatenOf(xs: seq<Arrival>, route: string, n: nat, w: int)
    requires n <= |xs|
  {
    && 0 <= w < n && xs[w].route == route
    && forall j :: 0 <= j < n && xs[j].route == route ==> !Beats(xs[j].stamp, xs[w].stamp)
  }

  lemma {:induction false} UnbeatenSoFar(xs: seq<Arrival>, route: string, n: nat) returns (w: int)
    requires OneKind(xs) && n <= |xs|
    ensures UnbeatenOf(xs, route, n, w) || forall j :: 0 <= j < n ==> xs[j].route != route
  {
    w := -1;
    if n > 0 {
      var m := n - 1;
      w := UnbeatenSoFar(xs, route, m);
      if xs[m].route == route {
        if UnbeatenOf(xs, route, m, w) {
          forall j | 0 <= j < n && xs[j].route == route
            ensures !Beats(xs[j].stamp, xs[if Beats(xs[m].stamp, xs[w].stamp) then m else w].stamp)
          {
            KindOrdered(xs[j].stamp, xs[w].stamp, xs[m].stamp);
            KindOrdered(xs[m].stamp, xs[w].stamp, xs[j].stamp);
            SelfNotNewer(xs[m].stamp);
          }
          if Beats(xs[m].stamp, xs[w].stamp) { w := m; }
        } else {
          w := m;
          SelfNotNewer(xs[m].stamp);
        }
      }
    }
  }

  /** Comparable values, repeated or not, rank the arrivals. */
  lemma {:induction false} OneKindIsRanked(xs: seq<Arrival>)
    requires OneKind(xs)
    ensures Ranked(xs)
  {
    forall i | 0 <= i < |xs| ensures HasUnbeaten(xs, xs[i].route) {
      var w := UnbeatenSoFar(xs, xs[i].route, |xs|);
      assert Unbeaten(xs, w);
    }
    forall w, j | Unbeaten(xs, w) && 0 <= j < |xs| && xs[j].route == xs[w].route && !Unbeaten(xs, j)
      ensures Beats(xs[w].stamp, xs[j].stamp)
    {
      var k :| 0 <= k < |xs| && xs[k].route == xs[j].route && Beats(xs[k].stamp, xs[j].stamp);
      KindOrdered(xs[k].stamp, xs[w].stamp, xs[j].stamp);
    }
  }

  /** Two arrivals on two routes: the later one wins, whatever their sequence values. */
  lemma {:induction false} LaterRouteWins(r: Option<Row>, a: Arrival, b: Arrival)
    requires a.route != b.route && !a.fails && !b.fails
    ensures FinalHash(r, [a, b], [0, 1]) == Some(RawHash(b.payload))
    ensures FinalHash(r, [a, b], [1, 0]) == Some(RawHash(a.payload))
  {
    var xs := [a, b];
    TwoArrivals(r, a, b);
    TwoArrivals(r, b, a);
    assert Arranged(xs, [0, 1]) == [a, b] && Arranged(xs, [1, 0]) == [b, a];
  }

  lemma {:induction false} TwoArrivals(r: Option<Row>, a: Arrival, b: Arrival)
    requires a.route != b.route && !a.fails && !b.fails
    ensures TakeAll(r, [a, b]).row.Some? && TakeAll(r, [a, b]).row.value.hash == RawHash(b.payload)
  {
    assert [a, b][..1] == [a] && [a][..0] == [];
    assert TakeAll(r, [a]) == Take(TakeAll(r, [a][..0]), a);
    assert TakeAll(r, [a, b]) == Take(TakeAll(r, [a]), b);
  }
}
