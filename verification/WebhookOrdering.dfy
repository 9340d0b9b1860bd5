/** The stale-event filter as a last-writer-wins register. */
module WebhookOrdering {
  import opened Wrappers
  import opened Ordering
  import opened Webhooks

  /** `x` is let through when `y` is the stored value. */
  predicate Beats(x: Stamp, y: Stamp) {
    !Stale(x, y)
  }

  // ---------------------------------------------------------------- the register

  function Offer(stored: Option<Stamp>, x: Stamp): Option<Stamp> {
    if stored.Some? && Stale(x, stored.value) then stored else Some(x)
  }

  /** The stored value after the arrivals `xs`. */
  function Register(xs: seq<Stamp>): Option<Stamp> {
    if xs == [] then None else Offer(Register(xs[..|xs| - 1]), xs[|xs| - 1])
  }

  /** `w` is newer than every arrival that differs from it. */
  ghost predicate Newest(xs: seq<Stamp>, w: int) {
    0 <= w < |xs| && forall i :: 0 <= i < |xs| && xs[i] != xs[w] ==> Beats(xs[w], xs[i]) && !Beats(xs[i], xs[w])
  }

  lemma {:induction false} RegisterIsArrival(xs: seq<Stamp>)
    requires xs != []
    ensures exists i :: 0 <= i < |xs| && Register(xs) == Some(xs[i])
  {
    var n := |xs| - 1;
    if n == 0 {
      assert xs[..n] == [];
      assert Register(xs) == Some(xs[0]);
    } else if Register(xs) != Some(xs[n]) {
      RegisterIsArrival(xs[..n]);
      var i :| 0 <= i < n && Register(xs[..n]) == Some(xs[..n][i]);
      assert xs[i] == xs[..n][i];
    }
  }

  lemma {:induction false} NewestWins(xs: seq<Stamp>, w: int)
    requires Newest(xs, w)
    ensures Register(xs) == Some(xs[w])
  {
    var n := |xs| - 1;
    assert forall i :: 0 <= i < n ==> xs[..n][i] == xs[i];
    if xs[w] in xs[..n] {
      var v :| 0 <= v < n && xs[..n][v] == xs[w];
      NewestWins(xs[..n], v);
      SelfNotNewer(xs[w]);
    } else if n > 0 {
      RegisterIsArrival(xs[..n]);
    }
  }

  lemma {:induction false} SelfNotNewer(x: Stamp)
    ensures !Beats(x, x)
  {
  }

  ghost predicate SameArrivals(xs: seq<Stamp>, ys: seq<Stamp>) {
    multiset(xs) == multiset(ys)
  }

  lemma {:induction false} NewestAnywhere(xs: seq<Stamp>, ys: seq<Stamp>, w: int)
    requires Newest(xs, w) && SameArrivals(xs, ys)
    ensures Register(ys) == Some(xs[w])
  {
    assert xs[w] in multiset(ys);
    var v :| 0 <= v < |ys| && ys[v] == xs[w];
    forall i | 0 <= i < |ys| && ys[i] != ys[v] ensures Beats(ys[v], ys[i]) && !Beats(ys[i], ys[v]) {
      assert ys[i] in multiset(xs);
    }
    NewestWins(ys, v);
  }

  // ---------------------------------------------------------------- orders in which a value does not survive

  /** Once it has been overtaken, or has never got in, a value that does not arrive again stays out. */
  lemma {:induction false} StaysOut(xs: seq<Stamp>, ys: seq<Stamp>, f: Stamp)
    requires Register(xs) != Some(f) && f !in ys
    ensures Register(xs + ys) != Some(f)
  {
    if ys == [] {
      assert xs + ys == xs;
    } else {
      var n := |ys| - 1;
      StaysOut(xs, ys[..n], f);
      assert (xs + ys)[..|xs| + n] == xs + ys[..n] && (xs + ys)[|xs| + n] == ys[n];
    }
  }

  function Copies(f: Stamp, n: nat): (r: seq<Stamp>)
    ensures |r| == n && forall i :: 0 <= i < n ==> r[i] == f
  {
    seq(n, i requires 0 <= i < n => f)
  }

  lemma {:induction false} Exchange(a: seq<Stamp>, b: seq<Stamp>, c: seq<Stamp>)
    ensures SameArrivals(a + b + c, b + a + c)
  {
    assert multiset(a + b) == multiset(b + a);
  }

  /** `xs` are `n` copies of `f` and `rest`. */
  ghost predicate Gathered(xs: seq<Stamp>, f: Stamp, n: nat, rest: seq<Stamp>) {
    && SameArrivals(xs, Copies(f, n) + rest) && f !in rest
    && (forall x :: x in xs ==> x in rest || (x == f && n > 0))
  }

  lemma {:induction false} Gather(xs: seq<Stamp>, f: Stamp) returns (n: nat, rest: seq<Stamp>)
    ensures Gathered(xs, f, n, rest)
  {
    if xs == [] {
      n, rest := 0, [];
    } else {
      var m := |xs| - 1;
      n, rest := Gather(xs[..m], f);
      assert xs == xs[..m] + [xs[m]];
      GatherOneMore(xs[..m], f, n, rest, xs[m]);
      if xs[m] == f { n := n + 1; } else { rest := rest + [xs[m]]; }
    }
  }

  lemma {:induction false} GatherOneMore(xs: seq<Stamp>, f: Stamp, n: nat, rest: seq<Stamp>, x: Stamp)
    requires Gathered(xs, f, n, rest)
    ensures if x == f then Gathered(xs + [x], f, n + 1, rest) else Gathered(xs + [x], f, n, rest + [x])
  {
    assert Copies(f, n + 1) == Copies(f, n) + [f];
    assert Copies(f, n) + (rest + [x]) == Copies(f, n) + rest + [x];
  }

  lemma {:induction false} CopiesLeave(f: Stamp, n: nat)
    requires n > 0
    ensures Register(Copies(f, n)) == Some(f)
  {
    RegisterIsArrival(Copies(f, n));
  }

  /** A first arrival that `f` does not beat is left by any number of copies of `f`. */
  lemma {:induction false} CopiesOverruled(f: Stamp, x: Stamp, n: nat)
    requires !Beats(f, x)
    ensures Register([x] + Copies(f, n)) == Some(x)
  {
    if n == 0 {
      assert [x] + Copies(f, n) == [x] && [x][..0] == [];
    } else {
      CopiesOverruled(f, x, n - 1);
      assert ([x] + Copies(f, n))[..n] == [x] + Copies(f, n - 1);
    }
  }

  lemma {:induction false} Overtaken(f: Stamp, x: Stamp, n: nat)
    requires Beats(x, f) && n > 0
    ensures Register(Copies(f, n) + [x]) == Some(x)
  {
    CopiesLeave(f, n);
    assert (Copies(f, n) + [x])[..n] == Copies(f, n);
  }

  lemma {:induction false} PullOut(rest: seq<Stamp>, x: Stamp) returns (left: seq<Stamp>)
    requires x in rest
    ensures SameArrivals(rest, [x] + left) && forall y :: y in left ==> y in rest
  {
    var k :| 0 <= k < |rest| && rest[k] == x;
    left := rest[..k] + rest[k + 1..];
    assert rest == rest[..k] + [x] + rest[k + 1..];
    Exchange(rest[..k], [x], rest[k + 1..]);
    assert [x] + rest[..k] + rest[k + 1..] == [x] + left;
  }

  lemma {:induction false} SameParts(xs: seq<Stamp>, before: seq<Stamp>, rest: seq<Stamp>, x: Stamp, left: seq<Stamp>)
    requires SameArrivals(xs, before + rest) && SameArrivals(rest, [x] + left)
    ensures SameArrivals(xs, before + [x] + left) && SameArrivals(xs, [x] + before + left)
  {
    assert before + [x] + left == before + ([x] + left);
    Exchange(before, [x], left);
  }

  /** If some other arrival is newer than `f`, or `f` is not newer than it, then `f` does not survive every order. */
  lemma {:induction false} CanBeOverruled(xs: seq<Stamp>, f: Stamp, x: Stamp) returns (ys: seq<Stamp>)
    requires f in xs && x in xs && f != x && (Beats(x, f) || !Beats(f, x))
    ensures SameArrivals(xs, ys) && Register(ys) != Some(f)
  {
    var n, rest := Gather(xs, f);
    var left := PullOut(rest, x);
    SameParts(xs, Copies(f, n), rest, x, left);
    if Beats(x, f) {
      Overtaken(f, x, n);
      ys := Copies(f, n) + [x] + left;
      StaysOut(Copies(f, n) + [x], left, f);
    } else {
      CopiesOverruled(f, x, n);
      ys := [x] + Copies(f, n) + left;
      StaysOut([x] + Copies(f, n), left, f);
    }
  }

  /** For any arrivals, repeated and tied ones included: every order leaves the same value exactly when one arrival is
      newer than all that differ from it. */
  lemma {:induction false} OrderIrrelevantIff(xs: seq<Stamp>)
    requires xs != []
    ensures (forall ys :: SameArrivals(xs, ys) ==> Register(ys) == Register(xs)) <==> exists w :: Newest(xs, w)
  {
    if w :| Newest(xs, w) {
      forall ys | SameArrivals(xs, ys) ensures Register(ys) == Register(xs) {
        NewestWins(xs, w);
        NewestAnywhere(xs, ys, w);
      }
    }
    if forall ys :: SameArrivals(xs, ys) ==> Register(ys) == Register(xs) {
      RegisterIsArrival(xs);
      var f :| 0 <= f < |xs| && Register(xs) == Some(xs[f]);
      forall x | 0 <= x < |xs| && xs[x] != xs[f] ensures Beats(xs[f], xs[x]) && !Beats(xs[x], xs[f]) {
        if Beats(xs[x], xs[f]) || !Beats(xs[f], xs[x]) { var ys := CanBeOverruled(xs, xs[f], xs[x]); }
      }
      assert Newest(xs, f);
    }
  }

  // ---------------------------------------------------------------- which values are comparable

  /** All parse as numbers, or none does, and no two are equal. */
  ghost predicate Comparable(xs: seq<Stamp>) {
    || (&& (forall i :: 0 <= i < |xs| ==> xs[i].number.Some?)
        && forall i, j :: 0 <= i < j < |xs| ==> xs[i].number != xs[j].number)
    || (&& (forall i :: 0 <= i < |xs| ==> xs[i].number.None?)
        && forall i, j :: 0 <= i < j < |xs| ==> xs[i].text != xs[j].text)
  }

  /** Of any two arrivals exactly one is newer. */
  ghost predicate Distinguishable(xs: seq<Stamp>) {
    forall i, j :: 0 <= i < j < |xs| ==> (Beats(xs[i], xs[j]) <==> !Beats(xs[j], xs[i]))
  }

  lemma {:induction false} ComparableBeats(xs: seq<Stamp>)
    requires Comparable(xs)
    ensures Distinguishable(xs)
    ensures forall i, j, k | 0 <= i < |xs| && 0 <= j < |xs| && 0 <= k < |xs| ::
      Beats(xs[i], xs[j]) && Beats(xs[j], xs[k]) ==> Beats(xs[i], xs[k])
  {
    forall i, j | 0 <= i < |xs| && 0 <= j < |xs| ensures Beats(xs[i], xs[j]) <==> Later(xs[i], xs[j]) {
      StrLessTotal(xs[i].text, xs[j].text);
    }
    forall i, j, k | 0 <= i < |xs| && 0 <= j < |xs| && 0 <= k < |xs| && Later(xs[i], xs[j]) && Later(xs[j], xs[k])
      ensures Later(xs[i], xs[k])
    {
      if xs[i].number.None? { StrLessTransitive(xs[k].text, xs[j].text, xs[i].text); }
    }
    forall i, j | 0 <= i < j < |xs| ensures Beats(xs[i], xs[j]) <==> !Beats(xs[j], xs[i]) {
      StrLessTotal(xs[i].text, xs[j].text);
    }
  }

  predicate Later(x: Stamp, y: Stamp) {
    if x.number.Some? && y.number.Some? then x.number.value > y.number.value else StrLess(y.text, x.text)
  }

  lemma {:induction false} ComparableHasNewest(xs: seq<Stamp>) returns (w: nat)
    requires Comparable(xs) && xs != []
    ensures Newest(xs, w)
  {
    var n := |xs| - 1;
    if n == 0 {
      w := 0;
    } else {
      var v := ComparableHasNewest(xs[..n]);
      ComparableBeats(xs);
      assert xs[..n][v] == xs[v] && forall i :: 0 <= i < n ==> xs[..n][i] == xs[i];
      w := if Beats(xs[n], xs[v]) then n else v;
      forall i | 0 <= i < |xs| && i != w ensures Beats(xs[w], xs[i]) && !Beats(xs[i], xs[w]) {
        assert i < n && i != v ==> Beats(xs[v], xs[i]);
      }
    }
  }

  lemma {:induction false} RegisterOfPrefix(xs: seq<Stamp>, j: nat)
    requires 0 < j <= |xs|
    ensures Register(xs[..j]) == Offer(Register(xs[..j - 1]), xs[j - 1])
  {
    assert xs[..j][..j - 1] == xs[..j - 1];
  }

  /** The register holds one of the first `j` arrivals. */
  lemma {:induction false} ArrivalHeld(xs: seq<Stamp>, j: nat) returns (i: nat)
    requires 0 < j <= |xs|
    ensures i < j && Register(xs[..j]) == Some(xs[i])
  {
    RegisterIsArrival(xs[..j]);
    i :| 0 <= i < j && Register(xs[..j]) == Some(xs[..j][i]);
  }

  lemma {:induction false} RegisterAdvances(xs: seq<Stamp>, i: nat, j: nat)
    requires Comparable(xs) && i < j <= |xs| && Register(xs[..i + 1]) == Some(xs[i])
    ensures Register(xs[..j]).Some?
    ensures Register(xs[..j]).value == xs[i] || Beats(Register(xs[..j]).value, xs[i])
  {
    if i + 1 < j {
      RegisterAdvances(xs, i, j - 1);
      RegisterOfPrefix(xs, j);
      var k := ArrivalHeld(xs, j - 1);
      ComparableBeats(xs);
    }
  }

  /** The filter lets the arrival `i` through. */
  predicate LetIn(xs: seq<Stamp>, i: nat)
    requires i < |xs|
  {
    var stored := Register(xs[..i]);
    stored.Some? ==> Beats(xs[i], stored.value)
  }

  /** The values let through are strictly increasing over the whole run, not only from one to the next. */
  lemma {:induction false} LetInIncreasing(xs: seq<Stamp>, i: nat, j: nat)
    requires Comparable(xs) && i < j < |xs| && LetIn(xs, i) && LetIn(xs, j)
    ensures Beats(xs[j], xs[i]) && !Beats(xs[i], xs[j])
  {
    RegisterOfPrefix(xs, i + 1);
    RegisterAdvances(xs, i, j);
    var k := ArrivalHeld(xs, j);
    ComparableBeats(xs);
  }

  /** Values of mixed kind can go round in a circle: 9 < 10 as numbers, "10" < "1a" and "1a" < "9" as text. */
  lemma {:induction false} MixedValuesDisagree()
    ensures exists xs, ys :: SameArrivals(xs, ys) && Distinguishable(xs) && Register(xs) != Register(ys)
  {
    var nine, ten, mixed := Stamp("9", Some(9.0)), Stamp("10", Some(10.0)), Stamp("1a", None);
    var xs := [nine, ten, mixed];
    MixedCircle();
    assert Distinguishable(xs);
    assert forall w :: !Newest(xs, w) by {
      assert Beats(xs[1], xs[0]) && Beats(xs[2], xs[1]) && Beats(xs[0], xs[2]);
    }
    OrderIrrelevantIff(xs);
  }

  lemma {:induction false} MixedCircle()
    ensures var nine, ten, mixed := Stamp("9", Some(9.0)), Stamp("10", Some(10.0)), Stamp("1a", None);
      && Beats(ten, nine) && Beats(mixed, ten) && Beats(nine, mixed)
      && !Beats(nine, ten) && !Beats(ten, mixed) && !Beats(mixed, nine)
  {
    assert "1a"[1..] == "a" && "10"[1..] == "0";
    assert StrLess("10", "1a") && StrLess("1a", "9");
    StrLessTotal("10", "1a");
    StrLessTotal("1a", "9");
  }
}
