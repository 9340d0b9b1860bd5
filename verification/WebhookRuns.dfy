/** Runs of webhook events into one row: convergence, several routes, redelivery. */
module WebhookRuns {
  import opened Wrappers
  import opened SourceTable
  import opened SyncEngine
  import opened Webhooks
  import opened WebhookOrdering
  import opened WebhookRoutes

  function HandleAll(cfg: Webhooks.Config, h: Hub, es: seq<Event>): Hub {
    if es == [] then h else Handle(cfg, HandleAll(cfg, h, es[..|es| - 1]), es[|es| - 1]).0
  }

  datatype RowId = RowId(datatypeName: string, externalId: string)

  predicate Routed(cfg: Webhooks.Config, e: Event) {
    cfg.fanOut.Some? && FirstRoute(cfg.fanOut.value.routes, e.discriminator).Some?
  }

  function RouteOf(cfg: Webhooks.Config, e: Event): Route
    requires Routed(cfg, e)
  {
    FirstRoute(cfg.fanOut.value.routes, e.discriminator).value
  }

  /** Where the filter keeps the event's sequence value. */
  function KeyOf(cfg: Webhooks.Config, e: Event, row: RowId): SeqKey
    requires Routed(cfg, e)
  {
    SeqKey(row.datatypeName, RouteOf(cfg, e).prefix, row.externalId)
  }

  /** The event is a full-payload event with a sequence value for this row. */
  predicate OnRow(cfg: Webhooks.Config, e: Event, row: RowId) {
    && Routed(cfg, e) && row.datatypeName in cfg.datatypes && e.stamp.Some?
    && var r, d := RouteOf(cfg, e), cfg.datatypes[row.datatypeName];
    && r.datatypeName == row.datatypeName
    && d.ordered && (r.isDelete || !(d.notification || r.notificationOnly))
    && ExtractId(e.payload, d.key) == Some(row.externalId)
    && ExtractId(Annotate(r, e.payload), d.key) == Some(row.externalId)
  }

  ghost predicate AllOnRow(cfg: Webhooks.Config, es: seq<Event>, row: RowId) {
    forall i :: 0 <= i < |es| ==> OnRow(cfg, es[i], row)
  }

  /** The payload the event stores. */
  function StoredPayload(cfg: Webhooks.Config, e: Event, row: RowId): Record
    requires OnRow(cfg, e, row)
  {
    Annotate(RouteOf(cfg, e), e.payload)
  }

  function StampOf(cfg: Webhooks.Config, e: Event, row: RowId): (x: Stamp)
    requires OnRow(cfg, e, row)
    ensures e.stamp == Some(x)
  {
    e.stamp.value
  }

  predicate Unseen(h: Hub, e: Event) {
    e.eventId.None? || e.eventId.value !in h.seen
  }

  predicate LetThrough(h: Hub, k: SeqKey, x: Stamp) {
    k in h.lastSeq ==> !Stale(x, h.lastSeq[k])
  }

  function RowIn(h: Hub, row: RowId): Option<Row> {
    var t := TableOf(h, row.datatypeName);
    if row.externalId in t then Some(t[row.externalId]) else None
  }

  /** A new event: discarded without a trace if it is stale; else its sequence value is stored, and its payload is
      upserted into its row unless the write fails. */
  lemma {:induction false} StepOnRow(cfg: Webhooks.Config, h: Hub, e: Event, row: RowId)
    requires OnRow(cfg, e, row) && Unseen(h, e)
    ensures var h', k, x := Handle(cfg, h, e).0, KeyOf(cfg, e, row), StampOf(cfg, e, row);
      && h'.lastSeq == (if LetThrough(h, k, x) then h.lastSeq[k := x] else h.lastSeq)
      && (!LetThrough(h, k, x) || e.writeFails ==> h'.tables == h.tables)
      && RowIn(h', row) == (if LetThrough(h, k, x) && !e.writeFails
                            then Some(WebhookRoutes.Stored(RowIn(h, row), StoredPayload(cfg, e, row)))
                            else RowIn(h, row))
      && h'.seen == (if e.eventId.Some? then h.seen + {e.eventId.value} else h.seen)
  {
    var h1 := if e.eventId.Some? then h.(seen := h.seen + {e.eventId.value}) else h;
    assert Handle(cfg, h, e) == Process(cfg, h1, e);
    assert TableOf(h1, row.datatypeName) == TableOf(h, row.datatypeName);
  }

  lemma {:induction false} SeenGrows(cfg: Webhooks.Config, h: Hub, es: seq<Event>)
    ensures forall x :: x in HandleAll(cfg, h, es).seen <==>
      x in h.seen || exists i :: 0 <= i < |es| && es[i].eventId == Some(x)
  {
    if es != [] {
      var n := |es| - 1;
      SeenGrows(cfg, h, es[..n]);
      var before := HandleAll(cfg, h, es[..n]);
      var after := HandleAll(cfg, h, es);
      forall x ensures x in after.seen <==> x in h.seen || exists i :: 0 <= i < |es| && es[i].eventId == Some(x) {
        if i :| 0 <= i < n && es[..n][i].eventId == Some(x) { assert es[i].eventId == Some(x); }
        if i :| 0 <= i < |es| && es[i].eventId == Some(x) { assert i == n || es[..n][i].eventId == Some(x); }
        assert x in after.seen <==> x in before.seen || es[n].eventId == Some(x);
      }
    }
  }

  // ---------------------------------------------------------------- runs into one row

  /** New events for one row, by any number of routes none of which has stored a sequence value yet. */
  ghost predicate RowRun(cfg: Webhooks.Config, h: Hub, es: seq<Event>, row: RowId) {
    && AllOnRow(cfg, es, row)
    && (forall i :: 0 <= i < |es| ==> Unseen(h, es[i]) && OnRow(cfg, es[i], row) && KeyOf(cfg, es[i], row) !in h.lastSeq)
    && forall i, j :: 0 <= i < j < |es| ==> es[i].eventId.None? || es[i].eventId != es[j].eventId
  }

  function ArrivalOf(cfg: Webhooks.Config, e: Event, row: RowId): Arrival
    requires OnRow(cfg, e, row)
  {
    Arrival(RouteOf(cfg, e).prefix, StampOf(cfg, e, row), StoredPayload(cfg, e, row), e.writeFails)
  }

  function Arrivals(cfg: Webhooks.Config, es: seq<Event>, row: RowId): (xs: seq<Arrival>)
    requires AllOnRow(cfg, es, row)
    ensures |xs| == |es| && forall i :: 0 <= i < |es| ==> xs[i] == ArrivalOf(cfg, es[i], row)
  {
    seq(|es|, i requires 0 <= i < |es| => ArrivalOf(cfg, es[i], row))
  }

  lemma {:induction false} StillUnseen(cfg: Webhooks.Config, h: Hub, es: seq<Event>, row: RowId, i: nat)
    requires RowRun(cfg, h, es, row) && i < |es|
    ensures Unseen(HandleAll(cfg, h, es[..i]), es[i])
  {
    SeenGrows(cfg, h, es[..i]);
    if es[i].eventId.Some? {
      assert forall j :: 0 <= j < i ==> es[..i][j].eventId != es[i].eventId;
    }
  }

  /** The hub's sequence values on the routes of the run, and its row, are those of the slot. */
  ghost predicate Shows(cfg: Webhooks.Config, b: Hub, s: Slot, es: seq<Event>, row: RowId)
    requires AllOnRow(cfg, es, row)
  {
    && RowIn(b, row) == s.row
    && forall i :: 0 <= i < |es| ==> ShowsRoute(b, s, KeyOf(cfg, es[i], row))
  }

  ghost predicate ShowsRoute(b: Hub, s: Slot, k: SeqKey) {
    (k in b.lastSeq <==> k.route in s.last) && (k in b.lastSeq ==> b.lastSeq[k] == s.last[k.route])
  }

  /** The handler does to one row and its routes what the routes' filters do. */
  lemma {:induction false} RunIsRoutes(cfg: Webhooks.Config, h: Hub, es: seq<Event>, row: RowId, n: nat)
    requires RowRun(cfg, h, es, row) && n <= |es|
    ensures Shows(cfg, HandleAll(cfg, h, es[..n]), TakeAll(RowIn(h, row), Arrivals(cfg, es, row)[..n]), es, row)
  {
    if n == 0 {
      assert es[..0] == [] && Arrivals(cfg, es, row)[..0] == [];
    } else {
      var m := n - 1;
      RunIsRoutes(cfg, h, es, row, m);
      StillUnseen(cfg, h, es, row, m);
      StepShows(cfg, HandleAll(cfg, h, es[..m]), TakeAll(RowIn(h, row), Arrivals(cfg, es, row)[..m]), es, row, m);
      assert es[..n][..m] == es[..m];
      TakeNext(RowIn(h, row), Arrivals(cfg, es, row), m);
    }
  }

  lemma {:induction false} StepShows(cfg: Webhooks.Config, b: Hub, s: Slot, es: seq<Event>, row: RowId, m: nat)
    requires AllOnRow(cfg, es, row) && m < |es| && Unseen(b, es[m]) && Shows(cfg, b, s, es, row)
    ensures Shows(cfg, Handle(cfg, b, es[m]).0, Take(s, ArrivalOf(cfg, es[m], row)), es, row)
  {
    StepOnRow(cfg, b, es[m], row);
    var b', s', k := Handle(cfg, b, es[m]).0, Take(s, ArrivalOf(cfg, es[m], row)), KeyOf(cfg, es[m], row);
    assert ShowsRoute(b, s, k);
    forall i | 0 <= i < |es| ensures ShowsRoute(b', s', KeyOf(cfg, es[i], row)) {
      assert ShowsRoute(b, s, KeyOf(cfg, es[i], row));
    }
  }

  lemma {:induction false} WholeRun(cfg: Webhooks.Config, h: Hub, es: seq<Event>, row: RowId)
    requires RowRun(cfg, h, es, row)
    ensures Shows(cfg, HandleAll(cfg, h, es), TakeAll(RowIn(h, row), Arrivals(cfg, es, row)), es, row)
  {
    RunIsRoutes(cfg, h, es, row, |es|);
    assert es[..|es|] == es && Arrivals(cfg, es, row)[..|es|] == Arrivals(cfg, es, row);
  }

  // ---------------------------------------------------------------- what the hub ends with

  /** A live row with the hash of the event's payload, holding that payload unless it was hollow before and was only
      written with payloads of the hash it had. */
  ghost predicate HoldsEvent(cfg: Webhooks.Config, h: Hub, es: seq<Event>, row: RowId, i: nat)
    requires AllOnRow(cfg, es, row) && i < |es|
  {
    var r, p := RowIn(HandleAll(cfg, h, es), row), StoredPayload(cfg, es[i], row);
    && r.Some? && !r.value.deleted && r.value.hash == RawHash(p)
    && (r.value.data == p <==> !KeptHollow(RowIn(h, row), Arrivals(cfg, es, row), |es|))
  }

  ghost predicate WroteLast(cfg: Webhooks.Config, h: Hub, es: seq<Event>, row: RowId, i: int)
    requires AllOnRow(cfg, es, row)
  {
    LastWrite(RowIn(h, row), Arrivals(cfg, es, row), |es|, i)
  }

  /** Over any run by any number of routes the row is that of the last event written. */
  lemma {:induction false} HubRowIsLastWritten(cfg: Webhooks.Config, h: Hub, es: seq<Event>, row: RowId, i: nat)
    requires RowRun(cfg, h, es, row) && WroteLast(cfg, h, es, row, i)
    ensures HoldsEvent(cfg, h, es, row, i)
  {
    WholeRun(cfg, h, es, row);
    RowIsLastWritten(RowIn(h, row), Arrivals(cfg, es, row), i);
  }

  /** Whatever the arrival order, a route with a winner ends with its sequence value; and on the only route, if its
      write succeeded, the row is the winner's. */
  lemma {:induction false} HubLastWriterWins(cfg: Webhooks.Config, h: Hub, es: seq<Event>, row: RowId, w: nat)
    requires RowRun(cfg, h, es, row) && Winner(Arrivals(cfg, es, row), w)
    ensures var after, k := HandleAll(cfg, h, es), KeyOf(cfg, es[w], row);
      k in after.lastSeq && after.lastSeq[k] == StampOf(cfg, es[w], row)
    ensures OneRoute(Arrivals(cfg, es, row)) && !es[w].writeFails ==> HoldsEvent(cfg, h, es, row, w)
  {
    var xs := Arrivals(cfg, es, row);
    WholeRun(cfg, h, es, row);
    LastWriterWins(RowIn(h, row), xs, w);
    assert ShowsRoute(HandleAll(cfg, h, es), TakeAll(RowIn(h, row), xs), KeyOf(cfg, es[w], row));
    if OneRoute(xs) && !es[w].writeFails {
      assert WroteLast(cfg, h, es, row, w);
      HubRowIsLastWritten(cfg, h, es, row, w);
    }
  }

  /** With comparable sequence values on a single route there is a winner, so every arrival order converges to it. */
  lemma {:induction false} HubRunsConverge(cfg: Webhooks.Config, h: Hub, es: seq<Event>, row: RowId) returns (w: nat)
    requires RowRun(cfg, h, es, row) && es != []
    requires OneRoute(Arrivals(cfg, es, row)) && Comparable(Stamps(Arrivals(cfg, es, row)))
    ensures Newest(Stamps(Arrivals(cfg, es, row)), w)
    ensures var after, k := HandleAll(cfg, h, es), KeyOf(cfg, es[w], row);
      k in after.lastSeq && after.lastSeq[k] == StampOf(cfg, es[w], row)
    ensures !es[w].writeFails ==> HoldsEvent(cfg, h, es, row, w)
  {
    w := ComparableRunsConverge(RowIn(h, row), Arrivals(cfg, es, row));
    HubLastWriterWins(cfg, h, es, row, w);
  }

  // ---------------------------------------------------------------- arrival orders

  lemma {:induction false} ArrangedRun(cfg: Webhooks.Config, h: Hub, es: seq<Event>, row: RowId, p: seq<nat>)
    requires RowRun(cfg, h, es, row) && Order(p, |es|)
    ensures RowRun(cfg, h, Arranged(es, p), row)
    ensures Arrivals(cfg, Arranged(es, p), row) == Arranged(Arrivals(cfg, es, row), p)
  {
    var fs := Arranged(es, p);
    forall i, j | 0 <= i < j < |fs| ensures fs[i].eventId.None? || fs[i].eventId != fs[j].eventId {
      assert p[i] < p[j] || p[j] < p[i];
    }
  }

  /** The version the row ends with when the events come in this order. */
  function HubHash(cfg: Webhooks.Config, h: Hub, es: seq<Event>, row: RowId, p: seq<nat>): Option<Digest>
    requires forall i :: 0 <= i < |p| ==> p[i] < |es|
  {
    var r := RowIn(HandleAll(cfg, h, Arranged(es, p)), row);
    if r.Some? then Some(r.value.hash) else None
  }

  lemma {:induction false} HubHashIs(cfg: Webhooks.Config, h: Hub, es: seq<Event>, row: RowId, p: seq<nat>)
    requires RowRun(cfg, h, es, row) && Order(p, |es|)
    ensures HubHash(cfg, h, es, row, p) == FinalHash(RowIn(h, row), Arrivals(cfg, es, row), p)
  {
    ArrangedRun(cfg, h, es, row, p);
    WholeRun(cfg, h, Arranged(es, p), row);
  }

  ghost predicate HubOrdersAgree(cfg: Webhooks.Config, h: Hub, es: seq<Event>, row: RowId) {
    forall p, q :: Order(p, |es|) && Order(q, |es|) ==> HubHash(cfg, h, es, row, p) == HubHash(cfg, h, es, row, q)
  }

  /** Routes into one row are not ordered against each other, and writes may fail: every arrival order leaves the same
      version in the row if and only if all events that can be the last to write store the same payload, and, where it
      can happen that none writes, the row has that version already. */
  lemma {:induction false} HubOrdersAgreeIff(cfg: Webhooks.Config, h: Hub, es: seq<Event>, row: RowId)
    requires RowRun(cfg, h, es, row) && Ranked(Arrivals(cfg, es, row))
    ensures HubOrdersAgree(cfg, h, es, row) <==> CandidatesAgree(RowIn(h, row), Arrivals(cfg, es, row))
  {
    var r, xs := RowIn(h, row), Arrivals(cfg, es, row);
    RoutesAgreeIff(r, xs);
    forall p | Order(p, |es|) ensures HubHash(cfg, h, es, row, p) == FinalHash(r, xs, p) {
      HubHashIs(cfg, h, es, row, p);
    }
  }

  // ---------------------------------------------------------------- any events at all

  /** No event of any kind ever replaces a stored value by one that is not newer. */
  lemma {:induction false} StoredValueOnlyAdvances(cfg: Webhooks.Config, h: Hub, e: Event, k: SeqKey)
    requires k in h.lastSeq
    ensures var h' := Handle(cfg, h, e).0;
      k in h'.lastSeq && (h'.lastSeq[k] == h.lastSeq[k] || Beats(h'.lastSeq[k], h.lastSeq[k]))
  {
  }

  /** An event whose id has been delivered before changes nothing, however much happened in between. */
  lemma {:induction false} RedeliveryChangesNothing(cfg: Webhooks.Config, h: Hub, es: seq<Event>, i: nat, again: Event)
    requires i < |es| && es[i].eventId.Some? && again.eventId == es[i].eventId
    ensures Handle(cfg, HandleAll(cfg, h, es), again) == (HandleAll(cfg, h, es), Duplicate)
  {
    SeenGrows(cfg, h, es);
  }

  // ---------------------------------------------------------------- delivering a failed event again

  /** The key under which the filter looks the event up, if the filter applies to it. */
  function FilterKey(cfg: Webhooks.Config, e: Event): Option<SeqKey>
    requires Routed(cfg, e) && RouteOf(cfg, e).datatypeName in cfg.datatypes
  {
    var r := RouteOf(cfg, e);
    var d := cfg.datatypes[r.datatypeName];
    var id := ExtractId(e.payload, d.key);
    if d.ordered && e.stamp.Some? && id.Some? then Some(SeqKey(r.datatypeName, r.prefix, id.value)) else None
  }

  predicate Fails(cfg: Webhooks.Config, h: Hub, e: Event) {
    Handle(cfg, h, e).1 == UpsertFailed
  }

  /** A failed event, delivered again after any other events and with its write succeeding, is stored if and only if
      it has no event id and the filter, if it applies, lets it through. */
  lemma {:induction false} RedeliveryStoresIff(cfg: Webhooks.Config, h: Hub, e: Event, es: seq<Event>)
    requires Fails(cfg, h, e)
    ensures Routed(cfg, e) && RouteOf(cfg, e).datatypeName in cfg.datatypes
    ensures var later, k := HandleAll(cfg, Handle(cfg, h, e).0, es), FilterKey(cfg, e);
      Handle(cfg, later, e.(writeFails := false)).1.Stored? <==>
        e.eventId.None? && (k.Some? ==> LetThrough(later, k.value, e.stamp.value))
  {
    SeenGrows(cfg, Handle(cfg, h, e).0, es);
  }

  /** At once, it is stored if and only if it has neither an event id nor a place in the filter; else it is discarded
      and its payload stays out of the table. */
  lemma {:induction false} FailedWriteIsLostIff(cfg: Webhooks.Config, h: Hub, e: Event)
    requires Fails(cfg, h, e)
    ensures Routed(cfg, e) && RouteOf(cfg, e).datatypeName in cfg.datatypes
    ensures var h' := Handle(cfg, h, e).0;
      var again := Handle(cfg, h', e.(writeFails := false));
      && (again.1.Stored? <==> e.eventId.None? && FilterKey(cfg, e).None?)
      && (!again.1.Stored? ==> again.0 == h' && h'.tables == h.tables && (again.1 == Duplicate || again.1 == StaleDiscarded))
  {
    RedeliveryStoresIff(cfg, h, e, []);
    if e.stamp.Some? { SelfNotNewer(e.stamp.value); }
  }
}
