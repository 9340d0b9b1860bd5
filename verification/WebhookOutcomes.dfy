/** What becomes of any webhook event whatever: its response, and what it leaves in the three tables. */
module WebhookOutcomes {
  import opened Wrappers
  import opened SourceTable
  import opened SyncEngine
  import opened Webhooks
  import Ordering

  // ---------------------------------------------------------------- the route

  ghost predicate FirstAt(routes: seq<Route>, value: string, i: int) {
    0 <= i < |routes| && routes[i].prefix <= value && forall j :: 0 <= j < i ==> !(routes[j].prefix <= value)
  }

  /** `r` is the first route whose text the discriminator begins with. */
  ghost predicate FirstMatch(cfg: Webhooks.Config, e: Event, r: Route) {
    cfg.fanOut.Some? && exists i :: FirstAt(cfg.fanOut.value.routes, e.discriminator, i) && cfg.fanOut.value.routes[i] == r
  }

  ghost predicate NoMatch(cfg: Webhooks.Config, e: Event) {
    cfg.fanOut.Some? && forall i :: 0 <= i < |cfg.fanOut.value.routes| ==>
      !(cfg.fanOut.value.routes[i].prefix <= e.discriminator)
  }

  lemma {:induction false} FirstRouteIsFirst(routes: seq<Route>, value: string) returns (i: nat)
    ensures FirstRoute(routes, value) == (if i < |routes| then Some(routes[i]) else None)
    ensures FirstAt(routes, value, i) || (i == |routes| && forall j :: 0 <= j < i ==> !(routes[j].prefix <= value))
  {
    if routes == [] || routes[0].prefix <= value {
      i := 0;
    } else {
      i := FirstRouteIsFirst(routes[1..], value);
      assert forall j :: 0 < j < |routes| ==> routes[1..][j - 1] == routes[j];
      i := i + 1;
    }
  }

  lemma {:induction false} FirstUnique(routes: seq<Route>, value: string, i: int, j: int)
    requires FirstAt(routes, value, i) && FirstAt(routes, value, j)
    ensures i == j
  {
  }

  lemma {:induction false} MatchIsRoute(cfg: Webhooks.Config, e: Event, r: Route)
    ensures FirstMatch(cfg, e, r) <==>
      cfg.fanOut.Some? && FirstRoute(cfg.fanOut.value.routes, e.discriminator) == Some(r)
  {
    if cfg.fanOut.Some? {
      var i := FirstRouteIsFirst(cfg.fanOut.value.routes, e.discriminator);
      if j :| FirstAt(cfg.fanOut.value.routes, e.discriminator, j) && cfg.fanOut.value.routes[j] == r {
        if i < |cfg.fanOut.value.routes| { FirstUnique(cfg.fanOut.value.routes, e.discriminator, i, j); }
      }
    }
  }

  // ---------------------------------------------------------------- what decides

  ghost predicate Repeated(h: Hub, e: Event) {
    e.eventId.Some? && e.eventId.value in h.seen
  }

  /** The event asks for a fetch and brings no data; deletions never do. */
  ghost predicate AsksForFetch(cfg: Webhooks.Config, r: Route)
    requires r.datatypeName in cfg.datatypes
  {
    !r.isDelete && (r.notificationOnly || cfg.datatypes[r.datatypeName].notification)
  }

  /** The datatype is ordered, and the event has a sequence value and an id. */
  ghost predicate Sequenced(cfg: Webhooks.Config, e: Event, r: Route)
    requires r.datatypeName in cfg.datatypes
  {
    var d := cfg.datatypes[r.datatypeName];
    d.ordered && e.stamp.Some? && ExtractId(e.payload, d.key).Some?
  }

  ghost function KeyFor(cfg: Webhooks.Config, e: Event, r: Route): SeqKey
    requires r.datatypeName in cfg.datatypes && Sequenced(cfg, e, r)
  {
    SeqKey(r.datatypeName, r.prefix, ExtractId(e.payload, cfg.datatypes[r.datatypeName].key).value)
  }

  /** As numbers if both are, else as texts. */
  ghost predicate AtMost(x: Stamp, y: Stamp) {
    if x.number.Some? && y.number.Some? then x.number.value <= y.number.value
    else x.text == y.text || Ordering.StrLess(x.text, y.text)
  }

  /** Its route has stored a value that is as great for the record already. */
  ghost predicate Overtaken(cfg: Webhooks.Config, h: Hub, e: Event, r: Route)
    requires r.datatypeName in cfg.datatypes
  {
    Sequenced(cfg, e, r) && KeyFor(cfg, e, r) in h.lastSeq && AtMost(e.stamp.value, h.lastSeq[KeyFor(cfg, e, r)])
  }

  /** The payload stored; a deletion is marked in it. */
  ghost function Payload(e: Event, r: Route): Record {
    if r.isDelete then e.payload["_deleted" := Scalar(1, "True")] else e.payload
  }

  ghost function PayloadId(cfg: Webhooks.Config, e: Event, r: Route): Option<string>
    requires r.datatypeName in cfg.datatypes
  {
    ExtractId(Payload(e, r), cfg.datatypes[r.datatypeName].key)
  }

  /** New, for a configured datatype, with data, and not overtaken: the event gets to the table. */
  ghost predicate Admitted(cfg: Webhooks.Config, h: Hub, e: Event, r: Route) {
    !Repeated(h, e) && r.datatypeName in cfg.datatypes && !AsksForFetch(cfg, r) && !Overtaken(cfg, h, e, r)
  }

  /** An event with data goes through the filter and on to the table. */
  lemma {:induction false} WithData(cfg: Webhooks.Config, h: Hub, e: Event, r: Route)
    requires FirstMatch(cfg, e, r) && !Repeated(h, e) && r.datatypeName in cfg.datatypes && !AsksForFetch(cfg, r)
    ensures var d, h1 := cfg.datatypes[r.datatypeName], h.(seen := h.seen + if e.eventId.Some? then {e.eventId.value} else {});
      var (h2, newer) := Filter(h1, d, r, e);
      Handle(cfg, h, e) == if newer then Store(h2, d, r, e) else (h2, StaleDiscarded)
  {
    MatchIsRoute(cfg, e, r);
    assert e.eventId.None? ==> h.seen + {} == h.seen;
  }

  lemma {:induction false} FilterDecides(cfg: Webhooks.Config, h: Hub, e: Event, r: Route)
    requires r.datatypeName in cfg.datatypes
    ensures var (h', newer) := Filter(h, cfg.datatypes[r.datatypeName], r, e);
      && (newer <==> !Overtaken(cfg, h, e, r)) && h'.tables == h.tables && h'.seen == h.seen
      && h'.lastSeq == (if Sequenced(cfg, e, r) && !Overtaken(cfg, h, e, r)
                        then h.lastSeq[KeyFor(cfg, e, r) := e.stamp.value] else h.lastSeq)
  {
  }

  // ---------------------------------------------------------------- the response

  /** An event that no route takes. */
  lemma {:induction false} UnroutedResponse(cfg: Webhooks.Config, h: Hub, e: Event)
    requires cfg.fanOut.None? || NoMatch(cfg, e)
    ensures var (h', response) := Handle(cfg, h, e);
      && response == (if Repeated(h, e) then Duplicate
                      else if cfg.fanOut.None? || cfg.fanOut.value.rejectUnmatched then Rejected400 else Discarded)
      && h'.tables == h.tables && h'.lastSeq == h.lastSeq
  {
    if cfg.fanOut.Some? {
      var i := FirstRouteIsFirst(cfg.fanOut.value.routes, e.discriminator);
    }
  }

  /** An event whose first route is `r`: each response, exactly when. */
  lemma {:induction false} ResponseIff(cfg: Webhooks.Config, h: Hub, e: Event, r: Route)
    requires FirstMatch(cfg, e, r)
    ensures var response := Handle(cfg, h, e).1;
      && (response.Duplicate? <==> Repeated(h, e))
      && (response.Rejected400? <==> !Repeated(h, e) && r.datatypeName !in cfg.datatypes)
      && (response.Notified? <==> !Repeated(h, e) && r.datatypeName in cfg.datatypes && AsksForFetch(cfg, r))
      && (response.StaleDiscarded? <==>
            !Repeated(h, e) && r.datatypeName in cfg.datatypes && !AsksForFetch(cfg, r) && Overtaken(cfg, h, e, r))
      && (response.NoExternalId? <==> Admitted(cfg, h, e, r) && PayloadId(cfg, e, r).None?)
      && (response.UpsertFailed? <==> Admitted(cfg, h, e, r) && PayloadId(cfg, e, r).Some? && e.writeFails)
      && (response.Stored? <==> Admitted(cfg, h, e, r) && PayloadId(cfg, e, r).Some? && !e.writeFails)
  {
    MatchIsRoute(cfg, e, r);
  }

  // ---------------------------------------------------------------- the tables

  /** The live row that the event leaves, whose data a row with the same hash keeps. */
  ghost predicate LeavesRow(t: Table, t': Table, id: string, p: Record) {
    && t'.Keys == t.Keys + {id} && (forall other :: other in t && other != id ==> t'[other] == t[other])
    && t'[id] == Row(if id in t && t[id].hash == RawHash(p) then t[id].data else p, RawHash(p), false)
  }

  lemma {:induction false} UpsertLeaves(t: Table, id: string, p: Record)
    ensures var w := Upsert(t, Accepted(id, p));
      && LeavesRow(t, w.table, id, p)
      && w.inserted == (if id in t then 0 else 1)
      && w.updated == (if id in t && t[id].hash != RawHash(p) then 1 else 0)
  {
  }

  ghost predicate Storable(cfg: Webhooks.Config, h: Hub, e: Event, r: Route) {
    Admitted(cfg, h, e, r) && PayloadId(cfg, e, r).Some? && !e.writeFails
  }

  /** Only a stored event changes a table, and in it only its row; it counts as inserted if there was none, and as
      updated if there was one with another hash. */
  lemma {:induction false} StoredRow(cfg: Webhooks.Config, h: Hub, e: Event, r: Route)
    requires FirstMatch(cfg, e, r) && Storable(cfg, h, e, r)
    ensures var (h', response) := Handle(cfg, h, e);
      var id, t := PayloadId(cfg, e, r).value, TableOf(h, r.datatypeName);
      && h'.tables.Keys == h.tables.Keys + {r.datatypeName}
      && (forall name :: name in h.tables && name != r.datatypeName ==> h'.tables[name] == h.tables[name])
      && LeavesRow(t, h'.tables[r.datatypeName], id, Payload(e, r))
      && response == Stored(if id in t then 0 else 1, if id in t && t[id].hash != RawHash(Payload(e, r)) then 1 else 0)
  {
    var h1 := h.(seen := h.seen + if e.eventId.Some? then {e.eventId.value} else {});
    WithData(cfg, h, e, r);
    FilterDecides(cfg, h1, e, r);
    UpsertLeaves(TableOf(h, r.datatypeName), PayloadId(cfg, e, r).value, Payload(e, r));
  }

  lemma {:induction false} NothingStored(cfg: Webhooks.Config, h: Hub, e: Event, r: Route)
    requires FirstMatch(cfg, e, r) && !Storable(cfg, h, e, r)
    ensures Handle(cfg, h, e).0.tables == h.tables
  {
    MatchIsRoute(cfg, e, r);
  }

  /** A sequence value is stored exactly for a sequenced event that is admitted, whether or not its write succeeds; and
      every event id is remembered. */
  lemma {:induction false} Remembered(cfg: Webhooks.Config, h: Hub, e: Event, r: Route)
    requires FirstMatch(cfg, e, r)
    ensures var h' := Handle(cfg, h, e).0;
      && h'.lastSeq == (if Admitted(cfg, h, e, r) && Sequenced(cfg, e, r) then h.lastSeq[KeyFor(cfg, e, r) := e.stamp.value]
                        else h.lastSeq)
      && h'.seen == h.seen + (if e.eventId.Some? then {e.eventId.value} else {})
  {
    MatchIsRoute(cfg, e, r);
    if !Repeated(h, e) && r.datatypeName in cfg.datatypes && !AsksForFetch(cfg, r) {
      var h1 := h.(seen := h.seen + if e.eventId.Some? then {e.eventId.value} else {});
      WithData(cfg, h, e, r);
      FilterDecides(cfg, h1, e, r);
    }
  }
}
