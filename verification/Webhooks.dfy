/** One webhook event on its way to the source table: deduplication, routing, the stale-event filter and the
    upsert of `_handle_single_event` in engine/src/inandout/ingestion/webhooks.py. */
module Webhooks {
  import opened Wrappers
  import opened SourceTable
  import opened SyncEngine
  import Ordering

  /** A sequence or timestamp value: its `str()`, and what `float()` makes of it if it parses. */
  datatype Stamp = Stamp(text: string, number: Option<real>)

  /** `payload_ts <= stored_seq`: numerically if both parse, else as text. */
  predicate Stale(x: Stamp, stored: Stamp) {
    if x.number.Some? && stored.number.Some? then x.number.value <= stored.number.value
    else Ordering.StrLeq(x.text, stored.text)
  }

  datatype Route = Route(prefix: string, datatypeName: string, isDelete: bool, notificationOnly: bool)

  datatype FanOut = FanOut(routes: seq<Route>, rejectUnmatched: bool)

  datatype DatatypeConfig = DatatypeConfig(key: PrimaryKey, ordered: bool, notification: bool)

  datatype Config = Config(fanOut: Option<FanOut>, datatypes: map<string, DatatypeConfig>)

  /** `eventId` is absent when the field is not configured or not in the payload, `stamp` likewise;
      `writeFails` says whether the final upsert raises. */
  datatype Event = Event(eventId: Option<string>, discriminator: string, payload: Record, stamp: Option<Stamp>,
                         writeFails: bool)

  datatype SeqKey = SeqKey(datatypeName: string, route: string, externalId: string)

  /** The three tables of one connector. */
  datatype Hub = Hub(seen: set<string>, lastSeq: map<SeqKey, Stamp>, tables: map<string, Table>)

  datatype Response = Duplicate | Rejected400 | Discarded | Notified | StaleDiscarded | NoExternalId
                    | Stored(inserted: nat, updated: nat) | UpsertFailed

  // ---------------------------------------------------------------- routing

  predicate Matches(r: Route, value: string) {
    r.prefix <= value
  }

  function FirstRoute(routes: seq<Route>, value: string): Option<Route> {
    if routes == [] then None
    else if Matches(routes[0], value) then Some(routes[0])
    else FirstRoute(routes[1..], value)
  }

  /** The second loop over the routes, which also asks for the datatype already chosen. */
  function RouteFor(routes: seq<Route>, value: string, datatypeName: string): Option<Route> {
    if routes == [] then None
    else if Matches(routes[0], value) && routes[0].datatypeName == datatypeName then Some(routes[0])
    else RouteFor(routes[1..], value, datatypeName)
  }

  /** It finds the very route that decided the datatype. */
  lemma {:induction false} SecondLookupAgrees(routes: seq<Route>, value: string)
    ensures var r := FirstRoute(routes, value);
      r.Some? ==> RouteFor(routes, value, r.value.datatypeName) == r
  {
    if routes != [] { SecondLookupAgrees(routes[1..], value); }
  }

  // ---------------------------------------------------------------- one event

  const TRUE := Scalar(1, "True")

  /** A delete route marks the payload it stores. */
  function Annotate(r: Route, payload: Record): Record {
    if r.isDelete then payload["_deleted" := TRUE] else payload
  }

  function TableOf(h: Hub, name: string): Table {
    if name in h.tables then h.tables[name] else map[]
  }

  /** The stale filter: a stamped event with an id must be newer than the last one on its route. */
  function Filter(h: Hub, d: DatatypeConfig, r: Route, e: Event): (Hub, bool) {
    var id := ExtractId(e.payload, d.key);
    if d.ordered && e.stamp.Some? && id.Some? then
      var k := SeqKey(r.datatypeName, r.prefix, id.value);
      if k in h.lastSeq && Stale(e.stamp.value, h.lastSeq[k]) then (h, false)
      else (h.(lastSeq := h.lastSeq[k := e.stamp.value]), true)
    else (h, true)
  }

  function Store(h: Hub, d: DatatypeConfig, r: Route, e: Event): (Hub, Response) {
    var payload := Annotate(r, e.payload);
    var id := ExtractId(payload, d.key);
    if id.None? then (h, NoExternalId)
    else if e.writeFails then (h, UpsertFailed)
    else
      var w := Upsert(TableOf(h, r.datatypeName), Accepted(id.value, payload));
      (h.(tables := h.tables[r.datatypeName := w.table]), Stored(w.inserted, w.updated))
  }

  function Process(cfg: Config, h: Hub, e: Event): (Hub, Response) {
    if cfg.fanOut.None? then (h, Rejected400)
    else
      var r := FirstRoute(cfg.fanOut.value.routes, e.discriminator);
      if r.None? then (h, if cfg.fanOut.value.rejectUnmatched then Rejected400 else Discarded)
      else if r.value.datatypeName !in cfg.datatypes then (h, Rejected400)
      else
        var d := cfg.datatypes[r.value.datatypeName];
        if !r.value.isDelete && (d.notification || r.value.notificationOnly) then (h, Notified)
        else
          var f := Filter(h, d, r.value, e);
          if !f.1 then (f.0, StaleDiscarded) else Store(f.0, d, r.value, e)
  }

  function Handle(cfg: Config, h: Hub, e: Event): (Hub, Response) {
    if e.eventId.Some? then
      if e.eventId.value in h.seen then (h, Duplicate)
      else Process(cfg, h.(seen := h.seen + {e.eventId.value}), e)
    else Process(cfg, h, e)
  }

  class Handler {
    const cfg: Config
    var seen: set<string>
    var lastSeq: map<SeqKey, Stamp>
    var tables: map<string, Table>

    ghost function Now(): Hub
      reads this
    {
      Hub(seen, lastSeq, tables)
    }

    /** `_route_event`, and the loop that recovers the route object. */
    method FindRoute(routes: seq<Route>, value: string) returns (r: Option<Route>)
      ensures r == FirstRoute(routes, value)
    {
      var i, name := 0, None;
      while i < |routes| && name.None?
        invariant 0 <= i <= |routes|
        invariant name.None? ==> FirstRoute(routes, value) == FirstRoute(routes[i..], value)
        invariant name.Some? ==> FirstRoute(routes, value).Some? && FirstRoute(routes, value).value.datatypeName == name.value
      {
        if Matches(routes[i], value) { name := Some(routes[i].datatypeName); }
        i := i + 1;
      }
      if name.None? { return None; }
      SecondLookupAgrees(routes, value);
      i := 0;
      while i < |routes|
        invariant 0 <= i <= |routes|
        invariant RouteFor(routes, value, name.value) == RouteFor(routes[i..], value, name.value)
      {
        if Matches(routes[i], value) && routes[i].datatypeName == name.value { return Some(routes[i]); }
        i := i + 1;
      }
      return None;
    }

    method HandleEvent(e: Event) returns (response: Response)
      modifies this
      ensures (Now(), response) == Handle(cfg, old(Now()), e)
    {
      if e.eventId.Some? {
        if e.eventId.value in seen { return Duplicate; }
        seen := seen + {e.eventId.value};
      }
      if cfg.fanOut.None? { return Rejected400; }
      var route := FindRoute(cfg.fanOut.value.routes, e.discriminator);
      if route.None? {
        return if cfg.fanOut.value.rejectUnmatched then Rejected400 else Discarded;
      }
      var r := route.value;
      if r.datatypeName !in cfg.datatypes { return Rejected400; }
      var d := cfg.datatypes[r.datatypeName];
      if !r.isDelete && (d.notification || r.notificationOnly) { return Notified; }
      var newer := FilterEvent(d, r, e);
      if !newer { return StaleDiscarded; }
      response := StoreEvent(d, r, e);
    }

    /** The stale filter: compares and then remembers the sequence value. */
    method FilterEvent(d: DatatypeConfig, r: Route, e: Event) returns (newer: bool)
      modifies this
      ensures (Now(), newer) == Filter(old(Now()), d, r, e)
    {
      var id := ExtractId(e.payload, d.key);
      if d.ordered && e.stamp.Some? && id.Some? {
        var k := SeqKey(r.datatypeName, r.prefix, id.value);
        if k in lastSeq && Stale(e.stamp.value, lastSeq[k]) { return false; }
        lastSeq := lastSeq[k := e.stamp.value];
      }
      return true;
    }

    method StoreEvent(d: DatatypeConfig, r: Route, e: Event) returns (response: Response)
      modifies this
      ensures (Now(), response) == Store(old(Now()), d, r, e)
    {
      var payload := Annotate(r, e.payload);
      var id := ExtractId(payload, d.key);
      if id.None? { return NoExternalId; }
      if e.writeFails { return UpsertFailed; }
      var rows := if r.datatypeName in tables then tables[r.datatypeName] else map[];
      var table, inserted, updated, resurrected := UpsertRecord(rows, Accepted(id.value, payload));
      tables := tables[r.datatypeName := table];
      return Stored(inserted, updated);
    }
  }
}
