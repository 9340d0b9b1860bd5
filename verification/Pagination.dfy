/** Listing walks: the pages served by engine/src/inandout/stubs/generic.py and
    simulator/src/inandout_simulator/route_builder.py, followed by the client loops of
    engine/src/inandout/transport/http.py. */
module Pagination {
  import opened Wrappers
  import opened Ordering

  // ---------------------------------------------------------------- decimal cursors

  function DigitChar(d: nat): char
    requires d < 10
  {
    "0123456789"[d]
  }

  predicate IsDigit(c: char) {
    '0' <= c <= '9'
  }

  /** `str(n)`. */
  function Digits(n: nat): (s: string)
    ensures s != ""
  {
    if n < 10 then [DigitChar(n)] else Digits(n / 10) + [DigitChar(n % 10)]
  }

  predicate AllDigits(s: string) {
    s != "" && forall i :: 0 <= i < |s| ==> IsDigit(s[i])
  }

  /** `int(s)` for a text of ASCII digits. */
  function Parse(s: string): nat
    requires forall i :: 0 <= i < |s| ==> IsDigit(s[i])
  {
    if s == "" then 0
    else
      assert IsDigit(s[|s| - 1]);
      10 * Parse(s[..|s| - 1]) + (s[|s| - 1] as int - '0' as int)
  }

  lemma {:induction false} ParseInvertsDigits(n: nat)
    ensures AllDigits(Digits(n)) && Parse(Digits(n)) == n
  {
    if n < 10 {
      assert Digits(n)[..0] == "";
    } else {
      ParseInvertsDigits(n / 10);
      var front := Digits(n / 10);
      assert Digits(n)[..|front|] == front;
    }
  }

  /** `str(n)` of any integer. */
  function IntText(n: int): string {
    if n < 0 then "-" + Digits(-n) else Digits(n)
  }

  /** The texts that `int` takes, as far as cursors go: digits, with at most one minus sign. */
  predicate IsIntText(s: string) {
    AllDigits(s) || (s != "" && s[0] == '-' && AllDigits(s[1..]))
  }

  function ParseInt(s: string): int
    requires IsIntText(s)
  {
    var n: int := if AllDigits(s) then Parse(s) else Parse(s[1..]);
    if AllDigits(s) then n else -n
  }

  /** `lstrip("-")`. */
  function StripDashes(s: string): string {
    if s != "" && s[0] == '-' then StripDashes(s[1..]) else s
  }

  lemma {:induction false} ParseIntInverts(n: int)
    ensures IsIntText(IntText(n)) && ParseInt(IntText(n)) == n
  {
    var k: nat := if n < 0 then -n else n;
    var d := Digits(k);
    ParseInvertsDigits(k);
    if n < 0 {
      DashedText(d);
      assert IntText(n) == "-" + d;
    } else {
      PlainText(d);
      assert IntText(n) == d;
    }
  }

  lemma {:induction false} PlainText(d: string)
    requires AllDigits(d)
    ensures IsIntText(d) && ParseInt(d) == Parse(d)
  {
  }

  lemma {:induction false} DashedText(d: string)
    requires AllDigits(d)
    ensures IsIntText("-" + d) && ParseInt("-" + d) + Parse(d) == 0
  {
    var s := "-" + d;
    assert s[1..] == d && !IsDigit(s[0]);
  }

  lemma {:induction false} StripIntText(s: string)
    requires IsIntText(s)
    ensures AllDigits(StripDashes(s))
  {
    if AllDigits(s) {
      assert IsDigit(s[0]);
    } else {
      assert IsDigit(s[1..][0]);
    }
  }

  // ---------------------------------------------------------------- the server

  /** `records[offset : offset + size]` for an offset that is not negative. */
  function Slice<T>(records: seq<T>, offset: nat, size: nat): seq<T> {
    var lo := if offset < |records| then offset else |records|;
    var hi := if offset + size < |records| then offset + size else |records|;
    records[lo..hi]
  }

  /** A bound of a Python slice: negative ones count from the end. */
  function SliceBound(n: int, length: nat): nat {
    if n >= length then length else if n >= 0 then n else if n + length >= 0 then n + length else 0
  }

  /** `records[offset : offset + size]` for any offset. */
  function AnySlice<T>(records: seq<T>, offset: int, size: nat): seq<T> {
    var lo, hi := SliceBound(offset, |records|), SliceBound(offset + size, |records|);
    if lo <= hi then records[lo..hi] else []
  }

  /** From `back` records before the end: within the list, across its end, and from before its beginning. */
  lemma {:induction false} NegativeSlice<T>(records: seq<T>, back: nat, size: nat)
    requires back > 0
    ensures var n: nat, page := |records|, AnySlice(records, -(back as int), size);
      && (size < back <= n ==> page == records[n - back..n - back + size])
      && (back <= size <= n ==> page == [])
      && (back <= n < size ==> page == records[n - back..if size - back < n then size - back else n])
      && (n < back <= size ==> page == records[..if size - back < n then size - back else n])
      && (n < back && size < back ==> page == records[..if back - size < n then n - (back - size) else 0])
  {
  }

  datatype Page<T> = Page(items: seq<T>, next: Option<string>)

  /** The offset a cursor text stands for: texts that are not digits behind dashes start over, and `int` raises on
      more than one dash. */
  function CursorOffset(raw: Option<string>): Option<int> {
    if raw.None? || !AllDigits(StripDashes(raw.value)) then Some(0)
    else if IsIntText(raw.value) then Some(ParseInt(raw.value))
    else None
  }

  function Dashes(k: nat): string {
    if k == 0 then "" else "-" + Dashes(k - 1)
  }

  lemma {:induction false} StripsAll(k: nat, rest: string)
    requires rest == "" || rest[0] != '-'
    ensures StripDashes(Dashes(k) + rest) == rest
  {
    if k == 0 {
      assert Dashes(k) + rest == rest;
    } else {
      StripsAll(k - 1, rest);
      assert (Dashes(k) + rest)[1..] == Dashes(k - 1) + rest;
    }
  }

  /** Digits behind no dash or one are a number of either sign, behind more they raise; anything else starts over. */
  lemma {:induction false} CursorOffsetDecides(k: nat, rest: string)
    requires rest == "" || rest[0] != '-'
    ensures CursorOffset(None) == Some(0)
    ensures CursorOffset(Some(Dashes(k) + rest)) ==
      if !AllDigits(rest) then Some(0)
      else if k == 0 then Some(Parse(rest)) else if k == 1 then Some(-(Parse(rest) as int)) else None
  {
    StripsAll(k, rest);
    var s := Dashes(k) + rest;
    if k == 0 {
      assert s == rest;
    } else {
      assert s[0] == '-' && s[1..] == Dashes(k - 1) + rest;
      if k == 1 { assert s[1..] == rest && s == "-" + rest; }
      if k > 1 { assert s[1..][0] == '-'; }
      if AllDigits(rest) && k == 1 { DashedText(rest); }
    }
  }

  class Server<T> {
    const records: seq<T>
    var cursors: map<string, int>

    /** The stored cursors say what parsing their text says. */
    ghost predicate Valid()
      reads this
    {
      forall c :: c in cursors ==> IsIntText(c) && cursors[c] == ParseInt(c)
    }

    constructor (records: seq<T>)
      ensures Valid() && this.records == records && cursors == map[]
    {
      this.records := records;
      cursors := map[];
    }

    /** `_paginate` and `_build_page` for the cursor strategy; nothing is returned when the cursor text raises. */
    method List(raw: Option<string>, size: nat) returns (page: Option<Page<T>>)
      requires Valid()
      modifies this`cursors
      ensures Valid()
      ensures page.None? <==> CursorOffset(raw).None?
      ensures page.None? ==> cursors == old(cursors)
      ensures page.Some? ==>
        var offset := CursorOffset(raw).value;
        && page.value.items == AnySlice(records, offset, size)
        && page.value.next == (if offset + size < |records| then Some(IntText(offset + size)) else None)
        && cursors == (if offset + size < |records| then old(cursors)[IntText(offset + size) := offset + size] else old(cursors))
    {
      var offset: int := 0;
      if raw.Some? && raw.value in cursors {
        StripIntText(raw.value);
        offset := cursors[raw.value];
      } else if raw.Some? && AllDigits(StripDashes(raw.value)) {
        if !IsIntText(raw.value) { return None; }
        offset := ParseInt(raw.value);
      }
      var next := offset + size;
      if next < |records| {
        ParseIntInverts(next);
        cursors := cursors[IntText(next) := next];
        return Some(Page(AnySlice(records, offset, size), Some(IntText(next))));
      }
      return Some(Page(AnySlice(records, offset, size), None));
    }
  }

  // ---------------------------------------------------------------- the cursor walk

  /** The pages of a walk that follows the cursors from `offset` on, until a page is empty or names no next one. */
  function CursorWalk<T>(records: seq<T>, size: nat, offset: nat): seq<seq<T>>
    requires size > 0
    decreases if offset < |records| then |records| - offset else 0
  {
    var page := Slice(records, offset, size);
    if page == [] || offset + size >= |records| then [page]
    else [page] + CursorWalk(records, size, offset + size)
  }

  lemma {:induction false} CursorWalkUnfold<T>(records: seq<T>, size: nat, offset: nat)
    requires size > 0
    ensures var page := Slice(records, offset, size);
      CursorWalk(records, size, offset) ==
      [page] + if page == [] || offset + size >= |records| then [] else CursorWalk(records, size, offset + size)
  {
  }

  /** What the client sends to get the page that starts at `offset`. */
  ghost predicate PointsTo(cursor: Option<string>, offset: nat) {
    if cursor.None? then offset == 0 else AllDigits(cursor.value) && Parse(cursor.value) == offset
  }

  method RequestPage<T>(server: Server<T>, size: nat, cursor: Option<string>, ghost offset: nat) returns (page: Page<T>)
    requires server.Valid() && PointsTo(cursor, offset)
    modifies server`cursors
    ensures server.Valid() && page.items == Slice(server.records, offset, size)
    ensures page.next.Some? <==> offset + size < |server.records|
    ensures page.next.Some? ==> PointsTo(page.next, offset + size)
  {
    if cursor.Some? { StripIntText(cursor.value); }
    var reply := server.List(cursor, size);
    page := reply.value;
    ParseInvertsDigits(offset + size);
  }

  /** The client: each returned cursor goes into the next request. */
  method FollowCursors<T>(server: Server<T>, size: nat) returns (pages: seq<seq<T>>)
    requires server.Valid() && size > 0
    modifies server`cursors
    ensures server.Valid() && pages == CursorWalk(server.records, size, 0)
  {
    pages := [];
    var cursor: Option<string> := None;
    ghost var offset: nat := 0;
    while true
      invariant server.Valid() && PointsTo(cursor, offset)
      invariant pages + CursorWalk(server.records, size, offset) == CursorWalk(server.records, size, 0)
      decreases |server.records| - offset
    {
      CursorWalkUnfold(server.records, size, offset);
      var page := RequestPage(server, size, cursor, offset);
      pages := pages + [page.items];
      if page.items == [] || page.next.None? { return; }
      cursor := page.next;
      offset := offset + size;
    }
  }

  function Flatten<T>(pages: seq<seq<T>>): seq<T> {
    if pages == [] then [] else pages[0] + Flatten(pages[1..])
  }

  /** The pages put together are the list. */
  lemma {:induction false} CursorWalkComplete<T>(records: seq<T>, size: nat, offset: nat)
    requires size > 0 && offset <= |records|
    ensures Flatten(CursorWalk(records, size, offset)) == records[offset..]
    decreases |records| - offset
  {
    var pages, page := CursorWalk(records, size, offset), Slice(records, offset, size);
    if page == [] || offset + size >= |records| {
      assert pages[1..] == [] && page == records[offset..];
    } else {
      CursorWalkComplete(records, size, offset + size);
      assert pages[1..] == CursorWalk(records, size, offset + size);
      assert page + records[offset + size..] == records[offset..];
    }
  }

  /** There are max(1, ceil(n / size)) pages. */
  lemma {:induction false} CursorWalkLength<T>(records: seq<T>, size: nat, offset: nat)
    requires size > 0 && offset <= |records|
    ensures var count, left := |CursorWalk(records, size, offset)|, |records| - offset;
      && count >= 1 && left <= count * size
      && (count > 1 ==> (count - 1) * size < left)
    decreases |records| - offset
  {
    var page := Slice(records, offset, size);
    if page != [] && offset + size < |records| {
      CursorWalkLength(records, size, offset + size);
      var count := |CursorWalk(records, size, offset + size)|;
      assert (count + 1) * size == count * size + size && count * size == (count - 1) * size + size;
    }
  }

  // ---------------------------------------------------------------- offset and page-number walks

  /** The client advances by what it received and stops at a page shorter than the size it asked for; the server
      cuts pages of its own size. */
  function OffsetWalk<T>(records: seq<T>, server: nat, client: nat, offset: nat): seq<seq<T>>
    requires server > 0 && client > 0
    decreases if offset < |records| then |records| - offset else 0
  {
    var page := Slice(records, offset, server);
    if |page| < client then [page] else [page] + OffsetWalk(records, server, client, offset + |page|)
  }

  /** The same, asking for page numbers. */
  function PageNumberWalk<T>(records: seq<T>, server: nat, client: nat, page: nat): seq<seq<T>>
    requires server > 0 && client > 0 && page > 0
    decreases if (page - 1) * server < |records| then |records| - (page - 1) * server else 0
  {
    NextPageOffset(page, server);
    var items := Slice(records, (page - 1) * server, server);
    if |items| < client then [items] else [items] + PageNumberWalk(records, server, client, page + 1)
  }

  lemma {:induction false} NextPageOffset(page: nat, size: nat)
    requires page > 0
    ensures page * size == (page - 1) * size + size
    ensures (page - 1) * size >= 0
  {
  }

  lemma {:induction false} OffsetWalkEnds<T>(records: seq<T>, server: nat, client: nat, offset: nat)
    requires server > 0 && client > 0 && offset >= |records|
    ensures OffsetWalk(records, server, client, offset) == [[]]
  {
  }

  /** Both walks see the same pages. */
  lemma {:induction false} PageNumbersAreOffsets<T>(records: seq<T>, server: nat, client: nat, page: nat)
    requires server > 0 && client > 0 && page > 0
    ensures PageNumberWalk(records, server, client, page) == OffsetWalk(records, server, client, (page - 1) * server)
    decreases if (page - 1) * server < |records| then |records| - (page - 1) * server else 0
  {
    NextPageOffset(page, server);
    var offset := (page - 1) * server;
    var items := Slice(records, offset, server);
    if |items| >= client {
      PageNumbersAreOffsets(records, server, client, page + 1);
      if |items| < server {
        OffsetWalkEnds(records, server, client, offset + |items|);
        OffsetWalkEnds(records, server, client, page * server);
      }
    }
  }

  /** When both sides use the same size it is the cursor walk, plus one empty page if the last one was full. */
  lemma {:induction false} OffsetWalkIsCursorWalk<T>(records: seq<T>, size: nat, offset: nat)
    requires size > 0 && offset <= |records|
    ensures var pages := CursorWalk(records, size, offset);
      OffsetWalk(records, size, size, offset) == pages + if |pages[|pages| - 1]| == size then [[]] else []
    decreases |records| - offset
  {
    var page := Slice(records, offset, size);
    if page != [] && offset + size < |records| {
      OffsetWalkIsCursorWalk(records, size, offset + size);
      var rest := CursorWalk(records, size, offset + size);
      assert ([page] + rest)[|rest|] == rest[|rest| - 1];
    } else if |page| == size {
      OffsetWalkEnds(records, size, size, offset + size);
    }
  }

  lemma {:induction false} OffsetWalkComplete<T>(records: seq<T>, server: nat, client: nat, offset: nat)
    requires client > 0 && server >= client && offset <= |records|
    ensures Flatten(OffsetWalk(records, server, client, offset)) == records[offset..]
    decreases |records| - offset
  {
    var page := Slice(records, offset, server);
    var pages := OffsetWalk(records, server, client, offset);
    if |page| < client {
      assert pages[1..] == [] && page == records[offset..];
    } else {
      OffsetWalkComplete(records, server, client, offset + |page|);
      assert pages[1..] == OffsetWalk(records, server, client, offset + |page|);
      assert page + records[offset + |page|..] == records[offset..];
    }
  }

  /** The walk returns the whole list exactly when the server's pages are not shorter than the client expects, or
      one server page holds everything. */
  lemma {:induction false} OffsetWalkCompleteIff<T>(records: seq<T>, server: nat, client: nat)
    requires server > 0 && client > 0
    ensures Flatten(OffsetWalk(records, server, client, 0)) == records <==> server >= client || |records| <= server
  {
    if server >= client {
      OffsetWalkComplete(records, server, client, 0);
    } else {
      var pages := OffsetWalk(records, server, client, 0);
      assert pages == [Slice(records, 0, server)] && pages[1..] == [];
    }
  }

  // ---------------------------------------------------------------- the keyset walk

  ghost predicate StrictlySorted(keys: seq<string>) {
    forall i, j :: 0 <= i < j < |keys| ==> StrLess(keys[i], keys[j])
  }

  /** `[r for r in all_records if str(key) > after]`, on the keys. */
  function Beyond(keys: seq<string>, after: string): seq<string> {
    if keys == [] then []
    else (if StrLess(after, keys[0]) then [keys[0]] else []) + Beyond(keys[1..], after)
  }

  /** `if after:` lets both None and the empty text through unfiltered. */
  function KeysetPage(keys: seq<string>, size: nat, after: Option<string>): seq<string> {
    Slice(if after.Some? && after.value != "" then Beyond(keys, after.value) else keys, 0, size)
  }

  lemma {:induction false} BeyondIsTail(keys: seq<string>, i: nat)
    requires StrictlySorted(keys) && i < |keys|
    ensures Beyond(keys, keys[i]) == keys[i + 1..]
  {
    StrLessTotal(keys[i], keys[0]);
    if i == 0 {
      assert !StrLess(keys[0], keys[0]) by { StrLessTotal(keys[0], keys[0]); }
      AllBeyond(keys[1..], keys[0]);
    } else {
      assert keys[1..][i - 1] == keys[i];
      BeyondIsTail(keys[1..], i - 1);
    }
  }

  lemma {:induction false} AllBeyond(keys: seq<string>, after: string)
    requires forall i :: 0 <= i < |keys| ==> StrLess(after, keys[i])
    ensures Beyond(keys, after) == keys
  {
    if keys != [] { AllBeyond(keys[1..], after); }
  }

  /** Keys in strict order, and none empty when pages hold one record. */
  ghost predicate Walkable(keys: seq<string>, size: nat) {
    StrictlySorted(keys) && (size > 1 || forall i :: 0 <= i < |keys| ==> keys[i] != "")
  }

  /** What the client has asked for after `done` keys. */
  ghost predicate AskedAfter(keys: seq<string>, done: nat, after: Option<string>) {
    done <= |keys| && if done == 0 then after.None? else after == Some(keys[done - 1]) && keys[done - 1] != ""
  }

  lemma {:induction false} NextKeys(keys: seq<string>, size: nat, done: nat, after: Option<string>)
    requires size > 0 && Walkable(keys, size)
    requires AskedAfter(keys, done, after)
    ensures KeysetPage(keys, size, after) == Slice(keys, done, size)
  {
    if done > 0 { BeyondIsTail(keys, done - 1); }
    SliceOfTail(keys, done, size);
  }

  lemma {:induction false} SliceOfTail(keys: seq<string>, done: nat, size: nat)
    requires done <= |keys|
    ensures Slice(keys[done..], 0, size) == Slice(keys, done, size)
  {
  }

  lemma {:induction false} NextAsked(keys: seq<string>, size: nat, done: nat)
    requires size > 0 && Walkable(keys, size) && done + size <= |keys|
    ensures AskedAfter(keys, done + size, Some(keys[done + size - 1]))
  {
    if size > 1 { assert StrLess(keys[done + size - 2], keys[done + size - 1]); }
  }

  lemma {:induction false} FullPageAsks(keys: seq<string>, size: nat, done: nat)
    requires size > 0 && Walkable(keys, size) && |Slice(keys, done, size)| == size
    ensures AskedAfter(keys, done + size, Some(Slice(keys, done, size)[size - 1]))
  {
    assert Slice(keys, done, size)[size - 1] == keys[done + size - 1];
    NextAsked(keys, size, done);
  }

  lemma {:induction false} OffsetWalkUnfold(keys: seq<string>, size: nat, done: nat)
    requires size > 0
    ensures var page := Slice(keys, done, size);
      OffsetWalk(keys, size, size, done) ==
      [page] + if |page| < size then [] else OffsetWalk(keys, size, size, done + size)
  {
  }

  lemma {:induction false} OffsetWalkOneMore(keys: seq<string>, size: nat, done: nat, pages: seq<seq<string>>)
    requires size > 0 && pages + OffsetWalk(keys, size, size, done) == OffsetWalk(keys, size, size, 0)
    ensures var page := Slice(keys, done, size);
      if |page| < size then pages + [page] == OffsetWalk(keys, size, size, 0)
      else pages + [page] + OffsetWalk(keys, size, size, done + size) == OffsetWalk(keys, size, size, 0)
  {
    OffsetWalkUnfold(keys, size, done);
  }

  /** One request, and the key to send with the next one if the page is full. */
  method RequestKeys(keys: seq<string>, size: nat, after: Option<string>, ghost done: nat)
    returns (page: seq<string>, last: Option<string>)
    requires size > 0 && Walkable(keys, size)
    requires AskedAfter(keys, done, after)
    ensures page == Slice(keys, done, size)
    ensures |page| == size ==> AskedAfter(keys, done + size, last)
  {
    NextKeys(keys, size, done, after);
    page, last := KeysetPage(keys, size, after), None;
    if |page| == size {
      FullPageAsks(keys, size, done);
      last := Some(page[size - 1]);
    }
  }

  /** The client sends the last key of each full page as the next `after`. */
  method FollowKeys(keys: seq<string>, size: nat) returns (pages: seq<seq<string>>)
    requires size > 0 && Walkable(keys, size)
    ensures pages == OffsetWalk(keys, size, size, 0)
  {
    pages := [];
    var after: Option<string> := None;
    ghost var done: nat := 0;
    while true
      invariant AskedAfter(keys, done, after)
      invariant pages + OffsetWalk(keys, size, size, done) == OffsetWalk(keys, size, size, 0)
      decreases |keys| - done
    {
      var page, last := RequestKeys(keys, size, after, done);
      OffsetWalkOneMore(keys, size, done, pages);
      pages := pages + [page];
      if |page| < size { return; }
      after := last;
      done := done + size;
    }
  }

  /** So the keyset walk returns every key, in order. */
  method FetchAllKeys(keys: seq<string>, size: nat) returns (all: seq<string>)
    requires size > 0 && Walkable(keys, size)
    ensures all == keys
  {
    var pages := FollowKeys(keys, size);
    OffsetWalkComplete(keys, size, size, 0);
    all := Flatten(pages);
  }

  // ---------------------------------------------------------------- when the keyset walk ends

  /** What a server answers to the key it is sent. */
  type KeyServer = Option<string> -> seq<string>

  /** The pages of the first `requests` requests, and whether the client has stopped. */
  datatype Walked = Walked(pages: seq<seq<string>>, ended: bool)

  function KeysetWalk(serve: KeyServer, size: nat, after: Option<string>, requests: nat): Walked
    requires size > 0
    decreases requests
  {
    if requests == 0 then Walked([], false)
    else
      var page := serve(after);
      if |page| < size then Walked([page], true)
      else
        var rest := KeysetWalk(serve, size, Some(page[|page| - 1]), requests - 1);
        Walked([page] + rest.pages, rest.ended)
  }

  /** The server that filters these keys. */
  function ServerOf(keys: seq<string>, size: nat): KeyServer {
    after => KeysetPage(keys, size, after)
  }

  /** With one record per page an empty key sends the client back to the first page for ever. */
  lemma {:induction false} EmptyKeyRestarts(keys: seq<string>, after: Option<string>, requests: nat)
    requires keys != [] && keys[0] == "" && (after.None? || after.value == "")
    ensures !KeysetWalk(ServerOf(keys, 1), 1, after, requests).ended
    decreases requests
  {
    if requests > 0 {
      assert ServerOf(keys, 1)(after) == [""];
      EmptyKeyRestarts(keys, Some(""), requests - 1);
    }
  }

  /** Allowing more requests changes nothing once the client has stopped. */
  lemma {:induction false} MoreRequests(serve: KeyServer, size: nat, after: Option<string>, a: nat, b: nat)
    requires size > 0 && a <= b && KeysetWalk(serve, size, after, a).ended
    ensures KeysetWalk(serve, size, after, b) == KeysetWalk(serve, size, after, a)
    decreases a
  {
    var page := serve(after);
    if |page| >= size { MoreRequests(serve, size, Some(page[|page| - 1]), a - 1, b - 1); }
  }

  /** What the client sends after the first `done` keys. */
  function SentAfter(keys: seq<string>, done: nat): Option<string>
    requires done <= |keys|
  {
    if done == 0 then None else Some(keys[done - 1])
  }

  /** At the start or behind a full page. */
  predicate Boundary(keys: seq<string>, size: nat, done: nat) {
    done <= |keys| && (done == 0 || size <= done)
  }

  /** Every request behind a full page returns the page that follows it. */
  ghost predicate PagesFollow(serve: KeyServer, keys: seq<string>, size: nat) {
    forall done: nat :: Boundary(keys, size, done) ==> serve(SentAfter(keys, done)) == Slice(keys, done, size)
  }

  lemma {:induction false} WalkableFollows(keys: seq<string>, size: nat)
    requires size > 0 && Walkable(keys, size)
    ensures PagesFollow(ServerOf(keys, size), keys, size)
  {
    forall done: nat | Boundary(keys, size, done)
      ensures ServerOf(keys, size)(SentAfter(keys, done)) == Slice(keys, done, size)
    {
      if done > 0 { NextAsked(keys, size, done - size); }
      NextKeys(keys, size, done, SentAfter(keys, done));
    }
  }

  lemma {:induction false} WalkEnds(serve: KeyServer, keys: seq<string>, size: nat, done: nat, requests: nat)
    requires size > 0 && PagesFollow(serve, keys, size) && Boundary(keys, size, done) && requests == |keys| - done + 1
    ensures KeysetWalk(serve, size, SentAfter(keys, done), requests) == Walked(OffsetWalk(keys, size, size, done), true)
    decreases requests
  {
    var after := SentAfter(keys, done);
    if done + size <= |keys| {
      FullPageSends(serve, keys, size, done);
      var last := SentAfter(keys, done + size);
      WalkEnds(serve, keys, size, done + size, requests - size);
      MoreRequests(serve, size, last, requests - size, requests - 1);
      EndsAfterFull(serve, keys, size, done, after, requests);
    } else {
      EndsAfterShort(serve, keys, size, done, after, requests);
    }
  }

  lemma {:induction false} FullPageSends(serve: KeyServer, keys: seq<string>, size: nat, done: nat)
    requires size > 0 && PagesFollow(serve, keys, size) && Boundary(keys, size, done) && done + size <= |keys|
    ensures var page := serve(SentAfter(keys, done));
      page == Slice(keys, done, size) && |page| == size && SentAfter(keys, done + size) == Some(page[size - 1])
  {
  }

  lemma {:induction false} EndsAfterFull(serve: KeyServer, keys: seq<string>, size: nat, done: nat, after: Option<string>,
                                         requests: nat)
    requires size > 0 && requests > 0 && serve(after) == Slice(keys, done, size) && |serve(after)| == size
    requires KeysetWalk(serve, size, Some(serve(after)[size - 1]), requests - 1) ==
      Walked(OffsetWalk(keys, size, size, done + size), true)
    ensures KeysetWalk(serve, size, after, requests) == Walked(OffsetWalk(keys, size, size, done), true)
  {
  }

  lemma {:induction false} EndsAfterShort(serve: KeyServer, keys: seq<string>, size: nat, done: nat, after: Option<string>,
                                          requests: nat)
    requires size > 0 && requests > 0 && serve(after) == Slice(keys, done, size) && |serve(after)| < size
    ensures KeysetWalk(serve, size, after, requests) == Walked(OffsetWalk(keys, size, size, done), true)
  {
  }

  /** A keyset walk over strictly sorted keys comes to an end if and only if pages hold more than one record or no key
      is empty; and then it has returned every key, in order. */
  lemma {:induction false} KeysetEndsIff(keys: seq<string>, size: nat)
    requires size > 0 && StrictlySorted(keys)
    ensures (exists n: nat :: KeysetWalk(ServerOf(keys, size), size, None, n).ended) <==> Walkable(keys, size)
    ensures forall n: nat :: KeysetWalk(ServerOf(keys, size), size, None, n).ended ==>
      Flatten(KeysetWalk(ServerOf(keys, size), size, None, n).pages) == keys
  {
    if Walkable(keys, size) {
      WalkReturnsAll(keys, size);
    } else {
      var i :| 0 <= i < |keys| && keys[i] == "";
      forall j | 0 < j < |keys| ensures keys[j] != "" { assert StrLess(keys[0], keys[j]); }
      forall n: nat ensures !KeysetWalk(ServerOf(keys, size), size, None, n).ended { EmptyKeyRestarts(keys, None, n); }
    }
  }

  lemma {:induction false} WalkReturnsAll(keys: seq<string>, size: nat)
    requires size > 0 && Walkable(keys, size)
    ensures KeysetWalk(ServerOf(keys, size), size, None, |keys| + 1).ended
    ensures forall n: nat :: KeysetWalk(ServerOf(keys, size), size, None, n).ended ==>
      Flatten(KeysetWalk(ServerOf(keys, size), size, None, n).pages) == keys
  {
    var serve, enough := ServerOf(keys, size), |keys| + 1;
    WalkableFollows(keys, size);
    WalkEnds(serve, keys, size, 0, enough);
    OffsetWalkComplete(keys, size, size, 0);
    forall n: nat | KeysetWalk(serve, size, None, n).ended ensures Flatten(KeysetWalk(serve, size, None, n).pages) == keys {
      if n <= enough { MoreRequests(serve, size, None, n, enough); } else { MoreRequests(serve, size, None, enough, n); }
    }
  }
}
