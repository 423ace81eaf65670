/** Keyset pagination of events and its cursor (pagination.py, store.py). */
module Pagination {
  import opened Ordering
  import opened Base64
  import opened Sequences
  import opened Wrappers

  // ---------------------------------------------------------------------------------------------
  // The cursor codec.

  /** A decoded value; a number with a fraction is one of the other values, and 1.0 reads as Number(1). */
  datatype Json =
    | Object(fields: map<string, Json>)
    | Text(text: string)
    | Number(value: int)
    | Bool(b: bool)
    | OtherJson

  datatype Cursor = Cursor(position: string, id: string, since: Option<string>)

  datatype CursorError = InvalidCursor | ScopeMismatch | InvalidPosition | InvalidId | InvalidSince

  const MAX_TOKEN := 1024
  const MAX_ID := 256
  const MAX_TIMESTAMP := 128

  /** The JSON text codec (dumps and encode, decode and loads), and whether datetime.fromisoformat parses a text. */
  datatype Codec = Codec(dumps: Json -> seq<Byte>, loads: seq<Byte> -> Option<Json>, isIso: string -> bool)

  /** json.loads reads back the payloads json.dumps writes, which are never empty. */
  ghost predicate Faithful(c: Codec) {
    forall kind: string, scope: string, cursor: Cursor ::
      && c.loads(c.dumps(Payload(kind, scope, cursor))) == Some(Payload(kind, scope, cursor))
      && c.dumps(Payload(kind, scope, cursor)) != []
  }

  predicate ValidTimestamp(c: Codec, text: string) {
    0 < |text| <= MAX_TIMESTAMP && c.isIso(text)
  }

  function Payload(kind: string, scope: string, cursor: Cursor): Json {
    var fields := map[
      "v" := Number(1),
      "kind" := Text(kind),
      "position" := Text(cursor.position),
      "id" := Text(cursor.id),
      "scope" := Text(scope)
    ];
    Object(if cursor.since.Some? then fields["since" := Text(cursor.since.value)] else fields)
  }

  /** encode_cursor. */
  function Encode(c: Codec, kind: string, scope: string, cursor: Cursor): string {
    Token(c.dumps(Payload(kind, scope, cursor)))
  }

  /** payload.get(name) == Text(value), where a missing key never equals a text. */
  predicate FieldIs(fields: map<string, Json>, name: string, value: string) {
    name in fields && fields[name] == Text(value)
  }

  /** payload.get("v") == 1, which Python also grants to 1.0 and true. */
  predicate IsOne(j: Json) {
    (j.Number? && j.value == 1) || j == Bool(true)
  }

  /** decode_cursor. */
  function Decode(c: Codec, token: string, kind: string, scope: string): Result<Cursor, CursorError> {
    if token == "" || |token| > MAX_TOKEN then Err(InvalidCursor)
    else
      var raw := Decoded(token);
      if raw.None? then Err(InvalidCursor)
      else
        var payload := c.loads(raw.value);
        if payload.None? || !payload.value.Object? then Err(InvalidCursor)
        else DecodeFields(c, payload.value.fields, kind, scope)
  }

  function DecodeFields(c: Codec, fields: map<string, Json>, kind: string, scope: string): Result<Cursor, CursorError> {
    if "v" !in fields || !IsOne(fields["v"]) then Err(InvalidCursor)
    else if !FieldIs(fields, "kind", kind) || !FieldIs(fields, "scope", scope) then Err(ScopeMismatch)
    else if "position" !in fields || !fields["position"].Text? || !ValidTimestamp(c, fields["position"].text) then
      Err(InvalidPosition)
    else if "id" !in fields || !fields["id"].Text? || !(0 < |fields["id"].text| <= MAX_ID) then Err(InvalidId)
    else if "since" !in fields then Ok(Cursor(fields["position"].text, fields["id"].text, None))
    else if !fields["since"].Text? || !ValidTimestamp(c, fields["since"].text) then Err(InvalidSince)
    else Ok(Cursor(fields["position"].text, fields["id"].text, Some(fields["since"].text)))
  }

  /** The bounds a caller can check before encoding: 768 JSON bytes are what fits a token of 1024. */
  predicate Carried(c: Codec, kind: string, scope: string, cursor: Cursor) {
    && 0 < |c.dumps(Payload(kind, scope, cursor))| <= 768
    && ValidTimestamp(c, cursor.position)
    && 0 < |cursor.id| <= MAX_ID
    && (cursor.since.Some? ==> ValidTimestamp(c, cursor.since.value))
  }

  lemma FieldsRoundTrip(c: Codec, kind: string, scope: string, cursor: Cursor, kind': string, scope': string)
    ensures var r := DecodeFields(c, Payload(kind, scope, cursor).fields, kind', scope');
            && (r.Ok? <==>
                  && kind' == kind && scope' == scope
                  && 0 < |cursor.position| <= 128 && c.isIso(cursor.position) && 0 < |cursor.id| <= 256
                  && (cursor.since.Some? ==> 0 < |cursor.since.value| <= 128 && c.isIso(cursor.since.value)))
            && (r.Ok? ==> r.value == cursor)
            && (r == Err(ScopeMismatch) <==> kind' != kind || scope' != scope)
  {
  }

  lemma TokenFits(raw: seq<Byte>)
    ensures Decoded(Token(raw)) == Some(raw)
    ensures 0 < |Token(raw)| <= MAX_TOKEN <==> 0 < |raw| <= 768
  {
    RoundTrip(raw);
    PadsBack(raw);
  }

  /** A cursor comes back exactly when it is in bounds and presented to its own listing; it never comes back changed. */
  lemma CursorRoundTrip(c: Codec, kind: string, scope: string, cursor: Cursor, kind': string, scope': string)
    requires Faithful(c)
    ensures var r := Decode(c, Encode(c, kind, scope, cursor), kind', scope');
            && (r.Ok? <==> Carried(c, kind, scope, cursor) && kind' == kind && scope' == scope)
            && (r.Ok? ==> r.value == cursor)
  {
    hide Token, Decoded, DecodeFields, Payload;
    var raw := c.dumps(Payload(kind, scope, cursor));
    TokenFits(raw);
    PayloadIsObject(kind, scope, cursor);
    assert c.loads(raw) == Some(Payload(kind, scope, cursor));
    FieldsRoundTrip(c, kind, scope, cursor, kind', scope');
  }

  /** Whatever token is presented: what it must hold to be accepted, and what is then taken from it. */
  lemma DecodesExactly(c: Codec, token: string, kind: string, scope: string)
    ensures var r := Decode(c, token, kind, scope);
            r.Ok? <==>
              && 0 < |token| <= 1024 && Decoded(token).Some?
              && var payload := c.loads(Decoded(token).value);
                 payload.Some? && payload.value.Object? && WellFormed(c, payload.value.fields, kind, scope)
    ensures var r := Decode(c, token, kind, scope);
            r.Ok? ==> var fields := c.loads(Decoded(token).value).value.fields;
                      && Text(r.value.position) == fields["position"] && Text(r.value.id) == fields["id"]
                      && (if "since" in fields then r.value.since.Some? && Text(r.value.since.value) == fields["since"]
                          else r.value.since.None?)
  {
    hide Decoded;
  }

  /** A payload of version 1 for this listing, with texts that are in bounds and parse. */
  predicate WellFormed(c: Codec, fields: map<string, Json>, kind: string, scope: string) {
    && {"v", "kind", "scope", "position", "id"} <= fields.Keys
    && fields["v"] in {Number(1), Bool(true)}
    && fields["kind"] == Text(kind) && fields["scope"] == Text(scope)
    && fields["position"].Text? && 0 < |fields["position"].text| <= 128 && c.isIso(fields["position"].text)
    && fields["id"].Text? && 0 < |fields["id"].text| <= 256
    && ("since" in fields ==>
          fields["since"].Text? && 0 < |fields["since"].text| <= 128 && c.isIso(fields["since"].text))
  }

  function Repeated(c: char, n: nat): (s: string)
    ensures |s| == n
  {
    seq(n, _ => c)
  }

  /** A UUID written with 225 more hyphens: 257 characters, which UUID parsing drops. */
  function LongId(): string {
    Repeated('-', 225) + Repeated('a', 32)
  }

  /** The position behind a row with such an id is encoded, and its own listing refuses the token. */
  lemma LongIdRefused(c: Codec, kind: string, scope: string, position: string, since: Option<string>)
    requires Faithful(c)
    ensures Decode(c, Encode(c, kind, scope, Cursor(position, LongId(), since)), kind, scope).Err?
  {
    hide Decode, Encode, ValidTimestamp, Payload;
    CursorRoundTrip(c, kind, scope, Cursor(position, LongId(), since), kind, scope);
  }

  lemma PayloadIsObject(kind: string, scope: string, cursor: Cursor)
    ensures Payload(kind, scope, cursor).Object?
  {
  }

  // ---------------------------------------------------------------------------------------------
  // One page.

  /** What ORDER BY timestamp DESC, id DESC sorts by. */
  datatype Position = Position(timestamp: string, id: string)

  /** p is listed before q. */
  predicate ListedBefore(p: Position, q: Position) {
    StringLess(q.timestamp, p.timestamp) || (q.timestamp == p.timestamp && StringLess(q.id, p.id))
  }

  lemma ListingOrder()
    ensures TotalOrder(ListedBefore)
  {
    forall p ensures !ListedBefore(p, p) {
      StringLessIrreflexive(p.timestamp);
      StringLessIrreflexive(p.id);
    }
    forall p, q | p != q ensures ListedBefore(p, q) || ListedBefore(q, p) {
      if p.timestamp != q.timestamp {
        StringLessConnected(p.timestamp, q.timestamp);
      } else {
        StringLessConnected(p.id, q.id);
      }
    }
    forall p, q, r | ListedBefore(p, q) && ListedBefore(q, r) ensures ListedBefore(p, r) {
      ListedBeforeTransitive(p, q, r);
    }
  }

  lemma ListedBeforeTransitive(p: Position, q: Position, r: Position)
    requires ListedBefore(p, q) && ListedBefore(q, r)
    ensures ListedBefore(p, r)
  {
    StringLessIrreflexive(q.timestamp);
    if StringLess(r.timestamp, q.timestamp) && StringLess(q.timestamp, p.timestamp) {
      StringLessTransitive(r.timestamp, q.timestamp, p.timestamp);
    } else if r.timestamp == q.timestamp == p.timestamp {
      StringLessTransitive(r.id, q.id, p.id);
    }
  }

  datatype Event = Event(timestamp: string, body: string)

  /** The events table by primary key. */
  type Table = map<string, Event>

  /** The WHERE clause of a listing: its column filters and search text, and the start of its time window. */
  datatype Query = Query(matches: (string, Event) -> bool, since: Option<string>)

  predicate Wanted(q: Query, id: string, e: Event) {
    q.matches(id, e) && (q.since.Some? ==> !StringLess(e.timestamp, q.since.value))
  }

  /** timestamp < ? OR (timestamp = ? AND id < ?), when there is a cursor. */
  predicate Past(after: Option<Position>, p: Position) {
    after.Some? ==> ListedBefore(after.value, p)
  }

  predicate Lists(t: Table, q: Query, p: Position) {
    p.id in t && t[p.id].timestamp == p.timestamp && Wanted(q, p.id, t[p.id])
  }

  function Matching(t: Table, q: Query, after: Option<Position>): (r: set<Position>)
    ensures forall p :: p in r <==> Lists(t, q, p) && Past(after, p)
  {
    set id | id in t && Wanted(q, id, t[id]) && Past(after, Position(t[id].timestamp, id))
           :: Position(t[id].timestamp, id)
  }

  function Sorted(s: set<Position>): (r: seq<Position>)
    ensures Ascending(r, ListedBefore) && |r| == |s|
    ensures forall p :: p in r <==> p in s
  {
    ListingOrder();
    Sort(s, ListedBefore)
  }

  function Bounded(limit: int): (r: nat)
    ensures 1 <= r <= 500 && (1 <= limit <= 500 ==> r == limit)
    ensures limit < 1 ==> r == 1
    ensures limit > 500 ==> r == 500
  {
    if limit < 1 then 1 else if limit > 500 then 500 else limit
  }

  datatype Page = Page(items: seq<Position>, hasMore: bool, next: Option<Position>)

  /** One SELECT with LIMIT bounded + 1, and the cut back to the page. */
  function PageOf(t: Table, q: Query, after: Option<Position>, limit: int): Page {
    var all := Sorted(Matching(t, q, after));
    var rows := Take(all, Bounded(limit) + 1);
    var hasMore := |rows| > Bounded(limit);
    var items := Take(rows, Bounded(limit));
    Page(items, hasMore, if hasMore then Some(items[|items| - 1]) else None)
  }

  // ---------------------------------------------------------------------------------------------
  // A walk: following next over a table that changes between pages.

  /** One request of the walk: the table as it is then, and the page size asked for. */
  datatype Request = Request(table: Table, limit: int)

  /** The concatenated items of a walk that starts behind after. */
  function Walked(requests: seq<Request>, q: Query, after: Option<Position>): seq<Position> {
    if requests == [] then []
    else
      var page := PageOf(requests[0].table, q, after, requests[0].limit);
      page.items + if page.next.None? then [] else Walked(requests[1..], q, page.next)
  }

  /** The walk reached a page without a next cursor. */
  predicate Finished(requests: seq<Request>, q: Query, after: Option<Position>) {
    requests != [] &&
    var page := PageOf(requests[0].table, q, after, requests[0].limit);
    page.next.None? || Finished(requests[1..], q, page.next)
  }

  lemma PageShape(t: Table, q: Query, after: Option<Position>, limit: int)
    ensures var page, all := PageOf(t, q, after, limit), Sorted(Matching(t, q, after));
            && page.items <= all
            && |page.items| == (if |all| > Bounded(limit) then Bounded(limit) else |all|)
            && (page.hasMore <==> |all| > Bounded(limit)) && (page.next.Some? <==> page.hasMore)
            && (page.next.Some? ==> page.next.value == page.items[|page.items| - 1])
  {
    hide Matching, ListedBefore;
  }

  lemma PageFacts(t: Table, q: Query, after: Option<Position>, limit: int)
    ensures var page := PageOf(t, q, after, limit);
            && Ascending(page.items, ListedBefore)
            && (forall p | p in page.items :: Lists(t, q, p) && Past(after, p))
            && (page.next.Some? ==> page.items != [] && page.next.value == page.items[|page.items| - 1])
            && (forall p | Lists(t, q, p) && Past(after, p) ::
                  p in page.items || (page.next.Some? && Past(page.next, p)))
            && (if page.next.Some? then |page.items| == Bounded(limit) else |page.items| <= Bounded(limit))
            && (page.hasMore <==> page.next.Some?)
  {
    hide PageOf, Lists, ListedBefore, Sorted, Matching;
    PageShape(t, q, after, limit);
    var all := Sorted(Matching(t, q, after));
    var page := PageOf(t, q, after, limit);
    forall p | p in page.items ensures p in all {
    }
    forall p | Lists(t, q, p) && Past(after, p)
      ensures p in page.items || (page.next.Some? && Past(page.next, p))
    {
      assert p in all;
      var i :| 0 <= i < |all| && all[i] == p;
      if i < |page.items| {
        assert page.items[i] == p;
      } else {
        assert page.next.value == all[|page.items| - 1];
      }
    }
  }

  // ----- what the listing order is, by the characters of timestamps and ids

  /** p has the later timestamp, or the greater id at the same one. */
  ghost predicate Newer(p: Position, q: Position) {
    Precedes(q.timestamp, p.timestamp) || (p.timestamp == q.timestamp && Precedes(q.id, p.id))
  }

  lemma ListedBeforeIsNewer(p: Position, q: Position)
    ensures ListedBefore(p, q) <==> Newer(p, q)
  {
    StringLessExactly(q.timestamp, p.timestamp);
    StringLessExactly(q.id, p.id);
  }

  /** A row of the table that the listing is about: matching, in the time window, and older than the cursor. */
  ghost predicate Asks(t: Table, q: Query, after: Option<Position>, p: Position) {
    && p.id in t && t[p.id].timestamp == p.timestamp && q.matches(p.id, t[p.id])
    && (q.since.Some? ==> !Precedes(p.timestamp, q.since.value))
    && (after.Some? ==> Newer(after.value, p))
  }

  lemma AsksExactly(t: Table, q: Query, after: Option<Position>, p: Position)
    ensures Lists(t, q, p) && Past(after, p) <==> Asks(t, q, after, p)
  {
    hide Precedes;
    if q.since.Some? {
      StringLessExactly(p.timestamp, q.since.value);
    }
    if after.Some? {
      ListedBeforeIsNewer(after.value, p);
    }
  }

  /** A page holds the newest of the rows asked for, newest first: as many as its bounded size, or all of them. */
  lemma PageIsNewest(t: Table, q: Query, after: Option<Position>, limit: int)
    ensures var items := PageOf(t, q, after, limit).items;
            && (forall i, j | 0 <= i < j < |items| :: Newer(items[i], items[j]))
            && (forall p | p in items :: Asks(t, q, after, p))
            && (forall p, r | Asks(t, q, after, p) && p !in items && r in items :: Newer(r, p))
            && |items| <= Bounded(limit)
            && (|items| < Bounded(limit) ==> forall p | Asks(t, q, after, p) :: p in items)
  {
    hide PageOf, Lists, Past, ListedBefore, Asks, Newer, Bounded;
    PageFacts(t, q, after, limit);
    var page := PageOf(t, q, after, limit);
    var items := page.items;
    forall i, j | 0 <= i < j < |items| ensures Newer(items[i], items[j]) {
      ListedBeforeIsNewer(items[i], items[j]);
    }
    forall p ensures Lists(t, q, p) && Past(after, p) <==> Asks(t, q, after, p) {
      AsksExactly(t, q, after, p);
    }
    forall p, r | Asks(t, q, after, p) && p !in items && r in items ensures Newer(r, p) {
      BehindAll(items, p, r);
      ListedBeforeIsNewer(r, p);
    }
  }

  lemma BehindAll(items: seq<Position>, p: Position, r: Position)
    requires Ascending(items, ListedBefore) && r in items && Past(Some(items[|items| - 1]), p)
    ensures ListedBefore(r, p)
  {
    hide ListedBefore;
    var i :| 0 <= i < |items| && items[i] == r;
    if i < |items| - 1 {
      ListedBeforeTransitive(r, items[|items| - 1], p);
    }
  }

  /** So a walk returns rows newest first, each of them older than its start, whatever happens between its requests. */
  lemma WalkNewestFirst(requests: seq<Request>, q: Query, after: Option<Position>)
    ensures var items := Walked(requests, q, after);
            && (forall i, j | 0 <= i < j < |items| :: Newer(items[i], items[j]))
            && (after.Some? ==> forall p | p in items :: Newer(after.value, p))
  {
    hide Walked, ListedBefore, Newer;
    WalkAscends(requests, q, after);
    var items := Walked(requests, q, after);
    forall i, j | 0 <= i < j < |items| ensures Newer(items[i], items[j]) {
      ListedBeforeIsNewer(items[i], items[j]);
    }
    if after.Some? {
      forall p | p in items ensures Newer(after.value, p) {
        ListedBeforeIsNewer(after.value, p);
      }
    }
  }

  /** Everything a walk returns lies behind its start, in listing order. */
  lemma {:induction false} WalkAscends(requests: seq<Request>, q: Query, after: Option<Position>)
    ensures Ascending(Walked(requests, q, after), ListedBefore)
    ensures forall p | p in Walked(requests, q, after) :: Past(after, p)
  {
    hide TotalOrder, PageOf, ListedBefore;
    ListingOrder();
    if requests != [] {
      var page := PageOf(requests[0].table, q, after, requests[0].limit);
      PageFacts(requests[0].table, q, after, requests[0].limit);
      if page.next.Some? {
        WalkAscends(requests[1..], q, page.next);
        PagesAscend(page.items, Walked(requests[1..], q, page.next), after);
      }
    }
  }

  lemma PagesAscend(items: seq<Position>, rest: seq<Position>, after: Option<Position>)
    requires items != [] && Ascending(items, ListedBefore) && Ascending(rest, ListedBefore)
    requires forall p | p in items :: Past(after, p)
    requires forall p | p in rest :: Past(Some(items[|items| - 1]), p)
    ensures Ascending(items + rest, ListedBefore)
    ensures forall p | p in items + rest :: Past(after, p)
  {
    hide ListedBefore;
    var last := items[|items| - 1];
    forall p | p in rest ensures Past(after, p) && forall i | 0 <= i < |items| :: ListedBefore(items[i], p) {
      assert ListedBefore(last, p);
      assert Past(after, last);
      if after.Some? {
        ListedBeforeTransitive(after.value, last, p);
      }
      forall i | 0 <= i < |items| ensures ListedBefore(items[i], p) {
        if i < |items| - 1 {
          ListedBeforeTransitive(items[i], last, p);
        }
      }
    }
    var both := items + rest;
    forall i, j | 0 <= i < j < |both| ensures ListedBefore(both[i], both[j]) {
      if i < |items| <= j {
        assert both[j] == rest[j - |items|] && rest[j - |items|] in rest;
      }
    }
  }

  /** No row twice, even while rows are inserted and deleted between pages. */
  lemma NoRowTwice(requests: seq<Request>, q: Query, after: Option<Position>)
    ensures Distinct(Walked(requests, q, after))
  {
    ListingOrder();
    WalkAscends(requests, q, after);
    AscendingDistinct(Walked(requests, q, after), ListedBefore);
  }

  /** A row listed by every table of the walk. */
  ghost predicate Throughout(requests: seq<Request>, q: Query, p: Position) {
    forall i | 0 <= i < |requests| :: Lists(requests[i].table, q, p)
  }

  ghost predicate Sometime(requests: seq<Request>, q: Query, p: Position) {
    exists i :: 0 <= i < |requests| && Lists(requests[i].table, q, p)
  }

  /** A finished walk returns every row behind its start that stays listed throughout. */
  lemma {:induction false} NoRowMissed(requests: seq<Request>, q: Query, after: Option<Position>, p: Position)
    requires Finished(requests, q, after) && Throughout(requests, q, p) && Past(after, p)
    ensures p in Walked(requests, q, after)
  {
    hide PageOf, Lists, Past;
    var page := PageOf(requests[0].table, q, after, requests[0].limit);
    PageFacts(requests[0].table, q, after, requests[0].limit);
    assert Lists(requests[0].table, q, p);
    if p !in page.items {
      assert forall i | 0 <= i < |requests[1..]| :: requests[1..][i] == requests[i + 1];
      NoRowMissed(requests[1..], q, page.next, p);
    }
  }

  /** Every returned row was listed by a table of the walk. */
  lemma {:induction false} NoRowInvented(requests: seq<Request>, q: Query, after: Option<Position>, p: Position)
    ensures p in Walked(requests, q, after) ==> Sometime(requests, q, p)
  {
    hide PageOf, Lists, Past;
    if requests != [] && p in Walked(requests, q, after) {
      var page := PageOf(requests[0].table, q, after, requests[0].limit);
      PageFacts(requests[0].table, q, after, requests[0].limit);
      if p in page.items {
        assert Lists(requests[0].table, q, p);
      } else {
        NoRowInvented(requests[1..], q, page.next, p);
        var i :| 0 <= i < |requests[1..]| && Lists(requests[1..][i].table, q, p);
        assert requests[1..][i] == requests[i + 1];
      }
    }
  }

  /** Following next to the end: in order, no row twice, every stable row exactly once. */
  lemma WalkIsExact(requests: seq<Request>, q: Query, p: Position)
    requires Finished(requests, q, None) && Throughout(requests, q, p)
    ensures multiset(Walked(requests, q, None))[p] == 1
  {
    NoRowMissed(requests, q, None, p);
    NoRowTwice(requests, q, None);
    DistinctOnce(Walked(requests, q, None), p);
  }

  lemma {:induction false} DistinctOnce(s: seq<Position>, p: Position)
    requires Distinct(s) && p in s
    ensures multiset(s)[p] == 1
  {
    var i :| 0 <= i < |s| && s[i] == p;
    assert s == s[..i] + [p] + s[i + 1..];
    assert p !in s[..i] && p !in s[i + 1..];
    assert multiset(s) == multiset(s[..i]) + multiset{p} + multiset(s[i + 1..]);
  }

  /** Nothing changes: the pages of a finished walk are the one unlimited query, whatever the page sizes. */
  lemma ConstantTable(t: Table, limits: seq<int>, q: Query, after: Option<Position>)
    requires Finished(Requests(t, limits), q, after)
    ensures Walked(Requests(t, limits), q, after) == Sorted(Matching(t, q, after))
  {
    hide Finished, Walked, PageOf, TotalOrder;
    var requests := Requests(t, limits);
    ListingOrder();
    WalkAscends(requests, q, after);
    var all := Sorted(Matching(t, q, after));
    forall p ensures p in Walked(requests, q, after) <==> p in all {
      if p in all {
        NoRowMissed(requests, q, after, p);
      }
      if p in Walked(requests, q, after) {
        NoRowInvented(requests, q, after, p);
      }
    }
    AscendingUnique(Walked(requests, q, after), all, ListedBefore);
  }

  function Requests(t: Table, limits: seq<int>): seq<Request> {
    seq(|limits|, i requires 0 <= i < |limits| => Request(t, limits[i]))
  }

  /** A walk over a table of n listed rows, never more of which appear, ends after n further pages at the latest. */
  lemma {:induction false} WalkEnds(t: Table, limits: seq<int>, q: Query, after: Option<Position>)
    requires |limits| > |Matching(t, q, after)|
    ensures Finished(Requests(t, limits), q, after)
    decreases |limits|
  {
    hide Matching, Sorted, TotalOrder, PageOf;
    var requests := Requests(t, limits);
    var page := PageOf(t, q, after, limits[0]);
    if page.next.Some? {
      FewerLeft(t, q, after, limits[0]);
      WalkEnds(t, limits[1..], q, page.next);
      assert requests[1..] == Requests(t, limits[1..]);
    }
  }

  lemma FewerLeft(t: Table, q: Query, after: Option<Position>, limit: int)
    requires PageOf(t, q, after, limit).next.Some?
    ensures |Matching(t, q, PageOf(t, q, after, limit).next)| < |Matching(t, q, after)|
  {
    hide PageOf, Lists;
    var next := PageOf(t, q, after, limit).next;
    PageFacts(t, q, after, limit);
    ListingOrder();
    var before, left := Matching(t, q, after), Matching(t, q, next);
    forall p | p in left ensures p in before {
      if after.Some? {
        ListedBeforeTransitive(after.value, next.value, p);
      }
    }
    assert next.value in before && next.value !in left;
    SubsetSize(left, before);
  }

  // ---------------------------------------------------------------------------------------------
  // Pages by token.

  datatype TokenPage = TokenPage(items: seq<Position>, hasMore: bool, nextCursor: Option<string>)

  const EVENTS := "events"

  /** A page as the caller sees it: the next position wrapped up with the window it belongs to. */
  function Wrapped(c: Codec, scope: string, since: Option<string>, page: Page): TokenPage {
    var next :=
      if page.next.None? then None
      else Some(Encode(c, EVENTS, scope, Cursor(page.next.value.timestamp, page.next.value.id, since)));
    TokenPage(page.items, page.hasMore, next)
  }

  /** page_events; window is now minus the hours parameter, which only a call without a cursor looks at. */
  function PageEvents(c: Codec, t: Table, matches: (string, Event) -> bool, window: Option<string>,
                      token: string, scope: string, limit: int): Result<TokenPage, CursorError> {
    if token == "" then Ok(Wrapped(c, scope, window, PageOf(t, Query(matches, window), None, limit)))
    else
      match Decode(c, token, EVENTS, scope)
      case Err(e) => Err(e)
      case Ok(cursor) =>
        var page := PageOf(t, Query(matches, cursor.since), Some(Position(cursor.position, cursor.id)), limit);
        Ok(Wrapped(c, scope, cursor.since, page))
  }

  function CursorFor(p: Position, since: Option<string>): Cursor {
    Cursor(p.timestamp, p.id, since)
  }

  /**
   * The token of one page asks for exactly the following page, in the window of the first page whatever window
   * the request names, if and only if the position is one the codec carries.
   */
  lemma TokenContinues(c: Codec, t: Table, matches: (string, Event) -> bool, since: Option<string>,
                       window: Option<string>, p: Position, scope: string, limit: int)
    requires Faithful(c)
    ensures var token := Encode(c, EVENTS, scope, CursorFor(p, since));
            && token != ""
            && (Carried(c, EVENTS, scope, CursorFor(p, since)) <==>
                  PageEvents(c, t, matches, window, token, scope, limit)
                    == Ok(Wrapped(c, scope, since, PageOf(t, Query(matches, since), Some(p), limit))))
            && (!Carried(c, EVENTS, scope, CursorFor(p, since)) ==>
                  PageEvents(c, t, matches, window, token, scope, limit).Err?)
  {
    hide PageOf, Decode, Encode, Carried;
    CursorRoundTrip(c, EVENTS, scope, CursorFor(p, since), EVENTS, scope);
    TokenNotEmpty(c, EVENTS, scope, CursorFor(p, since));
  }

  lemma TokenNotEmpty(c: Codec, kind: string, scope: string, cursor: Cursor)
    requires Faithful(c)
    ensures Encode(c, kind, scope, cursor) != ""
  {
    hide Token, Payload, ValidTimestamp;
    PadsBack(c.dumps(Payload(kind, scope, cursor)));
  }

  /** One request of a client that follows tokens; only the first one's window matters. */
  datatype Asked = Asked(request: Request, window: Option<string>)

  function RequestsOf(asked: seq<Asked>): (r: seq<Request>)
    ensures |r| == |asked|
  {
    if asked == [] then [] else [asked[0].request] + RequestsOf(asked[1..])
  }

  datatype Fetched = Fetched(items: seq<Position>, error: Option<CursorError>)

  /** The client passes on next_cursor until there is none, it stops asking, or a token is refused. */
  function Followed(c: Codec, asked: seq<Asked>, matches: (string, Event) -> bool, token: string,
                    scope: string): Fetched
  {
    if asked == [] then Fetched([], None)
    else
      match PageEvents(c, asked[0].request.table, matches, asked[0].window, token, scope, asked[0].request.limit)
      case Err(e) => Fetched([], Some(e))
      case Ok(page) =>
        if page.nextCursor.None? then Fetched(page.items, None)
        else
          var rest := Followed(c, asked[1..], matches, page.nextCursor.value, scope);
          Fetched(page.items + rest.items, rest.error)
  }

  /** The walk never continues from a position the cursor codec does not carry. */
  ghost predicate CarriedOn(c: Codec, requests: seq<Request>, q: Query, after: Option<Position>, scope: string) {
    |requests| >= 2 ==>
      var next := PageOf(requests[0].table, q, after, requests[0].limit).next;
      next.Some? ==>
        Carried(c, EVENTS, scope, CursorFor(next.value, q.since)) && CarriedOn(c, requests[1..], q, next, scope)
  }

  lemma OnePage(c: Codec, ask: Asked, matches: (string, Event) -> bool, since: Option<string>,
                after: Option<Position>, token: string, scope: string)
    requires Faithful(c)
    requires if after.None? then token == "" && ask.window == since
             else token == Encode(c, EVENTS, scope, CursorFor(after.value, since))
                  && Carried(c, EVENTS, scope, CursorFor(after.value, since))
    ensures PageEvents(c, ask.request.table, matches, ask.window, token, scope, ask.request.limit)
            == Ok(Wrapped(c, scope, since,
                          PageOf(ask.request.table, Query(matches, since), after, ask.request.limit)))
  {
    hide PageOf, Encode, Decode, Carried;
    if after.Some? {
      TokenContinues(c, ask.request.table, matches, since, ask.window, after.value, scope, ask.request.limit);
    }
  }

  /**
   * A client following tokens with any page sizes gets exactly the walk over positions, in the window of its first
   * request, if and only if the walk only continues from positions the codec carries; else it gets the walk up to
   * the first one that is not.
   */
  lemma {:induction false} FollowedExactly(c: Codec, asked: seq<Asked>, matches: (string, Event) -> bool,
                                           since: Option<string>, after: Option<Position>, token: string,
                                           scope: string)
    requires Faithful(c) && asked != []
    requires if after.None? then token == "" && asked[0].window == since
             else token == Encode(c, EVENTS, scope, CursorFor(after.value, since))
                  && Carried(c, EVENTS, scope, CursorFor(after.value, since))
    ensures var r := Followed(c, asked, matches, token, scope);
            var walked := Walked(RequestsOf(asked), Query(matches, since), after);
            && (r.error.None? <==> CarriedOn(c, RequestsOf(asked), Query(matches, since), after, scope))
            && (if r.error.None? then r.items == walked
                else && r.items != [] && r.items <= walked
                     && !Carried(c, EVENTS, scope, CursorFor(r.items[|r.items| - 1], since)))
    decreases |asked|
  {
    hide PageOf, PageEvents, Encode, Carried, Faithful;
    var q, ask := Query(matches, since), asked[0];
    OnePage(c, ask, matches, since, after, token, scope);
    PageFacts(ask.request.table, q, after, ask.request.limit);
    assert RequestsOf(asked)[1..] == RequestsOf(asked[1..]);
    var page := PageOf(ask.request.table, q, after, ask.request.limit);
    if page.next.Some? {
      var next := page.next.value;
      var nextToken := Encode(c, EVENTS, scope, CursorFor(next, since));
      if |asked| == 1 {
        assert page.items + [] == page.items;
      } else if Carried(c, EVENTS, scope, CursorFor(next, since)) {
        FollowedExactly(c, asked[1..], matches, since, page.next, nextToken, scope);
      } else {
        var second := asked[1];
        TokenContinues(c, second.request.table, matches, since, second.window, next, scope, second.request.limit);
        assert page.items + [] == page.items;
      }
    }
  }

  // ---------------------------------------------------------------------------------------------
  // A client that walks: the history read of the detection back-test (detection_backtest.py).

  function HistoryBound(maxEvents: int): (r: nat)
    ensures 1 <= r <= 5000 && (1 <= maxEvents <= 5000 ==> r == maxEvents)
    ensures maxEvents < 1 ==> r == 1
    ensures maxEvents > 5000 ==> r == 5000
  {
    if maxEvents < 1 then 1 else if maxEvents > 5000 then 5000 else maxEvents
  }

  /** A row listed by the table of every request so far. */
  ghost predicate ListedUntil(tables: nat -> Table, n: nat, q: Query, p: Position) {
    forall i: nat | i < n :: Lists(tables(i), q, p)
  }

  /** items is what n pages brought, next where they stopped. */
  ghost predicate Collected(tables: nat -> Table, n: nat, q: Query, items: seq<Position>, next: Option<Position>) {
    && Ascending(items, ListedBefore)
    && (next.Some? ==> items != [] && next.value == items[|items| - 1])
    && (forall p | p in items :: exists i: nat :: i < n && Lists(tables(i), q, p))
    && (n > 0 ==> forall p | ListedUntil(tables, n, q, p) :: p in items || (next.Some? && Past(next, p)))
  }

  lemma CollectMore(tables: nat -> Table, n: nat, q: Query, items: seq<Position>, next: Option<Position>, limit: int)
    requires Collected(tables, n, q, items, next) && (n == 0 ==> items == [] && next.None?)
    requires n > 0 ==> next.Some?
    ensures var page := PageOf(tables(n), q, next, limit);
            Collected(tables, n + 1, q, items + page.items, page.next)
  {
    hide PageOf, Lists, ListedBefore, Past;
    var page := PageOf(tables(n), q, next, limit);
    PageFacts(tables(n), q, next, limit);
    var both := items + page.items;
    if n > 0 {
      forall p ensures Past(None, p) {
        PastNothing(p);
      }
      PagesAscend(items, page.items, None);
    } else {
      assert both == page.items;
    }
    forall p | p in both ensures exists i: nat :: i < n + 1 && Lists(tables(i), q, p) {
      if p in page.items {
        assert Lists(tables(n), q, p);
      }
    }
    forall p | ListedUntil(tables, n + 1, q, p) ensures p in both || (page.next.Some? && Past(page.next, p)) {
      assert ListedUntil(tables, n, q, p);
      assert Lists(tables(n), q, p);
      if n == 0 {
        PastNothing(p);
      }
    }
  }

  lemma PastNothing(p: Position)
    ensures Past(None, p)
  {
  }

  datatype History = History(items: seq<Position>, hasMore: bool)

  /** One request of the loop, with the arguments the loop passes. */
  lemma NextPage(c: Codec, t: Table, matches: (string, Event) -> bool, window: string, cursor: string,
                 next: Option<Position>, scope: string, limit: int)
    requires Faithful(c)
    requires cursor == if next.None? then "" else Encode(c, EVENTS, scope, CursorFor(next.value, Some(window)))
    ensures var answer := PageEvents(c, t, matches, if cursor == "" then Some(window) else None, cursor, scope, limit);
            && (answer.Ok? ==>
                  answer.value == Wrapped(c, scope, Some(window), PageOf(t, Query(matches, Some(window)), next, limit)))
            && (answer.Err? ==> next.Some? && !Carried(c, EVENTS, scope, CursorFor(next.value, Some(window))))
  {
    hide PageOf, Decode, Encode, Carried;
    if next.Some? {
      TokenContinues(c, t, matches, Some(window), None, next.value, scope, limit);
    }
  }

  /** A listed row whose position the cursor codec does not carry. */
  ghost predicate Stuck(c: Codec, tables: nat -> Table, n: nat, q: Query, scope: string) {
    exists p, i: nat :: i < n && Lists(tables(i), q, p) && !Carried(c, EVENTS, scope, CursorFor(p, q.since))
  }

  /** The loop of run_store over a table that may change between its requests. */
  method ReadHistory(c: Codec, tables: nat -> Table, matches: (string, Event) -> bool, window: string,
                     scope: string, maxEvents: int)
    returns (r: Result<History, CursorError>, pages: nat)
    requires Faithful(c)
    ensures pages > 0
    ensures r.Ok? ==>
              && |r.value.items| <= HistoryBound(maxEvents)
              && (r.value.hasMore ==> |r.value.items| == HistoryBound(maxEvents))
              && Collected(tables, pages, Query(matches, Some(window)), r.value.items,
                           if r.value.hasMore then Some(r.value.items[|r.value.items| - 1]) else None)
    ensures r.Err? ==> Stuck(c, tables, pages, Query(matches, Some(window)), scope)
  {
    hide PageOf, PageEvents, Encode, Carried, Collected, Faithful, Stuck;
    var bound := HistoryBound(maxEvents);
    var items: seq<Position> := [];
    var cursor := "";
    ghost var q := Query(matches, Some(window));
    ghost var next: Option<Position> := None;
    pages := 0;
    NothingCollected(tables, q);
    while |items| < bound
      invariant |items| <= bound
      invariant Collected(tables, pages, q, items, next)
      invariant pages == 0 ==> items == []
      invariant pages > 0 <==> next.Some?
      invariant cursor == if next.None? then "" else Encode(c, EVENTS, scope, CursorFor(next.value, Some(window)))
      decreases bound - |items|
    {
      var limit := if bound - |items| < 500 then bound - |items| else 500;
      NextPage(c, tables(pages), matches, window, cursor, next, scope, limit);
      PageFacts(tables(pages), q, next, limit);
      CollectMore(tables, pages, q, items, next, limit);
      var answer :=
        PageEvents(c, tables(pages), matches, if cursor == "" then Some(window) else None, cursor, scope, limit);
      pages := pages + 1;
      if answer.Err? {
        WhyStuck(c, tables, pages - 1, q, items, next, scope);
        return Err(answer.error), pages;
      }
      items := items + answer.value.items;
      next := PageOf(tables(pages - 1), q, next, limit).next;
      if answer.value.nextCursor.None? {
        return Ok(History(items, false)), pages;
      }
      cursor := answer.value.nextCursor.value;
    }
    NextIsLast(tables, pages, q, items, next);
    return Ok(History(items, true)), pages;
  }

  lemma NothingCollected(tables: nat -> Table, q: Query)
    ensures Collected(tables, 0, q, [], None)
  {
  }

  lemma NextIsLast(tables: nat -> Table, n: nat, q: Query, items: seq<Position>, next: Option<Position>)
    requires Collected(tables, n, q, items, next) && next.Some?
    ensures items != [] && next == Some(items[|items| - 1])
  {
  }

  lemma WhyStuck(c: Codec, tables: nat -> Table, n: nat, q: Query, items: seq<Position>, next: Option<Position>,
                 scope: string)
    requires Collected(tables, n, q, items, next) && next.Some?
    requires !Carried(c, EVENTS, scope, CursorFor(next.value, q.since))
    ensures Stuck(c, tables, n + 1, q, scope)
  {
    hide Carried, Lists;
    assert next.value in items;
    var i: nat :| i < n && Lists(tables(i), q, next.value);
  }

  lemma CollectedConstant(t: Table, n: nat, q: Query, items: seq<Position>, next: Option<Position>)
    requires n > 0 && Collected(_ => t, n, q, items, next)
    ensures Ascending(items, ListedBefore)
    ensures next.Some? ==> items != [] && next.value == items[|items| - 1]
    ensures forall p | p in items :: Lists(t, q, p)
    ensures forall p | Lists(t, q, p) && p !in items :: next.Some? && Past(next, p)
  {
    hide Lists, ListedBefore, Past;
    forall p | Lists(t, q, p) && p !in items ensures next.Some? && Past(next, p) {
      assert ListedUntil(_ => t, n, q, p);
    }
  }

  /** Over a table that does not change the history is the newest part of the one sorted query. */
  lemma HistoryIsPrefix(t: Table, n: nat, q: Query, items: seq<Position>, next: Option<Position>)
    requires n > 0 && Collected(_ => t, n, q, items, next)
    ensures items <= Sorted(Matching(t, q, None))
    ensures next.None? ==> items == Sorted(Matching(t, q, None))
  {
    hide TotalOrder, Lists, ListedBefore, Collected, Past, Ascending, Sorted;
    ListingOrder();
    CollectedConstant(t, n, q, items, next);
    var all := Sorted(Matching(t, q, None));
    forall p ensures Past(None, p) {
      PastNothing(p);
    }
    if next.Some? {
      var rest := Sorted(set p | p in Matching(t, q, None) && p !in items);
      assert next == Some(items[|items| - 1]);
      PagesAscend(items, rest, None);
      forall p ensures p in items + rest <==> p in all {
      }
      AscendingUnique(items + rest, all, ListedBefore);
    } else {
      forall p ensures p in items <==> p in all {
      }
      AscendingUnique(items, all, ListedBefore);
    }
  }
}
