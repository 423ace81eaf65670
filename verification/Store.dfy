/** The collector's event store: ingest, retention and capacity (store.py). */
module Store {
  import opened Ordering
  import opened Correlation
  import opened Sessions
  import opened EventChain
  import SensorSequence
  import opened Sequences
  import opened Wrappers

  datatype Link = Link(chainSeq: int, prevHash: Option<string>, recordHash: Option<string>)

  /** A stored timestamp: its text, and the instant the text stands for. */
  datatype Stamp = Stamp(text: string, instant: int)

  /** The hashed columns of a row as ingest writes them. */
  datatype EventColumns = EventColumns(
    id: string,
    timestamp: Stamp,
    collectorReceivedAt: Stamp,
    honeypot: string,
    eventType: string,
    severity: string,
    sourceIp: Option<string>,
    sessionId: string,
    schemaVersion: string,
    observed: string,
    enrichment: string,
    derived: string,
    hypotheses: string,
    collector: string)

  function Nullable(value: Option<string>): Cell {
    if value.Some? then Text(value.value) else Null
  }

  /** The row as the chain reads it back: stored values, texts of timestamps included. */
  function Hashed(c: EventColumns): Columns {
    Columns(Text(c.id), Text(c.timestamp.text), Text(c.collectorReceivedAt.text), Text(c.honeypot),
            Text(c.eventType), Text(c.severity), Nullable(c.sourceIp), Text(c.sessionId), Text(c.schemaVersion),
            Text(c.observed), Text(c.enrichment), Text(c.derived), Text(c.hypotheses), Text(c.collector))
  }

  /** The fourteen stored values are the same; a timestamp is stored as its text. */
  predicate SameValues(a: EventColumns, b: EventColumns) {
    && a.id == b.id
    && a.timestamp.text == b.timestamp.text
    && a.collectorReceivedAt.text == b.collectorReceivedAt.text
    && a.honeypot == b.honeypot
    && a.eventType == b.eventType
    && a.severity == b.severity
    && a.sourceIp == b.sourceIp
    && a.sessionId == b.sessionId
    && a.schemaVersion == b.schemaVersion
    && a.observed == b.observed
    && a.enrichment == b.enrichment
    && a.derived == b.derived
    && a.hypotheses == b.hypotheses
    && a.collector == b.collector
  }

  /** The hashed columns leave no stored value out. */
  lemma HashedExactly(a: EventColumns, b: EventColumns)
    ensures Hashed(a) == Hashed(b) <==> SameValues(a, b)
  {
  }

  /** A row of events; link is None for rows stored before the chain existed. */
  datatype EventRow = EventRow(columns: EventColumns, link: Option<Link>)

  type Events = map<string, EventRow>

  // ----- the chain inside the events table

  ghost predicate Numbered(events: Events, id: string, s: int) {
    id in events && events[id].link.Some? && events[id].link.value.chainSeq == s
  }

  /** The unique index on chain_seq. */
  ghost predicate UniqueNumbers(events: Events) {
    forall a, b, s | Numbered(events, a, s) && Numbered(events, b, s) :: a == b
  }

  ghost function Numbers(events: Events): set<int> {
    set id | id in events && events[id].link.Some? :: events[id].link.value.chainSeq
  }

  lemma NumberedExists(events: Events, s: int)
    requires s in Numbers(events)
    ensures exists id :: Numbered(events, id, s)
  {
    var id :| id in events && events[id].link.Some? && events[id].link.value.chainSeq == s;
    assert Numbered(events, id, s);
  }

  ghost function RecordNumbered(events: Events, s: int): Record
    requires s in Numbers(events)
  {
    NumberedExists(events, s);
    var id :| Numbered(events, id, s);
    Record(events[id].link.value.prevHash, events[id].link.value.recordHash, Hashed(events[id].columns))
  }

  /** The chained rows by number, as the verifier reads them. */
  ghost function ChainOf(events: Events): Chain {
    map s | s in Numbers(events) :: RecordNumbered(events, s)
  }

  function Kept(events: Events, gone: set<string>): Events {
    map id | id in events && id !in gone :: events[id]
  }

  /** Deleting rows restricts the chain to the numbers left. */
  lemma DeletionRestricts(events: Events, gone: set<string>)
    requires UniqueNumbers(events)
    ensures UniqueNumbers(Kept(events, gone))
    ensures Numbers(Kept(events, gone)) <= Numbers(events)
    ensures ChainOf(Kept(events, gone)) == Restrict(ChainOf(events), Numbers(Kept(events, gone)))
  {
    var left := Kept(events, gone);
    forall a, b, s | Numbered(left, a, s) && Numbered(left, b, s) ensures a == b {
      assert Numbered(events, a, s) && Numbered(events, b, s);
    }
    forall s | s in Numbers(left) ensures s in Numbers(events) && RecordNumbered(left, s) == RecordNumbered(events, s) {
      var id :| id in left && left[id].link.Some? && left[id].link.value.chainSeq == s;
      assert Numbered(left, id, s) && Numbered(events, id, s);
    }
  }

  /** Inserting a chained row with a new number extends the chain by one record. */
  lemma InsertionExtends(events: Events, id: string, row: EventRow)
    requires UniqueNumbers(events) && id !in events && row.link.Some? && row.link.value.chainSeq !in Numbers(events)
    ensures var l := row.link.value;
            && UniqueNumbers(events[id := row])
            && Numbers(events[id := row]) == Numbers(events) + {l.chainSeq}
            && ChainOf(events[id := row])
               == ChainOf(events)[l.chainSeq := Record(l.prevHash, l.recordHash, Hashed(row.columns))]
  {
    var more := events[id := row];
    forall j, s | Numbered(more, j, s) ensures j == id || (Numbered(events, j, s) && s in Numbers(events)) {
    }
    forall s ensures s in Numbers(more) <==> s in Numbers(events) || s == row.link.value.chainSeq {
      if s in Numbers(events) {
        NumberedExists(events, s);
        var j :| Numbered(events, j, s);
        assert Numbered(more, j, s);
      }
      assert Numbered(more, id, row.link.value.chainSeq);
      if s in Numbers(more) {
        NumberedExists(more, s);
      }
    }
    forall s | s in Numbers(events) ensures RecordNumbered(more, s) == RecordNumbered(events, s) {
      NumberedExists(events, s);
      var j :| Numbered(events, j, s);
      assert Numbered(more, j, s);
    }
    assert Numbered(more, id, row.link.value.chainSeq);
  }

  // ----- edited rows

  lemma EditedChain(events: Events, id: string, row: EventRow)
    requires UniqueNumbers(events) && Chained(events, id) && row.link == events[id].link
    ensures var s, c := NumberOf(events, id), ChainOf(events);
            && UniqueNumbers(events[id := row]) && s in c
            && ChainOf(events[id := row]) == c[s := c[s].(columns := Hashed(row.columns))]
            && c[s].columns == Hashed(events[id].columns)
  {
    hide Hashed;
    var edited, s, c := events[id := row], NumberOf(events, id), ChainOf(events);
    assert Numbered(events, id, s) && Numbered(edited, id, s);
    forall j, t ensures Numbered(edited, j, t) <==> Numbered(events, j, t) {
    }
    forall t ensures t in Numbers(edited) <==> t in Numbers(events) {
      if t in Numbers(events) {
        NumberedExists(events, t);
        var j :| Numbered(events, j, t);
        assert Numbered(edited, j, t);
      }
      if t in Numbers(edited) {
        NumberedExists(edited, t);
      }
    }
    forall t | t in Numbers(events) && t != s ensures RecordNumbered(edited, t) == RecordNumbered(events, t) {
      NumberedExists(events, t);
      var j :| Numbered(events, j, t);
      assert Numbered(edited, j, t);
    }
  }

  /** One edited value of a chained row is reported as a hash mismatch of that row, and as nothing else. */
  lemma EditIsReported(hash: Hash, events: Events, head: Option<Head>, id: string, row: EventRow)
    requires UniqueNumbers(events) && ChainOk(hash, ChainOf(events), head)
    requires Chained(events, id) && row.link == events[id].link && !SameValues(row.columns, events[id].columns)
    requires NoCollision(hash, ChainOf(events), ChainOf(events[id := row]))
    ensures var s, edited := NumberOf(events, id), ChainOf(events[id := row]);
            OnlyProblem(hash, edited, head, RecordHashMismatch(s, Text(row.columns.id))) && !ChainOk(hash, edited, head)
  {
    hide ChainOf, UniqueNumbers, ChainOk, OnlyProblem, SameValues, NoCollision;
    EditedChain(events, id, row);
    HashedExactly(row.columns, events[id].columns);
    EditedRecord(hash, ChainOf(events), head, NumberOf(events, id), Hashed(row.columns));
  }

  /** Two tables that verify under one head row with as many chained rows store the same values row by row. */
  lemma HeadCommitsToRows(hash: Hash, a: Events, b: Events, head: Option<Head>)
    requires UniqueNumbers(a) && ChainOk(hash, ChainOf(a), head)
    requires UniqueNumbers(b) && ChainOk(hash, ChainOf(b), head)
    requires NoCollision(hash, ChainOf(a), ChainOf(b)) && |Numbers(a)| == |Numbers(b)|
    ensures Numbers(a) == Numbers(b)
    ensures forall i, j, s | Numbered(a, i, s) && Numbered(b, j, s) ::
              && SameValues(a[i].columns, b[j].columns)
              && a[i].link.value.recordHash == b[j].link.value.recordHash
  {
    hide ChainOk, SameValues, NoCollision, Hashed;
    var ca, cb := ChainOf(a), ChainOf(b);
    assert ca.Keys == Numbers(a) && cb.Keys == Numbers(b);
    HeadCommitsToChain(hash, ca, cb, head);
    forall i, j, s | Numbered(a, i, s) && Numbered(b, j, s)
      ensures SameValues(a[i].columns, b[j].columns) && a[i].link.value.recordHash == b[j].link.value.recordHash
    {
      assert s in Numbers(a) && s in Numbers(b);
      assert ca[s].columns == cb[s].columns;
      HashedExactly(a[i].columns, b[j].columns);
    }
  }

  // ----- deletion oldest first

  function ArrivalKey(events: Events, id: string): Key
    requires id in events
  {
    Key(events[id].columns.collectorReceivedAt.instant, id)
  }

  ghost predicate Chained(events: Events, id: string) {
    id in events && events[id].link.Some?
  }

  function NumberOf(events: Events, id: string): int
    requires id in events && events[id].link.Some?
  {
    events[id].link.value.chainSeq
  }

  /** Along the chain rows arrive later and later, equal instants ordered by id. */
  ghost predicate ChainFollowsArrival(events: Events) {
    forall a, b | Chained(events, a) && Chained(events, b) && NumberOf(events, a) < NumberOf(events, b) ::
      KeyLess(ArrivalKey(events, a), ArrivalKey(events, b))
  }

  /** A deletion that never spares an older row, as both retention and capacity delete. */
  ghost predicate OldestFirst(events: Events, gone: set<string>) {
    && gone <= events.Keys
    && forall a, b | a in gone && b in events && KeyLess(ArrivalKey(events, b), ArrivalKey(events, a)) :: b in gone
  }

  /** Received earlier, or at the same instant under a smaller id. */
  ghost predicate Older(events: Events, a: string, b: string)
    requires a in events && b in events
  {
    var s, t := events[a].columns.collectorReceivedAt.instant, events[b].columns.collectorReceivedAt.instant;
    s < t || (s == t && Precedes(a, b))
  }

  /** In such a deletion every deleted row is older than every row left. */
  lemma OldestFirstExactly(events: Events, gone: set<string>)
    requires gone <= events.Keys
    ensures OldestFirst(events, gone) <==> forall a, b | a in gone && b in events && b !in gone :: Older(events, a, b)
  {
    hide KeyLess, Precedes;
    forall a, b | a in events && b in events
      ensures KeyLess(ArrivalKey(events, a), ArrivalKey(events, b)) <==> Older(events, a, b)
      ensures a != b ==> (Older(events, a, b) <==> !KeyLess(ArrivalKey(events, b), ArrivalKey(events, a)))
    {
      KeyLessExactly(ArrivalKey(events, a), ArrivalKey(events, b));
      KeyOrders();
    }
  }

  /** The deletion leaves a tail of the chain. */
  ghost predicate LeavesTail(events: Events, gone: set<string>) {
    forall a, b | Chained(events, a) && Chained(events, b) && NumberOf(events, a) < NumberOf(events, b) && b in gone ::
      a in gone
  }

  /** What is left of an intact chain verifies exactly when a record survives and no record outlives a later one. */
  lemma DeletionVerifies(hash: Hash, events: Events, head: Option<Head>, gone: set<string>)
    requires UniqueNumbers(events) && ChainOk(hash, ChainOf(events), head)
    requires head.Some? && head.value.lastSeq != 0
    ensures ChainOk(hash, ChainOf(Kept(events, gone)), head)
            <==> Numbers(Kept(events, gone)) != {} && LeavesTail(events, gone)
  {
    DeletionRestricts(events, gone);
    var c, kept := ChainOf(events), Numbers(Kept(events, gone));
    assert c.Keys == Numbers(events) && c != map[];
    RemovalVerifies(hash, c, head, kept);
    TailByNumbers(events, gone);
  }

  lemma TailByNumbers(events: Events, gone: set<string>)
    requires UniqueNumbers(events)
    ensures LeavesTail(events, gone)
            <==> forall s, t | s in Numbers(Kept(events, gone)) && t in Numbers(events) && s <= t ::
                   t in Numbers(Kept(events, gone))
  {
    var left := Kept(events, gone);
    if LeavesTail(events, gone) {
      forall s, t | s in Numbers(left) && t in Numbers(events) && s <= t ensures t in Numbers(left) {
        NumberedExists(left, s);
        NumberedExists(events, t);
        var a, b :| Numbered(left, a, s) && Numbered(events, b, t);
        assert Chained(events, a) && Chained(events, b) && a !in gone;
        if s == t {
          assert Numbered(events, a, s);
        }
        assert Numbered(left, b, t);
      }
    }
    if forall s, t | s in Numbers(left) && t in Numbers(events) && s <= t :: t in Numbers(left) {
      forall a, b | Chained(events, a) && Chained(events, b) && NumberOf(events, a) < NumberOf(events, b) && b in gone
        ensures a in gone
      {
        if a !in gone {
          assert NumberOf(left, a) in Numbers(left) && NumberOf(events, b) in Numbers(events);
          NumberedExists(left, NumberOf(events, b));
          var j :| Numbered(left, j, NumberOf(events, b));
          assert Numbered(events, j, NumberOf(events, b)) && Numbered(events, b, NumberOf(events, b));
        }
      }
    }
  }

  /**
   * Deleting oldest first keeps every intact chain with a survivor verifiable, whatever the amount, exactly
   * when arrival order follows chain order.
   */
  lemma OldestFirstIsSafe(hash: Hash, events: Events, head: Option<Head>)
    requires UniqueNumbers(events) && ChainOk(hash, ChainOf(events), head)
    requires head.Some? && head.value.lastSeq != 0
    ensures ChainFollowsArrival(events)
            <==> forall gone | OldestFirst(events, gone) && Numbers(Kept(events, gone)) != {} ::
                   ChainOk(hash, ChainOf(Kept(events, gone)), head)
  {
    hide ChainOk, ChainOf, UniqueNumbers, KeyLess;
    if ChainFollowsArrival(events) {
      forall gone | OldestFirst(events, gone) && Numbers(Kept(events, gone)) != {}
        ensures ChainOk(hash, ChainOf(Kept(events, gone)), head)
      {
        DeletionVerifies(hash, events, head, gone);
      }
    } else {
      var a, b :| Chained(events, a) && Chained(events, b) && NumberOf(events, a) < NumberOf(events, b)
                  && !KeyLess(ArrivalKey(events, a), ArrivalKey(events, b));
      var gone := set x | x in events && (x == b || KeyLess(ArrivalKey(events, x), ArrivalKey(events, b)));
      OlderClosed(events, b);
      DeletionVerifies(hash, events, head, gone);
      assert a !in gone && Chained(Kept(events, gone), a);
      assert NumberOf(events, a) in Numbers(Kept(events, gone));
      assert !LeavesTail(events, gone);
    }
  }

  /** Two rows whose clock went back: deleting the older of them leaves a chain that does not verify. */
  lemma ClockStepBreaksPruning(hash: Hash, x: EventColumns, y: EventColumns)
    requires x.id != y.id && y.collectorReceivedAt.instant < x.collectorReceivedAt.instant
    ensures var (c1, h1) := Appended(hash, map[], None, Hashed(x));
            var (_, h2) := Appended(hash, c1, Some(h1), Hashed(y));
            var events := map[x.id := EventRow(x, Some(Link(1, Some(GENESIS_HASH), Some(h1.lastHash)))),
                              y.id := EventRow(y, Some(Link(2, Some(h1.lastHash), Some(h2.lastHash))))];
            && ChainOk(hash, ChainOf(events), Some(h2)) && OldestFirst(events, {y.id})
            && Numbers(Kept(events, {y.id})) != {} && !ChainOk(hash, ChainOf(Kept(events, {y.id})), Some(h2))
  {
    hide ChainOk, ChainOf;
    var (c1, h1) := Appended(hash, map[], None, Hashed(x));
    var (c2, h2) := Appended(hash, c1, Some(h1), Hashed(y));
    var first := EventRow(x, Some(Link(1, Some(GENESIS_HASH), Some(h1.lastHash))));
    var second := EventRow(y, Some(Link(2, Some(h1.lastHash), Some(h2.lastHash))));
    var events := map[x.id := first, y.id := second];
    NoRowsNoChain();
    InsertionExtends(map[], x.id, first);
    InsertionExtends(map[x.id := first], y.id, second);
    assert events == map[x.id := first][y.id := second] && ChainOf(events) == c2;
    AppendKeepsOk(hash, map[], None, Hashed(x));
    AppendKeepsOk(hash, c1, Some(h1), Hashed(y));
    DeletionVerifies(hash, events, Some(h2), {y.id});
    assert Kept(events, {y.id}) == map[x.id := first];
    assert 1 in Numbers(map[x.id := first]);
    assert Chained(events, x.id) && Chained(events, y.id) && !LeavesTail(events, {y.id});
  }

  lemma NoRowsNoChain()
    ensures UniqueNumbers(map[]) && Numbers(map[]) == {} && ChainOf(map[]) == map[]
  {
  }

  lemma OlderClosed(events: Events, b: string)
    requires b in events
    ensures OldestFirst(events,
                        set x | x in events && (x == b || KeyLess(ArrivalKey(events, x), ArrivalKey(events, b))))
  {
    forall x, y | x in events && y in events && (x == b || KeyLess(ArrivalKey(events, x), ArrivalKey(events, b)))
                  && KeyLess(ArrivalKey(events, y), ArrivalKey(events, x))
      ensures KeyLess(ArrivalKey(events, y), ArrivalKey(events, b))
    {
      if x != b {
        KeyLessTransitive(ArrivalKey(events, y), ArrivalKey(events, x), ArrivalKey(events, b));
      }
    }
  }

  // ----- sessions against the events they hold

  ghost function EventsOf(events: Events, sessionId: string): set<string> {
    set id | id in events && events[id].columns.sessionId == sessionId
  }

  ghost predicate Holds(s: Session, events: Events, mine: set<string>) {
    forall id | id in mine :: id in events && s.startedAt <= events[id].columns.timestamp.instant <= s.lastSeen
  }

  /** The row is exactly the summary of the events assigned to it. */
  ghost predicate Summarises(s: Session, events: Events, mine: set<string>) {
    && Holds(s, events, mine)
    && s.eventCount == |mine|
    && (exists id :: id in mine && id in events && events[id].columns.timestamp.instant == s.startedAt)
    && (exists id :: id in mine && id in events && events[id].columns.timestamp.instant == s.lastSeen)
  }

  ghost predicate EventsHaveSessions(t: Table, events: Events) {
    forall id | id in events :: events[id].columns.sessionId in t
  }

  /** Without pruning: minimum, maximum and number of the assigned events. */
  ghost predicate Aggregates(t: Table, events: Events) {
    && EventsHaveSessions(t, events)
    && forall s | s in t :: Summarises(t[s], events, EventsOf(events, s))
  }

  /** With pruning: the row spans and counts at least the events still stored. */
  ghost predicate Spans(t: Table, events: Events) {
    && EventsHaveSessions(t, events)
    && forall s | s in t :: Holds(t[s], events, EventsOf(events, s)) && |EventsOf(events, s)| <= t[s].eventCount
  }

  lemma AssignedTo(events: Events, id: string, row: EventRow, s: string)
    requires id !in events
    ensures EventsOf(events[id := row], s) == EventsOf(events, s) + if row.columns.sessionId == s then {id} else {}
  {
  }

  /** A selection turns the row it chose, or the new one, into the summary with one event more. */
  lemma SelectionCounts(n: Naming, gap: int, t: Table, a: Arrival, s: string, u: Table)
    requires Selects(n, gap, t, a, s, u)
    requires forall j | j in t :: t[j].startedAt <= t[j].lastSeen
    ensures s in u && u == t[s := u[s]]
    ensures s !in t ==> u[s] == Opened(a)
    ensures s in t ==>
              && u[s].eventCount == t[s].eventCount + 1
              && u[s].startedAt <= t[s].startedAt && t[s].lastSeen <= u[s].lastSeen
              && u[s].startedAt <= a.timestamp <= u[s].lastSeen
              && (u[s].startedAt == t[s].startedAt || u[s].startedAt == a.timestamp)
              && (u[s].lastSeen == t[s].lastSeen || u[s].lastSeen == a.timestamp)
  {
    hide SessionIdFor, SessionIdForExplicit;
  }

  lemma SummaryUnchanged(s: Session, events: Events, mine: set<string>, id: string, row: EventRow)
    requires Summarises(s, events, mine) && id !in events
    ensures Summarises(s, events[id := row], mine)
  {
    var a :| a in mine && a in events && events[a].columns.timestamp.instant == s.startedAt;
    var b :| b in mine && b in events && events[b].columns.timestamp.instant == s.lastSeen;
    assert events[id := row][a] == events[a] && events[id := row][b] == events[b];
  }

  lemma SummaryGrows(s: Session, s': Session, events: Events, mine: set<string>, id: string, row: EventRow)
    requires Summarises(s, events, mine) && id !in events
    requires s'.eventCount == s.eventCount + 1
    requires s'.startedAt <= s.startedAt && s.lastSeen <= s'.lastSeen
    requires s'.startedAt <= row.columns.timestamp.instant <= s'.lastSeen
    requires s'.startedAt == s.startedAt || s'.startedAt == row.columns.timestamp.instant
    requires s'.lastSeen == s.lastSeen || s'.lastSeen == row.columns.timestamp.instant
    ensures Summarises(s', events[id := row], mine + {id})
  {
    var more := events[id := row];
    var a :| a in mine && a in events && events[a].columns.timestamp.instant == s.startedAt;
    var b :| b in mine && b in events && events[b].columns.timestamp.instant == s.lastSeen;
    assert more[a] == events[a] && more[b] == events[b] && more[id] == row;
    assert a in mine + {id} && b in mine + {id} && id in mine + {id};
  }

  lemma SummaryOpens(a: Arrival, events: Events, id: string, row: EventRow)
    requires row.columns.timestamp.instant == a.timestamp
    ensures Summarises(Opened(a), events[id := row], {id})
  {
    assert id in {id} && id in events[id := row];
  }

  /** Ingest keeps every session row the exact summary of its events, in whatever order they arrive. */
  lemma IngestKeepsAggregates(n: Naming, gap: int, t: Table, a: Arrival, s: string, u: Table,
                              events: Events, id: string, row: EventRow)
    requires Aggregates(t, events) && Selects(n, gap, t, a, s, u)
    requires id !in events && row.columns.sessionId == s && row.columns.timestamp.instant == a.timestamp
    ensures Aggregates(u, events[id := row])
  {
    hide Selects, Summarises;
    forall j | j in t ensures t[j].startedAt <= t[j].lastSeen {
      SummaryOrdered(t[j], events, EventsOf(events, j));
    }
    SelectionCounts(n, gap, t, a, s, u);
    forall j | j in u ensures Summarises(u[j], events[id := row], EventsOf(events[id := row], j)) {
      AssignedTo(events, id, row, j);
      var mine := EventsOf(events, j);
      if j != s {
        SummaryUnchanged(t[j], events, mine, id, row);
        assert mine + {} == mine;
      } else if j in t {
        SummaryGrows(t[j], u[j], events, mine, id, row);
      } else {
        SummaryOpens(a, events, id, row);
        assert mine + {id} == {id};
      }
    }
  }

  lemma SummaryOrdered(s: Session, events: Events, mine: set<string>)
    requires Summarises(s, events, mine)
    ensures s.startedAt <= s.lastSeen
  {
  }

  function Referenced(t: Table, events: Events): Table {
    map s | s in t && exists id :: id in events && events[id].columns.sessionId == s :: t[s]
  }

  /** DELETE FROM sessions WHERE id NOT IN (the sessions of the surviving events). */
  lemma PruningKeepsSpans(t: Table, events: Events, gone: set<string>)
    requires Spans(t, events)
    ensures Spans(Referenced(t, Kept(events, gone)), Kept(events, gone))
    ensures Referenced(t, Kept(events, gone)).Keys
            == set id | id in events && id !in gone :: events[id].columns.sessionId
  {
    var left := Kept(events, gone);
    forall s | s in Referenced(t, left)
      ensures Holds(t[s], left, EventsOf(left, s)) && |EventsOf(left, s)| <= t[s].eventCount
    {
      assert EventsOf(left, s) <= EventsOf(events, s);
      SubsetSize(EventsOf(left, s), EventsOf(events, s));
    }
    assert forall id | id in events && id !in gone :: id in left && left[id] == events[id];
  }

  lemma IngestKeepsSpans(n: Naming, gap: int, t: Table, a: Arrival, s: string, u: Table,
                         events: Events, id: string, row: EventRow)
    requires Spans(t, events) && Selects(n, gap, t, a, s, u)
    requires forall j | j in t :: t[j].startedAt <= t[j].lastSeen
    requires id !in events && row.columns.sessionId == s && row.columns.timestamp.instant == a.timestamp
    ensures Spans(u, events[id := row]) && forall j | j in u :: u[j].startedAt <= u[j].lastSeen
  {
    hide Selects, Holds, EventsOf;
    SelectionCounts(n, gap, t, a, s, u);
    forall j | j in u
      ensures Holds(u[j], events[id := row], EventsOf(events[id := row], j))
      ensures |EventsOf(events[id := row], j)| <= u[j].eventCount
    {
      AssignedTo(events, id, row, j);
      var mine := EventsOf(events, j);
      if j != s {
        assert mine + {} == mine;
        SpanWidens(t[j], u[j], events, mine, id, row);
      } else if j in t {
        SpanGrows(t[j], u[j], events, mine, id, row);
      } else {
        NothingAssigned(t, events, j);
        assert mine + {id} == {id};
        SpanOpens(a, events, id, row);
      }
    }
  }

  lemma NothingAssigned(t: Table, events: Events, j: string)
    requires EventsHaveSessions(t, events) && j !in t
    ensures EventsOf(events, j) == {}
  {
  }

  lemma SpanWidens(s: Session, s': Session, events: Events, mine: set<string>, id: string, row: EventRow)
    requires Holds(s, events, mine) && id !in events && s'.startedAt <= s.startedAt && s.lastSeen <= s'.lastSeen
    ensures Holds(s', events[id := row], mine)
  {
  }

  lemma SpanGrows(s: Session, s': Session, events: Events, mine: set<string>, id: string, row: EventRow)
    requires Holds(s, events, mine) && id !in events && s'.startedAt <= s.startedAt && s.lastSeen <= s'.lastSeen
    requires s'.startedAt <= row.columns.timestamp.instant <= s'.lastSeen
    ensures Holds(s', events[id := row], mine + {id})
    ensures |mine + {id}| <= |mine| + 1
  {
  }

  lemma SpanOpens(a: Arrival, events: Events, id: string, row: EventRow)
    requires row.columns.timestamp.instant == a.timestamp
    ensures Holds(Opened(a), events[id := row], {id})
  {
  }

  // ----- the store

  datatype Sequence = Sequence(streamId: string, number: nat)

  /** A normalised event as ingest receives it, with the observed fields that decide its session. */
  datatype NewEvent = NewEvent(
    id: string,
    timestamp: int,
    honeypot: string,
    eventType: string,
    severity: string,
    sourceIp: Option<string>,
    service: Option<string>,
    protocol: Option<string>,
    destinationPort: Option<nat>,
    sensorSessionId: Option<string>,
    flowId: Option<string>,
    flowStart: Option<string>,
    sequence: Option<Sequence>,
    schemaVersion: string,
    observed: string,
    enrichment: string,
    derived: string,
    hypotheses: string,
    collector: string)
  {
    function Arrives(): Arrival {
      Arrival(SessionIdentity(sourceIp, Some(honeypot), service, protocol, destinationPort),
              ExplicitSessionToken(sensorSessionId, flowId, flowStart), timestamp)
    }

    function Stored(n: Naming, sessionId: string, receivedAt: int): EventColumns {
      EventColumns(id, Stamp(n.iso(timestamp), timestamp), Stamp(n.iso(receivedAt), receivedAt), honeypot, eventType,
                   severity, sourceIp, sessionId, schemaVersion, observed, enrichment, derived, hypotheses, collector)
    }
  }

  datatype IngestResult =
    | Ingested(sessionId: string)
    | SessionConflict
    | DuplicateEvent
    | SequenceRejected

  ghost predicate NumbersWithin(events: Events, head: Option<Head>) {
    forall s | s in Numbers(events) :: s <= HeadSeq(head)
  }

  /** What holds between the tables at every commit. */
  ghost predicate Consistent(t: Table, events: Events, head: Option<Head>) {
    && Spans(t, events)
    && (forall s | s in t :: t[s].startedAt <= t[s].lastSeen)
    && UniqueNumbers(events)
    && NumbersWithin(events, head)
    && (head.Some? ==> 1 <= head.value.lastSeq)
    && (forall id | id in events :: events[id].columns.id == id)
  }

  /** The chain verifies, or retention has emptied it. */
  ghost predicate Intact(hash: Hash, events: Events, head: Option<Head>) {
    ChainOf(events) == map[] || ChainOk(hash, ChainOf(events), head)
  }

  /** Everything ingest and maintenance write. */
  datatype Database =
    Database(sessions: Table, events: Events, head: Option<Head>, sequences: SensorSequence.Tables)

  /** Why an event is turned away, if it is. */
  ghost function Refusal(n: Naming, gap: int, d: Database, e: NewEvent, receivedAt: int): (r: Option<IngestResult>)
    requires SensorSequence.Aligned(d.sequences)
    ensures r.Some? ==> !r.value.Ingested?
  {
    if Conflicts(n, gap, d.sessions, e.Arrives()) then Some(SessionConflict)
    else if e.id in d.events then Some(DuplicateEvent)
    else if e.sequence.Some? && SequenceRefused(d.sequences, e, receivedAt) then Some(SequenceRejected)
    else None
  }

  /** One committed ingest: the session, the row, its chain record and its sequence number, and nothing else. */
  ghost predicate Committed(n: Naming, gap: int, hash: Hash, d: Database, e: NewEvent, receivedAt: int, s: string,
                            d': Database)
    requires SensorSequence.Aligned(d.sequences)
  {
    && Selects(n, gap, d.sessions, e.Arrives(), s, d'.sessions)
    && e.id !in d.events && d'.events.Keys == d.events.Keys + {e.id}
    && d'.events[e.id].columns == e.Stored(n, s, receivedAt)
    && d'.events[e.id].link.Some? && d'.events[e.id].link.value.chainSeq == HeadSeq(d.head) + 1
    && (forall j | j in d.events :: d'.events[j] == d.events[j])
    && d'.head.Some?
    && (ChainOf(d'.events), d'.head.value)
       == Appended(hash, ChainOf(d.events), d.head, Hashed(d'.events[e.id].columns))
    && SequenceTaken(d.sequences, e, receivedAt, d'.sequences)
  }

  /** Read the other way round: these facts are what a commit is. */
  lemma CommitIs(n: Naming, gap: int, hash: Hash, d: Database, e: NewEvent, receivedAt: int, s: string, row: EventRow,
                 d': Database)
    requires SensorSequence.Aligned(d.sequences)
    requires Selects(n, gap, d.sessions, e.Arrives(), s, d'.sessions)
    requires e.id !in d.events && d'.events == d.events[e.id := row]
    requires row.columns == e.Stored(n, s, receivedAt)
    requires row.link.Some? && row.link.value.chainSeq == HeadSeq(d.head) + 1
    requires d'.head.Some?
    requires (ChainOf(d'.events), d'.head.value) == Appended(hash, ChainOf(d.events), d.head, Hashed(row.columns))
    requires SequenceTaken(d.sequences, e, receivedAt, d'.sequences)
    ensures Committed(n, gap, hash, d, e, receivedAt, s, d')
  {
    hide Selects, ChainOf, Appended, SequenceTaken, Hashed;
  }

  /** The chain record of a committed event, column by column. */
  lemma CommittedRow(n: Naming, gap: int, hash: Hash, d: Database, e: NewEvent, receivedAt: int, s: string,
                     d': Database)
    requires SensorSequence.Aligned(d.sequences) && Committed(n, gap, hash, d, e, receivedAt, s, d')
    ensures HeadSeq(d.head) + 1 in ChainOf(d'.events)
    ensures ChainOf(d'.events)[HeadSeq(d.head) + 1].columns ==
            Columns(id := Text(e.id), timestamp := Text(n.iso(e.timestamp)),
                    collectorReceivedAt := Text(n.iso(receivedAt)), honeypot := Text(e.honeypot),
                    eventType := Text(e.eventType), severity := Text(e.severity),
                    sourceIp := if e.sourceIp.Some? then Text(e.sourceIp.value) else Null, sessionId := Text(s),
                    schemaVersion := Text(e.schemaVersion), observed := Text(e.observed),
                    enrichment := Text(e.enrichment), derived := Text(e.derived), hypotheses := Text(e.hypotheses),
                    collector := Text(e.collector))
    ensures d'.events[e.id].columns.timestamp.instant == e.timestamp
    ensures d'.events[e.id].columns.collectorReceivedAt.instant == receivedAt
  {
    hide ChainOf, Selects, SequenceTaken, ComputeRecordHash;
  }

  /** The session of a committed event: one of its own identity, or the one its sensor names. */
  lemma CommittedSession(n: Naming, gap: int, hash: Hash, d: Database, e: NewEvent, receivedAt: int, s: string,
                         d': Database, own: Identity)
    requires SensorSequence.Aligned(d.sequences) && Committed(n, gap, hash, d, e, receivedAt, s, d')
    requires own.sourceIp == (if Given(e.sourceIp) then e.sourceIp.value else "unknown")
    requires own.honeypot == (if e.honeypot != "" then e.honeypot else "unknown")
    requires own.service == (if Given(e.service) then e.service.value else "unknown")
    requires own.protocol == (if Given(e.protocol) then e.protocol.value else "unknown")
    requires own.port == (if e.destinationPort.Some? then e.destinationPort.value else 0)
    ensures s in d'.sessions
    ensures !Given(e.sensorSessionId) && !Given(e.flowId) ==> d'.sessions[s].identity == own
    ensures Given(e.sensorSessionId) ==>
              s == "sesx_" + n.digest(RawKey(own, "sensor:" + Take(e.sensorSessionId.value, 256)))
  {
    hide ChainOf, SequenceTaken, Appended, SessionIdFor, RawKey;
    assert Selects(n, gap, d.sessions, e.Arrives(), s, d'.sessions);
    assert e.Arrives().identity == own;
  }

  /** The sequence number of a committed event is stored for its honeypot and stream, unless that stream is full. */
  lemma CommittedNumber(n: Naming, gap: int, hash: Hash, d: Database, e: NewEvent, receivedAt: int, s: string,
                        d': Database)
    requires SensorSequence.Aligned(d.sequences) && Committed(n, gap, hash, d, e, receivedAt, s, d')
    requires e.sequence.Some?
    ensures var k, u := SensorSequence.StreamKey(e.honeypot, e.sequence.value.streamId), d'.sequences;
            && k in u.rows && k in u.numbers
            && (e.sequence.value.number in u.numbers[k] || u.rows[k].detailTruncated)
  {
    hide ChainOf, Selects, Appended, SensorSequence.Ensured;
  }

  lemma NotRefused(n: Naming, gap: int, d: Database, e: NewEvent, receivedAt: int, u: SensorSequence.Tables)
    requires SensorSequence.Aligned(d.sequences)
    requires !Conflicts(n, gap, d.sessions, e.Arrives()) && e.id !in d.events
    requires SequenceTaken(d.sequences, e, receivedAt, u)
    ensures Refusal(n, gap, d, e, receivedAt) == None
  {
    hide Conflicts, SensorSequence.RecordedIn;
  }

  lemma SequenceRefusedIs(n: Naming, gap: int, d: Database, e: NewEvent, receivedAt: int)
    requires SensorSequence.Aligned(d.sequences)
    requires !Conflicts(n, gap, d.sessions, e.Arrives()) && e.id !in d.events
    requires e.sequence.Some? && SequenceRefused(d.sequences, e, receivedAt)
    ensures Refusal(n, gap, d, e, receivedAt) == Some(SequenceRejected)
  {
    hide Conflicts, SequenceRefused;
  }

  /** Maintenance in between deletes rows oldest first, with the sessions nothing names any more. */
  ghost predicate Maintained(d: Database, d': Database) {
    Trimmed(d.events, d.sessions, d'.events, d'.sessions) && d'.head == d.head && d'.sequences == d.sequences
  }

  class Store {
    const naming: Naming
    const gap: int
    const hash: Hash
    const retentionDays: int
    const maxEvents: nat
    const sequences: SensorSequence.SequenceStore
    var sessions: Table
    var events: Events
    var head: Option<Head>
    var ingestSinceMaintenance: nat

    /** An empty, migrated database. */
    constructor (naming: Naming, gapMinutes: int, hash: Hash, retentionDays: int, maxEvents: nat)
      ensures Valid() && sessions == map[] && events == map[] && head == None && fresh(sequences)
      ensures this.naming == naming && this.gap == SessionGap(gapMinutes) && this.hash == hash
      ensures this.retentionDays == (if retentionDays < 0 then 0 else retentionDays)
      ensures this.maxEvents == if maxEvents < 1_000 then 1_000 else maxEvents
    {
      this.naming, this.gap, this.hash := naming, SessionGap(gapMinutes), hash;
      this.retentionDays := if retentionDays < 0 then 0 else retentionDays;
      this.maxEvents := if maxEvents < 1_000 then 1_000 else maxEvents;
      sequences := new SensorSequence.SequenceStore();
      sessions, events, head, ingestSinceMaintenance := map[], map[], None, 0;
    }

    ghost predicate Valid()
      reads this, sequences
    {
      sequences.Valid() && Consistent(sessions, events, head) && 1_000 <= maxEvents
    }

    ghost function Contents(): Database
      reads this, sequences
    {
      Database(sessions, events, head, sequences.Contents())
    }

    method SelectOrCreateSession(a: Arrival) returns (id: Option<string>)
      modifies `sessions
      ensures match id
              case Some(s) => Selects(naming, gap, old(sessions), a, s, sessions)
              case None => Conflicts(naming, gap, old(sessions), a) && sessions == old(sessions)
    {
      if a.token.Some? {
        var s := SessionIdForExplicit(naming, a.identity, a.token.value);
        if s in sessions {
          sessions := sessions[s := Widened(sessions[s], a.timestamp)];
        } else {
          sessions := sessions[s := Opened(a)];
        }
        return Some(s);
      }
      if newest :| newest in sessions && Newest(sessions, a.identity, newest) {
        if ShouldJoin(gap, sessions[newest].lastSeen, a.timestamp) {
          assert Joinable(gap, sessions, a, newest);
          sessions := sessions[newest := Joined(sessions[newest], a.timestamp)];
          return Some(newest);
        }
        assert forall j | Newest(sessions, a.identity, j) :: sessions[j].lastSeen == sessions[newest].lastSeen;
      }
      assert forall j :: !Joinable(gap, sessions, a, j);
      var s := SessionIdFor(naming, a.identity, a.timestamp);
      if s in sessions {
        return None;
      }
      sessions := sessions[s := Opened(a)];
      return Some(s);
    }

    /** Chains a freshly inserted row and advances the head. */
    method AppendRecord(id: string)
      requires id in events && events[id].link.None? && UniqueNumbers(events)
      requires NumbersWithin(events, head)
      modifies `events, `head
      ensures head.Some?
      ensures (ChainOf(events), head.value)
              == Appended(hash, ChainOf(old(events)), old(head), Hashed(old(events)[id].columns))
      ensures events.Keys == old(events.Keys) && events[id].columns == old(events)[id].columns
      ensures events[id].link.Some? && events[id].link.value.chainSeq == HeadSeq(old(head)) + 1
      ensures forall j | j in events && j != id :: events[j] == old(events)[j]
      ensures UniqueNumbers(events) && NumbersWithin(events, head) && head.value.lastSeq == HeadSeq(old(head)) + 1
    {
      var columns := events[id].columns;
      var seq_, prevHash := HeadSeq(head) + 1, HeadHash(head);
      var recordHash := ComputeRecordHash(hash, seq_, prevHash, Hashed(columns));
      ghost var others := Kept(events, {id});
      UnlinkedRow(events, id);
      InsertionExtends(others, id, EventRow(columns, Some(Link(seq_, Some(prevHash), Some(recordHash)))));
      events := events[id := EventRow(columns, Some(Link(seq_, Some(prevHash), Some(recordHash))))];
      assert events == others[id := events[id]];
      head := Some(Head(seq_, recordHash));
    }

    /** The transaction of one event: session, row, chain and sequence together, or nothing. */
    method IngestTransaction(e: NewEvent, receivedAt: int) returns (result: IngestResult)
      requires Valid()
      requires e.sequence.Some? ==> 1 <= e.sequence.value.number <= SensorSequence.MAX_SEQUENCE
      modifies `sessions, `events, `head, sequences
      ensures Valid()
      ensures match Refusal(naming, gap, old(Contents()), e, receivedAt)
              case Some(why) => result == why && Contents() == old(Contents())
              case None => result.Ingested?
                           && Committed(naming, gap, hash, old(Contents()), e, receivedAt, result.sessionId, Contents())
      ensures old(Aggregates(sessions, events)) ==> Aggregates(sessions, events)
      ensures old(Intact(hash, events, head)) ==> Intact(hash, events, head)
    {
      hide Consistent, Selects, Aggregates, Intact, ChainOf, UniqueNumbers, NumbersWithin, Numbers, Conflicts,
        Appended, Committed, Hashed;
      hide SensorSequence.RecordedIn, SensorSequence.Sound, SensorSequence.Stores, SensorSequence.SoundStream;
      ConsistentParts(sessions, events, head);
      ghost var before := Contents();
      SensorSequence.SoundIsAligned(before.sequences);
      var savedSessions, savedEvents, savedHead := sessions, events, head;
      var selected := SelectOrCreateSession(e.Arrives());
      if selected.None? {
        return SessionConflict;
      }
      SelectionIsNoConflict(naming, gap, savedSessions, e.Arrives(), selected.value, sessions);
      if e.id in events {
        sessions := savedSessions;
        return DuplicateEvent;
      }
      var columns := e.Stored(naming, selected.value, receivedAt);
      events := events[e.id := EventRow(columns, None)];
      InsertUnlinked(savedEvents, savedHead, e.id, EventRow(columns, None));
      AppendRecord(e.id);
      assert events == savedEvents[e.id := events[e.id]];
      IngestKeeps(hash, naming, gap, savedSessions, e.Arrives(), selected.value, sessions,
                  savedEvents, e.id, events[e.id], savedHead, head.value);
      if e.sequence.Some? {
        var key := SensorSequence.StreamKey(e.honeypot, e.sequence.value.streamId);
        var taken := sequences.RecordEventSequence(key, e.sequence.value.number, receivedAt);
        if taken.ForeignKeyViolation? {
          SequenceRefusedIs(naming, gap, before, e, receivedAt);
          sessions, events, head := savedSessions, savedEvents, savedHead;
          return SequenceRejected;
        }
      }
      NotRefused(naming, gap, before, e, receivedAt, sequences.Contents());
      CommitIs(naming, gap, hash, before, e, receivedAt, selected.value, events[e.id], Contents());
      result := Ingested(selected.value);
    }

    /** DELETE of the given rows, and of the sessions no surviving event names. */
    method DeleteEvents(gone: set<string>)
      requires Valid() && OldestFirst(events, gone)
      modifies `sessions, `events
      ensures Valid() && events == Kept(old(events), gone) && sessions == Referenced(old(sessions), events)
      ensures Trimmed(old(events), old(sessions), events, sessions)
    {
      hide Consistent, OldestFirst, Kept, Referenced, Trimmed;
      TrimmedBy(events, sessions, gone);
      DeletionKeeps(sessions, events, head, gone);
      events := Kept(events, gone);
      sessions := Referenced(sessions, events);
    }

    method Prune(now: int) returns (deleted: nat)
      requires Valid()
      modifies `sessions, `events
      ensures Valid()
      ensures events == Retained(old(events), retentionDays, now) && deleted == |old(events)| - |events|
      ensures sessions == if retentionDays <= 0 then old(sessions) else Referenced(old(sessions), events)
      ensures Trimmed(old(events), old(sessions), events, sessions)
    {
      hide Consistent, OldestFirst, Kept, Referenced, Trimmed;
      if retentionDays <= 0 {
        NothingTrimmed(events, sessions);
        return 0;
      }
      var gone := ArrivedBefore(events, now - retentionDays * DAY);
      ArrivedBeforeIsOldestFirst(events, now - retentionDays * DAY);
      KeptSize(events, gone);
      DeleteEvents(gone);
      deleted := |gone|;
    }

    method EnforceCapacity() returns (deleted: nat)
      requires Valid()
      modifies `sessions, `events
      ensures Valid() && |events| <= maxEvents
      ensures deleted == if |old(events)| <= maxEvents then 0 else |old(events)| - maxEvents
      ensures deleted == 0 ==> events == old(events) && sessions == old(sessions)
      ensures deleted > 0 ==> |events| == maxEvents && sessions == Referenced(old(sessions), events)
      ensures Trimmed(old(events), old(sessions), events, sessions)
    {
      hide Consistent, OldestFirst, Kept, Referenced, ArrivalOrder, Ascending, TotalOrder, Trimmed;
      if |events| <= maxEvents {
        NothingTrimmed(events, sessions);
        return 0;
      }
      var overflow := |events| - maxEvents;
      var order := ArrivalOrder(events);
      var gone := set k | k in order[..overflow] :: k.id;
      OldestAreOldestFirst(events, overflow);
      DeleteEvents(gone);
      deleted := |gone|;
    }

    /** Retention, then capacity, at every hundredth ingest or when forced. */
    method Maintain(force: bool, now: int) returns (retentionDeleted: nat, capacityDeleted: nat)
      requires Valid()
      modifies `sessions, `events, `ingestSinceMaintenance
      ensures Valid()
      ensures !force && old(ingestSinceMaintenance) < 100 ==>
                && events == old(events) && sessions == old(sessions) && retentionDeleted == 0 == capacityDeleted
                && ingestSinceMaintenance == old(ingestSinceMaintenance)
      ensures force || old(ingestSinceMaintenance) >= 100 ==>
                var retained := Retained(old(events), retentionDays, now);
                && retentionDeleted == |old(events)| - |retained|
                && capacityDeleted == (if |retained| <= maxEvents then 0 else |retained| - maxEvents)
                && events.Keys <= retained.Keys && |events| == |retained| - capacityDeleted
                && (if retentionDays > 0 || capacityDeleted > 0 then sessions == Referenced(old(sessions), events)
                    else sessions == old(sessions))
                && ingestSinceMaintenance == 0
      ensures Trimmed(old(events), old(sessions), events, sessions)
    {
      hide Consistent, Trimmed, Kept, Referenced, OldestFirst;
      NothingTrimmed(events, sessions);
      if !force && ingestSinceMaintenance < 100 {
        return 0, 0;
      }
      ingestSinceMaintenance := 0;
      retentionDeleted := Prune(now);
      ghost var between, betweenSessions := events, sessions;
      capacityDeleted := EnforceCapacity();
      TrimmedTwice(old(events), old(sessions), between, betweenSessions, events, sessions);
      TrimmedSubset(between, betweenSessions, events, sessions);
      ReferencedTwice(old(sessions), between, events);
    }

    /** ingest: the transaction, then the periodic maintenance. */
    method Ingest(e: NewEvent, receivedAt: int, now: int) returns (result: IngestResult)
      requires Valid()
      requires e.sequence.Some? ==> 1 <= e.sequence.value.number <= SensorSequence.MAX_SEQUENCE
      modifies this, sequences
      ensures Valid()
      ensures match Refusal(naming, gap, old(Contents()), e, receivedAt)
              case Some(why) =>
                result == why && Contents() == old(Contents()) && ingestSinceMaintenance == old(ingestSinceMaintenance)
              case None =>
                && result.Ingested?
                && (exists after: Database ::
                      && Committed(naming, gap, hash, old(Contents()), e, receivedAt, result.sessionId, after)
                      && Maintained(after, Contents())
                      && (old(ingestSinceMaintenance) + 1 < 100 ==> Contents() == after))
                && ingestSinceMaintenance
                   == (if old(ingestSinceMaintenance) + 1 < 100 then old(ingestSinceMaintenance) + 1 else 0)
                && (old(ingestSinceMaintenance) + 1 >= 100 ==> |events| <= maxEvents)
      ensures old(ingestSinceMaintenance) + 1 < 100 && old(Aggregates(sessions, events)) ==>
                Aggregates(sessions, events)
      ensures old(Intact(hash, events, head)) && old(ChainFollowsArrival(events))
              && ArrivesLast(old(events), e.id, receivedAt) ==>
                Intact(hash, events, head) && ChainFollowsArrival(events)
    {
      hide Consistent, Trimmed, Intact, ChainFollowsArrival, ArrivesLast, Aggregates, UniqueNumbers, NumbersWithin,
        Committed, Refusal;
      hide SensorSequence.Sound, SensorSequence.Stores;
      ConsistentParts(sessions, events, head);
      SensorSequence.SoundIsAligned(sequences.Contents());
      result := IngestTransaction(e, receivedAt);
      if result.Ingested? {
        ghost var after := Contents();
        ConsistentParts(sessions, events, head);
        CommitArrives(naming, gap, hash, old(Contents()), e, receivedAt, result.sessionId, after);
        ingestSinceMaintenance := ingestSinceMaintenance + 1;
        var _, _ := Maintain(false, now);
        TrimmedKeepsIntact(hash, after.events, after.sessions, events, sessions, head);
        assert Maintained(after, Contents());
      }
    }
  }

  /** Rows deleted oldest first, and sessions with them unless nothing was deleted. */
  ghost predicate Trimmed(events: Events, t: Table, events': Events, t': Table) {
    && OldestFirst(events, events.Keys - events'.Keys)
    && events' == Kept(events, events.Keys - events'.Keys)
    && ((t' == t && events' == events) || t' == Referenced(t, events'))
  }

  lemma KeptSize(events: Events, gone: set<string>)
    requires gone <= events.Keys
    ensures |Kept(events, gone)| == |events| - |gone|
  {
    assert Kept(events, gone).Keys == events.Keys - gone;
  }

  lemma ReferencedTwice(t: Table, between: Events, events: Events)
    requires events.Keys <= between.Keys && forall j | j in events :: events[j] == between[j]
    ensures Referenced(Referenced(t, between), events) == Referenced(t, events)
  {
  }

  lemma NothingTrimmed(events: Events, t: Table)
    ensures Trimmed(events, t, events, t)
  {
  }

  lemma TrimmedSubset(events: Events, t: Table, events': Events, t': Table)
    requires Trimmed(events, t, events', t')
    ensures events'.Keys <= events.Keys && forall j | j in events' :: events'[j] == events[j]
  {
  }

  lemma TrimmedBy(events: Events, t: Table, gone: set<string>)
    requires OldestFirst(events, gone)
    ensures Trimmed(events, t, Kept(events, gone), Referenced(t, Kept(events, gone)))
  {
    assert events.Keys - Kept(events, gone).Keys == gone;
  }

  lemma TrimmedTwice(e0: Events, t0: Table, e1: Events, t1: Table, e2: Events, t2: Table)
    requires Trimmed(e0, t0, e1, t1) && Trimmed(e1, t1, e2, t2)
    ensures Trimmed(e0, t0, e2, t2)
  {
    hide KeyLess;
    forall a, b | a in e0.Keys - e2.Keys && b in e0 && KeyLess(ArrivalKey(e0, b), ArrivalKey(e0, a)) ensures b !in e2 {
      if b in e1 && a in e1 {
        assert ArrivalKey(e1, a) == ArrivalKey(e0, a) && ArrivalKey(e1, b) == ArrivalKey(e0, b);
      }
    }
    if t1 == Referenced(t0, e1) && t2 == Referenced(t1, e2) {
      assert forall s | s in Referenced(t0, e2) :: s in t1;
      assert t2 == Referenced(t0, e2);
    }
  }

  lemma TrimmedKeepsIntact(hash: Hash, events: Events, t: Table, events': Events, t': Table, head: Option<Head>)
    requires Trimmed(events, t, events', t') && UniqueNumbers(events) && (head.Some? ==> 1 <= head.value.lastSeq)
    ensures Intact(hash, events, head) && ChainFollowsArrival(events) ==>
              Intact(hash, events', head) && ChainFollowsArrival(events')
  {
    hide Trimmed, Intact, ChainFollowsArrival, UniqueNumbers;
    if Intact(hash, events, head) && ChainFollowsArrival(events) {
      TrimmedChain(hash, events, t, events', t', head);
    }
  }

  lemma TrimmedChain(hash: Hash, events: Events, t: Table, events': Events, t': Table, head: Option<Head>)
    requires Trimmed(events, t, events', t') && UniqueNumbers(events) && (head.Some? ==> 1 <= head.value.lastSeq)
    requires Intact(hash, events, head) && ChainFollowsArrival(events)
    ensures Intact(hash, events', head) && ChainFollowsArrival(events')
  {
    hide ChainOk, KeyLess;
    var gone := events.Keys - events'.Keys;
    DeletionRestricts(events, gone);
    forall a, b | Chained(events', a) && Chained(events', b) && NumberOf(events', a) < NumberOf(events', b)
      ensures KeyLess(ArrivalKey(events', a), ArrivalKey(events', b))
    {
      assert Chained(events, a) && Chained(events, b);
    }
    if Numbers(events') != {} {
      assert ChainOf(events).Keys == Numbers(events) != {};
      assert ChainOf(events) != map[];
      IntactHasHead(hash, ChainOf(events), head);
      OldestFirstIsSafe(hash, events, head);
    }
  }

  lemma IntactHasHead(hash: Hash, c: Chain, head: Option<Head>)
    requires ChainOk(hash, c, head) && c != map[]
    ensures head.Some?
  {
  }

  /** A row received last goes to the end of both orders. */
  lemma ArrivalFollowed(events: Events, head: Option<Head>, id: string, events': Events)
    requires UniqueNumbers(events') && NumbersWithin(events, head) && id !in events && id in events'
    requires events'.Keys == events.Keys + {id} && forall j | j in events :: events'[j] == events[j]
    requires events'[id].link.Some? && events'[id].link.value.chainSeq == HeadSeq(head) + 1
    ensures ChainFollowsArrival(events) && ArrivesLast(events, id, events'[id].columns.collectorReceivedAt.instant)
            ==> ChainFollowsArrival(events')
  {
    hide KeyLess;
    if ChainFollowsArrival(events) && ArrivesLast(events, id, events'[id].columns.collectorReceivedAt.instant) {
      forall a, b | Chained(events', a) && Chained(events', b) && NumberOf(events', a) < NumberOf(events', b)
        ensures KeyLess(ArrivalKey(events', a), ArrivalKey(events', b))
      {
        if b != id {
          assert Chained(events, b) && NumberOf(events, b) in Numbers(events);
          assert ArrivalKey(events', b) == ArrivalKey(events, b);
        }
        if a != id {
          assert Chained(events, a) && ArrivalKey(events', a) == ArrivalKey(events, a);
        }
      }
    }
  }

  /** The new row is received after every chained row; equal instants are told apart by id. */
  ghost predicate ArrivesLast(events: Events, id: string, receivedAt: int) {
    forall j | Chained(events, j) :: KeyLess(ArrivalKey(events, j), Key(receivedAt, id))
  }

  const DAY := 24 * 60 * MINUTE

  function ArrivedBefore(events: Events, cutoff: int): set<string> {
    set id | id in events && events[id].columns.collectorReceivedAt.instant < cutoff
  }

  /** What retention leaves. */
  function Retained(events: Events, retentionDays: int, now: int): Events {
    if retentionDays <= 0 then events else Kept(events, ArrivedBefore(events, now - retentionDays * DAY))
  }

  /** Retention keeps the rows of the last days, as they are, and every row when it is off. */
  lemma RetainedExactly(events: Events, retentionDays: int, now: int)
    ensures var left, cutoff := Retained(events, retentionDays, now), now - retentionDays * 86_400_000_000;
            && left.Keys <= events.Keys && (forall id | id in left :: left[id] == events[id])
            && forall id | id in events ::
                 id in left <==> retentionDays <= 0 || cutoff <= events[id].columns.collectorReceivedAt.instant
  {
  }

  lemma ArrivedBeforeIsOldestFirst(events: Events, cutoff: int)
    ensures OldestFirst(events, ArrivedBefore(events, cutoff))
  {
  }

  ghost function ArrivalKeys(events: Events): set<Key> {
    set id | id in events :: ArrivalKey(events, id)
  }

  /** ORDER BY collector_received_at ASC, id ASC. */
  function ArrivalOrder(events: Events): (order: seq<Key>)
    ensures TotalOrder(KeyLess) && Ascending(order, KeyLess) && |order| == |events|
    ensures forall x :: x in order <==> x in ArrivalKeys(events)
  {
    KeyOrders();
    ArrivalKeysDistinct(events, events.Keys);
    Sort(set id | id in events :: ArrivalKey(events, id), KeyLess)
  }

  lemma {:induction false} ArrivalKeysDistinct(events: Events, ids: set<string>)
    requires ids <= events.Keys
    ensures |set id | id in ids :: ArrivalKey(events, id)| == |ids|
    decreases |ids|
  {
    if ids != {} {
      var x :| x in ids;
      ArrivalKeysDistinct(events, ids - {x});
      var rest := set id | id in ids - {x} :: ArrivalKey(events, id);
      assert (set id | id in ids :: ArrivalKey(events, id)) == rest + {ArrivalKey(events, x)};
      assert ArrivalKey(events, x) !in rest;
    }
  }

  /** The first rows of the arrival order are as many as asked for and oldest first. */
  lemma OldestAreOldestFirst(events: Events, n: nat)
    requires n <= |events|
    ensures var gone := set k | k in ArrivalOrder(events)[..n] :: k.id;
            && OldestFirst(events, gone) && gone <= events.Keys && |gone| == n && |Kept(events, gone)| == |events| - n
  {
    hide TotalOrder;
    var order := ArrivalOrder(events);
    var gone := set k | k in order[..n] :: k.id;
    forall k | k in order ensures k.id in events && ArrivalKey(events, k.id) == k {
      assert k in ArrivalKeys(events);
    }
    forall a, b | a in gone && b in events && KeyLess(ArrivalKey(events, b), ArrivalKey(events, a)) ensures b in gone {
      var i :| 0 <= i < n && order[i].id == a;
      assert order[i] in order && ArrivalKey(events, b) in order;
      var j :| 0 <= j < |order| && order[j] == ArrivalKey(events, b);
      if i < j {
        assert KeyLess(order[i], order[j]);
        KeyLessTransitive(order[i], order[j], order[i]);
        KeyLessIrreflexive(order[i]);
      }
      KeyLessIrreflexive(order[i]);
      assert j < n && order[..n][j] == order[j];
    }
    AscendingDistinct(order, KeyLess);
    assert forall i | 0 <= i < |order| :: order[i] in order;
    IdsDistinct(events, order, n);
    assert Kept(events, gone).Keys == events.Keys - gone;
  }

  lemma IdsDistinct(events: Events, order: seq<Key>, n: nat)
    requires n <= |order| && Distinct(order)
    requires forall i | 0 <= i < |order| :: order[i].id in events && ArrivalKey(events, order[i].id) == order[i]
    ensures |set k | k in order[..n] :: k.id| == n
  {
    var ids := seq(n, i requires 0 <= i < n => order[i].id);
    forall i, j | 0 <= i < j < n ensures ids[i] != ids[j] {
      assert order[i] != order[j];
    }
    DistinctCount(ids);
    forall x ensures x in ids <==> x in set k | k in order[..n] :: k.id {
      if k :| k in order[..n] && k.id == x {
        var i :| 0 <= i < n && order[i] == k;
        assert ids[i] == x;
      }
      if i :| 0 <= i < n && ids[i] == x {
        assert order[i] in order[..n];
      }
    }
    assert (set x | x in ids) == set k | k in order[..n] :: k.id;
  }

  lemma DeletionKeeps(t: Table, events: Events, head: Option<Head>, gone: set<string>)
    requires Consistent(t, events, head)
    ensures Consistent(Referenced(t, Kept(events, gone)), Kept(events, gone), head)
  {
    hide Spans;
    PruningKeepsSpans(t, events, gone);
    DeletionRestricts(events, gone);
  }

  lemma SelectionIsNoConflict(n: Naming, gap: int, t: Table, a: Arrival, id: string, u: Table)
    requires Selects(n, gap, t, a, id, u)
    ensures !Conflicts(n, gap, t, a)
  {
    hide SessionIdFor, SessionIdForExplicit;
  }

  lemma CommitArrives(n: Naming, gap: int, hash: Hash, d: Database, e: NewEvent, receivedAt: int, s: string,
                      d': Database)
    requires SensorSequence.Aligned(d.sequences) && Committed(n, gap, hash, d, e, receivedAt, s, d')
    requires UniqueNumbers(d'.events) && NumbersWithin(d.events, d.head)
    ensures ChainFollowsArrival(d.events) && ArrivesLast(d.events, e.id, receivedAt) ==> ChainFollowsArrival(d'.events)
  {
    hide ChainFollowsArrival, ArrivesLast, UniqueNumbers, NumbersWithin, Selects, ChainOf, Appended;
    ArrivalFollowed(d.events, d.head, e.id, d'.events);
  }

  lemma ConsistentParts(t: Table, events: Events, head: Option<Head>)
    requires Consistent(t, events, head)
    ensures UniqueNumbers(events) && NumbersWithin(events, head) && (head.Some? ==> 1 <= head.value.lastSeq)
  {
  }

  /** What one committed ingest keeps: consistency, the session summaries and the chain. */
  lemma IngestKeeps(hash: Hash, n: Naming, gap: int, t: Table, a: Arrival, s: string, u: Table,
                    events: Events, id: string, row: EventRow, head: Option<Head>, head': Head)
    requires Consistent(t, events, head) && Selects(n, gap, t, a, s, u) && id !in events
    requires row.columns.id == id && row.columns.sessionId == s && row.columns.timestamp.instant == a.timestamp
    requires (ChainOf(events[id := row]), head') == Appended(hash, ChainOf(events), head, Hashed(row.columns))
    requires UniqueNumbers(events[id := row]) && NumbersWithin(events[id := row], Some(head')) && 1 <= head'.lastSeq
    ensures Consistent(u, events[id := row], Some(head'))
    ensures Aggregates(t, events) ==> Aggregates(u, events[id := row])
    ensures Intact(hash, events, head) ==> Intact(hash, events[id := row], Some(head'))
  {
    hide Selects, Spans, Aggregates, UniqueNumbers, NumbersWithin, ChainOf, ChainOk, Appended;
    IngestKeepsSpans(n, gap, t, a, s, u, events, id, row);
    if Aggregates(t, events) {
      IngestKeepsAggregates(n, gap, t, a, s, u, events, id, row);
    }
    if Intact(hash, events, head) {
      AppendKeepsOk(hash, ChainOf(events), head, Hashed(row.columns));
    }
  }

  ghost predicate SequenceRefused(t: SensorSequence.Tables, e: NewEvent, receivedAt: int)
    requires SensorSequence.Aligned(t) && e.sequence.Some?
  {
    var q := e.sequence.value;
    SensorSequence.RecordedIn(t, SensorSequence.StreamKey(e.honeypot, q.streamId), q.number, receivedAt).None?
  }

  /** The event's number counts as received in the same transaction. */
  ghost predicate SequenceTaken(t: SensorSequence.Tables, e: NewEvent, receivedAt: int, u: SensorSequence.Tables)
    requires SensorSequence.Aligned(t)
  {
    match e.sequence
    case None => u == t
    case Some(q) =>
      var taken := SensorSequence.RecordedIn(t, SensorSequence.StreamKey(e.honeypot, q.streamId), q.number, receivedAt);
      taken.Some? && u == taken.value.0
  }

  lemma InsertUnlinked(events: Events, head: Option<Head>, id: string, row: EventRow)
    requires UniqueNumbers(events) && NumbersWithin(events, head) && id !in events && row.link.None?
    ensures UniqueNumbers(events[id := row]) && NumbersWithin(events[id := row], head)
    ensures ChainOf(events[id := row]) == ChainOf(events)
  {
    assert Kept(events[id := row], {id}) == events;
    var more := events[id := row];
    forall a, b, s | Numbered(more, a, s) && Numbered(more, b, s) ensures a == b {
      assert Numbered(events, a, s) && Numbered(events, b, s);
    }
    UnlinkedRow(more, id);
  }

  /** A row without a link is no part of the chain. */
  lemma UnlinkedRow(events: Events, id: string)
    requires UniqueNumbers(events) && id in events && events[id].link.None?
    ensures UniqueNumbers(Kept(events, {id})) && Numbers(Kept(events, {id})) == Numbers(events)
    ensures ChainOf(Kept(events, {id})) == ChainOf(events)
  {
    DeletionRestricts(events, {id});
    forall s | s in Numbers(events) ensures s in Numbers(Kept(events, {id})) {
      NumberedExists(events, s);
      var j :| Numbered(events, j, s);
      assert Numbered(Kept(events, {id}), j, s);
    }
  }

  // ----- whole runs of ingest

  datatype Step = Step(event: NewEvent, receivedAt: int)

  ghost predicate EmptyDatabase(d: Database) {
    d.sessions == map[] && d.events == map[] && d.head == None
  }

  /** What one call of ingest does before maintenance: a refusal changes nothing. */
  ghost predicate IngestStep(n: Naming, gap: int, hash: Hash, d: Database, step: Step, d': Database) {
    && SensorSequence.Aligned(d.sequences)
    && (d' == d || exists s :: Committed(n, gap, hash, d, step.event, step.receivedAt, s, d'))
  }

  /** The databases of a run of ingest from an empty store, with no maintenance in between. */
  ghost predicate IngestRun(n: Naming, gap: int, hash: Hash, dbs: seq<Database>, steps: seq<Step>) {
    && |dbs| == |steps| + 1 && EmptyDatabase(dbs[0])
    && forall i | 0 <= i < |steps| :: IngestStep(n, gap, hash, dbs[i], steps[i], dbs[i + 1])
  }

  ghost predicate Sane(d: Database) {
    Consistent(d.sessions, d.events, d.head)
  }

  lemma CommitKeeps(n: Naming, gap: int, hash: Hash, d: Database, e: NewEvent, receivedAt: int, s: string,
                    d': Database)
    requires SensorSequence.Aligned(d.sequences) && Sane(d) && Committed(n, gap, hash, d, e, receivedAt, s, d')
    ensures Sane(d')
    ensures Aggregates(d.sessions, d.events) ==> Aggregates(d'.sessions, d'.events)
    ensures Intact(hash, d.events, d.head) ==> Intact(hash, d'.events, d'.head)
  {
    hide Aggregates, Intact, ChainOf, UniqueNumbers, NumbersWithin, Selects, SequenceTaken, Consistent;
    ConsistentParts(d.sessions, d.events, d.head);
    var row := d'.events[e.id];
    assert d'.events == d.events[e.id := row];
    InsertionExtends(d.events, e.id, row);
    NumbersGrow(d.events, d.head, d'.events, d'.head);
    IngestKeeps(hash, n, gap, d.sessions, e.Arrives(), s, d'.sessions, d.events, e.id, row, d.head, d'.head.value);
  }

  lemma NumbersGrow(events: Events, head: Option<Head>, events': Events, head': Option<Head>)
    requires NumbersWithin(events, head) && Numbers(events') == Numbers(events) + {HeadSeq(head) + 1}
    requires HeadSeq(head') == HeadSeq(head) + 1
    ensures NumbersWithin(events', head')
  {
  }

  lemma EmptyIsSane(hash: Hash, d: Database)
    requires EmptyDatabase(d)
    ensures Sane(d) && Aggregates(d.sessions, d.events) && Intact(hash, d.events, d.head)
    ensures ChainFollowsArrival(d.events)
  {
  }

  /**
   * Over every run of ingest without maintenance, in whatever order events arrive and whichever are refused: each
   * session row is the minimum, maximum and number of its events, and the chain verifies once it has a record.
   */
  lemma {:induction false} RunKeepsSummaries(n: Naming, gap: int, hash: Hash, dbs: seq<Database>, steps: seq<Step>,
                                             k: nat)
    requires IngestRun(n, gap, hash, dbs, steps) && k <= |steps|
    ensures Sane(dbs[k]) && Aggregates(dbs[k].sessions, dbs[k].events) && Intact(hash, dbs[k].events, dbs[k].head)
  {
    hide Sane, Aggregates, Intact, Committed, EmptyDatabase;
    if k == 0 {
      EmptyIsSane(hash, dbs[0]);
    } else {
      RunKeepsSummaries(n, gap, hash, dbs, steps, k - 1);
      var d, step, d' := dbs[k - 1], steps[k - 1], dbs[k];
      assert IngestStep(n, gap, hash, d, step, d');
      if d' != d {
        var s :| Committed(n, gap, hash, d, step.event, step.receivedAt, s, d');
        CommitKeeps(n, gap, hash, d, step.event, step.receivedAt, s, d');
      }
    }
  }

  /** After any such run, an edited value of a stored event is the one thing the verifier reports. */
  lemma EditsAreReported(n: Naming, gap: int, hash: Hash, dbs: seq<Database>, steps: seq<Step>, k: nat, id: string,
                         row: EventRow)
    requires IngestRun(n, gap, hash, dbs, steps) && k <= |steps|
    requires Chained(dbs[k].events, id) && row.link == dbs[k].events[id].link
    requires !SameValues(row.columns, dbs[k].events[id].columns)
    requires NoCollision(hash, ChainOf(dbs[k].events), ChainOf(dbs[k].events[id := row]))
    ensures OnlyProblem(hash, ChainOf(dbs[k].events[id := row]), dbs[k].head,
                        RecordHashMismatch(NumberOf(dbs[k].events, id), Text(row.columns.id)))
  {
    hide IngestStep, ChainOk, SameValues, NoCollision, OnlyProblem, Aggregates, Spans, UniqueNumbers, RecordNumbered;
    RunKeepsSummaries(n, gap, hash, dbs, steps, k);
    SaneParts(dbs[k]);
    assert ChainOf(dbs[k].events).Keys == Numbers(dbs[k].events);
    assert NumberOf(dbs[k].events, id) in Numbers(dbs[k].events);
    EditIsReported(hash, dbs[k].events, dbs[k].head, id, row);
  }

  /** One call of ingest, with whatever maintenance it sets off. */
  ghost predicate MaintainedStep(n: Naming, gap: int, hash: Hash, d: Database, step: Step, d': Database) {
    exists after :: IngestStep(n, gap, hash, d, step, after) && (d' == after || Maintained(after, d'))
  }

  ghost predicate MaintainedRun(n: Naming, gap: int, hash: Hash, dbs: seq<Database>, steps: seq<Step>) {
    && |dbs| == |steps| + 1 && EmptyDatabase(dbs[0])
    && forall i | 0 <= i < |steps| :: MaintainedStep(n, gap, hash, dbs[i], steps[i], dbs[i + 1])
  }

  /** Every stored row was received before the instant. */
  ghost predicate ReceivedBefore(events: Events, instant: int) {
    forall j | j in events :: events[j].columns.collectorReceivedAt.instant < instant
  }

  lemma ReceivedBeforeArrivesLast(events: Events, id: string, receivedAt: int)
    requires ReceivedBefore(events, receivedAt)
    ensures ArrivesLast(events, id, receivedAt)
  {
  }

  /** Every session row is that of a stored event. */
  ghost predicate NoStale(d: Database) {
    forall s | s in d.sessions :: exists id :: id in d.events && d.events[id].columns.sessionId == s
  }

  ghost predicate Healthy(hash: Hash, d: Database) {
    Sane(d) && NoStale(d) && Intact(hash, d.events, d.head) && ChainFollowsArrival(d.events)
  }

  lemma MaintenanceLeavesNoStale(d: Database, d': Database)
    requires NoStale(d) && Maintained(d, d')
    ensures NoStale(d')
  {
  }

  lemma CommitLeavesNoStale(n: Naming, gap: int, hash: Hash, d: Database, e: NewEvent, receivedAt: int, s: string,
                            d': Database)
    requires SensorSequence.Aligned(d.sequences) && Committed(n, gap, hash, d, e, receivedAt, s, d') && NoStale(d)
    ensures NoStale(d')
  {
    hide ChainOf, Appended, SequenceTaken, SessionIdFor, SessionIdForExplicit;
    forall j | j in d'.sessions ensures exists id :: id in d'.events && d'.events[id].columns.sessionId == j {
      if j == s {
        assert d'.events[e.id].columns.sessionId == s;
      } else {
        assert j in d.sessions;
        var id :| id in d.events && d.events[id].columns.sessionId == j;
        assert d'.events[id] == d.events[id];
      }
    }
  }

  lemma MaintenanceKeeps(hash: Hash, d: Database, d': Database, instant: int)
    requires Healthy(hash, d) && Maintained(d, d')
    ensures Healthy(hash, d')
    ensures ReceivedBefore(d.events, instant) ==> ReceivedBefore(d'.events, instant)
  {
    hide Consistent, Intact, ChainFollowsArrival, Trimmed, UniqueNumbers, NoStale;
    MaintenanceLeavesNoStale(d, d');
    ConsistentParts(d.sessions, d.events, d.head);
    TrimmedKeepsIntact(hash, d.events, d.sessions, d'.events, d'.sessions, d.head);
    TrimmedSubset(d.events, d.sessions, d'.events, d'.sessions);
    TrimmedKeepsConsistent(d.events, d.sessions, d'.events, d'.sessions, d.head);
  }

  lemma TrimmedKeepsConsistent(events: Events, t: Table, events': Events, t': Table, head: Option<Head>)
    requires Trimmed(events, t, events', t') && Consistent(t, events, head)
    ensures Consistent(t', events', head)
  {
    hide Consistent, OldestFirst, Kept, Referenced;
    if !(t' == t && events' == events) {
      DeletionKeeps(t, events, head, events.Keys - events'.Keys);
    }
  }

  lemma CommitReceived(n: Naming, gap: int, hash: Hash, d: Database, e: NewEvent, receivedAt: int, s: string,
                       d': Database, instant: int)
    requires SensorSequence.Aligned(d.sequences) && Committed(n, gap, hash, d, e, receivedAt, s, d')
    requires ReceivedBefore(d.events, receivedAt) && receivedAt < instant
    ensures ReceivedBefore(d'.events, instant)
  {
    hide Selects, ChainOf, Appended, SequenceTaken;
  }

  lemma IngestStepKeeps(n: Naming, gap: int, hash: Hash, d: Database, step: Step, d': Database, instant: int)
    requires Healthy(hash, d) && ReceivedBefore(d.events, step.receivedAt)
    requires IngestStep(n, gap, hash, d, step, d') && step.receivedAt < instant
    ensures Healthy(hash, d') && ReceivedBefore(d'.events, instant)
  {
    hide Sane, Intact, ChainFollowsArrival, ArrivesLast, Committed, ReceivedBefore, NoStale;
    if d' == d {
      ReceivedStillBefore(d.events, step.receivedAt, instant);
    } else {
      var s :| Committed(n, gap, hash, d, step.event, step.receivedAt, s, d');
      ReceivedBeforeArrivesLast(d.events, step.event.id, step.receivedAt);
      CommitKeeps(n, gap, hash, d, step.event, step.receivedAt, s, d');
      SaneParts(d);
      SaneParts(d');
      CommitArrives(n, gap, hash, d, step.event, step.receivedAt, s, d');
      CommitReceived(n, gap, hash, d, step.event, step.receivedAt, s, d', instant);
      CommitLeavesNoStale(n, gap, hash, d, step.event, step.receivedAt, s, d');
    }
  }

  lemma ReceivedStillBefore(events: Events, before: int, instant: int)
    requires ReceivedBefore(events, before) && before < instant
    ensures ReceivedBefore(events, instant)
  {
  }

  lemma SaneParts(d: Database)
    requires Sane(d)
    ensures UniqueNumbers(d.events) && NumbersWithin(d.events, d.head)
  {
  }

  /**
   * Over every run of ingest with retention and capacity deletions in between, when events are received one after
   * the other: the chain verifies or has been emptied, and the session rows are exactly those of surviving events.
   */
  lemma {:induction false} RunKeepsChain(n: Naming, gap: int, hash: Hash, dbs: seq<Database>, steps: seq<Step>,
                                         k: nat, instant: int)
    requires MaintainedRun(n, gap, hash, dbs, steps) && k <= |steps|
    requires forall i, j | 0 <= i < j < |steps| :: steps[i].receivedAt < steps[j].receivedAt
    requires forall i | 0 <= i < k :: steps[i].receivedAt < instant
    ensures Healthy(hash, dbs[k]) && ReceivedBefore(dbs[k].events, instant)
  {
    hide Healthy, IngestStep, Maintained, EmptyDatabase, ReceivedBefore;
    if k == 0 {
      EmptyIsHealthy(hash, dbs[0], instant);
    } else {
      var d, step, d' := dbs[k - 1], steps[k - 1], dbs[k];
      RunKeepsChain(n, gap, hash, dbs, steps, k - 1, step.receivedAt);
      assert MaintainedStep(n, gap, hash, d, step, d');
      var after :| IngestStep(n, gap, hash, d, step, after) && (d' == after || Maintained(after, d'));
      IngestStepKeeps(n, gap, hash, d, step, after, instant);
      if d' != after {
        MaintenanceKeeps(hash, after, d', instant);
      }
    }
  }

  lemma EmptyIsHealthy(hash: Hash, d: Database, instant: int)
    requires EmptyDatabase(d)
    ensures Healthy(hash, d) && ReceivedBefore(d.events, instant)
  {
    EmptyIsSane(hash, d);
  }
}
