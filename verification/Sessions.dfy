/** The sessions table under ingest (Store._select_or_create_session). */
module Sessions {
  import opened Correlation
  import opened Wrappers

  datatype Session = Session(identity: Identity, startedAt: int, lastSeen: int, eventCount: nat)

  type Table = map<string, Session>

  /** What an event brings to session selection. */
  datatype Arrival = Arrival(identity: Identity, token: Option<string>, timestamp: int)

  function Opened(a: Arrival): Session {
    Session(a.identity, a.timestamp, a.timestamp, 1)
  }

  /** The UPDATE of an explicitly named session. */
  function Widened(s: Session, timestamp: int): Session {
    s.(startedAt := if s.startedAt > timestamp then timestamp else s.startedAt,
       lastSeen := if s.lastSeen < timestamp then timestamp else s.lastSeen,
       eventCount := s.eventCount + 1)
  }

  /** The UPDATE of a temporal join. */
  function Joined(s: Session, timestamp: int): Session {
    s.(lastSeen := timestamp, eventCount := s.eventCount + 1)
  }

  /** A row that ORDER BY last_seen DESC LIMIT 1 may return for an identity. */
  predicate Newest(t: Table, identity: Identity, id: string) {
    && id in t && t[id].identity == identity
    && forall j | j in t && t[j].identity == identity :: t[j].lastSeen <= t[id].lastSeen
  }

  predicate Joinable(gap: int, t: Table, a: Arrival, id: string) {
    Newest(t, a.identity, id) && ShouldJoin(gap, t[id].lastSeen, a.timestamp)
  }

  /** One successful selection: id is the session of the event and u the table afterwards. */
  ghost predicate Selects(n: Naming, gap: int, t: Table, a: Arrival, id: string, u: Table) {
    match a.token
    case Some(token) =>
      id == SessionIdForExplicit(n, a.identity, token)
      && u == t[id := if id in t then Widened(t[id], a.timestamp) else Opened(a)]
    case None =>
      if exists j :: Joinable(gap, t, a, j) then
        Joinable(gap, t, a, id) && u == t[id := Joined(t[id], a.timestamp)]
      else
        id == SessionIdFor(n, a.identity, a.timestamp) && id !in t && u == t[id := Opened(a)]
  }

  /** The INSERT meets an existing id: the whole ingest is rolled back. */
  ghost predicate Conflicts(n: Naming, gap: int, t: Table, a: Arrival) {
    a.token.None? && (forall j :: !Joinable(gap, t, a, j)) && SessionIdFor(n, a.identity, a.timestamp) in t
  }

  // ----- when a selection can fail

  /** A row is filed under an id of its own identity, a temporal one under its start. */
  ghost predicate FiledRow(n: Naming, id: string, s: Session) {
    && s.startedAt <= s.lastSeen
    && (|| id == SessionIdFor(n, s.identity, s.startedAt)
        || exists token :: id == SessionIdForExplicit(n, s.identity, token))
  }

  ghost predicate Filed(n: Naming, t: Table) {
    forall id | id in t :: FiledRow(n, id, t[id])
  }

  /** A temporal session that began at the event's instant has the very text that would be hashed for the event. */
  ghost predicate BeganUnderKey(n: Naming, t: Table, a: Arrival) {
    exists id :: id in t && id == SessionIdFor(n, a.identity, a.timestamp) && t[id].startedAt == a.timestamp
                 && RawKey(t[id].identity, n.iso(a.timestamp)) == RawKey(a.identity, n.iso(a.timestamp))
  }

  /** A stored session has the id that the event's session would get, by a collision of the digest. */
  ghost predicate Clashes(n: Naming, t: Table, a: Arrival) {
    exists id :: id in t && id == SessionIdFor(n, a.identity, a.timestamp)
                 && Collide(n, RawKey(a.identity, n.iso(a.timestamp)), RawKey(t[id].identity, n.iso(t[id].startedAt)))
  }

  ghost predicate SeenLater(t: Table, a: Arrival) {
    exists id :: id in t && t[id].identity == a.identity && t[id].lastSeen > a.timestamp
  }

  /** Every session of the event's identity has paused for more than the gap, or there is none. */
  ghost predicate Paused(gap: int, t: Table, a: Arrival) {
    forall id | id in t && t[id].identity == a.identity :: t[id].lastSeen + gap < a.timestamp
  }

  lemma NothingToJoin(gap: int, t: Table, a: Arrival)
    requires 0 <= gap
    ensures (forall j :: !Joinable(gap, t, a, j)) <==> SeenLater(t, a) || Paused(gap, t, a)
  {
    if SeenLater(t, a) {
      var later :| later in t && t[later].identity == a.identity && t[later].lastSeen > a.timestamp;
      forall j | Newest(t, a.identity, j) ensures !ShouldJoin(gap, t[j].lastSeen, a.timestamp) {
        assert t[later].lastSeen <= t[j].lastSeen;
      }
    } else if !Paused(gap, t, a) {
      var id :| id in t && t[id].identity == a.identity && t[id].lastSeen + gap >= a.timestamp;
      var newest := NewestOf(t, a.identity, t.Keys, id);
      assert t[id].lastSeen <= t[newest].lastSeen;
      assert Joinable(gap, t, a, newest);
    }
  }

  lemma {:induction false} NewestOf(t: Table, identity: Identity, ids: set<string>, id: string) returns (newest: string)
    requires ids <= t.Keys && id in ids && t[id].identity == identity
    ensures newest in ids && t[newest].identity == identity
    ensures forall j | j in ids && t[j].identity == identity :: t[j].lastSeen <= t[newest].lastSeen
    decreases |ids|
  {
    newest := id;
    if later :| later in ids && t[later].identity == identity && t[later].lastSeen > t[id].lastSeen {
      newest := NewestOf(t, identity, ids - {id}, later);
    }
  }

  /** The row that holds the id of a new temporal session. */
  lemma Occupant(n: Naming, t: Table, a: Arrival)
    requires Legible(n) && Filed(n, t)
    ensures SessionIdFor(n, a.identity, a.timestamp) in t <==> BeganUnderKey(n, t, a) || Clashes(n, t, a)
  {
    hide RawKey, SessionIdFor, SessionIdForExplicit;
    var id := SessionIdFor(n, a.identity, a.timestamp);
    if id in t {
      var s := t[id];
      assert FiledRow(n, id, s);
      if token :| id == SessionIdForExplicit(n, s.identity, token) {
        KindsDistinct(n, a.identity, a.timestamp, s.identity, token);
      }
      TemporalIdsMeet(n, a.identity, a.timestamp, s.identity, s.startedAt);
    }
  }

  /**
   * Exactly which events are refused: those without a token whose id is held by a session of the same instant under
   * the same hashed text, or by a collision, while their identity has been seen later or has nothing to join.
   */
  lemma ConflictsExactly(n: Naming, gap: int, t: Table, a: Arrival)
    requires Legible(n) && Filed(n, t) && 0 <= gap
    ensures Conflicts(n, gap, t, a)
            <==> && a.token.None? && (BeganUnderKey(n, t, a) || Clashes(n, t, a))
                 && (SeenLater(t, a) || Paused(gap, t, a))
  {
    hide Legible, Filed, BeganUnderKey, Clashes, SeenLater, Paused, Joinable, SessionIdFor;
    Occupant(n, t, a);
    NothingToJoin(gap, t, a);
  }

  /** No stored session of another identity has the event's hashed text, and none its id by a collision. */
  ghost predicate Alone(n: Naming, t: Table, a: Arrival) {
    && (forall id | id in t && RawKey(t[id].identity, n.iso(a.timestamp)) == RawKey(a.identity, n.iso(a.timestamp)) ::
          t[id].identity == a.identity)
    && !Clashes(n, t, a)
  }

  /** An identity without bars needs only that no digest collides. */
  lemma BarFreeIsAlone(n: Naming, t: Table, a: Arrival)
    requires BarFree(a.identity) && !Clashes(n, t, a)
    ensures Alone(n, t, a)
  {
    hide RawKey, BarFree, Clashes;
    ToldApart(a.identity, n.iso(a.timestamp));
  }

  /** A temporal session of the identity began at the very instant of the event. */
  ghost predicate BeganThen(n: Naming, t: Table, a: Arrival) {
    exists id :: id in t && t[id].identity == a.identity && t[id].startedAt == a.timestamp
                 && id == SessionIdFor(n, a.identity, a.timestamp)
  }

  /** For an event that is alone with its text, exactly the late repeats are refused. */
  lemma LateRepeatsExactly(n: Naming, gap: int, t: Table, a: Arrival)
    requires Legible(n) && Filed(n, t) && Alone(n, t, a) && 0 <= gap
    ensures Conflicts(n, gap, t, a) <==> a.token.None? && BeganThen(n, t, a) && SeenLater(t, a)
  {
    hide Legible, RawKey, SessionIdFor, SessionIdForExplicit, Conflicts, Clashes, SeenLater;
    ConflictsExactly(n, gap, t, a);
    if BeganUnderKey(n, t, a) {
      var id :| id in t && id == SessionIdFor(n, a.identity, a.timestamp) && t[id].startedAt == a.timestamp
                && RawKey(t[id].identity, n.iso(a.timestamp)) == RawKey(a.identity, n.iso(a.timestamp));
      assert FiledRow(n, id, t[id]) && t[id].identity == a.identity;
    }
  }

  /** A session of another identity began at the event's instant under the same hashed text. */
  ghost predicate RivalBegan(n: Naming, t: Table, a: Arrival) {
    exists id :: id in t && id == SessionIdFor(n, a.identity, a.timestamp) && t[id].startedAt == a.timestamp
                 && RawKey(t[id].identity, n.iso(a.timestamp)) == RawKey(a.identity, n.iso(a.timestamp))
                 && t[id].identity != a.identity
  }

  /** Exactly when an event no older than its identity's sessions is refused: a rival or a collision holds its id. */
  lemma InOrderConflictsExactly(n: Naming, gap: int, t: Table, a: Arrival)
    requires Legible(n) && Filed(n, t) && 0 <= gap
    requires forall id | id in t && t[id].identity == a.identity :: t[id].lastSeen <= a.timestamp
    ensures Conflicts(n, gap, t, a)
            <==> a.token.None? && Paused(gap, t, a) && (RivalBegan(n, t, a) || Clashes(n, t, a))
  {
    hide Legible, RawKey, SessionIdFor, SessionIdForExplicit, Conflicts, Clashes;
    ConflictsExactly(n, gap, t, a);
    if BeganUnderKey(n, t, a) && Paused(gap, t, a) {
      var id :| id in t && id == SessionIdFor(n, a.identity, a.timestamp) && t[id].startedAt == a.timestamp
                && RawKey(t[id].identity, n.iso(a.timestamp)) == RawKey(a.identity, n.iso(a.timestamp));
      assert FiledRow(n, id, t[id]);
    }
  }

  /** So an event in order is never refused while it is alone with its text. */
  lemma InOrderNeverConflicts(n: Naming, gap: int, t: Table, a: Arrival)
    requires Legible(n) && Filed(n, t) && Alone(n, t, a) && 0 <= gap
    requires forall id | id in t && t[id].identity == a.identity :: t[id].lastSeen <= a.timestamp
    ensures !Conflicts(n, gap, t, a)
  {
    hide Filed, Conflicts, Legible, Clashes, RawKey;
    InOrderConflictsExactly(n, gap, t, a);
  }

  /** The first event of an identity is refused because another identity, with a bar, began then. */
  lemma RivalRefuses(n: Naming, gap: int, start: int)
    ensures var rival := Identity("198.51.100.7", "web-1", "http", "alt|tcp", 80);
            var own := Identity("198.51.100.7", "web-1", "http|alt", "tcp", 80);
            var t := map[SessionIdFor(n, rival, start) := Session(rival, start, start, 1)];
            && Filed(n, t) && own != rival
            && Conflicts(n, gap, t, Arrival(own, None, start)) && !SeenLater(t, Arrival(own, None, start))
  {
    BarsCollide(n.iso(start));
  }

  /** A late event that repeats the start of a closed session is refused. */
  lemma LateRepeatConflicts(n: Naming, gap: int, identity: Identity, start: int)
    requires 0 < gap
    requires SessionIdFor(n, identity, start) != SessionIdFor(n, identity, start + gap + 1)
    ensures var later := start + gap + 1;
            var t := map[SessionIdFor(n, identity, start) := Session(identity, start, start, 1),
                         SessionIdFor(n, identity, later) := Session(identity, later, later, 1)];
            Conflicts(n, gap, t, Arrival(identity, None, start))
  {
    var later := start + gap + 1;
    var first, second := SessionIdFor(n, identity, start), SessionIdFor(n, identity, later);
    var t := map[first := Session(identity, start, start, 1), second := Session(identity, later, later, 1)];
    assert t[second].lastSeen == later;
    assert forall j :: !Joinable(gap, t, Arrival(identity, None, start), j);
  }

  lemma SelectsKeepsFiled(n: Naming, gap: int, t: Table, a: Arrival, id: string, u: Table)
    requires Filed(n, t) && Selects(n, gap, t, a, id, u)
    ensures Filed(n, u)
  {
    hide SessionIdFor, SessionIdForExplicit;
    forall j | j in u ensures FiledRow(n, j, u[j]) {
      if j in t {
        assert FiledRow(n, j, t[j]);
        if j == id && a.token.Some? {
          KindsDistinct(n, t[id].identity, t[id].startedAt, a.identity, a.token.value);
        }
      } else if a.token.Some? {
        assert id == SessionIdForExplicit(n, a.identity, a.token.value);
      }
    }
  }

  // ----- token-free events of one identity, in order, among any other traffic

  /** The tables and the chosen ids of a run over the events. */
  ghost predicate Run(n: Naming, gap: int, events: seq<Arrival>, tables: seq<Table>, ids: seq<string>) {
    && |tables| == |events| + 1 && |ids| == |events|
    && forall i | 0 <= i < |events| :: Selects(n, gap, tables[i], events[i], ids[i], tables[i + 1])
  }

  ghost predicate Own(identity: Identity, events: seq<Arrival>, k: int) {
    0 <= k < |events| && events[k].identity == identity
  }

  /** The identity's events carry no token and come in order; the other events are free. */
  ghost predicate OwnInOrder(identity: Identity, events: seq<Arrival>) {
    && (forall i | Own(identity, events, i) :: events[i].token.None?)
    && (forall i, j | Own(identity, events, i) && Own(identity, events, j) && i < j ::
          events[i].timestamp <= events[j].timestamp)
  }

  /** The identity's last event before position k, or -1. */
  ghost function LastOwn(identity: Identity, events: seq<Arrival>, k: nat): (m: int)
    requires k <= |events|
    ensures -1 <= m < k && (m >= 0 ==> Own(identity, events, m))
    ensures forall i | m < i < k :: !Own(identity, events, i)
  {
    if k == 0 then -1
    else if Own(identity, events, k - 1) then k - 1
    else LastOwn(identity, events, k - 1)
  }

  /** No more than the gap since the identity's previous event. */
  ghost predicate Follows(gap: int, identity: Identity, events: seq<Arrival>, k: nat)
    requires k < |events|
  {
    var m := LastOwn(identity, events, k);
    m >= 0 && events[k].timestamp - events[m].timestamp <= gap
  }

  /** No pause of the identity longer than the gap between its events i and j. */
  ghost predicate Unbroken(gap: int, identity: Identity, events: seq<Arrival>, i: nat, j: nat)
    requires i <= j < |events|
  {
    forall k | i < k <= j && Own(identity, events, k) :: Follows(gap, identity, events, k)
  }

  /** The identity's rows are temporal ones. */
  ghost predicate TemporalRows(n: Naming, identity: Identity, t: Table) {
    forall id | id in t && t[id].identity == identity :: id == SessionIdFor(n, identity, t[id].startedAt)
  }

  /** The session of own event m is the only newest one of its identity, and every earlier choice is still stored. */
  ghost predicate Tip(identity: Identity, events: seq<Arrival>, t: Table, ids: seq<string>, m: nat)
    requires m < |events| && m < |ids|
  {
    && ids[m] in t && t[ids[m]].identity == identity && t[ids[m]].lastSeen == events[m].timestamp
    && (forall id | id in t && t[id].identity == identity && id != ids[m] :: t[id].lastSeen < events[m].timestamp)
    && (forall i | 0 <= i <= m && Own(identity, events, i) :: ids[i] in t)
  }

  /** What the run has made of the identity after k events. */
  ghost predicate Reached(n: Naming, identity: Identity, events: seq<Arrival>, t: Table, ids: seq<string>, k: nat)
    requires k <= |events| && k <= |ids|
  {
    var m := LastOwn(identity, events, k);
    && TemporalRows(n, identity, t)
    && (m < 0 ==> forall id | id in t :: t[id].identity != identity)
    && (m >= 0 ==> Tip(identity, events, t, ids, m))
  }

  /** Other identities, with or without tokens and in any order, leave the rows of this one alone. */
  lemma OthersLeaveRows(n: Naming, gap: int, t: Table, a: Arrival, id: string, u: Table, identity: Identity)
    requires Selects(n, gap, t, a, id, u) && a.identity != identity && TemporalRows(n, identity, t)
    ensures forall j :: j in t ==> j in u
    ensures forall j | j in u && u[j].identity == identity :: j in t && u[j] == t[j]
    ensures forall j | j in t && t[j].identity == identity :: u[j] == t[j]
  {
    hide SessionIdFor, SessionIdForExplicit;
    if a.token.Some? && id in t && t[id].identity == identity {
      KindsDistinct(n, identity, t[id].startedAt, a.identity, a.token.value);
    }
  }

  lemma OtherEvent(n: Naming, gap: int, identity: Identity, events: seq<Arrival>, tables: seq<Table>,
                   ids: seq<string>, k: nat)
    requires Run(n, gap, events, tables, ids) && k < |events| && !Own(identity, events, k)
    requires Reached(n, identity, events, tables[k], ids, k)
    ensures Reached(n, identity, events, tables[k + 1], ids, k + 1)
  {
    hide SessionIdFor, Selects;
    assert Selects(n, gap, tables[k], events[k], ids[k], tables[k + 1]);
    OthersLeaveRows(n, gap, tables[k], events[k], ids[k], tables[k + 1], identity);
    assert LastOwn(identity, events, k + 1) == LastOwn(identity, events, k);
  }

  lemma NextTip(n: Naming, gap: int, identity: Identity, events: seq<Arrival>, tables: seq<Table>,
                ids: seq<string>, k: nat)
    requires Run(n, gap, events, tables, ids) && OwnInOrder(identity, events) && 0 <= gap
    requires k < |events| && Own(identity, events, k) && LastOwn(identity, events, k) >= 0
    requires Reached(n, identity, events, tables[k], ids, k)
    ensures Reached(n, identity, events, tables[k + 1], ids, k + 1)
    ensures if Follows(gap, identity, events, k) then ids[k] == ids[LastOwn(identity, events, k)]
            else forall i | 0 <= i < k && Own(identity, events, i) :: ids[i] != ids[k]
  {
    hide SessionIdFor;
    var t, a, m := tables[k], events[k], LastOwn(identity, events, k);
    assert Selects(n, gap, t, a, ids[k], tables[k + 1]);
    assert events[m].timestamp <= a.timestamp;
    forall id | Newest(t, identity, id) ensures id == ids[m] {
      assert t[ids[m]].lastSeen <= t[id].lastSeen;
    }
    assert Newest(t, identity, ids[m]);
    if a.timestamp - events[m].timestamp <= gap {
      assert Joinable(gap, t, a, ids[m]);
    }
    assert LastOwn(identity, events, k + 1) == k;
  }

  lemma {:induction false} ReachedThroughout(n: Naming, gap: int, identity: Identity, events: seq<Arrival>,
                                             tables: seq<Table>, ids: seq<string>, k: nat)
    requires Run(n, gap, events, tables, ids) && OwnInOrder(identity, events) && 0 <= gap && k <= |events|
    requires forall id | id in tables[0] :: tables[0][id].identity != identity
    ensures Reached(n, identity, events, tables[k], ids, k)
  {
    if k > 0 {
      hide Reached;
      ReachedThroughout(n, gap, identity, events, tables, ids, k - 1);
      if !Own(identity, events, k - 1) {
        OtherEvent(n, gap, identity, events, tables, ids, k - 1);
      } else if LastOwn(identity, events, k - 1) < 0 {
      } else {
        NextTip(n, gap, identity, events, tables, ids, k - 1);
      }
    }
  }

  lemma UnbrokenUpTo(gap: int, identity: Identity, events: seq<Arrival>, i: nat, j: nat)
    requires i < j < |events| && Own(identity, events, i) && Own(identity, events, j)
    ensures i <= LastOwn(identity, events, j)
    ensures Unbroken(gap, identity, events, i, j)
            <==> Unbroken(gap, identity, events, i, LastOwn(identity, events, j)) && Follows(gap, identity, events, j)
  {
    hide Follows;
    var m := LastOwn(identity, events, j);
    assert forall k | m < k < j :: !Own(identity, events, k);
  }

  /**
   * Sessions are the maximal runs: whatever other identities send in between, two events of an identity whose
   * events are token-free and in order share a session exactly when no pause between them exceeds the gap.
   */
  lemma {:induction false} SessionsAreMaximalRuns(n: Naming, gap: int, identity: Identity, events: seq<Arrival>,
                                                  tables: seq<Table>, ids: seq<string>, i: nat, j: nat)
    requires Run(n, gap, events, tables, ids) && OwnInOrder(identity, events) && 0 <= gap
    requires forall id | id in tables[0] :: tables[0][id].identity != identity
    requires i <= j && Own(identity, events, i) && Own(identity, events, j)
    ensures ids[i] == ids[j] <==> Unbroken(gap, identity, events, i, j)
    decreases j
  {
    hide Run, OwnInOrder, Reached, Unbroken, Follows;
    if i == j {
      NothingBetween(gap, identity, events, i);
    } else {
      UnbrokenUpTo(gap, identity, events, i, j);
      var m := LastOwn(identity, events, j);
      SessionsAreMaximalRuns(n, gap, identity, events, tables, ids, i, m);
      ReachedThroughout(n, gap, identity, events, tables, ids, j);
      NextTip(n, gap, identity, events, tables, ids, j);
    }
  }

  lemma NothingBetween(gap: int, identity: Identity, events: seq<Arrival>, i: nat)
    requires i < |events|
    ensures Unbroken(gap, identity, events, i, i)
  {
  }

  /** In such a history the identity's next event is refused exactly when a rival or a collision holds its id. */
  lemma InOrderRunContinues(n: Naming, gap: int, identity: Identity, events: seq<Arrival>, tables: seq<Table>,
                            ids: seq<string>, next: Arrival)
    requires Legible(n) && 0 <= gap
    requires Run(n, gap, events, tables, ids) && next.identity == identity && OwnInOrder(identity, events + [next])
    requires Filed(n, tables[0]) && forall id | id in tables[0] :: tables[0][id].identity != identity
    ensures var t := tables[|events|];
            Conflicts(n, gap, t, next) <==> Paused(gap, t, next) && (RivalBegan(n, t, next) || Clashes(n, t, next))
  {
    hide OwnInOrder, Filed, Reached, Conflicts, Legible, Paused, RivalBegan, Clashes;
    PrefixInOrder(identity, events, next);
    FiledThroughout(n, gap, events, tables, ids, |events|);
    SeenNoLater(n, gap, identity, events, tables, ids, next.timestamp);
    InOrderConflictsExactly(n, gap, tables[|events|], next);
  }

  lemma PrefixInOrder(identity: Identity, events: seq<Arrival>, next: Arrival)
    requires OwnInOrder(identity, events + [next]) && next.identity == identity
    ensures OwnInOrder(identity, events) && next.token.None?
    ensures forall i | Own(identity, events, i) :: events[i].timestamp <= next.timestamp
  {
    var all := events + [next];
    assert all[|events|] == next && forall i | 0 <= i < |events| :: all[i] == events[i];
    assert Own(identity, all, |events|);
    forall i | Own(identity, events, i)
      ensures Own(identity, all, i) && events[i].timestamp <= next.timestamp && events[i].token.None?
    {
      assert Own(identity, all, i);
      assert all[i].timestamp <= all[|events|].timestamp;
    }
  }

  lemma SeenNoLater(n: Naming, gap: int, identity: Identity, events: seq<Arrival>, tables: seq<Table>,
                    ids: seq<string>, now: int)
    requires Run(n, gap, events, tables, ids) && OwnInOrder(identity, events) && 0 <= gap
    requires forall id | id in tables[0] :: tables[0][id].identity != identity
    requires forall i | Own(identity, events, i) :: events[i].timestamp <= now
    ensures var t := tables[|events|];
            forall id | id in t && t[id].identity == identity :: t[id].lastSeen <= now
  {
    ReachedThroughout(n, gap, identity, events, tables, ids, |events|);
  }

  lemma {:induction false} FiledThroughout(n: Naming, gap: int, events: seq<Arrival>, tables: seq<Table>,
                                           ids: seq<string>, j: nat)
    requires j <= |events| && Run(n, gap, events, tables, ids) && Filed(n, tables[0])
    ensures Filed(n, tables[j])
  {
    if j > 0 {
      FiledThroughout(n, gap, events, tables, ids, j - 1);
      SelectsKeepsFiled(n, gap, tables[j - 1], events[j - 1], ids[j - 1], tables[j]);
    }
  }
}
