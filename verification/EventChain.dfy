/** The tamper-evident hash chain over stored events (event_chain.py). */
module EventChain {
  import opened Ordering
  import opened Wrappers

  const CHAIN_VERSION := 1
  const GENESIS_HASH := "0000000000000000000000000000000000000000000000000000000000000000"

  /** A column value as SQLite stores it and json.dumps writes it. */
  datatype Cell = Null | Text(text: string) | Integer(i: int) | Real(x: real)

  /** The columns covered by a record hash, in their fixed order; a tampered row may hold any value in any of them. */
  datatype Columns = Columns(
    id: Cell,
    timestamp: Cell,
    collectorReceivedAt: Cell,
    honeypot: Cell,
    eventType: Cell,
    severity: Cell,
    sourceIp: Cell,
    sessionId: Cell,
    schemaVersion: Cell,
    observed: Cell,
    enrichment: Cell,
    derived: Cell,
    hypotheses: Cell,
    collector: Cell)

  /** What is serialised and hashed. */
  datatype Payload = Payload(version: int, chainSeq: int, prevHash: string, columns: Columns)

  /** SHA-256 over the JSON text of a payload, left uninterpreted. */
  type Hash = Payload -> string

  /** A chained row of events; the unique index on chain_seq makes that number its key. */
  datatype Record = Record(prevHash: Option<string>, recordHash: Option<string>, columns: Columns)

  type Chain = map<int, Record>

  /** The row of event_chain_head. */
  datatype Head = Head(lastSeq: int, lastHash: string)

  /** str() of a nullable text column. */
  function Shown(value: Option<string>): string {
    match value
    case None => "None"
    case Some(s) => s
  }

  function HashAt(c: Chain, s: int): Option<string> {
    if s in c then c[s].recordHash else None
  }

  function ComputeRecordHash(hash: Hash, seq_: int, prevHash: string, columns: Columns): string {
    hash(Payload(CHAIN_VERSION, seq_, prevHash, columns))
  }

  function HeadSeq(head: Option<Head>): int {
    if head.Some? then head.value.lastSeq else 0
  }

  function HeadHash(head: Option<Head>): string {
    if head.Some? then head.value.lastHash else GENESIS_HASH
  }

  // ----- what an intact chain is

  predicate HashRecomputes(hash: Hash, c: Chain, s: int)
    requires s in c
  {
    c[s].recordHash == Some(ComputeRecordHash(hash, s, Shown(c[s].prevHash), c[s].columns))
  }

  /** The record follows the one numbered just before it. */
  predicate Linked(c: Chain, s: int)
    requires s in c
  {
    s - 1 in c && c[s].prevHash == c[s - 1].recordHash
  }

  ghost predicate IsFirst(c: Chain, s: int) {
    s in c && forall t | t in c :: s <= t
  }

  ghost predicate IsLast(c: Chain, s: int) {
    s in c && forall t | t in c :: t <= s
  }

  ghost predicate HeadMatches(c: Chain, head: Option<Head>) {
    if c == map[] then
      head.Some? ==> head.value.lastSeq == 0
    else
      head.Some? && IsLast(c, head.value.lastSeq) && c[head.value.lastSeq].recordHash == Some(head.value.lastHash)
  }

  /** Every hash recomputes, every record but the first is linked, and the head row names the last record. */
  ghost predicate ChainOk(hash: Hash, c: Chain, head: Option<Head>) {
    && (forall s {:trigger HashRecomputes(hash, c, s)} | s in c :: HashRecomputes(hash, c, s))
    && (forall s {:trigger Linked(c, s)} | s in c :: IsFirst(c, s) || Linked(c, s))
    && HeadMatches(c, head)
  }

  // ----- append

  function Appended(hash: Hash, c: Chain, head: Option<Head>, columns: Columns): (Chain, Head) {
    var next := HeadSeq(head) + 1;
    var recordHash := ComputeRecordHash(hash, next, HeadHash(head), columns);
    (c[next := Record(Some(HeadHash(head)), Some(recordHash), columns)], Head(next, recordHash))
  }

  /** Appending keeps an intact chain intact and restores an emptied one; it never overwrites a record. */
  lemma AppendKeepsOk(hash: Hash, c: Chain, head: Option<Head>, columns: Columns)
    requires c == map[] || ChainOk(hash, c, head)
    ensures var (c', head') := Appended(hash, c, head, columns);
            && ChainOk(hash, c', Some(head')) && HeadSeq(head) + 1 !in c && IsLast(c', HeadSeq(head) + 1)
            && var record := c'[HeadSeq(head) + 1];
               && record.columns == columns
               && record.prevHash == Some(if head.Some? then head.value.lastHash
                    else "0000000000000000000000000000000000000000000000000000000000000000")
  {
    var next := HeadSeq(head) + 1;
    var (c', head') := Appended(hash, c, head, columns);
    forall s | s in c' ensures HashRecomputes(hash, c', s) && (IsFirst(c', s) || Linked(c', s)) {
      if s != next {
        assert HashRecomputes(hash, c, s) && (Linked(c, s) || IsFirst(c, s));
      } else if c != map[] {
        assert HeadSeq(head) in c;
      }
    }
  }

  // ----- removal

  function Restrict(c: Chain, kept: set<int>): Chain {
    map s | s in c && s in kept :: c[s]
  }

  /** An intact chain holds every number between any two of its records. */
  lemma {:induction false} NoGaps(hash: Hash, c: Chain, head: Option<Head>, s: int, t: int)
    requires ChainOk(hash, c, head) && s in c && t in c && s <= t
    ensures forall m | s <= m <= t :: m in c
    decreases t - s
  {
    if s < t {
      assert Linked(c, t) || IsFirst(c, t);
      NoGaps(hash, c, head, s, t - 1);
    }
  }

  /**
   * Which deletions go unreported: what is left of an intact chain verifies exactly when it is a
   * non-empty tail of it, or nothing at all under a head numbered zero.
   */
  lemma RemovalVerifies(hash: Hash, c: Chain, head: Option<Head>, kept: set<int>)
    requires ChainOk(hash, c, head) && c != map[] && kept <= c.Keys
    ensures ChainOk(hash, Restrict(c, kept), head)
            <==> if kept == {} then head.value.lastSeq == 0
                 else forall s, t | s in kept && t in c && s <= t :: t in kept
  {
    var left := Restrict(c, kept);
    assert left.Keys == kept;
    if kept != {} {
      assert left != map[];
      if forall s, t | s in kept && t in c && s <= t :: t in kept {
        TailVerifies(hash, c, head, kept);
      }
      if ChainOk(hash, left, head) {
        forall s, t | s in kept && t in c && s <= t ensures t in kept {
          assert t <= head.value.lastSeq;
          NoGaps(hash, left, head, s, head.value.lastSeq);
        }
      }
    }
  }

  lemma TailVerifies(hash: Hash, c: Chain, head: Option<Head>, kept: set<int>)
    requires ChainOk(hash, c, head) && kept <= c.Keys && kept != {}
    requires forall s, t | s in kept && t in c && s <= t :: t in kept
    ensures ChainOk(hash, Restrict(c, kept), head)
  {
    var k := Least(kept);
    var left := Restrict(c, kept);
    forall s | s in left ensures HashRecomputes(hash, left, s) && (IsFirst(left, s) || Linked(left, s)) {
      assert HashRecomputes(hash, c, s);
      if t :| t in left && t < s {
        NoGaps(hash, c, head, t, s);
        assert Linked(c, s) && s - 1 in kept;
      }
    }
    assert k in left && k <= head.value.lastSeq;
  }

  // ----- what the head commits to

  function PayloadAt(c: Chain, s: int): Payload
    requires s in c
  {
    Payload(CHAIN_VERSION, s, Shown(c[s].prevHash), c[s].columns)
  }

  /** Equally numbered records of the two chains never collide; nothing is asked of the hash elsewhere. */
  ghost predicate NoCollision(hash: Hash, a: Chain, b: Chain) {
    forall s | s in a && s in b :: hash(PayloadAt(a, s)) == hash(PayloadAt(b, s)) ==> PayloadAt(a, s) == PayloadAt(b, s)
  }

  /** Backward induction along prev_hash: equal heads of equally long intact chains fix every record. */
  lemma {:induction false} SameTail(hash: Hash, a: Chain, b: Chain, ha: Option<Head>, hb: Option<Head>, s: int, n: nat)
    requires NoCollision(hash, a, b) && ChainOk(hash, a, ha) && ChainOk(hash, b, hb)
    requires s in a && s in b && a[s].recordHash == b[s].recordHash
    requires s - n in a && s - n in b
    ensures forall m | s - n <= m <= s ::
              && m in a && m in b
              && a[m].columns == b[m].columns && a[m].recordHash == b[m].recordHash
              && Shown(a[m].prevHash) == Shown(b[m].prevHash)
    decreases n
  {
    hide NoCollision, ChainOk;
    SameRecord(hash, a, b, ha, hb, s);
    if n > 0 {
      LinkedUnlessFirst(hash, a, ha, s - n, s);
      LinkedUnlessFirst(hash, b, hb, s - n, s);
      RecordsHash(hash, a, ha, s - 1);
      RecordsHash(hash, b, hb, s - 1);
      SameTail(hash, a, b, ha, hb, s - 1, n - 1);
    }
  }

  lemma SameRecord(hash: Hash, a: Chain, b: Chain, ha: Option<Head>, hb: Option<Head>, s: int)
    requires NoCollision(hash, a, b) && ChainOk(hash, a, ha) && ChainOk(hash, b, hb)
    requires s in a && s in b && a[s].recordHash == b[s].recordHash
    ensures a[s].columns == b[s].columns && Shown(a[s].prevHash) == Shown(b[s].prevHash)
  {
    assert HashRecomputes(hash, a, s) && HashRecomputes(hash, b, s);
    assert hash(PayloadAt(a, s)) == hash(PayloadAt(b, s));
  }

  lemma LinkedUnlessFirst(hash: Hash, c: Chain, head: Option<Head>, t: int, s: int)
    requires ChainOk(hash, c, head) && t in c && s in c && t < s
    ensures Linked(c, s)
  {
  }

  lemma RecordsHash(hash: Hash, c: Chain, head: Option<Head>, s: int)
    requires ChainOk(hash, c, head) && s in c
    ensures c[s].recordHash.Some?
  {
    assert HashRecomputes(hash, c, s);
  }

  lemma {:induction false} ConsecutiveKeys(keys: set<int>, first: int, last: int)
    requires forall m :: m in keys <==> first <= m <= last
    requires first <= last + 1
    ensures |keys| == last - first + 1
    decreases last - first
  {
    if first <= last {
      ConsecutiveKeys(keys - {last}, first, last - 1);
    }
  }

  lemma KeysOfIntactChain(hash: Hash, c: Chain, head: Option<Head>)
    requires ChainOk(hash, c, head) && c != map[]
    ensures forall m :: m in c <==> head.value.lastSeq - |c| < m <= head.value.lastSeq
  {
    var last := head.value.lastSeq;
    var first := Least(c.Keys);
    forall m ensures m in c <==> first <= m <= last {
      if first <= m <= last {
        NoGaps(hash, c, head, first, last);
      }
    }
    ConsecutiveKeys(c.Keys, first, last);
  }

  lemma Least(s: set<int>) returns (m: int)
    requires |s| > 0
    ensures m in s && forall x | x in s :: m <= x
  {
    hide TotalOrder, Sort;
    IntOrder();
    var q := Sort(s, IntLess);
    m := q[0];
    assert m in q;
    forall x | x in s ensures m <= x {
      var i :| 0 <= i < |q| && q[i] == x;
      assert i > 0 ==> IntLess(q[0], q[i]);
    }
  }

  /**
   * Tamper evidence: unless two of their records collide, two intact chains with the same head row and the same number
   * of records agree on every hashed column, every chain number and every hash.
   */
  lemma HeadCommitsToChain(hash: Hash, a: Chain, b: Chain, head: Option<Head>)
    requires NoCollision(hash, a, b)
    requires ChainOk(hash, a, head) && ChainOk(hash, b, head) && |a| == |b|
    ensures a.Keys == b.Keys
    ensures forall s | s in a ::
              && a[s].columns == b[s].columns && a[s].recordHash == b[s].recordHash
              && Shown(a[s].prevHash) == Shown(b[s].prevHash)
  {
    if |a| > 0 {
      assert a != map[] && b != map[];
      KeysOfIntactChain(hash, a, head);
      KeysOfIntactChain(hash, b, head);
      SameTail(hash, a, b, head, head, head.value.lastSeq, |a| - 1);
      assert forall m :: m in a.Keys <==> m in b.Keys;
    } else {
      assert |a.Keys| == 0 && |b.Keys| == 0;
      assert a.Keys == {} == b.Keys;
    }
  }

  /** Any lasting change to an intact chain of the same length is reported under an unchanged head row. */
  lemma TamperingIsReported(hash: Hash, a: Chain, b: Chain, head: Option<Head>, s: int)
    requires NoCollision(hash, a, b) && ChainOk(hash, a, head) && |a| == |b|
    requires s in a && (s !in b || b[s].columns != a[s].columns || b[s].recordHash != a[s].recordHash)
    ensures !ChainOk(hash, b, head)
  {
    if ChainOk(hash, b, head) {
      HeadCommitsToChain(hash, a, b, head);
    }
  }

  // ----- the streaming verifier

  datatype Problem =
    | SequenceGap(after: int, found: int)
    | BrokenLink(chainSeq: int, eventId: Cell)
    | RecordHashMismatch(chainSeq: int, eventId: Cell)
    | HeadMissing
    | HeadMismatch(headSeq: int, lastSeq: Option<int>)

  datatype Report = Report(
    ok: bool,
    recordsVerified: nat,
    unchainedLegacy: nat,
    prunedBefore: Option<int>,
    headSeq: int,
    headHash: string,
    problems: seq<Problem>,
    problemsTruncated: bool)

  /** The bounded problem list. */
  datatype Log = Log(problems: seq<Problem>, truncated: bool) {
    function Add(p: Problem, maxProblems: int): Log {
      if |problems| < maxProblems then Log(problems + [p], truncated) else Log(problems, true)
    }
  }

  /** seqs lists the chain in ascending order. */
  ghost predicate InOrder(c: Chain, seqs: seq<int>) {
    && (forall i, j | 0 <= i < j < |seqs| :: seqs[i] < seqs[j])
    && (forall s | s in c :: s in seqs)
    && (forall j | 0 <= j < |seqs| :: seqs[j] in c)
  }

  function If(found: bool, p: Problem): seq<Problem> {
    if found then [p] else []
  }

  /** What reading the i-th row adds. */
  function RowProblems(hash: Hash, c: Chain, seqs: seq<int>, i: nat): seq<Problem>
    requires i < |seqs| && InOrder(c, seqs)
  {
    var s, row := seqs[i], c[seqs[i]];
    If(i > 0 && s != seqs[i - 1] + 1, SequenceGap(if i > 0 then seqs[i - 1] else 0, s))
    + If(i > 0 && row.prevHash != HashAt(c, seqs[i - 1]), BrokenLink(s, row.columns.id))
    + If(!HashRecomputes(hash, c, s), RecordHashMismatch(s, row.columns.id))
  }

  function ProblemsBefore(hash: Hash, c: Chain, seqs: seq<int>, i: nat): seq<Problem>
    requires i <= |seqs| && InOrder(c, seqs)
  {
    if i == 0 then [] else ProblemsBefore(hash, c, seqs, i - 1) + RowProblems(hash, c, seqs, i - 1)
  }

  function HeadProblems(c: Chain, head: Option<Head>, last: Option<int>): seq<Problem>
  {
    match head
    case None => if last.Some? then [HeadMissing] else []
    case Some(h) =>
      if || h.lastSeq != (if last.Some? then last.value else 0)
         || (last.Some? && Some(h.lastHash) != HashAt(c, last.value))
      then
        [HeadMismatch(h.lastSeq, last)]
      else
        []
  }

  function LastOf(seqs: seq<int>): Option<int> {
    if seqs == [] then None else Some(seqs[|seqs| - 1])
  }

  function AllProblems(hash: Hash, c: Chain, seqs: seq<int>, head: Option<Head>): seq<Problem>
    requires InOrder(c, seqs)
  {
    ProblemsBefore(hash, c, seqs, |seqs|) + HeadProblems(c, head, LastOf(seqs))
  }

  ghost predicate Logged(log: Log, all: seq<Problem>, maxProblems: int) {
    var cap := if maxProblems < 0 then 0 else maxProblems;
    && log.problems == (if |all| <= cap then all else all[..cap])
    && (log.truncated <==> |all| > cap)
  }

  lemma LoggedAfter(log: Log, all: seq<Problem>, p: Problem, maxProblems: int)
    requires Logged(log, all, maxProblems)
    ensures Logged(log.Add(p, maxProblems), all + [p], maxProblems)
  {
  }

  function Verified(hash: Hash, c: Chain, seqs: seq<int>, i: nat): nat
    requires i <= |seqs| && InOrder(c, seqs)
  {
    if i == 0 then 0 else Verified(hash, c, seqs, i - 1) + if HashRecomputes(hash, c, seqs[i - 1]) then 1 else 0
  }

  /** SELECT ... WHERE chain_seq IS NOT NULL ORDER BY chain_seq ASC. */
  function ChainOrder(c: Chain): (seqs: seq<int>)
    ensures InOrder(c, seqs)
  {
    IntOrder();
    var seqs := Sort(c.Keys, IntLess);
    assert forall j | 0 <= j < |seqs| :: seqs[j] in seqs;
    seqs
  }

  lemma {:induction false} NoProblemsBefore(hash: Hash, c: Chain, seqs: seq<int>, i: nat)
    requires i <= |seqs| && InOrder(c, seqs)
    ensures ProblemsBefore(hash, c, seqs, i) == []
            <==> forall j | 0 <= j < i :: RowProblems(hash, c, seqs, j) == []
  {
    hide InOrder, RowProblems;
    if i > 0 {
      NoProblemsBefore(hash, c, seqs, i - 1);
    }
  }

  // ----- what is reported, by the records and the head row alone

  /** Stored numbers with none stored in between. */
  ghost predicate Consecutive(c: Chain, a: int, s: int) {
    a in c && s in c && a < s && forall t | t in c :: t <= a || s <= t
  }

  /** The problems of a chain. */
  ghost predicate Wrong(hash: Hash, c: Chain, head: Option<Head>, p: Problem) {
    match p
    case SequenceGap(a, s) => Consecutive(c, a, s) && s != a + 1
    case BrokenLink(s, id) =>
      s in c && id == c[s].columns.id && exists a :: Consecutive(c, a, s) && c[s].prevHash != c[a].recordHash
    case RecordHashMismatch(s, id) =>
      && s in c && id == c[s].columns.id
      && var prevHash := if c[s].prevHash.Some? then c[s].prevHash.value else "None";
         c[s].recordHash != Some(hash(Payload(1, s, prevHash, c[s].columns)))
    case HeadMissing => head.None? && c != map[]
    case HeadMismatch(h, last) =>
      && head.Some? && h == head.value.lastSeq
      && match last
         case None => c == map[] && h != 0
         case Some(l) => IsLast(c, l) && (h != l || c[l].recordHash != Some(head.value.lastHash))
  }

  predicate AboutHead(p: Problem) {
    p.HeadMissing? || p.HeadMismatch?
  }

  /** The row a problem is about. */
  function RowOf(p: Problem): int
    requires !AboutHead(p)
  {
    match p
    case SequenceGap(_, s) => s
    case BrokenLink(s, _) => s
    case RecordHashMismatch(s, _) => s
  }

  /** Gap, then link, then hash. */
  function CheckOf(p: Problem): nat
    requires !AboutHead(p)
  {
    match p
    case SequenceGap(_, _) => 1
    case BrokenLink(_, _) => 2
    case RecordHashMismatch(_, _) => 3
  }

  /** Problems are reported by ascending chain number, those of one row in the order of the checks, the head last. */
  predicate ReportedBefore(p: Problem, q: Problem) {
    && !AboutHead(p)
    && (AboutHead(q) || RowOf(p) < RowOf(q) || (RowOf(p) == RowOf(q) && CheckOf(p) < CheckOf(q)))
  }

  ghost predicate InReportOrder(ps: seq<Problem>) {
    forall i, j | 0 <= i < j < |ps| :: ReportedBefore(ps[i], ps[j])
  }

  lemma PreviousInOrder(c: Chain, seqs: seq<int>, i: nat, a: int)
    requires InOrder(c, seqs) && i < |seqs|
    ensures Consecutive(c, a, seqs[i]) <==> i > 0 && a == seqs[i - 1]
  {
    forall t | t in c ensures exists j :: 0 <= j < |seqs| && seqs[j] == t {
    }
    if i > 0 {
      forall t | t in c ensures t <= seqs[i - 1] || seqs[i] <= t {
        var j :| 0 <= j < |seqs| && seqs[j] == t;
        assert j < i - 1 || j == i - 1 || j == i || i < j;
      }
    }
    if Consecutive(c, a, seqs[i]) {
      var j :| 0 <= j < |seqs| && seqs[j] == a;
      assert j < i;
      assert seqs[i - 1] in c;
    }
  }

  /** The checks of one row find exactly what is wrong about it, in order. */
  lemma RowFinds(hash: Hash, c: Chain, seqs: seq<int>, head: Option<Head>, i: nat, p: Problem)
    requires InOrder(c, seqs) && i < |seqs|
    ensures p in RowProblems(hash, c, seqs, i)
            <==> Wrong(hash, c, head, p) && !AboutHead(p) && RowOf(p) == seqs[i]
    ensures InReportOrder(RowProblems(hash, c, seqs, i))
  {
    hide InOrder, Consecutive;
    RowExists(c, seqs, i);
    if i > 0 {
      RowExists(c, seqs, i - 1);
      PreviousInOrder(c, seqs, i, seqs[i - 1]);
    }
    forall a ensures Consecutive(c, a, seqs[i]) <==> i > 0 && a == seqs[i - 1] {
      PreviousInOrder(c, seqs, i, a);
    }
  }

  lemma {:induction false} RowsFind(hash: Hash, c: Chain, seqs: seq<int>, head: Option<Head>, i: nat)
    requires InOrder(c, seqs) && i <= |seqs|
    ensures forall p :: p in ProblemsBefore(hash, c, seqs, i)
                        <==> Wrong(hash, c, head, p) && !AboutHead(p) && RowOf(p) in seqs[..i]
    ensures InReportOrder(ProblemsBefore(hash, c, seqs, i))
  {
    hide RowProblems, Wrong;
    if i > 0 {
      RowsFind(hash, c, seqs, head, i - 1);
      assert seqs[..i] == seqs[..i - 1] + [seqs[i - 1]];
      forall p ensures p in RowProblems(hash, c, seqs, i - 1)
                       <==> Wrong(hash, c, head, p) && !AboutHead(p) && RowOf(p) == seqs[i - 1] {
        RowFinds(hash, c, seqs, head, i - 1, p);
      }
      RowFinds(hash, c, seqs, head, i - 1, HeadMissing);
      OrderJoined(ProblemsBefore(hash, c, seqs, i - 1), RowProblems(hash, c, seqs, i - 1));
    }
  }

  lemma OrderJoined(ps: seq<Problem>, qs: seq<Problem>)
    requires InReportOrder(ps) && InReportOrder(qs)
    requires forall p, q | p in ps && q in qs :: ReportedBefore(p, q)
    ensures InReportOrder(ps + qs)
  {
    hide ReportedBefore;
    var both := ps + qs;
    forall i, j | 0 <= i < j < |both| ensures ReportedBefore(both[i], both[j]) {
      if i < |ps| <= j {
        assert both[i] in ps && both[j] in qs;
      }
    }
  }

  /** The complete list holds exactly what is wrong, each problem once and in order. */
  lemma ProblemsExactly(hash: Hash, c: Chain, head: Option<Head>)
    ensures var all := AllProblems(hash, c, ChainOrder(c), head);
            InReportOrder(all) && forall p :: p in all <==> Wrong(hash, c, head, p)
  {
    hide ChainOrder, ProblemsBefore;
    var seqs := ChainOrder(c);
    RowsFind(hash, c, seqs, head, |seqs|);
    assert seqs[..|seqs|] == seqs;
    HeadFinds(hash, c, seqs, head);
    OrderJoined(ProblemsBefore(hash, c, seqs, |seqs|), HeadProblems(c, head, LastOf(seqs)));
    forall p | Wrong(hash, c, head, p) && !AboutHead(p) ensures RowOf(p) in seqs {
    }
  }

  lemma HeadFinds(hash: Hash, c: Chain, seqs: seq<int>, head: Option<Head>)
    requires InOrder(c, seqs)
    ensures forall p :: p in HeadProblems(c, head, LastOf(seqs)) <==> Wrong(hash, c, head, p) && AboutHead(p)
  {
    LastInOrder(c, seqs);
  }

  /** Of all problems the chain has this one only. */
  ghost predicate OnlyProblem(hash: Hash, c: Chain, head: Option<Head>, p: Problem) {
    forall q :: Wrong(hash, c, head, q) <==> q == p
  }

  /** Editing the hashed columns of one record of an intact chain is reported as exactly that. */
  lemma EditedRecord(hash: Hash, c: Chain, head: Option<Head>, s: int, columns: Columns)
    requires ChainOk(hash, c, head) && s in c && columns != c[s].columns
    requires NoCollision(hash, c, c[s := c[s].(columns := columns)])
    ensures var edited := c[s := c[s].(columns := columns)];
            OnlyProblem(hash, edited, head, RecordHashMismatch(s, columns.id)) && !ChainOk(hash, edited, head)
  {
    var edited := c[s := c[s].(columns := columns)];
    assert HashRecomputes(hash, c, s);
    assert hash(PayloadAt(c, s)) != hash(PayloadAt(edited, s));
    assert edited.Keys == c.Keys;
    forall a, t | Consecutive(edited, a, t) ensures t == a + 1 && edited[t].prevHash == edited[a].recordHash {
      assert Linked(c, t) || IsFirst(c, t);
    }
    forall t | t in c && t != s ensures HashRecomputes(hash, c, t) {
    }
    assert !HashRecomputes(hash, edited, s);
  }

  /** The first problems in report order, at most maxProblems; truncated says whether some are left out. */
  ghost predicate FirstProblems(hash: Hash, c: Chain, head: Option<Head>, ps: seq<Problem>, truncated: bool,
                                maxProblems: int) {
    var cap := if maxProblems < 0 then 0 else maxProblems;
    && InReportOrder(ps) && |ps| <= cap
    && (forall p | p in ps :: Wrong(hash, c, head, p))
    && (forall p | Wrong(hash, c, head, p) && p !in ps :: forall q | q in ps :: ReportedBefore(q, p))
    && (truncated <==> exists p :: Wrong(hash, c, head, p) && p !in ps)
    && (truncated ==> |ps| == cap)
  }

  /** A bounded report is the beginning of the complete list, and says whether anything is left out. */
  lemma ReportBounded(hash: Hash, c: Chain, head: Option<Head>, log: Log, maxProblems: int)
    requires Logged(log, AllProblems(hash, c, ChainOrder(c), head), maxProblems)
    ensures FirstProblems(hash, c, head, log.problems, log.truncated, maxProblems)
  {
    hide ReportedBefore, Wrong, AllProblems, ChainOrder;
    var all := AllProblems(hash, c, ChainOrder(c), head);
    ProblemsExactly(hash, c, head);
    var n := |log.problems|;
    assert log.problems == all[..n];
    forall p | Wrong(hash, c, head, p) && p !in log.problems
      ensures forall q | q in log.problems :: ReportedBefore(q, p)
    {
      var j :| 0 <= j < |all| && all[j] == p;
    }
    if log.truncated {
      NotListedTwice(all, n);
    }
  }

  lemma NotListedTwice(all: seq<Problem>, n: nat)
    requires InReportOrder(all) && n < |all|
    ensures all[n] in all && all[n] !in all[..n]
  {
    forall i | 0 <= i < n ensures all[i] != all[n] {
      assert ReportedBefore(all[i], all[n]);
    }
  }

  /** The streaming checks find nothing exactly when the chain is intact. */
  lemma NoProblemsMeansOk(hash: Hash, c: Chain, head: Option<Head>)
    ensures AllProblems(hash, c, ChainOrder(c), head) == [] <==> ChainOk(hash, c, head)
  {
    hide ChainOrder, ProblemsBefore;
    var seqs := ChainOrder(c);
    NoProblemsBefore(hash, c, seqs, |seqs|);
    if AllProblems(hash, c, seqs, head) == [] {
      RowsMakeChain(hash, c, seqs, head);
    }
    if ChainOk(hash, c, head) {
      ChainMakesRows(hash, c, seqs, head);
    }
  }

  lemma LastInOrder(c: Chain, seqs: seq<int>)
    requires InOrder(c, seqs)
    ensures if seqs == [] then c == map[] else c != map[] && IsLast(c, seqs[|seqs| - 1]) && IsFirst(c, seqs[0])
  {
    if seqs == [] {
      assert forall s :: s !in c;
      assert c.Keys == {};
    } else {
      forall t | t in c ensures seqs[0] <= t <= seqs[|seqs| - 1] {
        var j :| 0 <= j < |seqs| && seqs[j] == t;
      }
      assert seqs[0] in c;
    }
  }

  lemma RowsMakeChain(hash: Hash, c: Chain, seqs: seq<int>, head: Option<Head>)
    requires InOrder(c, seqs) && HeadProblems(c, head, LastOf(seqs)) == []
    requires forall j | 0 <= j < |seqs| :: RowProblems(hash, c, seqs, j) == []
    ensures ChainOk(hash, c, head)
  {
    forall s | s in c ensures HashRecomputes(hash, c, s) && (IsFirst(c, s) || Linked(c, s)) {
      var j :| 0 <= j < |seqs| && seqs[j] == s;
      assert RowProblems(hash, c, seqs, j) == [];
      if j == 0 {
        assert IsFirst(c, s);
      }
    }
    LastInOrder(c, seqs);
  }

  lemma ChainMakesRows(hash: Hash, c: Chain, seqs: seq<int>, head: Option<Head>)
    requires InOrder(c, seqs) && ChainOk(hash, c, head)
    ensures HeadProblems(c, head, LastOf(seqs)) == []
    ensures forall j | 0 <= j < |seqs| :: RowProblems(hash, c, seqs, j) == []
  {
    forall j | 0 <= j < |seqs| ensures RowProblems(hash, c, seqs, j) == [] {
      var s := seqs[j];
      assert HashRecomputes(hash, c, s);
      if j > 0 {
        assert Linked(c, s) || IsFirst(c, s);
        assert s - 1 in seqs;
        var m :| 0 <= m < |seqs| && seqs[m] == s - 1;
        assert seqs[j - 1] < seqs[j] && forall n | 0 <= n < j - 1 :: seqs[n] < seqs[j - 1];
        assert m == j - 1;
      }
    }
    LastInOrder(c, seqs);
  }

  lemma {:induction false} VerifiedCount(hash: Hash, c: Chain, seqs: seq<int>, i: nat)
    requires InOrder(c, seqs) && i <= |seqs|
    ensures Verified(hash, c, seqs, i) == |VerifiedAmong(hash, c, seqs[..i])|
  {
    hide HashRecomputes, InOrder;
    if i == 0 {
      assert VerifiedAmong(hash, c, seqs[..0]) == {};
    } else {
      VerifiedCount(hash, c, seqs, i - 1);
      RowExists(c, seqs, i - 1);
      assert seqs[..i] == seqs[..i - 1] + [seqs[i - 1]];
      VerifiedNext(hash, c, seqs[..i - 1], seqs[i - 1]);
    }
  }

  ghost function VerifiedAmong(hash: Hash, c: Chain, seqs: seq<int>): set<int> {
    set s | s in seqs && s in c && HashRecomputes(hash, c, s)
  }

  lemma VerifiedNext(hash: Hash, c: Chain, seqs: seq<int>, s: int)
    requires s in c && s !in seqs
    ensures s !in VerifiedAmong(hash, c, seqs)
    ensures VerifiedAmong(hash, c, seqs + [s])
            == VerifiedAmong(hash, c, seqs) + if HashRecomputes(hash, c, s) then {s} else {}
  {
    hide HashRecomputes;
  }

  /** The checks of one row, in the order they are made. */
  method CheckRow(hash: Hash, c: Chain, ghost seqs: seq<int>, ghost i: nat, s: int, lastSeq: Option<int>,
                  lastHash: Option<string>, log: Log, maxProblems: int)
    returns (next: Log)
    requires InOrder(c, seqs) && i < |seqs| && s == seqs[i]
    requires lastSeq == if i == 0 then None else Some(seqs[i - 1])
    requires lastHash == if i == 0 then None else HashAt(c, seqs[i - 1])
    requires Logged(log, ProblemsBefore(hash, c, seqs, i), maxProblems)
    ensures Logged(next, ProblemsBefore(hash, c, seqs, i + 1), maxProblems)
  {
    hide Logged, InOrder, HashRecomputes, HashAt, ProblemsBefore, If;
    RowExists(c, seqs, i);
    ProblemsNext(hash, c, seqs, i);
    ghost var before := ProblemsBefore(hash, c, seqs, i);
    var row := c[s];
    var gap := lastSeq.Some? && s != lastSeq.value + 1;
    var unlinked := lastSeq.Some? && row.prevHash != lastHash;
    var mismatch := !HashRecomputes(hash, c, s);
    next := AddIf(log, before, gap, SequenceGap(if lastSeq.Some? then lastSeq.value else 0, s), maxProblems);
    next := AddIf(next, before + If(gap, SequenceGap(if lastSeq.Some? then lastSeq.value else 0, s)),
                  unlinked, BrokenLink(s, row.columns.id), maxProblems);
    next := AddIf(next, before + If(gap, SequenceGap(if lastSeq.Some? then lastSeq.value else 0, s))
                        + If(unlinked, BrokenLink(s, row.columns.id)),
                  mismatch, RecordHashMismatch(s, row.columns.id), maxProblems);
    Associative(before, If(gap, SequenceGap(if lastSeq.Some? then lastSeq.value else 0, s)),
                If(unlinked, BrokenLink(s, row.columns.id)), If(mismatch, RecordHashMismatch(s, row.columns.id)));
  }

  lemma Associative(a: seq<Problem>, b: seq<Problem>, c: seq<Problem>, d: seq<Problem>)
    ensures a + (b + c + d) == a + b + c + d
  {
  }

  lemma ProblemsNext(hash: Hash, c: Chain, seqs: seq<int>, i: nat)
    requires InOrder(c, seqs) && i < |seqs|
    ensures ProblemsBefore(hash, c, seqs, i + 1) == ProblemsBefore(hash, c, seqs, i) + RowProblems(hash, c, seqs, i)
  {
    hide InOrder, RowProblems;
  }

  /** problem(...) called under a condition. */
  method AddIf(log: Log, ghost all: seq<Problem>, found: bool, p: Problem, maxProblems: int) returns (next: Log)
    requires Logged(log, all, maxProblems)
    ensures Logged(next, all + If(found, p), maxProblems)
  {
    next := log;
    if found {
      LoggedAfter(log, all, p, maxProblems);
      next := log.Add(p, maxProblems);
    } else {
      assert all + [] == all;
    }
  }

  /** Walks the chain in order and reports; reads only. */
  method VerifyChain(hash: Hash, c: Chain, legacy: nat, head: Option<Head>, maxProblems: int) returns (report: Report)
    ensures report.ok <==> maxProblems <= 0 || ChainOk(hash, c, head)
    ensures Logged(Log(report.problems, report.problemsTruncated), AllProblems(hash, c, ChainOrder(c), head),
                   maxProblems)
    ensures FirstProblems(hash, c, head, report.problems, report.problemsTruncated, maxProblems)
    ensures report.recordsVerified == |set s | s in c && HashRecomputes(hash, c, s)|
    ensures match report.prunedBefore
            case None => forall s | IsFirst(c, s) :: s <= 1
            case Some(s) => s > 1 && IsFirst(c, s)
    ensures report.unchainedLegacy == legacy && report.headSeq == HeadSeq(head) && report.headHash == HeadHash(head)
  {
    hide ChainOrder, ChainOk, ProblemsBefore, RowProblems, HashRecomputes, Logged, IsFirst, InOrder, HashAt,
      FirstProblems;
    var seqs := ChainOrder(c);
    var log := Log([], false);
    var verified := 0;
    var firstSeq: Option<int>, lastSeq: Option<int>, lastHash: Option<string> := None, None, None;
    ProblemsStart(hash, c, seqs, maxProblems);
    for i := 0 to |seqs|
      invariant firstSeq == if i == 0 then None else Some(seqs[0])
      invariant lastSeq == if i == 0 then None else Some(seqs[i - 1])
      invariant lastHash == if i == 0 then None else HashAt(c, seqs[i - 1])
      invariant verified == Verified(hash, c, seqs, i)
      invariant Logged(log, ProblemsBefore(hash, c, seqs, i), maxProblems)
    {
      RowExists(c, seqs, i);
      var s := seqs[i];
      if firstSeq.None? {
        firstSeq := Some(s);
      }
      log := CheckRow(hash, c, seqs, i, s, lastSeq, lastHash, log, maxProblems);
      if HashRecomputes(hash, c, s) {
        verified := verified + 1;
      }
      lastSeq, lastHash := Some(s), HashAt(c, s);
    }
    ghost var rows := ProblemsBefore(hash, c, seqs, |seqs|);
    match head {
      case None =>
        if lastSeq.Some? {
          LoggedAfter(log, rows, HeadMissing, maxProblems);
          log := log.Add(HeadMissing, maxProblems);
        }
      case Some(h) =>
        var mismatch := || h.lastSeq != (if lastSeq.Some? then lastSeq.value else 0)
                        || (lastSeq.Some? && Some(h.lastHash) != lastHash);
        if mismatch {
          LoggedAfter(log, rows, HeadMismatch(h.lastSeq, lastSeq), maxProblems);
          log := log.Add(HeadMismatch(h.lastSeq, lastSeq), maxProblems);
        }
    }
    assert AllProblems(hash, c, seqs, head) == rows + HeadProblems(c, head, lastSeq);
    assert rows + [] == rows;
    NoProblemsMeansOk(hash, c, head);
    ReportBounded(hash, c, head, log, maxProblems);
    VerifiedAll(hash, c, seqs);
    FirstInOrder(c, seqs);
    LoggedNothing(log, AllProblems(hash, c, seqs, head), maxProblems);
    report := Report(
      log.problems == [],
      verified,
      legacy,
      if firstSeq.Some? && firstSeq.value > 1 then firstSeq else None,
      HeadSeq(head),
      HeadHash(head),
      log.problems,
      log.truncated);
  }

  lemma VerifiedAll(hash: Hash, c: Chain, seqs: seq<int>)
    requires InOrder(c, seqs)
    ensures Verified(hash, c, seqs, |seqs|) == |set s | s in c && HashRecomputes(hash, c, s)|
  {
    hide HashRecomputes;
    VerifiedCount(hash, c, seqs, |seqs|);
    assert seqs[..|seqs|] == seqs;
    assert VerifiedAmong(hash, c, seqs) == set s | s in c && HashRecomputes(hash, c, s);
  }

  lemma RowExists(c: Chain, seqs: seq<int>, i: nat)
    requires InOrder(c, seqs) && i < |seqs|
    ensures seqs[i] in c && seqs[i] !in seqs[..i]
  {
  }

  lemma FirstInOrder(c: Chain, seqs: seq<int>)
    requires InOrder(c, seqs)
    ensures forall s :: IsFirst(c, s) <==> seqs != [] && s == seqs[0]
  {
    LastInOrder(c, seqs);
  }

  lemma LoggedNothing(log: Log, all: seq<Problem>, maxProblems: int)
    requires Logged(log, all, maxProblems)
    ensures log.problems == [] <==> maxProblems <= 0 || all == []
  {
  }

  lemma ProblemsStart(hash: Hash, c: Chain, seqs: seq<int>, maxProblems: int)
    requires InOrder(c, seqs)
    ensures ProblemsBefore(hash, c, seqs, 0) == [] && Logged(Log([], false), [], maxProblems)
  {
  }

  /** A record without a hash and no head row, under a problem limit of zero: nothing is kept, so it counts as ok. */
  lemma ZeroLimitHidesProblems(hash: Hash, columns: Columns)
    ensures var c := map[1 := Record(None, None, columns)];
            && !ChainOk(hash, c, None)
            && Logged(Log([], true), AllProblems(hash, c, ChainOrder(c), None), 0)
  {
    var c := map[1 := Record(None, None, columns)];
    NoProblemsMeansOk(hash, c, None);
    assert !HashRecomputes(hash, c, 1);
  }
}
