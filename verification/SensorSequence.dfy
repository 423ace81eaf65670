/** Gap accounting for numbered sensor telemetry (sensor_sequence.py). */
module SensorSequence {
  import opened Ordering
  import opened Ranges
  import opened Wrappers

  const MAX_SEQUENCE := 0x1F_FFFF_FFFF_FFFF
  const MAX_RANGES_PER_STREAM := 256
  const MAX_STREAMS_PER_SENSOR := 32
  const MAX_REPORTED_GAPS := 10

  datatype StreamKey = StreamKey(sensorId: string, streamId: string)

  /** A row of sensor_sequence_streams. */
  datatype StreamRow = StreamRow(
    firstSeenAt: int,
    lastSeenAt: int,
    receivedCount: nat,
    duplicateCount: nat,
    maxReceived: nat,
    maxReported: nat,
    detailTruncated: bool)
  {
    function Highest(): nat {
      if maxReceived >= maxReported then maxReceived else maxReported
    }

    function Missing(): nat {
      if Highest() >= receivedCount then Highest() - receivedCount else 0
    }
  }

  datatype Outcome = Received | Duplicate | Untracked

  // ----- the plain-set model of one stream

  /** One stream with its received numbers kept as a plain set. */
  datatype Stream = Stream(numbers: set<int>, row: StreamRow)

  ghost function Missing(numbers: set<int>, highest: int): set<int> {
    Interval(1, highest) - numbers
  }

  /** A fresh run cannot be stored any more. */
  ghost predicate Overflows(numbers: set<int>, n: int) {
    Isolated(numbers, n) && RunCount(numbers) >= MAX_RANGES_PER_STREAM
  }

  ghost function OutcomeOf(s: Stream, n: int): Outcome {
    if n in s.numbers then Duplicate else if Overflows(s.numbers, n) then Untracked else Received
  }

  /** What receiving number n means for a stream that remembers a plain set. */
  ghost function Recorded(s: Stream, n: nat): Stream {
    var row := s.row;
    var counted := row.(receivedCount := row.receivedCount + 1,
                        maxReceived := if row.maxReceived >= n then row.maxReceived else n);
    match OutcomeOf(s, n)
    case Duplicate => s.(row := row.(duplicateCount := row.duplicateCount + 1))
    case Untracked => s.(row := counted.(detailTruncated := true))
    case Received => Stream(s.numbers + {n}, counted)
  }

  /** What every stream satisfies after any history. */
  ghost predicate SoundStream(s: Stream) {
    && s.numbers <= Interval(1, s.row.maxReceived)
    && s.row.maxReceived <= MAX_SEQUENCE
    && |s.numbers| <= s.row.receivedCount
    && (s.row.receivedCount == 0 ==> s.row.maxReceived == 0)
    && (!s.row.detailTruncated ==> s.row.receivedCount == |s.numbers|)
    && (!s.row.detailTruncated && s.row.receivedCount > 0 ==> s.row.maxReceived in s.numbers)
    && RunCount(s.numbers) <= MAX_RANGES_PER_STREAM
  }

  // ----- the tables

  /** Both tables, each stream's ranges read as a plain set. */
  datatype Tables = Tables(rows: map<StreamKey, StreamRow>, numbers: map<StreamKey, set<int>>)

  function SeenAt(rows: map<StreamKey, StreamRow>, k: StreamKey): Key {
    Key(if k in rows then rows[k].lastSeenAt else 0, k.streamId)
  }

  function SensorStreams(rows: map<StreamKey, StreamRow>, sensorId: string): set<StreamKey> {
    set k | k in rows && k.sensorId == sensorId
  }

  function SeenTimes(rows: map<StreamKey, StreamRow>, streams: set<StreamKey>): set<Key> {
    set k | k in streams :: SeenAt(rows, k)
  }

  /** The streams of one sensor by last_seen_at DESC, stream_id DESC. */
  function NewestFirst(rows: map<StreamKey, StreamRow>, sensorId: string): (order: seq<Key>)
    ensures TotalOrder(KeyGreater) && Ascending(order, KeyGreater)
    ensures forall x :: x in order <==> x in SeenTimes(rows, SensorStreams(rows, sensorId))
  {
    KeyOrders();
    Sort(SeenTimes(rows, SensorStreams(rows, sensorId)), KeyGreater)
  }

  /** The streams of the same sensor seen later than k. */
  ghost function NewerThan(rows: map<StreamKey, StreamRow>, k: StreamKey): set<Key> {
    set x | x in SeenTimes(rows, SensorStreams(rows, k.sensorId)) && KeyLess(SeenAt(rows, k), x)
  }

  /** k is among the newest MAX_STREAMS_PER_SENSOR streams of its sensor. */
  ghost predicate Recent(rows: map<StreamKey, StreamRow>, k: StreamKey) {
    |NewerThan(rows, k)| < MAX_STREAMS_PER_SENSOR
  }

  function TouchedRows(rows: map<StreamKey, StreamRow>, k: StreamKey, now: int): map<StreamKey, StreamRow> {
    rows[k := if k in rows then rows[k].(lastSeenAt := now) else StreamRow(now, now, 0, 0, 0, 0, false)]
  }

  /** The upsert of a stream followed by the eviction of its sensor's oldest streams. */
  ghost function Ensured(t: Tables, k: StreamKey, now: int): Tables {
    var rows := TouchedRows(t.rows, k, now);
    var numbers := if k in t.numbers then t.numbers else t.numbers[k := {}];
    Tables(
      map j | j in rows && (j.sensorId == k.sensorId ==> Recent(rows, j)) :: rows[j],
      map j | j in numbers && (j.sensorId == k.sensorId ==> Recent(rows, j)) :: numbers[j])
  }

  ghost predicate Aligned(t: Tables) {
    t.rows.Keys == t.numbers.Keys
  }

  ghost function StreamOf(t: Tables, k: StreamKey): Stream
    requires Aligned(t) && k in t.rows
  {
    Stream(t.numbers[k], t.rows[k])
  }

  ghost function WithStream(t: Tables, k: StreamKey, s: Stream): Tables {
    Tables(t.rows[k := s.row], t.numbers[k := s.numbers])
  }

  ghost predicate Sound(t: Tables) {
    && Aligned(t)
    && (forall k | k in t.rows :: SoundStream(StreamOf(t, k)))
    && (forall sensorId :: |SensorStreams(t.rows, sensorId)| <= MAX_STREAMS_PER_SENSOR)
  }

  /** record_event_sequence on the model; None when its own touch evicted the stream. */
  ghost function RecordedIn(t: Tables, k: StreamKey, n: nat, now: int): Option<(Tables, Outcome)>
    requires Aligned(t)
  {
    var u := Ensured(t, k, now);
    if k !in u.rows then
      None
    else
      Some((WithStream(u, k, Recorded(StreamOf(u, k), n)), OutcomeOf(StreamOf(u, k), n)))
  }

  ghost function Reported(s: Stream, last: nat): Stream {
    s.(row := s.row.(maxReported := if s.row.maxReported >= last then s.row.maxReported else last))
  }

  /** record_heartbeat_sequence on the model. */
  ghost function ReportedIn(t: Tables, k: StreamKey, last: nat, now: int): Tables
    requires Aligned(t)
  {
    var u := Ensured(t, k, now);
    if k in u.rows then WithStream(u, k, Reported(StreamOf(u, k), last)) else u
  }

  // ----- what the model keeps

  lemma OverflowsExactly(numbers: set<int>, n: int)
    ensures Overflows(numbers, n)
            <==> n !in numbers && n - 1 !in numbers && n + 1 !in numbers && RunCount(numbers) >= 256
  {
    hide RunCount;
  }

  /** A new number is turned away exactly when it touches nothing stored and 256 runs are. */
  lemma OutcomeExactly(s: Stream, n: int)
    requires SoundStream(s)
    ensures var neighboured := n - 1 in s.numbers || n + 1 in s.numbers;
            match OutcomeOf(s, n)
            case Duplicate => n in s.numbers
            case Received => n !in s.numbers && (neighboured || RunCount(s.numbers) < 256)
            case Untracked => n !in s.numbers && !neighboured && RunCount(s.numbers) == 256
  {
    hide RunCount;
  }

  lemma RecordedIsSound(s: Stream, n: nat)
    requires SoundStream(s) && 1 <= n <= MAX_SEQUENCE
    ensures SoundStream(Recorded(s, n))
  {
    if n !in s.numbers {
      RunCountAfterInsert(s.numbers, n);
    }
  }

  /** ... LIMIT -1 OFFSET 32: the streams beyond the newest 32. */
  function StaleTimes(rows: map<StreamKey, StreamRow>, sensorId: string): seq<Key> {
    var order := NewestFirst(rows, sensorId);
    if |order| <= MAX_STREAMS_PER_SENSOR then [] else order[MAX_STREAMS_PER_SENSOR..]
  }

  lemma ReportedIsSound(s: Stream, last: nat)
    requires SoundStream(s)
    ensures SoundStream(Reported(s, last))
  {
  }

  lemma {:induction false} SeenTimesDistinct(rows: map<StreamKey, StreamRow>, streams: set<StreamKey>, sensorId: string)
    requires forall k | k in streams :: k.sensorId == sensorId
    ensures |SeenTimes(rows, streams)| == |streams|
    decreases |streams|
  {
    if streams != {} {
      var k :| k in streams;
      SeenTimesDistinct(rows, streams - {k}, sensorId);
      assert SeenTimes(rows, streams) == SeenTimes(rows, streams - {k}) + {SeenAt(rows, k)};
      assert SeenAt(rows, k) !in SeenTimes(rows, streams - {k}) by {
        assert forall j | j in streams - {k} :: j.streamId != k.streamId;
      }
    }
  }

  /** Being recent is standing among the first 32 of the order. */
  lemma RecentByPosition(rows: map<StreamKey, StreamRow>, k: StreamKey, i: nat)
    requires k in rows
    requires i < |NewestFirst(rows, k.sensorId)| && NewestFirst(rows, k.sensorId)[i] == SeenAt(rows, k)
    ensures Recent(rows, k) <==> i < MAX_STREAMS_PER_SENSOR
  {
    var order := NewestFirst(rows, k.sensorId);
    RankIsIndex(order, KeyGreater, i);
    assert NewerThan(rows, k) == Below(order, KeyGreater, order[i]);
  }

  lemma RecentIsNotStale(rows: map<StreamKey, StreamRow>, k: StreamKey)
    requires k in rows
    ensures Recent(rows, k) <==> SeenAt(rows, k) !in StaleTimes(rows, k.sensorId)
  {
    var order := NewestFirst(rows, k.sensorId);
    assert SeenAt(rows, k) in SeenTimes(rows, SensorStreams(rows, k.sensorId));
    var i :| 0 <= i < |order| && order[i] == SeenAt(rows, k);
    RecentByPosition(rows, k, i);
    if i >= MAX_STREAMS_PER_SENSOR {
      assert StaleTimes(rows, k.sensorId)[i - MAX_STREAMS_PER_SENSOR] == SeenAt(rows, k);
    } else {
      assert forall j | MAX_STREAMS_PER_SENSOR <= j < |order| :: KeyGreater(order[i], order[j]);
      KeyOrders();
    }
  }

  /** The eviction keeps the newest streams of the touched sensor: no more than 32, and no fewer if it had them. */
  lemma EvictionCount(rows: map<StreamKey, StreamRow>, sensorId: string)
    ensures var kept := set k | k in SensorStreams(rows, sensorId) && Recent(rows, k);
            var had := |SensorStreams(rows, sensorId)|;
            |kept| == if had <= MAX_STREAMS_PER_SENSOR then had else MAX_STREAMS_PER_SENSOR
  {
    hide TotalOrder, Recent, NewestFirst;
    var streams := SensorStreams(rows, sensorId);
    var order := NewestFirst(rows, sensorId);
    AscendingDistinct(order, KeyGreater);
    SeenTimesDistinct(rows, streams, sensorId);
    DistinctCount(order);
    assert (set x | x in order) == SeenTimes(rows, streams);
    var limit := if |order| <= MAX_STREAMS_PER_SENSOR then |order| else MAX_STREAMS_PER_SENSOR;
    var kept := set k | k in streams && Recent(rows, k);
    SeenTimesDistinct(rows, kept, sensorId);
    forall x ensures x in SeenTimes(rows, kept) <==> x in order[..limit] {
      if k :| k in streams && SeenAt(rows, k) == x {
        assert x in SeenTimes(rows, streams);
        var i :| 0 <= i < |order| && order[i] == x;
        RecentByPosition(rows, k, i);
      } else {
        assert x !in SeenTimes(rows, streams) && x !in order;
      }
    }
    DistinctCount(order[..limit]);
    assert SeenTimes(rows, kept) == set x | x in order[..limit];
  }

  lemma EnsuredIsSound(t: Tables, k: StreamKey, now: int)
    requires Sound(t)
    ensures Sound(Ensured(t, k, now))
  {
    hide Recent, SoundStream;
    var u := Ensured(t, k, now);
    forall j | j in u.rows ensures SoundStream(StreamOf(u, j)) {
      EnsuredStreamIsSound(t, k, now, j);
    }
    forall sensorId ensures |SensorStreams(u.rows, sensorId)| <= MAX_STREAMS_PER_SENSOR {
      EnsuredStaysBounded(t, k, now, sensorId);
    }
  }

  lemma EnsuredStaysBounded(t: Tables, k: StreamKey, now: int, sensorId: string)
    requires Sound(t)
    ensures |SensorStreams(Ensured(t, k, now).rows, sensorId)| <= MAX_STREAMS_PER_SENSOR
  {
    hide Recent, SoundStream;
    EnsuredCount(t, k, now);
    if sensorId != k.sensorId {
      assert SensorStreams(Ensured(t, k, now).rows, sensorId) == SensorStreams(t.rows, sensorId);
    }
  }

  lemma EnsuredStreamIsSound(t: Tables, k: StreamKey, now: int, j: StreamKey)
    requires Sound(t) && j in Ensured(t, k, now).rows
    ensures SoundStream(StreamOf(Ensured(t, k, now), j))
  {
    hide Recent;
    if j in t.rows {
      assert SoundStream(StreamOf(t, j));
    } else {
      assert RunStarts({}) == {};
    }
  }

  lemma EnsuredCount(t: Tables, k: StreamKey, now: int)
    requires Aligned(t)
    ensures var had := |SensorStreams(t.rows, k.sensorId) + {k}|;
            |SensorStreams(Ensured(t, k, now).rows, k.sensorId)|
            == if had <= MAX_STREAMS_PER_SENSOR then had else MAX_STREAMS_PER_SENSOR
  {
    hide Recent, Ensured, TouchedRows;
    var rows := TouchedRows(t.rows, k, now);
    EvictionCount(rows, k.sensorId);
    TouchedStreams(t.rows, k, now);
    EnsuredStreams(t, k, now);
  }

  lemma TouchedStreams(rows: map<StreamKey, StreamRow>, k: StreamKey, now: int)
    ensures SensorStreams(TouchedRows(rows, k, now), k.sensorId) == SensorStreams(rows, k.sensorId) + {k}
  {
  }

  lemma EnsuredStreams(t: Tables, k: StreamKey, now: int)
    ensures var rows := TouchedRows(t.rows, k, now);
            SensorStreams(Ensured(t, k, now).rows, k.sensorId)
            == set j | j in SensorStreams(rows, k.sensorId) && Recent(rows, j)
  {
    hide Recent, TouchedRows;
  }

  /** The bounded history: the touched sensor keeps all its streams, or exactly 32; other sensors keep theirs. */
  lemma EvictionBounds(t: Tables, k: StreamKey, now: int)
    requires Aligned(t)
    ensures var u, had := Ensured(t, k, now), |SensorStreams(t.rows, k.sensorId) + {k}|;
            && |SensorStreams(u.rows, k.sensorId)|
               == (if had <= MAX_STREAMS_PER_SENSOR then had else MAX_STREAMS_PER_SENSOR)
            && Aligned(u)
            && (forall j | j in t.rows && j.sensorId != k.sensorId :: j in u.rows && StreamOf(u, j) == StreamOf(t, j))
            && (forall j | j in u.rows && j != k :: j in t.rows && StreamOf(u, j) == StreamOf(t, j))
  {
    hide Recent;
    EnsuredCount(t, k, now);
  }

  /** Every evicted stream was seen before every surviving stream of its sensor. */
  lemma EvictionKeepsNewest(t: Tables, k: StreamKey, now: int, kept: StreamKey, gone: StreamKey)
    requires Aligned(t)
    requires kept.sensorId == gone.sensorId
    requires kept in Ensured(t, k, now).rows
    requires gone in TouchedRows(t.rows, k, now) && gone !in Ensured(t, k, now).rows
    ensures KeyLess(SeenAt(TouchedRows(t.rows, k, now), gone), SeenAt(TouchedRows(t.rows, k, now), kept))
  {
    KeyOrders();
    var rows := TouchedRows(t.rows, k, now);
    if !KeyLess(SeenAt(rows, gone), SeenAt(rows, kept)) {
      assert forall x | x in NewerThan(rows, gone) :: x in NewerThan(rows, kept);
      SubsetSize(NewerThan(rows, gone), NewerThan(rows, kept));
      assert false;
    }
  }

  /** The touched stream is lost by its own touch exactly when 32 streams of its sensor are seen later than now. */
  lemma TouchedStreamSurvives(t: Tables, k: StreamKey, now: int)
    requires Aligned(t)
    ensures k in Ensured(t, k, now).rows
            <==> |set x | x in SeenTimes(t.rows, SensorStreams(t.rows, k.sensorId) - {k})
                          && KeyLess(Key(now, k.streamId), x)|
                 < MAX_STREAMS_PER_SENSOR
    ensures (forall j | j in SensorStreams(t.rows, k.sensorId) - {k} :: t.rows[j].lastSeenAt < now)
            ==> k in Ensured(t, k, now).rows
  {
    KeyOrders();
    var rows := TouchedRows(t.rows, k, now);
    var others := SensorStreams(t.rows, k.sensorId) - {k};
    var newer := set x | x in SeenTimes(t.rows, others) && KeyLess(Key(now, k.streamId), x);
    forall x ensures x in NewerThan(rows, k) <==> x in newer {
      if x in newer {
        var j :| j in others && SeenAt(t.rows, j) == x;
        assert j in SensorStreams(rows, k.sensorId) && SeenAt(rows, j) == x;
      }
      if x in NewerThan(rows, k) {
        var j :| j in SensorStreams(rows, k.sensorId) && SeenAt(rows, j) == x;
        assert j in others && SeenAt(t.rows, j) == x;
      }
    }
    assert NewerThan(rows, k) == newer;
    if forall j | j in others :: t.rows[j].lastSeenAt < now {
      assert newer == {};
    }
  }

  // ----- a touch that comes too late

  /** Stream ids of 16 to 47 characters, one for each number below 32. */
  function StreamName(i: nat): string {
    seq(16 + i, _ => 'a')
  }

  ghost function LaterStreams(sensorId: string, n: nat): set<StreamKey> {
    if n == 0 then {} else LaterStreams(sensorId, n - 1) + {StreamKey(sensorId, StreamName(n - 1))}
  }

  lemma {:induction false} LaterStreamsCount(sensorId: string, n: nat)
    ensures |LaterStreams(sensorId, n)| == n
    ensures forall k | k in LaterStreams(sensorId, n) :: k.sensorId == sensorId && 16 <= |k.streamId| < 16 + n
  {
    if n > 0 {
      LaterStreamsCount(sensorId, n - 1);
    }
  }

  /** A sensor with 32 empty streams, all seen at the given instant. */
  ghost function FullSensor(sensorId: string, seen: int): Tables {
    Tables(map k | k in LaterStreams(sensorId, 32) :: StreamRow(seen, seen, 0, 0, 0, 0, false),
           map k | k in LaterStreams(sensorId, 32) :: {})
  }

  lemma FullSensorIsSound(sensorId: string, seen: int)
    ensures Sound(FullSensor(sensorId, seen))
    ensures SensorStreams(FullSensor(sensorId, seen).rows, sensorId) == LaterStreams(sensorId, 32)
  {
    var t := FullSensor(sensorId, seen);
    LaterStreamsCount(sensorId, 32);
    assert RunStarts({}) == {};
    assert SensorStreams(t.rows, sensorId) == LaterStreams(sensorId, 32);
    forall s ensures |SensorStreams(t.rows, s)| <= MAX_STREAMS_PER_SENSOR {
      if s != sensorId {
        assert SensorStreams(t.rows, s) == {};
      }
    }
  }

  /** The number of a new stream is refused when the clock of its event is behind all 32 stored streams. */
  lemma LateStreamRefused(sensorId: string, seen: int, now: int, n: nat)
    requires now < seen
    ensures RecordedIn(FullSensor(sensorId, seen), StreamKey(sensorId, "new-stream-00001"), n, now) == None
  {
    hide TotalOrder, Recent, Ensured, FullSensor, LaterStreams;
    var t, k := FullSensor(sensorId, seen), StreamKey(sensorId, "new-stream-00001");
    FullSensorIsSound(sensorId, seen);
    LaterStreamsCount(sensorId, 32);
    var streams := LaterStreams(sensorId, 32);
    assert k !in streams by {
      NotALaterStream(sensorId, 32);
    }
    assert SensorStreams(t.rows, sensorId) - {k} == streams;
    SeenTimesDistinct(t.rows, streams, sensorId);
    FullSensorSeen(sensorId, seen);
    assert (set x | x in SeenTimes(t.rows, streams) && KeyLess(Key(now, k.streamId), x)) == SeenTimes(t.rows, streams);
    TouchedStreamSurvives(t, k, now);
  }

  lemma {:induction false} NotALaterStream(sensorId: string, n: nat)
    ensures StreamKey(sensorId, "new-stream-00001") !in LaterStreams(sensorId, n)
  {
    if n > 0 {
      NotALaterStream(sensorId, n - 1);
      assert StreamName(n - 1)[0] == 'a' && "new-stream-00001"[0] == 'n';
    }
  }

  lemma FullSensorSeen(sensorId: string, seen: int)
    ensures forall x | x in SeenTimes(FullSensor(sensorId, seen).rows, LaterStreams(sensorId, 32)) :: x.time == seen
  {
  }

  // ----- the store

  /** The range rows of one stream; a stream may have none. */
  function RowsOf(ranges: map<StreamKey, Ranges>, k: StreamKey): Ranges {
    if k in ranges then ranges[k] else map[]
  }

  /** The range table holds the sets of the model, and no row without its stream. */
  ghost predicate Stores(ranges: map<StreamKey, Ranges>, t: Tables)
    requires Aligned(t)
  {
    && ranges.Keys <= t.rows.Keys
    && (forall k | k in t.rows :: Represents(RowsOf(ranges, k), t.numbers[k]))
  }

  /** m without the rows of the sensor's streams last seen at the given times. */
  ghost function Without<T>(m: map<StreamKey, T>, rows: map<StreamKey, StreamRow>, sensorId: string,
                            gone: seq<Key>): map<StreamKey, T>
  {
    map j | j in m && !(j.sensorId == sensorId && SeenAt(rows, j) in gone) :: m[j]
  }

  lemma WithoutOneMore<T>(m: map<StreamKey, T>, rows: map<StreamKey, StreamRow>, sensorId: string, gone: seq<Key>,
                          x: Key)
    requires m.Keys <= rows.Keys && x in SeenTimes(rows, SensorStreams(rows, sensorId))
    ensures Without(m, rows, sensorId, gone + [x]) == Without(m, rows, sensorId, gone) - {StreamKey(sensorId, x.id)}
  {
  }

  lemma WithoutStale(t: Tables, k: StreamKey, now: int)
    requires Aligned(t)
    ensures var rows := TouchedRows(t.rows, k, now);
            Ensured(t, k, now).rows == Without(rows, rows, k.sensorId, StaleTimes(rows, k.sensorId))
  {
    var rows := TouchedRows(t.rows, k, now);
    forall j | j in rows && j.sensorId == k.sensorId
      ensures Recent(rows, j) <==> SeenAt(rows, j) !in StaleTimes(rows, k.sensorId)
    {
      RecentIsNotStale(rows, j);
    }
  }

  lemma EvictionStores(t: Tables, ranges: map<StreamKey, Ranges>, k: StreamKey, now: int)
    requires Aligned(t) && Stores(ranges, t)
    ensures var rows := TouchedRows(t.rows, k, now);
            Stores(Without(ranges, rows, k.sensorId, StaleTimes(rows, k.sensorId)), Ensured(t, k, now))
  {
    var rows, u := TouchedRows(t.rows, k, now), Ensured(t, k, now);
    var stale := StaleTimes(rows, k.sensorId);
    var left := Without(ranges, rows, k.sensorId, stale);
    WithoutStale(t, k, now);
    forall j | j in u.rows ensures Represents(RowsOf(left, j), u.numbers[j]) {
      if j !in t.rows {
      }
    }
  }

  lemma WithStreamIsSound(t: Tables, k: StreamKey, s: Stream)
    requires Sound(t) && k in t.rows && SoundStream(s)
    ensures Sound(WithStream(t, k, s))
  {
    hide SoundStream;
    var u := WithStream(t, k, s);
    forall j | j in u.rows ensures SoundStream(StreamOf(u, j)) {
      if j != k {
        assert SoundStream(StreamOf(t, j));
      }
    }
    forall sensorId ensures |SensorStreams(u.rows, sensorId)| <= MAX_STREAMS_PER_SENSOR {
      assert SensorStreams(u.rows, sensorId) == SensorStreams(t.rows, sensorId);
    }
  }

  /** Replacing one stream, and its rows along with its set, keeps both tables. */
  lemma StreamUpdated(t: Tables, ranges: map<StreamKey, Ranges>, k: StreamKey, s: Stream, rows: Ranges)
    requires Sound(t) && Stores(ranges, t) && k in t.rows
    requires SoundStream(s) && Represents(rows, s.numbers)
    ensures Sound(WithStream(t, k, s)) && Stores(ranges[k := rows], WithStream(t, k, s))
  {
    hide SoundStream, Represents;
    WithStreamIsSound(t, k, s);
  }

  lemma CountersUpdated(t: Tables, ranges: map<StreamKey, Ranges>, k: StreamKey, s: Stream)
    requires Sound(t) && Stores(ranges, t) && k in t.rows
    requires SoundStream(s) && s.numbers == t.numbers[k]
    ensures Sound(WithStream(t, k, s)) && Stores(ranges, WithStream(t, k, s))
  {
    hide SoundStream, Represents;
    WithStreamIsSound(t, k, s);
  }

  /** The rows of a stream, present or not, hold exactly its numbers. */
  lemma RowsHoldNumbers(t: Tables, ranges: map<StreamKey, Ranges>, k: StreamKey)
    requires Aligned(t) && Stores(ranges, t)
    ensures var numbers := if k in t.rows then t.numbers[k] else {};
            && Represents(RowsOf(ranges, k), numbers)
            && (forall n :: Covers(RowsOf(ranges, k), n) <==> n in numbers)
  {
  }

  /** What Ensured leaves of the touched stream, if it leaves it at all. */
  lemma TouchedStream(t: Tables, k: StreamKey, now: int)
    requires Aligned(t)
    ensures Aligned(Ensured(t, k, now))
    ensures k in Ensured(t, k, now).rows ==>
              StreamOf(Ensured(t, k, now), k)
              == if k in t.rows then Stream(t.numbers[k], t.rows[k].(lastSeenAt := now))
                 else Stream({}, StreamRow(now, now, 0, 0, 0, 0, false))
  {
    hide Recent;
  }

  lemma SoundIsAligned(t: Tables)
    requires Sound(t)
    ensures Aligned(t)
  {
  }

  lemma RecordedInIsSound(t: Tables, k: StreamKey, n: nat, now: int)
    requires Sound(t) && 1 <= n <= MAX_SEQUENCE
    ensures RecordedIn(t, k, n, now).Some? ==> Sound(RecordedIn(t, k, n, now).value.0)
  {
    hide Ensured, SoundStream;
    EnsuredIsSound(t, k, now);
    var u := Ensured(t, k, now);
    if k in u.rows {
      RecordedIsSound(StreamOf(u, k), n);
      WithStreamIsSound(u, k, Recorded(StreamOf(u, k), n));
    }
  }

  lemma ReportedInIsSound(t: Tables, k: StreamKey, last: nat, now: int)
    requires Sound(t)
    ensures Sound(ReportedIn(t, k, last, now))
  {
    hide Ensured, SoundStream;
    EnsuredIsSound(t, k, now);
    var u := Ensured(t, k, now);
    if k in u.rows {
      ReportedIsSound(StreamOf(u, k), last);
      WithStreamIsSound(u, k, Reported(StreamOf(u, k), last));
    }
  }

  /** Recording changes the named stream as the model of one stream says, and no other one. */
  lemma RecordedStreams(t: Tables, k: StreamKey, n: nat, now: int, j: StreamKey)
    requires Aligned(t) && RecordedIn(t, k, n, now).Some?
    ensures var (u, _) := RecordedIn(t, k, n, now).value;
            && Aligned(u) && k in u.rows && k in Ensured(t, k, now).rows
            && StreamOf(u, k) == Recorded(StreamOf(Ensured(t, k, now), k), n)
            && (j != k && j in u.rows ==> j in t.rows && StreamOf(u, j) == StreamOf(t, j))
  {
    hide Ensured;
    EvictionBounds(t, k, now);
  }

  lemma ReportedStreams(t: Tables, k: StreamKey, last: nat, now: int, j: StreamKey)
    requires Aligned(t)
    ensures var u := ReportedIn(t, k, last, now);
            && Aligned(u) && (k in u.rows <==> k in Ensured(t, k, now).rows)
            && (k in u.rows ==> StreamOf(u, k) == Reported(StreamOf(Ensured(t, k, now), k), last))
            && (j != k && j in u.rows ==> j in t.rows && StreamOf(u, j) == StreamOf(t, j))
  {
    hide Ensured;
    EvictionBounds(t, k, now);
  }

  datatype RecordResult = Stored(outcome: Outcome) | ForeignKeyViolation

  /** The range updates of one new number: join, extend, insert, or leave an exhausted table alone. */
  method AddNumber(rows: Ranges, number: nat, ghost numbers: set<int>) returns (updated: Ranges, outcome: Outcome)
    requires Represents(rows, numbers) && 1 <= number && !Covers(rows, number)
    ensures if number - 1 !in numbers && number + 1 !in numbers && RunCount(numbers) >= 256 then
              outcome == Untracked && updated == rows
            else
              outcome == Received && Represents(updated, numbers + {number})
  {
    RowCount(rows, numbers);
    outcome := Received;
    if left :| left in rows && EndsBefore(rows, left, number) {
      if number + 1 in rows {
        JoinBoth(rows, numbers, number, left);
        updated := (rows - {number + 1})[left := rows[number + 1]];
      } else {
        ExtendLeft(rows, numbers, number, left);
        updated := rows[left := number];
      }
    } else if number + 1 in rows {
      ExtendRight(rows, numbers, number);
      updated := (rows - {number + 1})[number := rows[number + 1]];
    } else if |rows| >= MAX_RANGES_PER_STREAM {
      updated, outcome := rows, Untracked;
    } else {
      InsertAlone(rows, numbers, number);
      updated := rows[number := number];
    }
  }

  // ----- the gap report

  datatype Gap = Gap(first: int, last: int)

  /** A maximal run of missing numbers. */
  ghost predicate IsGap(numbers: set<int>, highest: int, g: Gap) {
    && 1 <= g.first <= g.last <= highest
    && (forall n | g.first <= n <= g.last :: n !in numbers)
    && (g.first == 1 || g.first - 1 in numbers)
    && (g.last == highest || g.last + 1 in numbers)
  }

  /** Gaps in ascending order, none touching the next. */
  ghost predicate AscendingGaps(gaps: seq<Gap>) {
    && (forall i | 0 <= i < |gaps| :: gaps[i].first <= gaps[i].last)
    && (forall i, j | 0 <= i < j < |gaps| :: gaps[i].last < gaps[j].first)
  }

  ghost function GapNumbers(gaps: seq<Gap>): set<int> {
    if gaps == [] then {} else GapNumbers(gaps[..|gaps| - 1]) + Interval(gaps[|gaps| - 1].first, gaps[|gaps| - 1].last)
  }

  ghost function GapLengths(gaps: seq<Gap>): int {
    if gaps == [] then 0 else GapLengths(gaps[..|gaps| - 1]) + gaps[|gaps| - 1].last - gaps[|gaps| - 1].first + 1
  }

  /** The gaps are the maximal missing runs of 1..highest up to x, in order, and hold every missing number up to x. */
  ghost predicate ReportsUpTo(numbers: set<int>, highest: int, gaps: seq<Gap>, x: int) {
    && AscendingGaps(gaps)
    && (forall i | 0 <= i < |gaps| :: IsGap(numbers, highest, gaps[i]) && gaps[i].last <= x)
    && GapNumbers(gaps) == Missing(numbers, x)
  }

  lemma ReportsNext(numbers: set<int>, highest: int, gaps: seq<Gap>, g: Gap)
    requires ReportsUpTo(numbers, highest, gaps, g.first - 1) && IsGap(numbers, highest, g)
    ensures ReportsUpTo(numbers, highest, gaps + [g], g.last)
  {
    hide AscendingGaps, IsGap, GapNumbers, Interval, Missing;
    GapsAppended(numbers, highest, gaps, g);
    GapAppended(gaps, g);
    MissingAppended(numbers, highest, g);
  }

  lemma GapsAppended(numbers: set<int>, highest: int, gaps: seq<Gap>, g: Gap)
    requires AscendingGaps(gaps) && IsGap(numbers, highest, g)
    requires forall i | 0 <= i < |gaps| :: IsGap(numbers, highest, gaps[i]) && gaps[i].last < g.first
    ensures AscendingGaps(gaps + [g]) && g.first <= g.last
    ensures forall i | 0 <= i < |gaps + [g]| ::
              IsGap(numbers, highest, (gaps + [g])[i]) && (gaps + [g])[i].last <= g.last
  {
  }

  lemma MissingAppended(numbers: set<int>, highest: int, g: Gap)
    requires IsGap(numbers, highest, g)
    ensures Missing(numbers, g.last) == Missing(numbers, g.first - 1) + Interval(g.first, g.last)
  {
    assert forall n | n in Interval(g.first, g.last) :: n !in numbers;
  }

  lemma GapAppended(gaps: seq<Gap>, g: Gap)
    ensures GapNumbers(gaps + [g]) == GapNumbers(gaps) + Interval(g.first, g.last)
  {
    assert (gaps + [g])[..|gaps|] == gaps;
  }

  lemma ReportsPast(numbers: set<int>, highest: int, gaps: seq<Gap>, x: int, y: int)
    requires ReportsUpTo(numbers, highest, gaps, x)
    requires x <= y && forall n | x < n <= y :: n in numbers
    ensures ReportsUpTo(numbers, highest, gaps, y)
  {
    assert Missing(numbers, x) == Missing(numbers, y);
  }

  lemma {:induction false} GapLengthsCount(gaps: seq<Gap>)
    requires AscendingGaps(gaps)
    ensures GapLengths(gaps) == |GapNumbers(gaps)|
    ensures forall n | n in GapNumbers(gaps) :: n <= gaps[|gaps| - 1].last
  {
    if gaps != [] {
      var front, g := gaps[..|gaps| - 1], gaps[|gaps| - 1];
      GapLengthsCount(front);
      assert front != [] ==> front[|front| - 1] == gaps[|gaps| - 2];
      assert GapNumbers(front) !! Interval(g.first, g.last);
    }
  }

  /** The number after the last row read so far. */
  ghost function NextExpected(rows: Ranges, starts: seq<int>, i: nat): int
  {
    if 0 < i <= |starts| && starts[i - 1] in rows then rows[starts[i - 1]] + 1 else 1
  }

  /** Between two consecutive rows nothing was received. */
  lemma BetweenRows(rows: Ranges, numbers: set<int>, starts: seq<int>, i: nat)
    requires Represents(rows, numbers) && Ascending(starts, IntLess)
    requires (forall s :: s in starts <==> s in rows) && i <= |starts|
    ensures var expected := NextExpected(rows, starts, i);
            && (i > 0 ==> expected - 1 in numbers)
            && (i < |starts| ==> expected <= starts[i] <= rows[starts[i]]
                                 && (forall n | starts[i] <= n <= rows[starts[i]] :: n in numbers))
            && (forall n | n in numbers && n >= expected :: i < |starts| && n >= starts[i])
  {
    var expected := NextExpected(rows, starts, i);
    if i > 0 {
      assert InRow(rows, starts[i - 1], expected - 1) && Covers(rows, expected - 1);
      assert i < |starts| ==> IntLess(starts[i - 1], starts[i]);
    }
    if i < |starts| {
      assert starts[i] in starts;
      forall n | starts[i] <= n <= rows[starts[i]] ensures n in numbers {
        assert InRow(rows, starts[i], n) && Covers(rows, n);
      }
    }
    forall n | n in numbers && n >= expected ensures i < |starts| && n >= starts[i] {
      var s :| s in rows && InRow(rows, s, n);
      var j :| 0 <= j < |starts| && starts[j] == s;
      assert j < i - 1 ==> IntLess(starts[j], starts[i - 1]);
      assert i < j ==> IntLess(starts[i], starts[j]);
    }
  }

  /** The first ten maximal missing runs of 1..highest, or all of them when there are fewer. */
  method Gaps(rows: Ranges, highest: nat, ghost numbers: set<int>) returns (gaps: seq<Gap>)
    requires Represents(rows, numbers) && numbers <= Interval(1, highest)
    ensures |gaps| <= 10
    ensures ReportsUpTo(numbers, highest, gaps, if |gaps| < 10 then highest else gaps[|gaps| - 1].last)
    ensures |gaps| < 10 ==> GapLengths(gaps) == |Missing(numbers, highest)|
  {
    hide Represents, TotalOrder, Ascending, Sort, Interval, Missing, ReportsUpTo;
    IntOrder();
    assert ReportsUpTo(numbers, highest, [], 0) by {
      NothingToReport(numbers, highest);
    }
    gaps := [];
    var expected := 1;
    var starts := Sort(rows.Keys, IntLess);
    for i := 0 to |starts|
      invariant |gaps| < MAX_REPORTED_GAPS
      invariant expected == NextExpected(rows, starts, i) >= 1
      invariant ReportsUpTo(numbers, highest, gaps, expected - 1)
    {
      BetweenRows(rows, numbers, starts, i);
      var start := starts[i];
      assert start in numbers && start <= highest;
      if start > expected {
        ReportsNext(numbers, highest, gaps, Gap(expected, start - 1));
        gaps := gaps + [Gap(expected, start - 1)];
        if |gaps| >= MAX_REPORTED_GAPS {
          return;
        }
      }
      ReportsPast(numbers, highest, gaps, start - 1, rows[start]);
      expected := if expected >= rows[start] + 1 then expected else rows[start] + 1;
    }
    BetweenRows(rows, numbers, starts, |starts|);
    if highest >= expected && |gaps| < MAX_REPORTED_GAPS {
      ReportsNext(numbers, highest, gaps, Gap(expected, highest));
      gaps := gaps + [Gap(expected, highest)];
    }
    AllReported(numbers, highest, gaps);
  }

  lemma NothingToReport(numbers: set<int>, highest: int)
    ensures ReportsUpTo(numbers, highest, [], 0)
  {
    assert Missing(numbers, 0) == {};
  }

  lemma AllReported(numbers: set<int>, highest: int, gaps: seq<Gap>)
    requires ReportsUpTo(numbers, highest, gaps, highest)
    ensures GapLengths(gaps) == |Missing(numbers, highest)|
  {
    GapLengthsCount(gaps);
  }

  // ----- the summary of every sensor

  datatype Counts = Counts(received: nat, missing: nat, duplicates: nat) {
    function Plus(other: Counts): Counts {
      Counts(received + other.received, missing + other.missing, duplicates + other.duplicates)
    }
  }

  function CountsOf(row: StreamRow): Counts {
    Counts(row.receivedCount, row.Missing(), row.duplicateCount)
  }

  datatype CurrentStream = CurrentStream(
    streamId: string, firstSeenAt: int, lastSeenAt: int, highest: nat, counts: Counts, missingRanges: seq<Gap>)

  datatype SensorState = GapsDetected | Complete

  datatype SensorSummary = SensorSummary(
    streams: nat, counts: Counts, detailTruncated: bool, current: CurrentStream, state: SensorState)

  function Labelled(item: SensorSummary): SensorSummary {
    item.(state := if item.counts.missing > 0 then GapsDetected else Complete)
  }

  function LabelAll(summary: map<string, SensorSummary>): map<string, SensorSummary> {
    map sensorId | sensorId in summary :: Labelled(summary[sensorId])
  }

  /** A sensor's entry after one more stream. */
  function Extended(item: SensorSummary, row: StreamRow): SensorSummary {
    item.(streams := item.streams + 1,
          counts := item.counts.Plus(CountsOf(row)),
          detailTruncated := item.detailTruncated || row.detailTruncated)
  }

  ghost function TotalCounts(rows: map<StreamKey, StreamRow>, ks: set<StreamKey>): Counts
    requires ks <= rows.Keys
    decreases |ks|
  {
    if ks == {} then
      Counts(0, 0, 0)
    else
      var k :| k in ks;
      CountsOf(rows[k]).Plus(TotalCounts(rows, ks - {k}))
  }

  lemma TotalCountsPick(rows: map<StreamKey, StreamRow>, ks: set<StreamKey>) returns (k: StreamKey)
    requires ks <= rows.Keys && ks != {}
    ensures k in ks && TotalCounts(rows, ks) == CountsOf(rows[k]).Plus(TotalCounts(rows, ks - {k}))
  {
    k :| k in ks && TotalCounts(rows, ks) == CountsOf(rows[k]).Plus(TotalCounts(rows, ks - {k}));
  }

  /** The totals are sums: zero over no stream, and every further stream adds its own counters. */
  lemma TotalsAreSums(rows: map<StreamKey, StreamRow>, ks: set<StreamKey>, k: StreamKey)
    requires ks <= rows.Keys && k in rows && k !in ks
    ensures TotalCounts(rows, {}) == Counts(0, 0, 0)
    ensures var before, after := TotalCounts(rows, ks), TotalCounts(rows, ks + {k});
            && after.received == before.received + rows[k].receivedCount
            && after.missing == before.missing + rows[k].Missing()
            && after.duplicates == before.duplicates + rows[k].duplicateCount
  {
    TotalCountsInsert(rows, ks, k);
  }

  lemma {:induction false} TotalCountsInsert(rows: map<StreamKey, StreamRow>, ks: set<StreamKey>, k: StreamKey)
    requires ks <= rows.Keys && k in rows && k !in ks
    ensures TotalCounts(rows, ks + {k}) == TotalCounts(rows, ks).Plus(CountsOf(rows[k]))
    decreases |ks|
  {
    hide TotalCounts;
    var all := ks + {k};
    var j := TotalCountsPick(rows, all);
    if j == k {
      assert all - {k} == ks;
    } else {
      assert all - {j} == ks - {j} + {k};
      TotalCountsInsert(rows, ks - {j}, k);
      TotalCountsInsert(rows, ks - {j}, j);
      assert ks - {j} + {j} == ks;
      var rest := TotalCounts(rows, ks - {j});
      assert TotalCounts(rows, ks) == rest.Plus(CountsOf(rows[j]));
      assert TotalCounts(rows, all) == CountsOf(rows[j]).Plus(rest.Plus(CountsOf(rows[k])));
    }
  }

  /** A stream with its sensor: the rank of a row in the summary query. */
  datatype Rank = Rank(sensorId: string, seen: Key)

  /** Grouped by sensor, newest stream first; the query's NOCASE folding only permutes whole sensors. */
  predicate RankLess(a: Rank, b: Rank) {
    StringLess(a.sensorId, b.sensorId) || (a.sensorId == b.sensorId && KeyGreater(a.seen, b.seen))
  }

  lemma RankLessTransitive(a: Rank, b: Rank, c: Rank)
    requires RankLess(a, b) && RankLess(b, c)
    ensures RankLess(a, c)
  {
    StringLessIrreflexive(a.sensorId);
    if a.sensorId == b.sensorId == c.sensorId {
      KeyLessTransitive(c.seen, b.seen, a.seen);
    } else if a.sensorId != b.sensorId && b.sensorId != c.sensorId {
      StringLessTransitive(a.sensorId, b.sensorId, c.sensorId);
    }
  }

  lemma RankOrder()
    ensures TotalOrder(RankLess)
  {
    forall a: Rank ensures !RankLess(a, a) {
      StringLessIrreflexive(a.sensorId);
      KeyLessIrreflexive(a.seen);
    }
    forall a: Rank, b: Rank | a != b ensures RankLess(a, b) || RankLess(b, a) {
      if a.sensorId != b.sensorId {
        StringLessConnected(a.sensorId, b.sensorId);
      } else {
        KeyLessConnected(a.seen, b.seen);
      }
    }
    forall a: Rank, b: Rank, c: Rank | RankLess(a, b) && RankLess(b, c) ensures RankLess(a, c) {
      RankLessTransitive(a, b, c);
    }
  }

  function Ranks(rows: map<StreamKey, StreamRow>): set<Rank> {
    set k | k in rows :: Rank(k.sensorId, SeenAt(rows, k))
  }

  /** item says of the streams ks, all of one sensor, what the operations view promises. */
  ghost predicate Summarises(t: Tables, item: SensorSummary, sensorId: string, ks: set<StreamKey>)
    requires Aligned(t)
  {
    var newest := StreamKey(sensorId, item.current.streamId);
    && ks <= t.rows.Keys
    && item.streams == |ks|
    && item.counts == TotalCounts(t.rows, ks)
    && (item.detailTruncated <==> exists k :: k in ks && t.rows[k].detailTruncated)
    && newest in ks
    && (forall k | k in ks && k != newest :: KeyLess(SeenAt(t.rows, k), SeenAt(t.rows, newest)))
    && DescribesStream(StreamOf(t, newest), item.current)
  }

  lemma SummaryStarts(t: Tables, item: SensorSummary, k: StreamKey)
    requires Aligned(t) && k in t.rows
    requires item.streams == 1 && item.counts == CountsOf(t.rows[k])
    requires item.detailTruncated == t.rows[k].detailTruncated
    requires item.current.streamId == k.streamId && DescribesStream(StreamOf(t, k), item.current)
    ensures Summarises(t, item, k.sensorId, {k})
  {
    hide DescribesStream;
    TotalCountsInsert(t.rows, {}, k);
    assert {} + {k} == {k};
  }

  lemma SummaryGrows(t: Tables, item: SensorSummary, k: StreamKey, ks: set<StreamKey>)
    requires Aligned(t) && k in t.rows && k !in ks
    requires Summarises(t, item, k.sensorId, ks)
    requires forall j | j in ks :: KeyLess(SeenAt(t.rows, k), SeenAt(t.rows, j))
    ensures Summarises(t, Extended(item, t.rows[k]), k.sensorId, ks + {k})
  {
    hide DescribesStream;
    TotalCountsInsert(t.rows, ks, k);
  }

  lemma SummaryLabelled(t: Tables, item: SensorSummary, sensorId: string, ks: set<StreamKey>, state: SensorState)
    requires Aligned(t) && Summarises(t, item, sensorId, ks)
    ensures Summarises(t, item.(state := state), sensorId, ks)
  {
  }

  lemma ReadyForGaps(t: Tables, ranges: map<StreamKey, Ranges>, k: StreamKey)
    requires Sound(t) && Stores(ranges, t) && k in t.rows
    ensures Represents(RowsOf(ranges, k), t.numbers[k])
    ensures t.numbers[k] <= Interval(1, t.rows[k].Highest())
  {
    assert SoundStream(StreamOf(t, k));
  }

  /** The streams of one sensor among the first i rows of the query. */
  ghost function SummarisedSoFar(rows: map<StreamKey, StreamRow>, order: seq<Rank>, i: nat,
                                 sensorId: string): set<StreamKey>
    requires i <= |order|
  {
    set k | k in rows && k.sensorId == sensorId && Rank(sensorId, SeenAt(rows, k)) in order[..i]
  }

  lemma NextRow(rows: map<StreamKey, StreamRow>, order: seq<Rank>, i: nat) returns (k: StreamKey)
    requires i < |order| && TotalOrder(RankLess) && Ascending(order, RankLess)
    requires forall x :: x in order <==> x in Ranks(rows)
    ensures k == StreamKey(order[i].sensorId, order[i].seen.id) && k in rows
    ensures k !in SummarisedSoFar(rows, order, i, k.sensorId)
    ensures SummarisedSoFar(rows, order, i + 1, k.sensorId) == SummarisedSoFar(rows, order, i, k.sensorId) + {k}
    ensures forall s | s != k.sensorId :: SummarisedSoFar(rows, order, i + 1, s) == SummarisedSoFar(rows, order, i, s)
    ensures forall j | j in SummarisedSoFar(rows, order, i, k.sensorId) :: KeyLess(SeenAt(rows, k), SeenAt(rows, j))
  {
    hide TotalOrder;
    assert order[i] in order;
    k :| k in rows && Rank(k.sensorId, SeenAt(rows, k)) == order[i];
    assert order[..i + 1] == order[..i] + [order[i]];
    forall j | j in SummarisedSoFar(rows, order, i, k.sensorId) ensures KeyLess(SeenAt(rows, k), SeenAt(rows, j)) {
      var m :| 0 <= m < i && order[m] == Rank(k.sensorId, SeenAt(rows, j));
      assert RankLess(order[m], order[i]);
      StringLessIrreflexive(k.sensorId);
    }
    KeyLessIrreflexive(SeenAt(rows, k));
  }

  /** The summary covers exactly the sensors among the first i rows, and each correctly. */
  ghost predicate SummarisesAll(t: Tables, summary: map<string, SensorSummary>, order: seq<Rank>, i: nat)
    requires Aligned(t) && i <= |order|
  {
    && (forall s :: s in summary <==> SummarisedSoFar(t.rows, order, i, s) != {})
    && (forall s | s in summary :: Summarises(t, summary[s], s, SummarisedSoFar(t.rows, order, i, s)))
  }

  ghost predicate IsQueryOrder(rows: map<StreamKey, StreamRow>, order: seq<Rank>) {
    TotalOrder(RankLess) && Ascending(order, RankLess) && forall x :: x in order <==> x in Ranks(rows)
  }

  lemma QueryStarts(t: Tables, order: seq<Rank>)
    requires Aligned(t) && TotalOrder(RankLess) && Ascending(order, RankLess)
    requires forall x :: x in order <==> x in Ranks(t.rows)
    ensures IsQueryOrder(t.rows, order) && SummarisesAll(t, map[], order, 0)
  {
    hide TotalOrder, Ascending;
  }

  /** The row the loop reads next: a stored stream, not summarised yet, older than its sensor's earlier rows. */
  lemma RowToSummarise(t: Tables, summary: map<string, SensorSummary>, order: seq<Rank>, i: nat)
    requires Aligned(t) && i < |order| && IsQueryOrder(t.rows, order) && SummarisesAll(t, summary, order, i)
    ensures var k := StreamKey(order[i].sensorId, order[i].seen.id);
            var ks := SummarisedSoFar(t.rows, order, i, k.sensorId);
            && k in t.rows && k !in ks
            && SummarisedSoFar(t.rows, order, i + 1, k.sensorId) == ks + {k}
            && (k.sensorId in summary <==> ks != {})
            && (k.sensorId in summary ==> Summarises(t, summary[k.sensorId], k.sensorId, ks))
            && (forall j | j in ks :: KeyLess(SeenAt(t.rows, k), SeenAt(t.rows, j)))
  {
    hide TotalOrder, Ascending, Summarises;
    var k := NextRow(t.rows, order, i);
  }

  lemma SummaryAdvances(t: Tables, summary: map<string, SensorSummary>, order: seq<Rank>, i: nat, item: SensorSummary)
    requires Aligned(t) && i < |order| && IsQueryOrder(t.rows, order)
    requires SummarisesAll(t, summary, order, i)
    requires Summarises(t, item, order[i].sensorId, SummarisedSoFar(t.rows, order, i + 1, order[i].sensorId))
    ensures SummarisesAll(t, summary[order[i].sensorId := item], order, i + 1)
  {
    hide TotalOrder, Ascending, Summarises, KeyLess;
    var k := NextRow(t.rows, order, i);
  }

  /** Every stored sensor is summarised over all its streams, and flagged exactly when something is missing. */
  ghost predicate IsSummary(t: Tables, summary: map<string, SensorSummary>)
    requires Aligned(t)
  {
    && (forall s :: s in summary <==> SensorStreams(t.rows, s) != {})
    && (forall s | s in summary ::
          && Summarises(t, summary[s], s, SensorStreams(t.rows, s))
          && (summary[s].state == GapsDetected <==> summary[s].counts.missing > 0))
  }

  lemma SummaryComplete(t: Tables, summary: map<string, SensorSummary>, order: seq<Rank>)
    requires Aligned(t) && IsQueryOrder(t.rows, order) && SummarisesAll(t, summary, order, |order|)
    ensures IsSummary(t, LabelAll(summary))
  {
    hide TotalOrder, Ascending, Summarises;
    assert order[..|order|] == order;
    forall s ensures SummarisedSoFar(t.rows, order, |order|, s) == SensorStreams(t.rows, s) {
    }
    forall s | s in summary ensures Summarises(t, Labelled(summary[s]), s, SensorStreams(t.rows, s)) {
      SummaryLabelled(t, summary[s], s, SensorStreams(t.rows, s), Labelled(summary[s]).state);
    }
  }

  ghost predicate DescribesStream(s: Stream, c: CurrentStream) {
    && c.firstSeenAt == s.row.firstSeenAt && c.lastSeenAt == s.row.lastSeenAt
    && c.highest == s.row.Highest() && c.counts == CountsOf(s.row)
    && |c.missingRanges| <= MAX_REPORTED_GAPS
    && ReportsUpTo(s.numbers, c.highest, c.missingRanges,
                   if |c.missingRanges| < MAX_REPORTED_GAPS then c.highest
                   else c.missingRanges[|c.missingRanges| - 1].last)
  }

  class SequenceStore {
    var streams: map<StreamKey, StreamRow>
    var ranges: map<StreamKey, Ranges>
    ghost var numbers: map<StreamKey, set<int>>

    constructor ()
      ensures Valid() && Contents() == Tables(map[], map[])
    {
      streams, ranges, numbers := map[], map[], map[];
      new;
      forall sensorId ensures |SensorStreams(streams, sensorId)| <= MAX_STREAMS_PER_SENSOR {
        assert SensorStreams(streams, sensorId) == {};
      }
    }

    ghost function Contents(): Tables
      reads this
    {
      Tables(streams, numbers)
    }

    ghost predicate Valid()
      reads this
    {
      Sound(Contents()) && Stores(ranges, Contents())
    }

    /** Deletes the range rows and the stream row of each stale stream in turn. */
    method DeleteStreams(sensorId: string, stale: seq<Key>)
      requires ranges.Keys <= streams.Keys
      requires forall x | x in stale :: x in SeenTimes(streams, SensorStreams(streams, sensorId))
      modifies `streams, `ranges
      ensures streams == Without(old(streams), old(streams), sensorId, stale)
      ensures ranges == Without(old(ranges), old(streams), sensorId, stale)
    {
      ghost var rows := streams;
      for i := 0 to |stale|
        invariant streams == Without(rows, rows, sensorId, stale[..i])
        invariant ranges == Without(old(ranges), rows, sensorId, stale[..i])
      {
        WithoutOneMore(rows, rows, sensorId, stale[..i], stale[i]);
        WithoutOneMore(old(ranges), rows, sensorId, stale[..i], stale[i]);
        assert stale[..i + 1] == stale[..i] + [stale[i]];
        ranges := ranges - {StreamKey(sensorId, stale[i].id)};
        streams := streams - {StreamKey(sensorId, stale[i].id)};
      }
      assert stale[..|stale|] == stale;
    }

    method EnsureStream(k: StreamKey, now: int)
      requires Valid()
      modifies this
      ensures Valid()
      ensures Contents() == Ensured(old(Contents()), k, now)
    {
      ghost var before := Contents();
      WithoutStale(before, k, now);
      EvictionStores(before, ranges, k, now);
      EnsuredIsSound(before, k, now);
      streams := TouchedRows(streams, k, now);
      var stale := StaleTimes(streams, k.sensorId);
      DeleteStreams(k.sensorId, stale);
      numbers := Ensured(before, k, now).numbers;
    }

    /** The whole transaction of one event: a violated foreign key restores both tables. */
    method RecordEventSequence(k: StreamKey, number: nat, now: int) returns (result: RecordResult)
      requires Valid() && 1 <= number <= MAX_SEQUENCE
      modifies this
      ensures Valid()
      ensures match RecordedIn(old(Contents()), k, number, now)
              case None => result == ForeignKeyViolation && Contents() == old(Contents()) && ranges == old(ranges)
              case Some((tables, outcome)) => result == Stored(outcome) && Contents() == tables
    {
      hide Ensured, SoundStream, Stores, Covers, Represents, RunCount, SensorStreams, Overflows;
      var savedStreams, savedRanges := streams, ranges;
      EnsureStream(k, now);
      ghost var touched := Contents();
      var rows := RowsOf(ranges, k);
      RowsHoldNumbers(touched, ranges, k);
      if Covers(rows, number) {
        RecordedIsSound(StreamOf(touched, k), number);
        CountersUpdated(touched, ranges, k, Recorded(StreamOf(touched, k), number));
        streams := streams[k := streams[k].(duplicateCount := streams[k].duplicateCount + 1)];
        assert Contents() == WithStream(touched, k, Recorded(StreamOf(touched, k), number));
        return Stored(Duplicate);
      }
      ghost var held := if k in streams then numbers[k] else {};
      OverflowsExactly(held, number);
      var updated, outcome := AddNumber(rows, number, held);
      if k !in streams {
        // The only statement left for an evicted stream is the INSERT of its first range.
        streams, ranges, numbers := savedStreams, savedRanges, old(numbers);
        return ForeignKeyViolation;
      }
      RecordedIsSound(StreamOf(touched, k), number);
      StreamUpdated(touched, ranges, k, Recorded(StreamOf(touched, k), number), updated);
      ranges := ranges[k := updated];
      numbers := numbers[k := Recorded(StreamOf(touched, k), number).numbers];
      var row := streams[k];
      streams := streams[k := row.(
        receivedCount := row.receivedCount + 1,
        maxReceived := if row.maxReceived >= number then row.maxReceived else number,
        detailTruncated := row.detailTruncated || outcome == Untracked)];
      assert Contents() == WithStream(touched, k, Recorded(StreamOf(touched, k), number));
      result := Stored(outcome);
    }

    method RecordHeartbeatSequence(k: StreamKey, lastSequence: nat, now: int)
      requires Valid() && lastSequence <= MAX_SEQUENCE
      modifies this
      ensures Valid()
      ensures Contents() == ReportedIn(old(Contents()), k, lastSequence, now)
    {
      hide Ensured, SoundStream, Represents, RunCount;
      EnsureStream(k, now);
      ghost var touched := Contents();
      if k in streams {
        ReportedIsSound(StreamOf(touched, k), lastSequence);
        CountersUpdated(touched, ranges, k, Reported(StreamOf(touched, k), lastSequence));
        var row := streams[k];
        streams := streams[k := row.(
          maxReported := if row.maxReported >= lastSequence then row.maxReported else lastSequence)];
        assert Contents() == WithStream(touched, k, Reported(StreamOf(touched, k), lastSequence));
      }
    }

    /** The entry of a sensor's newest stream. */
    method FirstSummary(k: StreamKey) returns (item: SensorSummary)
      requires Valid() && k in streams
      ensures Summarises(Contents(), item, k.sensorId, {k})
    {
      hide Sound, Stores, Represents, ReportsUpTo, Interval, Summarises;
      ghost var t := Contents();
      SoundIsAligned(t);
      ReadyForGaps(t, ranges, k);
      var row := streams[k];
      var gaps := Gaps(RowsOf(ranges, k), row.Highest(), numbers[k]);
      item := SensorSummary(
        1, CountsOf(row), row.detailTruncated,
        CurrentStream(k.streamId, row.firstSeenAt, row.lastSeenAt, row.Highest(), CountsOf(row), gaps),
        Complete);
      SummaryStarts(t, item, k);
    }

    /** Per-sensor gap accounting: reads the tables, changes nothing. */
    method SequenceSummary() returns (summary: map<string, SensorSummary>)
      requires Valid()
      ensures IsSummary(Contents(), summary)
    {
      hide Sound, TotalOrder, Ascending, Sort, Stores, Summarises, SummarisesAll, IsQueryOrder, SummarisedSoFar,
        SensorStreams, KeyLess;
      ghost var t := Contents();
      SoundIsAligned(t);
      RankOrder();
      summary := map[];
      var order := Sort(Ranks(streams), RankLess);
      QueryStarts(t, order);
      for i := 0 to |order|
        invariant SummarisesAll(t, summary, order, i)
      {
        ghost var ks := SummarisedSoFar(streams, order, i, order[i].sensorId);
        RowToSummarise(t, summary, order, i);
        var k := StreamKey(order[i].sensorId, order[i].seen.id);
        var item;
        if k.sensorId in summary {
          SummaryGrows(t, summary[k.sensorId], k, ks);
          item := Extended(summary[k.sensorId], streams[k]);
        } else {
          item := FirstSummary(k);
          assert ks + {k} == {k};
        }
        assert Summarises(t, item, k.sensorId, ks + {k});
        SummaryAdvances(t, summary, order, i, item);
        summary := summary[k.sensorId := item];
      }
      SummaryComplete(t, summary, order);
      summary := LabelAll(summary);
    }
  }
}
