/** What a whole history of received numbers leaves in one stream, whatever the order of arrival. */
module SequenceRuns {
  import opened Ranges
  import opened SensorSequence

  ghost function Fresh(now: int): Stream {
    Stream({}, StreamRow(now, now, 0, 0, 0, 0, false))
  }

  /** The stream after receiving the numbers in turn. */
  ghost function After(s: Stream, ns: seq<nat>): Stream {
    if ns == [] then s else Recorded(After(s, ns[..|ns| - 1]), ns[|ns| - 1])
  }

  /** The answer given to the i-th number. */
  ghost function OutcomeAt(s: Stream, ns: seq<nat>, i: nat): Outcome
    requires i < |ns|
  {
    OutcomeOf(After(s, ns[..i]), ns[i])
  }

  ghost predicate InRange(ns: seq<nat>) {
    forall i | 0 <= i < |ns| :: 1 <= ns[i] <= MAX_SEQUENCE
  }

  ghost function Elements(ns: seq<nat>): set<int> {
    set i | 0 <= i < |ns| :: ns[i]
  }

  ghost function Stored(s: Stream, ns: seq<nat>): set<int> {
    set i | 0 <= i < |ns| && OutcomeAt(s, ns, i) == Received :: ns[i]
  }

  ghost predicate NoneUntracked(s: Stream, ns: seq<nat>) {
    forall i | 0 <= i < |ns| :: OutcomeAt(s, ns, i) != Untracked
  }

  lemma {:induction false} PrefixOutcomes(s: Stream, ns: seq<nat>)
    requires ns != []
    ensures var front := ns[..|ns| - 1];
            && Elements(ns) == Elements(front) + {ns[|ns| - 1]}
            && (forall i | 0 <= i < |front| :: OutcomeAt(s, front, i) == OutcomeAt(s, ns, i))
            && Stored(s, ns) == Stored(s, front) + (if OutcomeAt(s, ns, |front|) == Received then {ns[|front|]} else {})
            && (NoneUntracked(s, ns) <==> NoneUntracked(s, front) && OutcomeAt(s, ns, |front|) != Untracked)
  {
    var front := ns[..|ns| - 1];
    forall i | 0 <= i < |front| ensures OutcomeAt(s, front, i) == OutcomeAt(s, ns, i) {
      assert front[..i] == ns[..i];
    }
    assert ns == front + [ns[|front|]];
  }

  /** A stream against its history: what was received, what of it was stored, and how many numbers came in all. */
  ghost predicate History(s: Stream, stored: set<int>, received: set<int>, arrivals: nat) {
    && SoundStream(s)
    && s.numbers == stored <= received <= Interval(1, s.row.maxReceived)
    && (if arrivals == 0 then s.row.maxReceived == 0 else s.row.maxReceived in received)
    && s.row.receivedCount + s.row.duplicateCount == arrivals
    && |received| <= s.row.receivedCount
    && (!s.row.detailTruncated ==> stored == received)
  }

  lemma HistoryGrows(s: Stream, stored: set<int>, received: set<int>, arrivals: nat, n: nat)
    requires History(s, stored, received, arrivals) && 1 <= n <= MAX_SEQUENCE
    ensures History(
              Recorded(s, n),
              stored + if OutcomeOf(s, n) == Received then {n} else {},
              received + {n},
              arrivals + 1)
    ensures Recorded(s, n).row.detailTruncated <==> s.row.detailTruncated || OutcomeOf(s, n) == Untracked
  {
    hide SoundStream, Overflows, Interval;
    RecordedIsSound(s, n);
    var next := Recorded(s, n);
    assert stored + {} == stored;
    assert n in received ==> received + {n} == received;
    assert received + {n} <= Interval(1, next.row.maxReceived);
  }

  lemma NoHistory(now: int)
    ensures History(Fresh(now), {}, {}, 0)
    ensures Stored(Fresh(now), []) == Elements([]) == {} && NoneUntracked(Fresh(now), [])
  {
    assert RunStarts({}) == {};
  }

  /** Every run of record_event_sequence on a new stream, from its numbers to its row. */
  lemma {:induction false} RunCharacterised(now: int, ns: seq<nat>)
    requires InRange(ns)
    ensures History(After(Fresh(now), ns), Stored(Fresh(now), ns), Elements(ns), |ns|)
    ensures After(Fresh(now), ns).row.detailTruncated <==> !NoneUntracked(Fresh(now), ns)
    ensures var row := After(Fresh(now), ns).row;
            row.maxReported == 0 && row.firstSeenAt == row.lastSeenAt == now
  {
    hide History, Stored, Elements, NoneUntracked;
    if ns == [] {
      NoHistory(now);
    } else {
      var front, n := ns[..|ns| - 1], ns[|ns| - 1];
      RunCharacterised(now, front);
      PrefixOutcomes(Fresh(now), ns);
      HistoryGrows(After(Fresh(now), front), Stored(Fresh(now), front), Elements(front), |front|, n);
    }
  }

  /** Every answer of a run, by the numbers stored before it: a new run of numbers needs fewer than 256 stored ones. */
  lemma AnswersExactly(now: int, ns: seq<nat>, i: nat)
    requires InRange(ns) && i < |ns|
    ensures var n, stored := ns[i], Stored(Fresh(now), ns[..i]);
            var neighboured := n - 1 in stored || n + 1 in stored;
            match OutcomeAt(Fresh(now), ns, i)
            case Duplicate => n in stored
            case Received => n !in stored && (neighboured || RunCount(stored) < 256)
            case Untracked => n !in stored && !neighboured && RunCount(stored) == 256
  {
    hide Stored, RunCount, SoundStream, Interval;
    RunCharacterised(now, ns[..i]);
    OutcomeExactly(After(Fresh(now), ns[..i]), ns[i]);
  }

  /** Received numbers once made more than 256 runs. */
  ghost predicate Crowded(ns: seq<nat>) {
    exists i :: 0 <= i <= |ns| && RunCount(Elements(ns[..i])) > 256
  }

  /** Detail is lost exactly when the received numbers, stored or not, make more than 256 runs at some time. */
  lemma {:induction false} TruncatedExactly(now: int, ns: seq<nat>)
    requires InRange(ns)
    ensures After(Fresh(now), ns).row.detailTruncated <==> Crowded(ns)
  {
    hide Stored, RunCount, SoundStream, Interval, Elements, OutcomeOf, Recorded;
    if ns == [] {
      NeverCrowded();
    } else {
      var front, n := ns[..|ns| - 1], ns[|ns| - 1];
      TruncatedExactly(now, front);
      RunCharacterised(now, front);
      RunCharacterised(now, ns);
      CrowdedNext(ns);
      PrefixOutcomes(Fresh(now), ns);
      var s := After(Fresh(now), front);
      HistoryGrows(s, Stored(Fresh(now), front), Elements(front), |front|, n);
      if !Crowded(front) {
        TruncatesNow(s, n);
        HistoryStored(s, Stored(Fresh(now), front), Elements(front), |front|);
      }
    }
  }

  lemma NeverCrowded()
    ensures !Crowded([])
  {
    assert RunStarts(Elements([])) == {};
  }

  lemma CrowdedNext(ns: seq<nat>)
    requires ns != []
    ensures Crowded(ns) <==> Crowded(ns[..|ns| - 1]) || RunCount(Elements(ns)) > 256
  {
    hide RunCount, Elements;
    var front := ns[..|ns| - 1];
    assert ns[..|ns|] == ns && forall i | 0 <= i <= |front| :: ns[..i] == front[..i];
  }

  /** A stream is full for a number exactly when that number would be its 257th run. */
  lemma TruncatesNow(s: Stream, n: int)
    requires SoundStream(s)
    ensures OutcomeOf(s, n) == Untracked <==> RunCount(s.numbers + {n}) > 256
  {
    OutcomeExactly(s, n);
    if n in s.numbers {
      assert s.numbers + {n} == s.numbers;
    } else {
      RunCountAfterInsert(s.numbers, n);
    }
  }

  /** 1, 3, 5 and so on. */
  function OddNumbers(count: nat): (ns: seq<nat>)
    ensures |ns| == count
  {
    seq(count, i requires 0 <= i => 2 * i + 1)
  }

  lemma OddElements(count: nat)
    ensures forall n :: n in Elements(OddNumbers(count)) <==> 1 <= n < 2 * count && n % 2 == 1
  {
    forall n | 1 <= n < 2 * count && n % 2 == 1 ensures n in Elements(OddNumbers(count)) {
      assert OddNumbers(count)[n / 2] == n;
    }
  }

  lemma {:induction false} OddRuns(count: nat)
    ensures RunCount(Elements(OddNumbers(count))) == count
  {
    hide Elements;
    OddElements(count);
    if count == 0 {
      assert RunStarts(Elements(OddNumbers(0))) == {};
    } else {
      OddRuns(count - 1);
      OddElements(count - 1);
      var before, last := Elements(OddNumbers(count - 1)), 2 * count - 1;
      forall n ensures n in Elements(OddNumbers(count)) <==> n in before || n == last {
        assert n % 2 == 1 && n < 2 * count ==> n <= last;
        assert last % 2 == 1 && (n % 2 == 1 && n < last ==> n < last - 1);
      }
      assert Elements(OddNumbers(count)) == before + {last};
      RunCountAfterInsert(before, last);
    }
  }

  /** With every second number lost, the first 256 are stored and the next one is not. */
  lemma RoomForRuns(now: int)
    ensures forall i | 0 <= i < 256 :: OutcomeAt(Fresh(now), OddNumbers(257), i) == Received
    ensures OutcomeAt(Fresh(now), OddNumbers(257), 256) == Untracked
  {
    forall i | 0 <= i < 257
      ensures OutcomeAt(Fresh(now), OddNumbers(257), i) == if i < 256 then Received else Untracked
    {
      OddAnswer(now, i);
    }
  }

  lemma OddAnswer(now: int, i: nat)
    requires i <= 256
    ensures OutcomeAt(Fresh(now), OddNumbers(257), i) == if i < 256 then Received else Untracked
  {
    hide Stored, RunCount, SoundStream, Interval, Elements, History, OutcomeOf;
    var ns := OddNumbers(257);
    assert ns[..i] == OddNumbers(i);
    forall j | 0 <= j <= i ensures RunCount(Elements(ns[..i][..j])) <= 256 {
      assert ns[..i][..j] == OddNumbers(j);
      OddRuns(j);
    }
    OddRuns(i);
    OddElements(i);
    assert ns[i] == 2 * i + 1 && (ns[i] - 1) % 2 == 0;
    TruncatedExactly(now, ns[..i]);
    RunCharacterised(now, ns[..i]);
    HistoryStored(After(Fresh(now), ns[..i]), Stored(Fresh(now), ns[..i]), Elements(ns[..i]), i);
    AnswersExactly(now, ns, i);
  }

  lemma HistoryStored(s: Stream, stored: set<int>, received: set<int>, arrivals: nat)
    requires History(s, stored, received, arrivals) && !s.row.detailTruncated
    ensures stored == received
  {
  }

  /** The answer is "duplicate" exactly when an equal number was stored before; uncrowded, when one was received. */
  lemma DuplicateMeansReceivedBefore(now: int, ns: seq<nat>, i: nat)
    requires InRange(ns) && i < |ns|
    ensures OutcomeAt(Fresh(now), ns, i) == Duplicate
            <==> exists j :: 0 <= j < i && ns[j] == ns[i] && OutcomeAt(Fresh(now), ns, j) == Received
    ensures !Crowded(ns[..i]) ==> (OutcomeAt(Fresh(now), ns, i) == Duplicate <==> ns[i] in ns[..i])
  {
    hide SoundStream, Interval, Overflows, RunCount, Fresh, Crowded;
    RunCharacterised(now, ns[..i]);
    TruncatedExactly(now, ns[..i]);
    forall j | 0 <= j < i ensures OutcomeAt(Fresh(now), ns[..i], j) == OutcomeAt(Fresh(now), ns, j) {
      assert ns[..i][..j] == ns[..j];
    }
  }

  /** Arrival order does not matter while there are never more than 256 runs: counters, numbers and rows all agree. */
  lemma OrderIndependent(now: int, ms: seq<nat>, ns: seq<nat>, a: Ranges, b: Ranges)
    requires InRange(ms) && InRange(ns) && multiset(ms) == multiset(ns)
    requires !Crowded(ms) && !Crowded(ns)
    requires Represents(a, After(Fresh(now), ms).numbers) && Represents(b, After(Fresh(now), ns).numbers)
    ensures After(Fresh(now), ms) == After(Fresh(now), ns)
    ensures a == b
  {
    hide Overflows, RunCount, Interval, Represents, Stored, NoneUntracked, Crowded;
    RunCharacterised(now, ms);
    RunCharacterised(now, ns);
    TruncatedExactly(now, ms);
    TruncatedExactly(now, ns);
    assert Elements(ms) == Elements(ns) by {
      forall n: nat ensures n in ms <==> n in ns {
        assert n in multiset(ms) <==> n in multiset(ns);
      }
      assert forall i | 0 <= i < |ms| :: ms[i] in ns;
      assert forall i | 0 <= i < |ns| :: ns[i] in ms;
    }
    assert |ms| == |multiset(ms)| == |multiset(ns)| == |ns|;
    Canonical(a, b, Elements(ms));
  }

  /** What a stream stored, against everything it received. */
  ghost predicate Heard(s: Stream, received: set<int>) {
    && SoundStream(s)
    && received <= Interval(1, s.row.maxReceived) && |received| <= s.row.receivedCount
    && (!s.row.detailTruncated ==> s.numbers == received)
  }

  /** The reported loss is exact while untruncated, and never overstated. */
  lemma MissingIsHonest(s: Stream, received: set<int>)
    requires Heard(s, received)
    ensures s.row.Missing() <= |Missing(received, s.row.Highest())|
    ensures !s.row.detailTruncated ==> s.row.Missing() == |Missing(received, s.row.Highest())|
  {
    assert received <= Interval(1, s.row.Highest());
  }

  // ----- the sensor totals of the operations view

  ghost function LostOf(k: StreamKey, lost: set<int>): set<(StreamKey, int)> {
    set n | n in lost :: (k, n)
  }

  /** Every number of the given streams that was announced and never received. */
  ghost function Lost(t: Tables, received: map<StreamKey, set<int>>, ks: set<StreamKey>): set<(StreamKey, int)>
    requires Aligned(t) && ks <= t.rows.Keys && ks <= received.Keys
  {
    set k, n | k in ks && n in Missing(received[k], t.rows[k].Highest()) :: (k, n)
  }

  lemma LostOneMore(k: StreamKey, lost: set<int>, n: int)
    requires n !in lost
    ensures |LostOf(k, lost + {n})| == |LostOf(k, lost)| + 1
  {
    assert LostOf(k, lost + {n}) == LostOf(k, lost) + {(k, n)};
  }

  lemma {:induction false} LostOfCount(k: StreamKey, lost: set<int>, highest: int)
    requires lost <= Interval(1, highest)
    ensures |LostOf(k, lost)| == |lost|
    decreases highest
  {
    hide Interval;
    if highest < 1 {
      assert LostOf(k, lost) == {};
    } else {
      var rest := lost - {highest};
      LostOfCount(k, rest, highest - 1);
      if highest in lost {
        LostOneMore(k, rest, highest);
        assert rest + {highest} == lost;
      } else {
        assert rest == lost;
      }
    }
  }

  lemma StreamLost(s: Stream, k: StreamKey, received: set<int>)
    requires Heard(s, received)
    ensures var lost := LostOf(k, Missing(received, s.row.Highest()));
            s.row.Missing() <= |lost| && (!s.row.detailTruncated ==> s.row.Missing() == |lost|)
  {
    MissingIsHonest(s, received);
    LostOfCount(k, Missing(received, s.row.Highest()), s.row.Highest());
  }

  lemma NothingLost(t: Tables, received: map<StreamKey, set<int>>)
    requires Aligned(t)
    ensures TotalCounts(t.rows, {}).missing == 0 && Lost(t, received, {}) == {}
  {
  }

  /** The missing total of a summary counts lost numbers only, and all of them unless detail was truncated. */
  lemma {:induction false} TotalMissingIsHonest(t: Tables, received: map<StreamKey, set<int>>, ks: set<StreamKey>)
    requires Aligned(t) && ks <= t.rows.Keys && ks <= received.Keys
    requires forall k | k in ks :: Heard(StreamOf(t, k), received[k])
    ensures TotalCounts(t.rows, ks).missing <= |Lost(t, received, ks)|
    ensures (forall k | k in ks :: !t.rows[k].detailTruncated) ==>
              TotalCounts(t.rows, ks).missing == |Lost(t, received, ks)|
    decreases |ks|
  {
    hide Heard, Missing, TotalCounts;
    if k :| k in ks {
      var rest := ks - {k};
      TotalMissingIsHonest(t, received, rest);
      TotalCountsInsert(t.rows, rest, k);
      assert rest + {k} == ks;
      var lost := Missing(received[k], t.rows[k].Highest());
      StreamLost(StreamOf(t, k), k, received[k]);
      assert Lost(t, received, ks) == Lost(t, received, rest) + LostOf(k, lost);
      assert Lost(t, received, rest) !! LostOf(k, lost);
    } else {
      NothingLost(t, received);
      assert ks == {};
    }
  }
}
