/** Sets of positive numbers kept as rows of sensor_sequence_ranges: start_sequence -> end_sequence. */
module Ranges {
  import opened Ordering

  type Ranges = map<int, int>

  /** Rows are proper, pairwise disjoint and never adjacent. */
  ghost predicate WellFormed(r: Ranges) {
    && (forall s | s in r :: 1 <= s <= r[s])
    && (forall s, t | s in r && t in r && s < t :: r[s] + 1 < t)
  }

  function Interval(first: int, last: int): (s: set<int>)
    ensures forall n :: n in s <==> first <= n <= last
    ensures |s| == if first <= last then last - first + 1 else 0
    decreases last - first
  {
    if first > last then {} else Interval(first, last - 1) + {last}
  }

  /** The row starting at s holds n. */
  predicate InRow(r: Ranges, s: int, n: int) {
    s in r && s <= n <= r[s]
  }

  predicate Covers(r: Ranges, n: int) {
    exists s | s in r :: InRow(r, s, n)
  }

  /** Well-formed rows that stand for exactly the given plain set. */
  ghost predicate Represents(r: Ranges, numbers: set<int>) {
    WellFormed(r) && forall n :: n in numbers <==> Covers(r, n)
  }

  /** n begins a maximal run of the set. */
  ghost predicate IsStart(numbers: set<int>, n: int) {
    n in numbers && n - 1 !in numbers
  }

  /** Well-formed rows are the maximal runs: a row starts exactly where a run starts. */
  lemma RowsStartRuns(r: Ranges, numbers: set<int>, s: int)
    requires Represents(r, numbers)
    ensures s in r <==> IsStart(numbers, s)
  {
    if s in r {
      assert InRow(r, s, s) && Covers(r, s);
      assert forall t | t in r :: !InRow(r, t, s - 1);
    } else if Covers(r, s) {
      var t :| t in r && InRow(r, t, s);
      assert InRow(r, t, s - 1) && Covers(r, s - 1);
    }
  }

  ghost function RunStarts(numbers: set<int>): set<int> {
    set n {:trigger IsStart(numbers, n)} | n in numbers && IsStart(numbers, n)
  }

  /** How many maximal runs a set has. */
  ghost function RunCount(numbers: set<int>): nat {
    |RunStarts(numbers)|
  }

  ghost predicate Isolated(numbers: set<int>, n: int) {
    n !in numbers && n - 1 !in numbers && n + 1 !in numbers
  }

  /** A new number adds a run, touches one, or joins two. */
  lemma RunCountAfterInsert(numbers: set<int>, n: int)
    requires n !in numbers
    ensures RunCount(numbers + {n}) ==
            RunCount(numbers) +
            if Isolated(numbers, n) then 1 else if n - 1 in numbers && n + 1 in numbers then -1 else 0
  {
    hide IsStart;
    StartsAfterInsert(numbers, n);
  }

  lemma StartsAfterInsert(numbers: set<int>, n: int)
    requires n !in numbers
    ensures RunStarts(numbers + {n}) == RunStarts(numbers) - {n + 1} + if n - 1 in numbers then {} else {n}
    ensures n !in RunStarts(numbers) && (n + 1 in RunStarts(numbers) <==> n + 1 in numbers)
  {
    var after := RunStarts(numbers + {n});
    forall s ensures s in after <==> (s in RunStarts(numbers) && s != n + 1) || (s == n && n - 1 !in numbers) {
      StartAfterInsert(numbers, n, s);
    }
    assert IsStart(numbers, n + 1) <==> n + 1 in numbers;
  }

  lemma StartAfterInsert(numbers: set<int>, n: int, s: int)
    requires n !in numbers
    ensures IsStart(numbers + {n}, s) <==> (IsStart(numbers, s) && s != n + 1) || (s == n && n - 1 !in numbers)
  {
  }

  lemma RowCount(r: Ranges, numbers: set<int>)
    requires Represents(r, numbers)
    ensures |r| == RunCount(numbers)
  {
    var starts := RunStarts(numbers);
    forall s ensures s in r.Keys <==> s in starts {
      RowsStartRuns(r, numbers, s);
    }
    assert r.Keys == starts;
  }

  /** The canonical-form theorem: a set of numbers has at most one well-formed representation. */
  lemma Canonical(a: Ranges, b: Ranges, numbers: set<int>)
    requires Represents(a, numbers) && Represents(b, numbers)
    ensures a == b
  {
    forall s ensures s in a <==> s in b {
      RowsStartRuns(a, numbers, s);
      RowsStartRuns(b, numbers, s);
    }
    forall s | s in a ensures a[s] == b[s] {
      EndNotBefore(a, b, numbers, s);
      EndNotBefore(b, a, numbers, s);
    }
  }

  lemma EndNotBefore(a: Ranges, b: Ranges, numbers: set<int>, s: int)
    requires Represents(a, numbers) && Represents(b, numbers)
    requires s in a && s in b
    ensures b[s] >= a[s]
  {
    assert !Covers(b, b[s] + 1);
    assert !InRow(a, s, b[s] + 1);
  }

  /** The row found by "end_sequence = n - 1". */
  predicate EndsBefore(r: Ranges, left: int, n: int) {
    left in r && r[left] == n - 1
  }

  /** DELETE the right row, then extend the left one over the number and the deleted row. */
  lemma JoinBoth(r: Ranges, numbers: set<int>, n: int, left: int)
    requires Represents(r, numbers) && !Covers(r, n) && EndsBefore(r, left, n) && n + 1 in r
    ensures Represents((r - {n + 1})[left := r[n + 1]], numbers + {n})
  {
    var r' := (r - {n + 1})[left := r[n + 1]];
    assert r'.Keys == r.Keys - {n + 1};
    forall m ensures Covers(r', m) <==> Covers(r, m) || m == n {
      if s :| s in r' && InRow(r', s, m) {
        assert s != left ==> InRow(r, s, m);
        assert s == left ==> InRow(r, left, m) || m == n || InRow(r, n + 1, m);
      }
      if s :| s in r && InRow(r, s, m) {
        assert InRow(r', if s == n + 1 then left else s, m);
      }
      assert InRow(r', left, n);
    }
  }

  lemma ExtendLeft(r: Ranges, numbers: set<int>, n: int, left: int)
    requires Represents(r, numbers) && !Covers(r, n) && EndsBefore(r, left, n) && n + 1 !in r
    ensures Represents(r[left := n], numbers + {n})
  {
    var r' := r[left := n];
    forall m ensures Covers(r', m) <==> Covers(r, m) || m == n {
      if s :| s in r' && InRow(r', s, m) {
        assert InRow(r, s, m) || m == n;
      }
      if s :| s in r && InRow(r, s, m) {
        assert InRow(r', s, m);
      }
      assert InRow(r', left, n);
    }
    assert r'.Keys == r.Keys;
    forall s, t | s in r' && t in r' && s < t ensures r'[s] + 1 < t {
      assert !InRow(r, t, n);
    }
  }

  lemma ExtendRight(r: Ranges, numbers: set<int>, n: int)
    requires Represents(r, numbers) && 1 <= n && !Covers(r, n) && n - 1 !in numbers && n + 1 in r
    ensures Represents((r - {n + 1})[n := r[n + 1]], numbers + {n})
  {
    var r' := (r - {n + 1})[n := r[n + 1]];
    forall m ensures Covers(r', m) <==> Covers(r, m) || m == n {
      if s :| s in r' && InRow(r', s, m) {
        assert s != n ==> InRow(r, s, m);
        assert s == n ==> m == n || InRow(r, n + 1, m);
      }
      if s :| s in r && InRow(r, s, m) {
        assert InRow(r', if s == n + 1 then n else s, m);
      }
      assert InRow(r', n, n);
    }
    forall s, t | s in r' && t in r' && s < t ensures r'[s] + 1 < t {
      assert !Covers(r, n - 1);
      assert s in r ==> !InRow(r, s, n) && !InRow(r, s, n - 1);
    }
  }

  lemma InsertAlone(r: Ranges, numbers: set<int>, n: int)
    requires Represents(r, numbers) && 1 <= n && !Covers(r, n) && n - 1 !in numbers && n + 1 !in r
    ensures n !in r && Represents(r[n := n], numbers + {n})
  {
    var r' := r[n := n];
    forall m ensures Covers(r', m) <==> Covers(r, m) || m == n {
      if s :| s in r' && InRow(r', s, m) {
        assert s != n ==> InRow(r, s, m);
      }
      if s :| s in r && InRow(r, s, m) {
        assert InRow(r', s, m);
      }
      assert InRow(r', n, n);
    }
    assert n in r ==> InRow(r, n, n);
    forall s, t | s in r' && t in r' && s < t ensures r'[s] + 1 < t {
      assert !Covers(r, n - 1);
      assert s in r ==> !InRow(r, s, n) && !InRow(r, s, n - 1);
    }
  }
}
