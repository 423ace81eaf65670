/**
 * The total orders behind the collector's ORDER BY clauses, sorting by them, and counting in the sorted listings, which
 * hold nothing twice.
 */
module Ordering {

  /** Code-point order on text, the default (BINARY) collation of SQLite. */
  predicate StringLess(a: string, b: string) {
    b != [] && (a == [] || a[0] < b[0] || (a[0] == b[0] && StringLess(a[1..], b[1..])))
  }

  /** The pair almost every query sorts by: an instant, with a text id as tie breaker. */
  datatype Key = Key(time: int, id: string)

  predicate KeyLess(a: Key, b: Key) {
    a.time < b.time || (a.time == b.time && StringLess(a.id, b.id))
  }

  /** KeyLess with the operands exchanged: ORDER BY time DESC, id DESC. */
  predicate KeyGreater(a: Key, b: Key) {
    KeyLess(b, a)
  }

  predicate IntLess(a: int, b: int) {
    a < b
  }

  ghost predicate TotalOrder<T(!new)>(less: (T, T) -> bool) {
    && (forall a :: !less(a, a))
    && (forall a, b :: a != b ==> less(a, b) || less(b, a))
    && (forall a, b, c :: less(a, b) && less(b, c) ==> less(a, c))
  }

  ghost predicate Ascending<T>(q: seq<T>, less: (T, T) -> bool) {
    forall i, j | 0 <= i < j < |q| :: less(q[i], q[j])
  }

  /** a is a proper prefix of b, or smaller at the first place where they differ. */
  ghost predicate Precedes(a: string, b: string) {
    exists k :: 0 <= k <= |a| && k <= |b| && SplitsAt(a, b, k)
  }

  ghost predicate SplitsAt(a: string, b: string, k: nat)
    requires k <= |a| && k <= |b|
  {
    a[..k] == b[..k] && k < |b| && (k == |a| || a[k] < b[k])
  }

  lemma {:induction false} StringLessExactly(a: string, b: string)
    ensures StringLess(a, b) <==> Precedes(a, b)
  {
    if a == [] || b == [] || a[0] != b[0] {
      if StringLess(a, b) {
        assert SplitsAt(a, b, 0);
      }
    } else {
      StringLessExactly(a[1..], b[1..]);
      if Precedes(a[1..], b[1..]) {
        var k: nat :| k <= |a[1..]| && k <= |b[1..]| && SplitsAt(a[1..], b[1..], k);
        assert a[..k + 1] == [a[0]] + a[1..][..k] && b[..k + 1] == [b[0]] + b[1..][..k];
        assert SplitsAt(a, b, k + 1);
      }
      if Precedes(a, b) {
        var k: nat :| k <= |a| && k <= |b| && SplitsAt(a, b, k);
        assert a[1..][..k - 1] == a[..k][1..] && b[1..][..k - 1] == b[..k][1..];
        assert SplitsAt(a[1..], b[1..], k - 1);
      }
    }
  }

  lemma StringLessTransitive(a: string, b: string, c: string)
    requires StringLess(a, b) && StringLess(b, c)
    ensures StringLess(a, c)
  {
  }

  lemma {:induction a} StringLessIrreflexive(a: string)
    ensures !StringLess(a, a)
  {
  }

  lemma StringLessConnected(a: string, b: string)
    requires a != b
    ensures StringLess(a, b) || StringLess(b, a)
  {
    if a != [] && b != [] && a[0] == b[0] {
      assert a == [a[0]] + a[1..] && b == [b[0]] + b[1..];
      StringLessConnected(a[1..], b[1..]);
    }
  }

  lemma IntOrder()
    ensures TotalOrder(IntLess)
  {
  }

  /** What the time and id order is, by the characters of the ids. */
  lemma KeyLessExactly(a: Key, b: Key)
    ensures KeyLess(a, b) <==> a.time < b.time || (a.time == b.time && Precedes(a.id, b.id))
  {
    StringLessExactly(a.id, b.id);
  }

  lemma KeyLessIrreflexive(a: Key)
    ensures !KeyLess(a, a)
  {
    StringLessIrreflexive(a.id);
  }

  lemma KeyLessConnected(a: Key, b: Key)
    requires a != b
    ensures KeyLess(a, b) || KeyLess(b, a)
  {
    if a.id != b.id {
      StringLessConnected(a.id, b.id);
    }
  }

  lemma KeyLessTransitive(a: Key, b: Key, c: Key)
    requires KeyLess(a, b) && KeyLess(b, c)
    ensures KeyLess(a, c)
  {
    if a.time == b.time == c.time {
      StringLessTransitive(a.id, b.id, c.id);
    }
  }

  lemma KeyOrders()
    ensures TotalOrder(KeyLess) && TotalOrder(KeyGreater)
  {
    forall a: Key ensures !KeyLess(a, a) {
      KeyLessIrreflexive(a);
    }
    forall a: Key, b: Key | a != b ensures KeyLess(a, b) || KeyLess(b, a) {
      KeyLessConnected(a, b);
    }
    forall a: Key, b: Key, c: Key | KeyLess(a, b) && KeyLess(b, c) ensures KeyLess(a, c) {
      KeyLessTransitive(a, b, c);
    }
  }

  lemma {:induction false} LeastExists<T(!new)>(s: set<T>, less: (T, T) -> bool)
    requires TotalOrder(less) && s != {}
    ensures exists m :: m in s && forall x | x in s :: x == m || less(m, x)
    decreases |s|
  {
    var y :| y in s;
    if s != {y} {
      var rest := s - {y};
      assert s == rest + {y};
      assert rest != {};
      LeastExists(rest, less);
      var m :| m in rest && forall x | x in rest :: x == m || less(m, x);
      var best := if less(m, y) then m else y;
      assert forall x | x in s :: x in rest || x == y;
      assert best in s && forall x | x in s :: x == best || less(best, x);
    }
  }

  /** What SELECT ... ORDER BY returns for rows whose sort keys are distinct. */
  function Sort<T(!new, ==)>(s: set<T>, less: (T, T) -> bool): (q: seq<T>)
    requires TotalOrder(less)
    ensures Ascending(q, less)
    ensures forall x :: x in q <==> x in s
    ensures |q| == |s|
    decreases |s|
  {
    if s == {} then
      []
    else
      LeastExists(s, less);
      var m :| m in s && forall x | x in s :: x == m || less(m, x);
      [m] + Sort(s - {m}, less)
  }

  /** Sorting has one answer: an ascending listing is determined by its elements. */
  lemma {:induction false} AscendingUnique<T(!new)>(p: seq<T>, q: seq<T>, less: (T, T) -> bool)
    requires TotalOrder(less)
    requires Ascending(p, less) && Ascending(q, less)
    requires forall x :: x in p <==> x in q
    ensures p == q
  {
    if p == [] {
      assert forall i | 0 <= i < |q| :: q[i] in q;
      assert |q| <= 0;
    } else {
      assert exists x :: x in p by {
        assert p[0] in p;
      }
      assert p[0] in q && q[0] in p by {
        assert p[0] in p;
        assert q != [];
        assert q[0] in q;
      }
      assert p[0] == q[0];
      forall x ensures x in p[1..] <==> x in q[1..] {
        assert x in p[1..] <==> x in p && x != p[0];
        assert x in q[1..] <==> x in q && x != q[0];
      }
      AscendingUnique(p[1..], q[1..], less);
      assert p == [p[0]] + p[1..] && q == [q[0]] + q[1..];
    }
  }

  ghost function Below<T(!new)>(q: seq<T>, less: (T, T) -> bool, x: T): set<T> {
    set y | y in q && less(y, x)
  }

  /** The element at position i of an ascending listing has exactly i elements below it. */
  lemma {:induction false} RankIsIndex<T(!new)>(q: seq<T>, less: (T, T) -> bool, i: nat)
    requires TotalOrder(less) && Ascending(q, less) && i < |q|
    ensures |Below(q, less, q[i])| == i
  {
    assert Below(q, less, q[i]) == set x | x in q[..i];
    DistinctCount(q[..i]);
  }

  lemma {:induction false} SubsetSize<T>(a: set<T>, b: set<T>)
    requires a <= b
    ensures |a| <= |b|
    ensures a != b ==> |a| < |b|
    decreases |a|
  {
    if a != {} {
      var x :| x in a;
      SubsetSize(a - {x}, b - {x});
      assert a == a - {x} + {x} && b == b - {x} + {x};
    } else if b != {} {
      var y :| y in b;
    }
  }

  ghost predicate Distinct<T>(q: seq<T>) {
    forall i, j | 0 <= i < j < |q| :: q[i] != q[j]
  }

  lemma AscendingDistinct<T(!new)>(q: seq<T>, less: (T, T) -> bool)
    requires TotalOrder(less) && Ascending(q, less)
    ensures Distinct(q)
  {
    forall i, j | 0 <= i < j < |q| ensures q[i] != q[j] {
      assert less(q[i], q[j]);
    }
  }

  lemma {:induction false} DistinctCount<T>(q: seq<T>)
    requires Distinct(q)
    ensures |set x | x in q| == |q|
  {
    if q != [] {
      var front := q[..|q| - 1];
      var last := q[|q| - 1];
      DistinctCount(front);
      assert q == front + [last];
      assert (set x | x in q) == (set x | x in front) + {last};
    }
  }
}
