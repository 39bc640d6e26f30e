/**
 `Array.prototype.sort` with a consistent comparator (section 23.1.3.30 of ECMA-262): the one ordered
 arrangement that keeps equals in their given order.
 */
module StableSort {
  type Comparator<!T> = (T, T) -> int

  ghost predicate Consistent<T(!new)>(cmp: Comparator<T>) {
    && (forall x :: cmp(x, x) == 0)
    && (forall x, y :: cmp(x, y) < 0 <==> cmp(y, x) > 0)
    && (forall x, y, z :: Chains(cmp, x, y, z))
  }

  ghost predicate Chains<T>(cmp: Comparator<T>, x: T, y: T, z: T) {
    cmp(x, y) <= 0 && cmp(y, z) <= 0 ==> cmp(x, z) <= 0
  }

  /** Before the first that is no less, so ahead of its equals. */
  function Insert<T>(x: T, sorted: seq<T>, cmp: Comparator<T>): seq<T> {
    if sorted == [] || cmp(x, sorted[0]) <= 0 then [x] + sorted
    else [sorted[0]] + Insert(x, sorted[1..], cmp)
  }

  function Sorted<T>(s: seq<T>, cmp: Comparator<T>): seq<T> {
    if s == [] then [] else Insert(s[0], Sorted(s[1..], cmp), cmp)
  }

  ghost predicate Ordered<T>(s: seq<T>, cmp: Comparator<T>) {
    forall i, j :: 0 <= i < j < |s| ==> cmp(s[i], s[j]) <= 0
  }

  /** The elements that compare equal to `x`, in order. */
  function Equals<T>(s: seq<T>, x: T, cmp: Comparator<T>): seq<T> {
    if s == [] then []
    else (if cmp(x, s[0]) == 0 then [s[0]] else []) + Equals(s[1..], x, cmp)
  }

  lemma {:induction false} InsertMembers<T(!new)>(x: T, sorted: seq<T>, cmp: Comparator<T>)
    ensures multiset(Insert(x, sorted, cmp)) == multiset{x} + multiset(sorted)
    ensures forall y :: y in Insert(x, sorted, cmp) <==> y == x || y in sorted
  {
    if sorted != [] && cmp(x, sorted[0]) > 0 {
      InsertMembers(x, sorted[1..], cmp);
      assert sorted == [sorted[0]] + sorted[1..];
    }
  }

  lemma {:induction false} InsertOrdered<T(!new)>(x: T, sorted: seq<T>, cmp: Comparator<T>)
    requires Consistent(cmp) && Ordered(sorted, cmp)
    ensures Ordered(Insert(x, sorted, cmp), cmp)
  {
    if sorted != [] && cmp(x, sorted[0]) > 0 {
      var rest := Insert(x, sorted[1..], cmp);
      InsertOrdered(x, sorted[1..], cmp);
      InsertMembers(x, sorted[1..], cmp);
      forall j | 0 <= j < |rest|
        ensures cmp(sorted[0], rest[j]) <= 0
      {
        assert rest[j] in rest;
        if rest[j] != x {
          var i :| 0 <= i < |sorted[1..]| && sorted[1..][i] == rest[j];
          assert sorted[i + 1] == rest[j];
        }
      }
    } else {
      forall j | 0 <= j < |sorted|
        ensures cmp(x, sorted[j]) <= 0
      {
        assert j > 0 ==> Chains(cmp, x, sorted[0], sorted[j]);
      }
    }
  }

  lemma {:induction false} InsertEquals<T(!new)>(x: T, sorted: seq<T>, y: T, cmp: Comparator<T>)
    requires Consistent(cmp)
    ensures Equals(Insert(x, sorted, cmp), y, cmp) == (if cmp(y, x) == 0 then [x] else []) + Equals(sorted, y, cmp)
  {
    if sorted == [] || cmp(x, sorted[0]) <= 0 {
      assert ([x] + sorted)[1..] == sorted;
    } else {
      var r, rest := Insert(x, sorted, cmp), Insert(x, sorted[1..], cmp);
      InsertEquals(x, sorted[1..], y, cmp);
      assert r[0] == sorted[0] && r[1..] == rest;
      if cmp(y, x) == 0 {
        EqualToGreater(y, x, sorted[0], cmp);
        assert Equals(r, y, cmp) == Equals(rest, y, cmp) && Equals(sorted, y, cmp) == Equals(sorted[1..], y, cmp);
      } else {
        assert Equals(rest, y, cmp) == Equals(sorted[1..], y, cmp);
      }
    }
  }

  lemma EqualToGreater<T(!new)>(y: T, x: T, head: T, cmp: Comparator<T>)
    requires Consistent(cmp) && cmp(y, x) == 0 && cmp(x, head) > 0
    ensures cmp(y, head) != 0
  {
    assert cmp(x, y) == 0;
    assert Chains(cmp, x, y, head);
  }

  lemma {:induction false} SortedMembers<T(!new)>(s: seq<T>, cmp: Comparator<T>)
    ensures multiset(Sorted(s, cmp)) == multiset(s)
  {
    if s != [] {
      SortedMembers(s[1..], cmp);
      InsertMembers(s[0], Sorted(s[1..], cmp), cmp);
      assert s == [s[0]] + s[1..];
    }
  }

  lemma {:induction false} SortedOrdered<T(!new)>(s: seq<T>, cmp: Comparator<T>)
    requires Consistent(cmp)
    ensures Ordered(Sorted(s, cmp), cmp)
  {
    if s != [] {
      SortedOrdered(s[1..], cmp);
      InsertOrdered(s[0], Sorted(s[1..], cmp), cmp);
    }
  }

  lemma {:induction false} SortedEquals<T(!new)>(s: seq<T>, y: T, cmp: Comparator<T>)
    requires Consistent(cmp)
    ensures Equals(Sorted(s, cmp), y, cmp) == Equals(s, y, cmp)
  {
    if s != [] {
      SortedEquals(s[1..], y, cmp);
      InsertEquals(s[0], Sorted(s[1..], cmp), y, cmp);
    }
  }

  /** Sorting permutes, orders, and keeps equals in the order given. */
  lemma SortedMeaning<T(!new)>(s: seq<T>, cmp: Comparator<T>)
    requires Consistent(cmp)
    ensures multiset(Sorted(s, cmp)) == multiset(s)
    ensures Ordered(Sorted(s, cmp), cmp)
    ensures forall y :: Equals(Sorted(s, cmp), y, cmp) == Equals(s, y, cmp)
  {
    SortedMembers(s, cmp);
    SortedOrdered(s, cmp);
    forall y
      ensures Equals(Sorted(s, cmp), y, cmp) == Equals(s, y, cmp)
    {
      SortedEquals(s, y, cmp);
    }
  }

  /** What is in order already stays as it is. */
  lemma {:induction false} OrderedIsSorted<T(!new)>(s: seq<T>, cmp: Comparator<T>)
    requires Ordered(s, cmp)
    ensures Sorted(s, cmp) == s
  {
    if s != [] {
      assert Ordered(s[1..], cmp);
      OrderedIsSorted(s[1..], cmp);
      assert s == [s[0]] + s[1..];
      assert |s| > 1 ==> cmp(s[0], s[1]) <= 0;
    }
  }

  lemma {:induction false} EqualsMembers<T>(s: seq<T>, x: T, cmp: Comparator<T>)
    ensures forall y :: y in Equals(s, x, cmp) <==> y in s && cmp(x, y) == 0
  {
    if s != [] {
      EqualsMembers(s[1..], x, cmp);
      assert s == [s[0]] + s[1..];
    }
  }

  lemma {:induction false} EqualsConcat<T>(a: seq<T>, b: seq<T>, x: T, cmp: Comparator<T>)
    ensures Equals(a + b, x, cmp) == Equals(a, x, cmp) + Equals(b, x, cmp)
  {
    if a == [] {
      assert a + b == b;
    } else {
      assert (a + b)[0] == a[0] && (a + b)[1..] == a[1..] + b;
      EqualsConcat(a[1..], b, x, cmp);
      var head := if cmp(x, a[0]) == 0 then [a[0]] else [];
      assert Equals(a, x, cmp) == head + Equals(a[1..], x, cmp);
      assert Equals(a + b, x, cmp) == head + Equals(a[1..] + b, x, cmp);
    }
  }

  lemma TailEquals<T>(s: seq<T>, y: T, cmp: Comparator<T>)
    requires s != []
    ensures cmp(y, s[0]) == 0 ==> Equals(s, y, cmp) != []
    ensures Equals(s[1..], y, cmp) == if cmp(y, s[0]) == 0 then Equals(s, y, cmp)[1..] else Equals(s, y, cmp)
  {
  }

  /** There is only one such arrangement. */
  lemma {:induction false} OrderedUnique<T(!new)>(a: seq<T>, b: seq<T>, cmp: Comparator<T>)
    requires Consistent(cmp) && Ordered(a, cmp) && Ordered(b, cmp)
    requires forall y :: Equals(a, y, cmp) == Equals(b, y, cmp)
    ensures a == b
  {
    if b != [] {
      TailEquals(b, b[0], cmp);
    }
    if a != [] {
      TailEquals(a, a[0], cmp);
      SameHead(a, b, cmp);
      forall y
        ensures Equals(a[1..], y, cmp) == Equals(b[1..], y, cmp)
      {
        TailEquals(a, y, cmp);
        TailEquals(b, y, cmp);
      }
      OrderedUnique(a[1..], b[1..], cmp);
      assert a == [a[0]] + a[1..] && b == [b[0]] + b[1..];
    }
  }

  lemma SameHead<T(!new)>(a: seq<T>, b: seq<T>, cmp: Comparator<T>)
    requires Consistent(cmp) && Ordered(a, cmp) && Ordered(b, cmp) && a != [] && b != []
    requires forall y :: Equals(a, y, cmp) == Equals(b, y, cmp)
    ensures a[0] == b[0]
  {
    EqualsMembers(a, a[0], cmp);
    EqualsMembers(b, a[0], cmp);
    EqualsMembers(a, b[0], cmp);
    EqualsMembers(b, b[0], cmp);
    assert a[0] in Equals(a, a[0], cmp) && b[0] in Equals(b, b[0], cmp);
    assert a[0] in b && b[0] in a;
    assert cmp(b[0], a[0]) <= 0 && cmp(a[0], b[0]) <= 0;
    assert cmp(a[0], b[0]) == 0;
    assert Equals(a, a[0], cmp)[0] == a[0] && Equals(b, a[0], cmp)[0] == b[0];
  }

  ghost predicate NoRepeats<T>(s: seq<T>) {
    forall i, j :: 0 <= i < j < |s| ==> s[i] != s[j]
  }

  /** No two different members compare equal. */
  ghost predicate Separated<T>(s: seq<T>, cmp: Comparator<T>) {
    forall x, y :: x in s && y in s && cmp(x, y) == 0 ==> x == y
  }

  /** Members a comparator separates have one ordered arrangement. */
  lemma {:induction false} OrderedSameMembers<T(!new)>(a: seq<T>, b: seq<T>, cmp: Comparator<T>)
    requires Consistent(cmp) && Ordered(a, cmp) && Ordered(b, cmp) && NoRepeats(a) && NoRepeats(b)
    requires Separated(a, cmp) && forall x :: x in a <==> x in b
    ensures a == b
  {
    if a != [] {
      assert a[0] in b;
    }
    if b != [] {
      assert b[0] in a;
      assert cmp(a[0], b[0]) <= 0 && cmp(b[0], a[0]) <= 0;
      assert a[0] == b[0];
      assert a == [a[0]] + a[1..] && b == [b[0]] + b[1..];
      forall x
        ensures x in a[1..] <==> x in b[1..]
      {
        assert x in a[1..] <==> x in a && x != a[0];
        assert x in b[1..] <==> x in b && x != b[0];
      }
      OrderedSameMembers(a[1..], b[1..], cmp);
    }
  }

  lemma SameMembers<T>(a: seq<T>, b: seq<T>)
    requires multiset(a) == multiset(b)
    ensures forall e :: e in a <==> e in b
  {
    forall e
      ensures e in a <==> e in b
    {
      assert e in a <==> e in multiset(a);
      assert e in b <==> e in multiset(b);
    }
  }
}
