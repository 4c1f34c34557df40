/**
 * JavaScript's `Array.prototype.sort` with a comparator, modelled as a stable
 * insertion sort. A comparator returns a negative number, zero or a positive
 * number; for a consistent comparator (total and transitive) the stable sorted
 * permutation is unique, so this function gives exactly what the engine
 * returns.
 */
module Sorting {

  /** Inserts `x` before the first element it does not come after. */
  function Insert<T>(x: T, r: seq<T>, cmp: (T, T) -> int): seq<T> {
    if r == [] then [x]
    else if cmp(x, r[0]) <= 0 then [x] + r
    else [r[0]] + Insert(x, r[1..], cmp)
  }

  /** `a.sort(cmp)`: every element is inserted ahead of the later ones it ties with. */
  function SortWith<T>(s: seq<T>, cmp: (T, T) -> int): seq<T> {
    if s == [] then [] else Insert(s[0], SortWith(s[1..], cmp), cmp)
  }

  /** For every pair, at least one order is allowed. */
  ghost predicate Total<T(!new)>(cmp: (T, T) -> int) {
    forall a, b :: cmp(a, b) <= 0 || cmp(b, a) <= 0
  }

  /** "Comes no later than" is transitive. */
  ghost predicate Transitive<T(!new)>(cmp: (T, T) -> int) {
    forall a, b, c :: cmp(a, b) <= 0 && cmp(b, c) <= 0 ==> cmp(a, c) <= 0
  }

  /** Every element comes no later than each element after it. */
  ghost predicate SortedBy<T>(s: seq<T>, cmp: (T, T) -> int) {
    forall i, j :: 0 <= i < j < |s| ==> cmp(s[i], s[j]) <= 0
  }

  lemma {:induction false} InsertPermutation<T>(x: T, r: seq<T>, cmp: (T, T) -> int)
    ensures multiset(Insert(x, r, cmp)) == multiset(r) + multiset{x}
  {
    if r != [] && cmp(x, r[0]) > 0 {
      InsertPermutation(x, r[1..], cmp);
      assert r == [r[0]] + r[1..];
    }
  }

  /** Sorting neither adds nor loses elements. */
  lemma {:induction false} SortPermutation<T>(s: seq<T>, cmp: (T, T) -> int)
    ensures multiset(SortWith(s, cmp)) == multiset(s)
    ensures |SortWith(s, cmp)| == |s|
  {
    if s != [] {
      SortPermutation(s[1..], cmp);
      InsertPermutation(s[0], SortWith(s[1..], cmp), cmp);
      assert s == [s[0]] + s[1..];
    }
    assert |multiset(SortWith(s, cmp))| == |SortWith(s, cmp)|;
  }

  lemma SortedCons<T>(y: T, t: seq<T>, cmp: (T, T) -> int)
    requires SortedBy(t, cmp)
    requires forall j :: 0 <= j < |t| ==> cmp(y, t[j]) <= 0
    ensures SortedBy([y] + t, cmp)
  {
    var u := [y] + t;
    forall i, j | 0 <= i < j < |u|
      ensures cmp(u[i], u[j]) <= 0
    {
      if i > 0 {
        assert u[i] == t[i - 1] && u[j] == t[j - 1];
      } else {
        assert u[j] == t[j - 1];
      }
    }
  }

  lemma {:induction false} InsertSorted<T(!new)>(x: T, r: seq<T>, cmp: (T, T) -> int)
    requires Total(cmp) && Transitive(cmp)
    requires SortedBy(r, cmp)
    ensures SortedBy(Insert(x, r, cmp), cmp)
  {
    if r == [] {
    } else if cmp(x, r[0]) <= 0 {
      forall j | 0 <= j < |r|
        ensures cmp(x, r[j]) <= 0
      {
        if j > 0 {
          assert cmp(r[0], r[j]) <= 0;
        }
      }
      SortedCons(x, r, cmp);
    } else {
      var rest := r[1..];
      assert SortedBy(rest, cmp) by {
        forall i, j | 0 <= i < j < |rest|
          ensures cmp(rest[i], rest[j]) <= 0
        {
          assert rest[i] == r[i + 1] && rest[j] == r[j + 1];
        }
      }
      InsertSorted(x, rest, cmp);
      InsertPermutation(x, rest, cmp);
      var t := Insert(x, rest, cmp);
      assert cmp(r[0], x) <= 0;
      forall j | 0 <= j < |t|
        ensures cmp(r[0], t[j]) <= 0
      {
        assert t[j] in multiset(t);
        if t[j] != x {
          assert t[j] in multiset(rest);
          var k :| 0 <= k < |rest| && rest[k] == t[j];
          assert r[k + 1] == t[j];
        }
      }
      SortedCons(r[0], t, cmp);
    }
  }

  /** With a consistent comparator the result is in comparator order. */
  lemma {:induction false} SortSorted<T(!new)>(s: seq<T>, cmp: (T, T) -> int)
    requires Total(cmp) && Transitive(cmp)
    ensures SortedBy(SortWith(s, cmp), cmp)
  {
    if s != [] {
      SortSorted(s[1..], cmp);
      InsertSorted(s[0], SortWith(s[1..], cmp), cmp);
    }
  }

  /** Membership is unchanged by sorting. */
  lemma SortMembers<T>(s: seq<T>, cmp: (T, T) -> int, x: T)
    ensures x in SortWith(s, cmp) <==> x in s
  {
    SortPermutation(s, cmp);
    assert x in multiset(SortWith(s, cmp)) <==> x in multiset(s);
  }

  /**
   * A comparator that subtracts numeric keys (`(a, b) => key(a) - key(b)`)
   * sorts into non-decreasing key order and keeps every element.
   */
  lemma SortByKey<T(!new)>(s: seq<T>, cmp: (T, T) -> int, key: T -> int)
    requires forall a, b :: cmp(a, b) == key(a) - key(b)
    ensures multiset(SortWith(s, cmp)) == multiset(s) && |SortWith(s, cmp)| == |s|
    ensures forall i, j :: 0 <= i < j < |SortWith(s, cmp)| ==> key(SortWith(s, cmp)[i]) <= key(SortWith(s, cmp)[j])
  {
    SortPermutation(s, cmp);
    SortSorted(s, cmp);
  }
}
