/** Stable sorting by a key of time and identifier. */
module Sorting {

  /** Lexicographic order of identifiers by character code. */
  predicate StringLeq(a: string, b: string) {
    a == "" || (b != "" && (a[0] < b[0] || (a[0] == b[0] && StringLeq(a[1..], b[1..]))))
  }

  lemma {:induction false} StringLeqTotal(a: string, b: string)
    ensures StringLeq(a, b) || StringLeq(b, a)
    decreases |a|
  {
    if a != "" && b != "" && a[0] == b[0] {
      StringLeqTotal(a[1..], b[1..]);
    }
  }

  lemma {:induction false} StringLeqTransitive(a: string, b: string, c: string)
    requires StringLeq(a, b) && StringLeq(b, c)
    ensures StringLeq(a, c)
    decreases |a|
  {
    if a != "" && a[0] == b[0] && b[0] == c[0] {
      StringLeqTransitive(a[1..], b[1..], c[1..]);
    }
  }

  /** A sort key: a time, a rank among equal times, and an identifier. */
  datatype Key = Key(time: int, rank: int, id: string)

  predicate KeyLeq(a: Key, b: Key) {
    a.time < b.time || (a.time == b.time && (a.rank < b.rank || (a.rank == b.rank && StringLeq(a.id, b.id))))
  }

  lemma KeyLeqTotal(a: Key, b: Key)
    ensures KeyLeq(a, b) || KeyLeq(b, a)
  {
    StringLeqTotal(a.id, b.id);
  }

  lemma KeyLeqTransitive(a: Key, b: Key, c: Key)
    requires KeyLeq(a, b) && KeyLeq(b, c)
    ensures KeyLeq(a, c)
  {
    if a.time == b.time == c.time && a.rank == b.rank == c.rank {
      StringLeqTransitive(a.id, b.id, c.id);
    }
  }

  ghost predicate SortedBy<T(!new)>(xs: seq<T>, key: T -> Key) {
    forall i, j | 0 <= i < j < |xs| :: KeyLeq(key(xs[i]), key(xs[j]))
  }

  /** Places x after every element whose key is not greater. */
  function Insert<T(!new)>(xs: seq<T>, x: T, key: T -> Key): seq<T> {
    if xs == [] then [x]
    else if KeyLeq(key(xs[|xs| - 1]), key(x)) then xs + [x]
    else Insert(xs[..|xs| - 1], x, key) + [xs[|xs| - 1]]
  }

  function Sort<T(!new)>(xs: seq<T>, key: T -> Key): seq<T> {
    if xs == [] then [] else Insert(Sort(xs[..|xs| - 1], key), xs[|xs| - 1], key)
  }

  lemma {:induction false} InsertPermutes<T(!new)>(xs: seq<T>, x: T, key: T -> Key)
    ensures multiset(Insert(xs, x, key)) == multiset(xs) + multiset{x}
    decreases |xs|
  {
    if xs != [] {
      assert xs == xs[..|xs| - 1] + [xs[|xs| - 1]];
      InsertPermutes(xs[..|xs| - 1], x, key);
    }
  }

  ghost predicate AllLeq<T(!new)>(xs: seq<T>, bound: T, key: T -> Key) {
    forall y | y in xs :: KeyLeq(key(y), key(bound))
  }

  lemma LastIsGreatest<T(!new)>(xs: seq<T>, x: T, key: T -> Key)
    requires xs != [] && SortedBy(xs, key) && KeyLeq(key(xs[|xs| - 1]), key(x))
    ensures AllLeq(xs, x, key)
  {
    forall i | 0 <= i < |xs| ensures KeyLeq(key(xs[i]), key(x)) {
      if i < |xs| - 1 {
        KeyLeqTransitive(key(xs[i]), key(xs[|xs| - 1]), key(x));
      }
    }
  }

  lemma {:induction false} InsertSorts<T(!new)>(xs: seq<T>, x: T, key: T -> Key)
    requires SortedBy(xs, key)
    ensures SortedBy(Insert(xs, x, key), key)
    decreases |xs|
  {
    if xs != [] {
      var init, last := xs[..|xs| - 1], xs[|xs| - 1];
      if KeyLeq(key(last), key(x)) {
        LastIsGreatest(xs, x, key);
      } else {
        InsertSorts(init, x, key);
        InsertPermutes(init, x, key);
        KeyLeqTotal(key(last), key(x));
        forall y | y in Insert(init, x, key) ensures KeyLeq(key(y), key(last)) {
          assert y in multiset(Insert(init, x, key));
          assert y in init || y == x;
        }
      }
    }
  }

  lemma {:induction false} SortSorts<T(!new)>(xs: seq<T>, key: T -> Key)
    ensures SortedBy(Sort(xs, key), key)
    ensures multiset(Sort(xs, key)) == multiset(xs)
    decreases |xs|
  {
    hide Insert, SortedBy;
    if xs == [] {
      EmptySorted(xs, key);
    } else {
      SortSorts(xs[..|xs| - 1], key);
      InsertSorts(Sort(xs[..|xs| - 1], key), xs[|xs| - 1], key);
      InsertPermutes(Sort(xs[..|xs| - 1], key), xs[|xs| - 1], key);
      assert xs == xs[..|xs| - 1] + [xs[|xs| - 1]];
    }
  }

  lemma EmptySorted<T(!new)>(xs: seq<T>, key: T -> Key)
    requires xs == []
    ensures SortedBy(xs, key)
  {
  }

  /** Sorting a sorted list changes nothing. */
  lemma {:induction false} SortedStays<T(!new)>(xs: seq<T>, key: T -> Key)
    requires SortedBy(xs, key)
    ensures Sort(xs, key) == xs
    decreases |xs|
  {
    if xs != [] {
      var init, last := xs[..|xs| - 1], xs[|xs| - 1];
      SortedStays(init, key);
      assert xs == init + [last];
      assert init != [] ==> init[|init| - 1] == xs[|xs| - 2];
    }
  }
}
