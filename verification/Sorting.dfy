/** Sorting by keys.  `std::sort` is a function here; `SortIsUnique` shows that it has no choice. */
module Sorting {

  /** A file sorts by its write time and then by its name; where only names count, the time is
      the same for all. */
  datatype Key = Key(time: int, name: string)

  /** Comparison of `std::string`. */
  predicate LexLess(a: string, b: string) {
    b != "" && (a == "" || a[0] < b[0] || (a[0] == b[0] && LexLess(a[1..], b[1..])))
  }

  predicate Before(a: Key, b: Key) {
    a.time < b.time || (a.time == b.time && LexLess(a.name, b.name))
  }

  lemma {:induction false} LexTotal(a: string, b: string)
    ensures a == b <==> !LexLess(a, b) && !LexLess(b, a)
    ensures !(LexLess(a, b) && LexLess(b, a))
  {
    if a != "" && b != "" {
      LexTotal(a[1..], b[1..]);
      assert a == [a[0]] + a[1..] && b == [b[0]] + b[1..];
    }
  }

  lemma {:induction false} LexTransitive(a: string, b: string, c: string)
    requires LexLess(a, b) && LexLess(b, c)
    ensures LexLess(a, c)
  {
    if a != "" && a[0] == b[0] == c[0] {
      LexTransitive(a[1..], b[1..], c[1..]);
    }
  }

  /** `k` is the length of the common beginning of two strings. */
  predicate AgreeUpTo(a: string, b: string, k: nat) {
    && k <= |a| && k <= |b| && a[..k] == b[..k]
    && (k < |a| && k < |b| ==> a[k] != b[k])
  }

  /** The order of strings: where they first differ the smaller byte comes first, and the beginning
      of a string comes before the string. */
  lemma {:induction false} LexLessExactly(a: string, b: string, k: nat)
    requires AgreeUpTo(a, b, k)
    ensures LexLess(a, b) <==> if k < |a| && k < |b| then a[k] < b[k] else |a| < |b|
  {
    if k > 0 {
      assert a[0] == a[..k][0] == b[..k][0] == b[0];
      assert a[1..][..k - 1] == a[..k][1..] && b[1..][..k - 1] == b[..k][1..];
      LexLessExactly(a[1..], b[1..], k - 1);
    }
  }

  /** Files of different times go by time, earlier first; of the same time, by name. */
  lemma BeforeExactly(a: Key, b: Key)
    ensures a.time < b.time ==> Before(a, b)
    ensures a.time > b.time ==> !Before(a, b)
    ensures a.time == b.time ==> (Before(a, b) <==> LexLess(a.name, b.name))
  {
  }

  /** Of two different keys exactly one comes before the other, and none before itself. */
  lemma BeforeOrders(a: Key, b: Key)
    ensures a != b ==> (Before(a, b) <==> !Before(b, a))
    ensures !Before(a, a)
  {
    LexTotal(a.name, b.name);
    LexTotal(a.name, a.name);
  }

  lemma BeforeTransitive(a: Key, b: Key, c: Key)
    requires Before(a, b) && Before(b, c)
    ensures Before(a, c)
  {
    if a.time == b.time == c.time {
      LexTransitive(a.name, b.name, c.name);
    }
  }

  predicate InOrder<T>(xs: seq<T>, key: T -> Key) {
    forall i, j :: 0 <= i < j < |xs| ==> Before(key(xs[i]), key(xs[j]))
  }

  predicate DistinctKeys<T>(xs: seq<T>, key: T -> Key) {
    forall i, j :: 0 <= i < j < |xs| ==> key(xs[i]) != key(xs[j])
  }

  function Insert<T(==,!new)>(x: T, xs: seq<T>, key: T -> Key): (r: seq<T>)
    ensures forall y :: y in r <==> y == x || y in xs
  {
    if xs == [] || Before(key(x), key(xs[0])) then [x] + xs
    else [xs[0]] + Insert(x, xs[1..], key)
  }

  function Sorted<T(==,!new)>(xs: seq<T>, key: T -> Key): (r: seq<T>)
    ensures forall y :: y in r <==> y in xs
  {
    if xs == [] then [] else Insert(xs[0], Sorted(xs[1..], key), key)
  }

  lemma {:induction false} InsertInOrder<T(!new)>(x: T, xs: seq<T>, key: T -> Key)
    requires InOrder(xs, key) && forall y :: y in xs ==> key(y) != key(x)
    ensures InOrder(Insert(x, xs, key), key)
  {
    if xs != [] {
      BeforeOrders(key(x), key(xs[0]));
      if Before(key(x), key(xs[0])) {
        forall j | 0 < j < |xs|
          ensures Before(key(x), key(xs[j]))
        {
          BeforeTransitive(key(x), key(xs[0]), key(xs[j]));
        }
      } else {
        var rest := Insert(x, xs[1..], key);
        InsertInOrder(x, xs[1..], key);
        forall j | 0 <= j < |rest|
          ensures Before(key(xs[0]), key(rest[j]))
        {
          assert rest[j] in rest;
        }
      }
    }
  }

  lemma {:induction false} SortedInOrder<T(!new)>(xs: seq<T>, key: T -> Key)
    requires DistinctKeys(xs, key)
    ensures InOrder(Sorted(xs, key), key)
  {
    if xs != [] {
      SortedInOrder(xs[1..], key);
      InsertInOrder(xs[0], Sorted(xs[1..], key), key);
    }
  }

  /** Two ordered lists of the same elements are equal. */
  lemma {:induction false} SortIsUnique<T(!new)>(a: seq<T>, b: seq<T>, key: T -> Key)
    requires InOrder(a, key) && InOrder(b, key) && forall x :: x in a <==> x in b
    ensures a == b
  {
    assert a != [] ==> a[0] in b;
    assert b != [] ==> b[0] in a;
    if a != [] && b != [] {
      SameHead(a, b, key);
      forall x
        ensures x in a[1..] <==> x in b[1..]
      {
        InTail(a, x, key);
        InTail(b, x, key);
      }
      SortIsUnique(a[1..], b[1..], key);
      assert a == [a[0]] + a[1..] && b == [b[0]] + b[1..];
    }
  }

  lemma InTail<T(!new)>(a: seq<T>, x: T, key: T -> Key)
    requires a != [] && InOrder(a, key)
    ensures x in a[1..] <==> x in a && x != a[0]
  {
    BeforeOrders(key(a[0]), key(a[0]));
  }

  lemma SameHead<T(!new)>(a: seq<T>, b: seq<T>, key: T -> Key)
    requires InOrder(a, key) && InOrder(b, key) && a != [] && b != [] && forall x :: x in a <==> x in b
    ensures a[0] == b[0]
  {
    assert a[0] in b && b[0] in a;
    if a[0] != b[0] {
      BeforeOrders(key(a[0]), key(b[0]));
    }
  }

  lemma {:induction false} SortedIdempotent<T(!new)>(xs: seq<T>, key: T -> Key)
    requires InOrder(xs, key)
    ensures Sorted(xs, key) == xs
  {
    if xs != [] {
      SortedIdempotent(xs[1..], key);
    }
  }
}
