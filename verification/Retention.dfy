/** Age-then-size retention of the captures directory (src/artifacts/capture_store.cpp:254-333). */
module Retention {
  import opened CaptureStore
  import opened Sorting

  const TWO_64 := 0x1_0000_0000_0000_0000
  const TWO_32 := 0x1_0000_0000

  type UInt64 = n: int | 0 <= n < TWO_64

  /** A directory entry; links and directories are not regular. */
  datatype Entry = Entry(regular: bool, size: UInt64, time: int)

  datatype File = File(name: string, size: UInt64, time: int)

  datatype Limits = Limits(now: int, maxAge: int, maxTotal: UInt64)

  /** Unsigned arithmetic: the value of `n` in a counter with `modulus` states. */
  function Wrap(n: nat, modulus: nat): (r: nat)
    requires modulus > 0
    ensures r < modulus
  {
    if n < modulus then n else Wrap(n - modulus, modulus)
  }

  lemma {:induction false} WrapAdd(a: nat, b: nat, modulus: nat)
    requires modulus > 0
    ensures Wrap(Wrap(a, modulus) + b, modulus) == Wrap(a + b, modulus)
  {
    if a >= modulus {
      WrapAdd(a - modulus, b, modulus);
    }
  }

  lemma {:induction false} WrapLoses(n: nat, modulus: nat)
    requires 0 < modulus <= n
    ensures Wrap(n, modulus) + modulus <= n
  {
    if n >= 2 * modulus {
      WrapLoses(n - modulus, modulus);
    }
  }

  // ----- the order ---------------------------------------------------------------------------------

  function AgeKey(f: File): Key {
    Key(f.time, f.name)
  }

  predicate OlderFirst(a: File, b: File) {
    Before(AgeKey(a), AgeKey(b))
  }

  predicate OldestFirst(files: seq<File>) {
    forall i, j :: 0 <= i < j < |files| ==> OlderFirst(files[i], files[j])
  }

  predicate DistinctNames(files: seq<File>) {
    forall i, j :: 0 <= i < j < |files| ==> files[i].name != files[j].name
  }

  lemma OldestFirstIsInOrder(files: seq<File>)
    ensures OldestFirst(files) <==> InOrder(files, AgeKey)
  {
    if InOrder(files, AgeKey) {
      forall i, j | 0 <= i < j < |files|
        ensures OlderFirst(files[i], files[j])
      {
        assert Before(AgeKey(files[i]), AgeKey(files[j]));
      }
    }
    if OldestFirst(files) {
      forall i, j | 0 <= i < j < |files|
        ensures Before(AgeKey(files[i]), AgeKey(files[j]))
      {
        assert OlderFirst(files[i], files[j]);
      }
    }
  }

  // ----- scanning ----------------------------------------------------------------------------------

  predicate Eligible(entries: map<string, Entry>, name: string) {
    name in entries && entries[name].regular && !IsTemporaryName(name)
  }

  function FileOf(entries: map<string, Entry>, name: string): File
    requires name in entries
  {
    File(name, entries[name].size, entries[name].time)
  }

  /** The regular files that are not temporaries, in the order of the directory iterator. */
  function Scanned(entries: map<string, Entry>, order: seq<string>): (r: seq<File>)
    ensures forall f :: f in r <==> f.name in order && Eligible(entries, f.name) && f == FileOf(entries, f.name)
  {
    if order == [] then []
    else
      var rest := Scanned(entries, order[..|order| - 1]);
      var last := order[|order| - 1];
      assert forall n :: n in order <==> n in order[..|order| - 1] || n == last;
      if Eligible(entries, last) then rest + [FileOf(entries, last)] else rest
  }

  /** `order` names every entry once. */
  ghost predicate Lists(order: seq<string>, entries: map<string, Entry>) {
    && (forall i, j :: 0 <= i < j < |order| ==> order[i] != order[j])
    && (forall n :: n in order <==> n in entries)
  }

  lemma {:induction false} ScannedDistinct(entries: map<string, Entry>, order: seq<string>)
    requires forall i, j :: 0 <= i < j < |order| ==> order[i] != order[j]
    ensures DistinctNames(Scanned(entries, order))
  {
    if order != [] {
      var rest := Scanned(entries, order[..|order| - 1]);
      ScannedDistinct(entries, order[..|order| - 1]);
      forall i | 0 <= i < |rest|
        ensures rest[i].name != order[|order| - 1]
      {
        assert rest[i] in rest;
      }
    }
  }

  /** The files that retention looks at, oldest first. */
  function Queue(entries: map<string, Entry>, order: seq<string>): seq<File> {
    Sorted(Scanned(entries, order), AgeKey)
  }

  lemma QueueInOrder(entries: map<string, Entry>, order: seq<string>)
    requires Lists(order, entries)
    ensures OldestFirst(Queue(entries, order))
    ensures forall f :: f in Queue(entries, order) <==> Eligible(entries, f.name) && f == FileOf(entries, f.name)
  {
    ScannedDistinct(entries, order);
    SortedInOrder(Scanned(entries, order), AgeKey);
    OldestFirstIsInOrder(Queue(entries, order));
  }

  // ----- what is removed -----------------------------------------------------------------------------

  predicate Aged(f: File, limits: Limits) {
    limits.now - f.time > limits.maxAge
  }

  /** Size of the files from place `k` on. */
  function Total(files: seq<File>, k: nat): nat
    requires k <= |files|
    decreases |files| - k
  {
    if k == |files| then 0 else files[k].size + Total(files, k + 1)
  }

  /** The first place from `k` on whose file is young enough. */
  function FirstYoung(files: seq<File>, limits: Limits, k: nat): (n: nat)
    requires k <= |files|
    ensures k <= n <= |files|
    decreases |files| - k
  {
    if k == |files| || !Aged(files[k], limits) then k else FirstYoung(files, limits, k + 1)
  }

  function AgedCount(files: seq<File>, limits: Limits): (n: nat)
    ensures n <= |files|
  {
    FirstYoung(files, limits, 0)
  }

  /** Where the size loop stops when it comes to place `k` with the sum `total`. */
  function SizeStop(files: seq<File>, k: nat, total: nat, maxTotal: nat): (n: nat)
    requires k <= |files|
    ensures k <= n <= |files|
    decreases |files| - k
  {
    if k == |files| || total <= maxTotal then k
    else SizeStop(files, k + 1, if files[k].size <= total then total - files[k].size else 0, maxTotal)
  }

  /** How many of the oldest files a run without errors removes; the sum is a `uint64_t`. */
  function RemovedCount(files: seq<File>, limits: Limits): (n: nat)
    ensures AgedCount(files, limits) <= n <= |files|
  {
    var aged := AgedCount(files, limits);
    SizeStop(files, aged, Wrap(Total(files, aged), TWO_64), limits.maxTotal)
  }

  /** What a `uint32_t` count of `n` files reports. */
  function Reported(n: nat): nat {
    Wrap(n, TWO_32)
  }

  lemma {:induction false} YoungFrom(files: seq<File>, limits: Limits, k: nat, i: nat)
    requires OldestFirst(files) && k <= i < |files|
    ensures Aged(files[i], limits) <==> i < FirstYoung(files, limits, k)
    decreases i - k
  {
    if Aged(files[k], limits) && k < i {
      YoungFrom(files, limits, k + 1, i);
    } else if k < i {
      assert OlderFirst(files[k], files[i]);
    }
  }

  /** The aged files are the first ones. */
  predicate AgedFirst(files: seq<File>, limits: Limits) {
    forall i :: 0 <= i < |files| ==> (Aged(files[i], limits) <==> i < AgedCount(files, limits))
  }

  lemma AgedAreFirst(files: seq<File>, limits: Limits)
    requires OldestFirst(files)
    ensures AgedFirst(files, limits)
  {
    forall i | 0 <= i < |files|
      ensures Aged(files[i], limits) <==> i < AgedCount(files, limits)
    {
      YoungFrom(files, limits, 0, i);
    }
  }

  // ----- the requirement -------------------------------------------------------------------------------

  /** The files from place `k` on may stay. */
  predicate Admissible(files: seq<File>, limits: Limits, k: nat)
    requires k <= |files|
  {
    && (forall i :: k <= i < |files| ==> !Aged(files[i], limits))
    && Total(files, k) <= limits.maxTotal
  }

  /** `n` is where the longest admissible suffix begins. */
  predicate LongestSuffixFrom(files: seq<File>, limits: Limits, n: nat) {
    && n <= |files|
    && Admissible(files, limits, n)
    && forall k: nat :: k < n ==> !Admissible(files, limits, k)
  }

  /** The size loop stops at the first place from which the rest fits, if its sum is the true one. */
  lemma {:induction false} SizeStopExact(files: seq<File>, k: nat, maxTotal: nat)
    requires k <= |files|
    ensures var n := SizeStop(files, k, Total(files, k), maxTotal);
            && Total(files, n) <= maxTotal
            && forall i: nat :: k <= i < n ==> Total(files, i) > maxTotal
    decreases |files| - k
  {
    if k < |files| && Total(files, k) > maxTotal {
      SizeStopExact(files, k + 1, maxTotal);
    }
  }

  /** With a sum that lost a carry the loop stops too early. */
  lemma {:induction false} SizeStopShort(files: seq<File>, k: nat, total: nat, maxTotal: UInt64)
    requires k <= |files| && total + TWO_64 <= Total(files, k)
    ensures Total(files, SizeStop(files, k, total, maxTotal)) > maxTotal
    decreases |files| - k
  {
    if total > maxTotal {
      if files[k].size <= total {
        SizeStopShort(files, k + 1, total - files[k].size, maxTotal);
      } else {
        // the sum becomes zero, and what is left is still larger than `total`
        assert SizeStop(files, k + 1, 0, maxTotal) == k + 1;
      }
    }
  }

  /** Retention is exact if and only if the sizes of the files that are young enough add up to
      less than 2^64: otherwise the wrapped sum makes it keep more than the limit. */
  lemma ExactIffSumFits(files: seq<File>, limits: Limits)
    requires OldestFirst(files)
    ensures Total(files, AgedCount(files, limits)) < TWO_64 <==>
              LongestSuffixFrom(files, limits, RemovedCount(files, limits))
  {
    var aged := AgedCount(files, limits);
    AgedAreFirst(files, limits);
    if Total(files, aged) < TWO_64 {
      SizeStopExact(files, aged, limits.maxTotal);
    } else {
      WrapLoses(Total(files, aged), TWO_64);
      SizeStopShort(files, aged, Wrap(Total(files, aged), TWO_64), limits.maxTotal);
    }
  }

  const HALF: UInt64 := 0x8000_0000_0000_0000

  /** A directory that shows it: two young files of 2^63 bytes each are kept under a limit of
      zero, although not even one of them may stay. */
  lemma WrappedSumKeepsAll()
    ensures var entries := map["a" := Entry(true, HALF, 0), "b" := Entry(true, HALF, 1)];
            var files := Queue(entries, ["a", "b"]);
            var limits := Limits(1, 10, 0);
            && Lists(["a", "b"], entries)
            && files == [File("a", HALF, 0), File("b", HALF, 1)]
            && RemovedCount(files, limits) == 0
            && Total(files, 0) == TWO_64
            && LongestSuffixFrom(files, limits, 2)
  {
    var entries := map["a" := Entry(true, HALF, 0), "b" := Entry(true, HALF, 1)];
    var a, b := File("a", HALF, 0), File("b", HALF, 1);
    var order := ["a", "b"];
    assert order[..1] == ["a"] && order[..1][..0] == [];
    assert Scanned(entries, order[..1]) == [a];
    assert Scanned(entries, order) == [a, b];
    assert [a, b][1..] == [b] && [b][1..] == [];
    assert Sorted([b], AgeKey) == [b];
    var files, limits := [a, b], Limits(1, 10, 0);
    assert Total(files, 2) == 0 && Total(files, 1) == HALF;
    assert Wrap(TWO_64, TWO_64) == Wrap(0, TWO_64) == 0;
  }

  /** Only one place can begin the longest admissible suffix. */
  lemma LongestSuffixIsUnique(files: seq<File>, limits: Limits, n: nat, m: nat)
    requires LongestSuffixFrom(files, limits, n) && LongestSuffixFrom(files, limits, m)
    ensures n == m
  {
  }

  // ----- the run -----------------------------------------------------------------------------------

  /** `entries` without the files of places `from` to `to`. */
  function Without(entries: map<string, Entry>, files: seq<File>, from: nat, to: nat): map<string, Entry>
    requires from <= to <= |files|
  {
    if to == from then entries else Without(entries, files, from, to - 1) - {files[to - 1].name}
  }

  /** The first place from `from` on, before `to`, whose file cannot be removed. */
  function Reached(files: seq<File>, from: nat, to: nat, undeletable: set<string>): (m: nat)
    requires from <= to <= |files|
    ensures from <= m <= to
    decreases |files| - from
  {
    if from == to || files[from].name in undeletable then from else Reached(files, from + 1, to, undeletable)
  }

  lemma {:induction false} ReachedStep(files: seq<File>, from: nat, i: nat, to: nat, undeletable: set<string>)
    requires from <= i <= to <= |files|
    requires Reached(files, from, i, undeletable) == i
    ensures Reached(files, from, to, undeletable) == Reached(files, i, to, undeletable)
    decreases i - from
  {
    if from < i {
      ReachedStep(files, from + 1, i, to, undeletable);
    }
  }

  /** The run comes to file `i` and stops there or passes it. */
  lemma ReachedHere(files: seq<File>, from: nat, i: nat, to: nat, undeletable: set<string>)
    requires from <= i < to <= |files|
    requires Reached(files, from, i, undeletable) == i
    ensures if files[i].name in undeletable then Reached(files, from, to, undeletable) == i
            else Reached(files, from, i + 1, undeletable) == i + 1
  {
    ReachedStep(files, from, i, to, undeletable);
    ReachedStep(files, from, i, i + 1, undeletable);
  }

  lemma {:induction false} ReachedStops(files: seq<File>, from: nat, i: nat, to: nat, undeletable: set<string>)
    requires from <= i <= to <= |files|
    requires Reached(files, from, i, undeletable) < i
    ensures Reached(files, from, to, undeletable) == Reached(files, from, i, undeletable)
    decreases i - from
  {
    if from < i && files[from].name !in undeletable {
      ReachedStops(files, from + 1, i, to, undeletable);
    }
  }

  lemma {:induction false} WithoutJoins(entries: map<string, Entry>, files: seq<File>, a: nat, m: nat)
    requires a <= m <= |files|
    ensures Without(Without(entries, files, 0, a), files, a, m) == Without(entries, files, 0, m)
    decreases m
  {
    if a < m {
      WithoutJoins(entries, files, a, m - 1);
    }
  }

  lemma {:induction false} TotalAppend(files: seq<File>, f: File, k: nat)
    requires k <= |files|
    ensures Total(files + [f], k) == Total(files, k) + f.size
    decreases |files| - k
  {
    if k < |files| {
      TotalAppend(files, f, k + 1);
    }
  }

  datatype Run = Removed(count: nat) | RetentionError

  lemma {:induction false} TotalShift(files: seq<File>, aged: nat, k: nat)
    requires aged <= k <= |files|
    ensures Total(files[aged..], k - aged) == Total(files, k)
    decreases |files| - k
  {
    if k < |files| {
      TotalShift(files, aged, k + 1);
    }
  }

  class CapturesRoot {
    var entries: map<string, Entry>

    /** The age loop, which also collects and sums what is kept. */
    method RemoveAged(files: seq<File>, limits: Limits, undeletable: set<string>)
      returns (failed: bool, kept: seq<File>, total: UInt64, deleted: nat)
      requires AgedFirst(files, limits)
      modifies this
      ensures var aged := AgedCount(files, limits);
              var m := Reached(files, 0, aged, undeletable);
              && entries == Without(old(entries), files, 0, m) && (failed <==> m < aged)
              && (!failed ==>
                    kept == files[aged..] && total == Wrap(Total(files, aged), TWO_64) && deleted == Reported(aged))
    {
      failed, kept, total, deleted := false, [], 0, 0;
      ghost var aged, gone := AgedCount(files, limits), 0;
      for i := 0 to |files|
        invariant gone == (if i < aged then i else aged) && kept == files[gone..i]
        invariant total == Wrap(Total(kept, 0), TWO_64)
        invariant deleted == Reported(gone) && entries == Without(old(entries), files, 0, gone)
        invariant Reached(files, 0, gone, undeletable) == gone
      {
        if Aged(files[i], limits) {
          ReachedHere(files, 0, i, aged, undeletable);
          if files[i].name in undeletable {
            failed := true;
            return;
          }
          entries := entries - {files[i].name};
          WrapAdd(gone, 1, TWO_32);
          deleted := Wrap(deleted + 1, TWO_32);
          gone := gone + 1;
        } else {
          TotalAppend(kept, files[i], 0);
          WrapAdd(Total(kept, 0), files[i].size, TWO_64);
          total := Wrap(total + files[i].size, TWO_64);
          kept := kept + [files[i]];
        }
      }
      assert gone == aged;
      assert kept == files[aged..];
      TotalShift(files, aged, aged);
    }

    /** The size loop over the files from place `aged` on. */
    method RemoveForSize(kept: seq<File>, sum: UInt64, count: nat, maxTotal: UInt64, undeletable: set<string>,
                         ghost files: seq<File>, ghost aged: nat)
      returns (failed: bool, deleted: nat)
      requires aged <= |files| && kept == files[aged..] && count == Reported(aged)
      modifies this
      ensures var n := SizeStop(files, aged, sum, maxTotal);
              var m := Reached(files, aged, n, undeletable);
              && entries == Without(old(entries), files, aged, m) && (failed <==> m < n)
              && (!failed ==> deleted == Reported(n))
    {
      failed, deleted := false, count;
      var total: UInt64 := sum;
      ghost var n := SizeStop(files, aged, sum, maxTotal);
      for j := 0 to |kept|
        invariant n == SizeStop(files, aged + j, total, maxTotal)
        invariant deleted == Reported(aged + j) && entries == Without(old(entries), files, aged, aged + j)
        invariant Reached(files, aged, aged + j, undeletable) == aged + j
      {
        if total <= maxTotal {
          break;
        }
        ReachedHere(files, aged, aged + j, n, undeletable);
        if kept[j].name in undeletable {
          failed := true;
          return;
        }
        entries := entries - {kept[j].name};
        total := if kept[j].size <= total then total - kept[j].size else 0;
        WrapAdd(aged + j, 1, TWO_32);
        deleted := Wrap(deleted + 1, TWO_32);
      }
    }

    /** `enforce_retention`.  The iterator visits the entries in `order`; inspecting them fails
        if `scanFails`, and the files named in `undeletable` cannot be removed. */
    method EnforceRetention(limits: Limits, order: seq<string>, scanFails: bool, undeletable: set<string>)
      returns (r: Run)
      requires Lists(order, entries)
      modifies this
      ensures scanFails ==> r == RetentionError && entries == old(entries)
      ensures !scanFails ==>
                var files := Queue(old(entries), order);
                var n := RemovedCount(files, limits);
                var m := Reached(files, 0, n, undeletable);
                && entries == Without(old(entries), files, 0, m)
                && r == if m == n then Removed(Reported(n)) else RetentionError
    {
      if scanFails {
        return RetentionError;
      }
      var files := Queue(entries, order);
      QueueReady(entries, order, limits);
      r := RemoveFrom(files, limits, undeletable);
    }

    /** Both loops; sorting what the first one kept changes nothing. */
    method RemoveFrom(files: seq<File>, limits: Limits, undeletable: set<string>) returns (r: Run)
      requires AgedFirst(files, limits)
      requires Sorted(files[AgedCount(files, limits)..], AgeKey) == files[AgedCount(files, limits)..]
      modifies this
      ensures var n := RemovedCount(files, limits);
              var m := Reached(files, 0, n, undeletable);
              && entries == Without(old(entries), files, 0, m)
              && r == if m == n then Removed(Reported(n)) else RetentionError
    {
      ghost var aged, n := AgedCount(files, limits), RemovedCount(files, limits);
      var failed, kept, total, deleted := RemoveAged(files, limits, undeletable);
      if failed {
        ReachedStops(files, 0, aged, n, undeletable);
        return RetentionError;
      }
      kept := Sorted(kept, AgeKey);
      failed, deleted := RemoveForSize(kept, total, deleted, limits.maxTotal, undeletable, files, aged);
      ReachedStep(files, 0, aged, n, undeletable);
      WithoutJoins(old(entries), files, aged, Reached(files, aged, n, undeletable));
      return if failed then RetentionError else Removed(deleted);
    }
  }

  lemma QueueReady(entries: map<string, Entry>, order: seq<string>, limits: Limits)
    requires Lists(order, entries)
    ensures var files := Queue(entries, order);
            && AgedFirst(files, limits)
            && Sorted(files[AgedCount(files, limits)..], AgeKey) == files[AgedCount(files, limits)..]
  {
    QueueInOrder(entries, order);
    AgedAreFirst(Queue(entries, order), limits);
    var young := Queue(entries, order)[AgedCount(Queue(entries, order), limits)..];
    OldestFirstIsInOrder(young);
    SortedIdempotent(young, AgeKey);
  }

  // ----- what a run achieves -----------------------------------------------------------------------

  lemma {:induction false} WithoutIs(entries: map<string, Entry>, files: seq<File>, n: nat, name: string)
    requires n <= |files|
    ensures name in Without(entries, files, 0, n) <==>
              name in entries && forall i :: 0 <= i < n ==> files[i].name != name
    ensures name in Without(entries, files, 0, n) ==> Without(entries, files, 0, n)[name] == entries[name]
  {
    if n > 0 {
      WithoutIs(entries, files, n - 1, name);
    }
  }

  /** Whatever a run removes is a regular file with the name of a published capture; links,
      directories and temporaries survive every run, failed or not. */
  lemma OnlyCapturesAreRemoved(entries: map<string, Entry>, order: seq<string>, m: nat, name: string)
    requires Lists(order, entries) && m <= |Queue(entries, order)|
    requires name in entries && name !in Without(entries, Queue(entries, order), 0, m)
    ensures entries[name].regular && !IsTemporaryName(name)
  {
    QueueInOrder(entries, order);
    var files := Queue(entries, order);
    WithoutIs(entries, files, m, name);
    var i :| 0 <= i < m && files[i].name == name;
    assert files[i] in files;
  }

  /** After `m` files are gone a new scan, in whatever order, sees the others. */
  lemma QueueAfter(entries: map<string, Entry>, order: seq<string>, m: nat, order': seq<string>)
    requires Lists(order, entries) && m <= |Queue(entries, order)|
    requires Lists(order', Without(entries, Queue(entries, order), 0, m))
    ensures Queue(Without(entries, Queue(entries, order), 0, m), order') == Queue(entries, order)[m..]
  {
    var files := Queue(entries, order);
    var entries' := Without(entries, files, 0, m);
    QueueInOrder(entries, order);
    QueueInOrder(entries', order');
    forall f
      ensures f in Queue(entries', order') <==> f in files[m..]
    {
      WithoutIs(entries, files, m, f.name);
      QueueSplit(entries, order, m, f);
    }
    OldestFirstIsInOrder(Queue(entries', order'));
    OldestFirstIsInOrder(files[m..]);
    SortIsUnique(Queue(entries', order'), files[m..], AgeKey);
  }

  lemma QueueSplit(entries: map<string, Entry>, order: seq<string>, m: nat, f: File)
    requires Lists(order, entries) && m <= |Queue(entries, order)|
    ensures var files := Queue(entries, order);
            f in files[m..] <==> f in files && forall i :: 0 <= i < m ==> files[i].name != f.name
  {
    var files := Queue(entries, order);
    QueueInOrder(entries, order);
    if f in files[m..] {
      var j :| m <= j < |files| && files[j] == f;
      forall i | 0 <= i < m
        ensures files[i].name != f.name
      {
        BeforeOrders(AgeKey(f), AgeKey(f));
        assert files[i] in files && f in files;
      }
    }
  }

  /** A run without errors whose sum stays below 2^64 leaves the longest admissible suffix of
      the files in (write time, name) order and reports how many it removed; a second run at the
      same instant removes nothing. */
  lemma SecondRunRemovesNone(entries: map<string, Entry>, order: seq<string>, limits: Limits, order': seq<string>)
    requires Lists(order, entries)
    requires var files := Queue(entries, order); Total(files, AgedCount(files, limits)) < TWO_64
    requires var files := Queue(entries, order); Lists(order', Without(entries, files, 0, RemovedCount(files, limits)))
    ensures var files := Queue(entries, order);
            var left := Queue(Without(entries, files, 0, RemovedCount(files, limits)), order');
            && LongestSuffixFrom(files, limits, RemovedCount(files, limits))
            && left == files[RemovedCount(files, limits)..]
            && RemovedCount(left, limits) == 0
  {
    var files := Queue(entries, order);
    var n := RemovedCount(files, limits);
    QueueInOrder(entries, order);
    QueueAfter(entries, order, n, order');
    ExactIffSumFits(files, limits);
    AdmissibleStays(files, limits, n);
  }

  lemma AdmissibleStays(files: seq<File>, limits: Limits, n: nat)
    requires n <= |files| && Admissible(files, limits, n)
    ensures RemovedCount(files[n..], limits) == 0
  {
    TotalShift(files, n, n);
    assert AgedCount(files[n..], limits) == 0;
  }

  // ----- the same for single files -----------------------------------------------------------------

  /** Where an eligible file stands in the queue. */
  lemma PlaceInQueue(entries: map<string, Entry>, order: seq<string>, name: string) returns (i: nat)
    requires Lists(order, entries) && Eligible(entries, name)
    ensures i < |Queue(entries, order)| && Queue(entries, order)[i] == FileOf(entries, name)
  {
    QueueInOrder(entries, order);
    var files := Queue(entries, order);
    assert FileOf(entries, name) in files;
    i :| 0 <= i < |files| && files[i] == FileOf(entries, name);
  }

  /** Only the file at its place in the queue has the name. */
  lemma RemovedByPlace(entries: map<string, Entry>, order: seq<string>, m: nat, name: string, i: nat)
    requires Lists(order, entries) && m <= |Queue(entries, order)| && Eligible(entries, name)
    requires i < |Queue(entries, order)| && Queue(entries, order)[i] == FileOf(entries, name)
    ensures name in Without(entries, Queue(entries, order), 0, m) <==> m <= i
  {
    QueueInOrder(entries, order);
    var files := Queue(entries, order);
    WithoutIs(entries, files, m, name);
    forall k | 0 <= k < m && files[k].name == name
      ensures k == i
    {
      assert files[k] in files;
      if k != i {
        OnePlace(files, i, k);
      }
    }
  }

  lemma OnePlace(files: seq<File>, i: nat, k: nat)
    requires OldestFirst(files) && i < |files| && k < |files| && i != k
    ensures files[i] != files[k]
  {
    BeforeOrders(AgeKey(files[i]), AgeKey(files[i]));
    if i < k {
      assert OlderFirst(files[i], files[k]);
    } else {
      assert OlderFirst(files[k], files[i]);
    }
  }

  /** What a run without errors does to a single file: only regular files that are not temporaries
      are ever removed; one that is older than the maximal age is removed, and one that is exactly
      that old or younger is kept if the files of such an age fit the size limit. */
  lemma FileFate(entries: map<string, Entry>, order: seq<string>, limits: Limits, name: string)
    requires Lists(order, entries) && name in entries
    ensures var files := Queue(entries, order);
            var after := Without(entries, files, 0, RemovedCount(files, limits));
            && (!entries[name].regular || IsTemporaryName(name) ==> name in after)
            && (entries[name].regular && !IsTemporaryName(name) && entries[name].time + limits.maxAge < limits.now ==>
                  name !in after)
            && (Total(files, AgedCount(files, limits)) <= limits.maxTotal ==>
                  entries[name].time + limits.maxAge >= limits.now ==> name in after)
            && (name in after ==> after[name] == entries[name])
  {
    var files := Queue(entries, order);
    var n := RemovedCount(files, limits);
    QueueInOrder(entries, order);
    AgedAreFirst(files, limits);
    WithoutIs(entries, files, n, name);
    if Eligible(entries, name) {
      var i := PlaceInQueue(entries, order, name);
      RemovedByPlace(entries, order, n, name, i);
      FittingStays(files, limits);
      assert Aged(files[i], limits) <==> i < AgedCount(files, limits);
    } else if name !in Without(entries, files, 0, n) {
      OnlyCapturesAreRemoved(entries, order, n, name);
    }
  }

  /** When what is young enough fits, only the aged files are removed. */
  lemma FittingStays(files: seq<File>, limits: Limits)
    ensures Total(files, AgedCount(files, limits)) <= limits.maxTotal ==>
              RemovedCount(files, limits) == AgedCount(files, limits)
  {
  }

  /** A run removes older files before younger ones, and files of the same time by name. */
  lemma OlderGoesFirst(entries: map<string, Entry>, order: seq<string>, m: nat, removed: string, kept: string)
    requires Lists(order, entries) && m <= |Queue(entries, order)|
    requires Eligible(entries, removed) && removed !in Without(entries, Queue(entries, order), 0, m)
    requires Eligible(entries, kept) && kept in Without(entries, Queue(entries, order), 0, m)
    ensures entries[removed].time < entries[kept].time
              || (entries[removed].time == entries[kept].time && LexLess(removed, kept))
  {
    var i := PlaceInQueue(entries, order, removed);
    var j := PlaceInQueue(entries, order, kept);
    RemovedByPlace(entries, order, m, removed, i);
    RemovedByPlace(entries, order, m, kept, j);
    QueueInOrder(entries, order);
    assert OlderFirst(Queue(entries, order)[i], Queue(entries, order)[j]);
  }

  /** A run that cannot remove one of its files has removed exactly those before the first such
      file; otherwise it removes them all. */
  lemma {:induction false} ReachedExactly(files: seq<File>, from: nat, to: nat, undeletable: set<string>)
    requires from <= to <= |files|
    ensures var m := Reached(files, from, to, undeletable);
            && (forall i :: from <= i < m ==> files[i].name !in undeletable)
            && (m < to ==> files[m].name in undeletable)
    decreases |files| - from
  {
    if from < to && files[from].name !in undeletable {
      ReachedExactly(files, from + 1, to, undeletable);
    }
  }

  /** The reported count is the number of removed files as long as that fits 32 bits. */
  lemma CountIsReported(n: nat)
    ensures n < 0x1_0000_0000 ==> Reported(n) == n
    ensures Reported(0x1_0000_0000) == 0
  {
    assert Wrap(0x1_0000_0000, TWO_32) == Wrap(0, TWO_32) == 0;
  }
}
