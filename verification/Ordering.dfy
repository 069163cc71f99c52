/** Sorting by a three-part key. The source sorts messages, calendar events,
    intervals and zone transitions with comparators that are all lexicographic
    orders on integers, so one insertion sort over such keys serves them all. */
module Ordering {

  datatype Key = Key(major: int, middle: int, minor: int)

  predicate Less(a: Key, b: Key) {
    a.major < b.major
    || (a.major == b.major && a.middle < b.middle)
    || (a.major == b.major && a.middle == b.middle && a.minor < b.minor)
  }

  function Insert<T>(x: T, s: seq<T>, key: T -> Key): seq<T> {
    if s != [] && Less(key(s[0]), key(x)) then [s[0]] + Insert(x, s[1..], key)
    else [x] + s
  }

  function Sort<T>(s: seq<T>, key: T -> Key): seq<T> {
    if s == [] then [] else Insert(s[0], Sort(s[1..], key), key)
  }

  /** The first k elements, or all of them when there are fewer. */
  function Take<T>(s: seq<T>, k: nat): seq<T> {
    if |s| <= k then s else s[..k]
  }

  function Filter<T>(s: seq<T>, keep: T -> bool): seq<T> {
    if s == [] then []
    else (if keep(s[0]) then [s[0]] else []) + Filter(s[1..], keep)
  }

  /** No element precedes an earlier one. */
  ghost predicate Sorted<T>(s: seq<T>, key: T -> Key) {
    forall i, j :: 0 <= i < j < |s| ==> !Less(key(s[j]), key(s[i]))
  }

  /** Every element precedes all later ones. */
  ghost predicate Strict<T>(s: seq<T>, key: T -> Key) {
    forall i, j :: 0 <= i < j < |s| ==> Less(key(s[i]), key(s[j]))
  }

  ghost predicate DistinctKeys<T>(s: seq<T>, key: T -> Key) {
    forall i, j :: 0 <= i < j < |s| ==> key(s[i]) != key(s[j])
  }

  ghost predicate SameElements<T(!new)>(a: seq<T>, b: seq<T>) {
    forall x :: x in a <==> x in b
  }

  lemma {:induction false} InsertElements<T(!new)>(x: T, s: seq<T>, key: T -> Key)
    ensures multiset(Insert(x, s, key)) == multiset{x} + multiset(s)
    ensures |Insert(x, s, key)| == |s| + 1
  {
    if s != [] && Less(key(s[0]), key(x)) {
      InsertElements(x, s[1..], key);
      assert s == [s[0]] + s[1..];
    }
  }

  lemma {:induction false} SortElements<T(!new)>(s: seq<T>, key: T -> Key)
    ensures multiset(Sort(s, key)) == multiset(s)
    ensures |Sort(s, key)| == |s|
  {
    if s != [] {
      SortElements(s[1..], key);
      InsertElements(s[0], Sort(s[1..], key), key);
      assert s == [s[0]] + s[1..];
    }
  }

  lemma {:induction false} SortMembers<T(!new)>(s: seq<T>, key: T -> Key)
    ensures forall x :: x in Sort(s, key) <==> x in s
  {
    SortElements(s, key);
    forall x ensures x in Sort(s, key) <==> x in s {
      assert x in Sort(s, key) <==> x in multiset(Sort(s, key));
      assert x in s <==> x in multiset(s);
    }
  }

  lemma {:induction false} InsertMembers<T(!new)>(x: T, s: seq<T>, key: T -> Key)
    ensures forall y :: y in Insert(x, s, key) <==> y == x || y in s
  {
    InsertElements(x, s, key);
    forall y ensures y in Insert(x, s, key) <==> y == x || y in s {
      assert y in Insert(x, s, key) <==> y in multiset(Insert(x, s, key));
      assert y in s <==> y in multiset(s);
    }
  }

  lemma {:induction false} InsertSorted<T(!new)>(x: T, s: seq<T>, key: T -> Key)
    requires Sorted(s, key)
    ensures Sorted(Insert(x, s, key), key)
  {
    if s != [] && Less(key(s[0]), key(x)) {
      var rest := Insert(x, s[1..], key);
      InsertSorted(x, s[1..], key);
      InsertMembers(x, s[1..], key);
      forall j | 0 <= j < |rest| ensures !Less(key(rest[j]), key(s[0])) {
        assert rest[j] in rest;
      }
    } else {
      forall j | 0 <= j < |s| ensures !Less(key(s[j]), key(x)) { }
    }
  }

  lemma {:induction false} SortSorted<T(!new)>(s: seq<T>, key: T -> Key)
    ensures Sorted(Sort(s, key), key)
  {
    if s != [] {
      SortSorted(s[1..], key);
      InsertSorted(s[0], Sort(s[1..], key), key);
    }
  }

  /** With distinct keys the sorted sequence is strictly sorted. */
  lemma {:induction false} SortStrict<T(!new)>(s: seq<T>, key: T -> Key)
    requires DistinctKeys(s, key)
    ensures Strict(Sort(s, key), key)
  {
    if s != [] {
      var rest := Sort(s[1..], key);
      SortStrict(s[1..], key);
      SortMembers(s[1..], key);
      forall y | y in rest ensures key(y) != key(s[0]) {
        var j :| 0 <= j < |s[1..]| && s[1..][j] == y;
        assert s[j + 1] == y;
      }
      InsertStrict(s[0], rest, key);
    }
  }

  lemma {:induction false} InsertStrict<T(!new)>(x: T, s: seq<T>, key: T -> Key)
    requires Strict(s, key)
    requires forall y :: y in s ==> key(y) != key(x)
    ensures Strict(Insert(x, s, key), key)
  {
    if s != [] && Less(key(s[0]), key(x)) {
      var rest := Insert(x, s[1..], key);
      InsertStrict(x, s[1..], key);
      InsertMembers(x, s[1..], key);
      forall j | 0 <= j < |rest| ensures Less(key(s[0]), key(rest[j])) {
        assert rest[j] in rest;
      }
    } else {
      forall j | 0 <= j < |s| ensures Less(key(x), key(s[j])) {
        assert s[j] in s && s[0] in s;
      }
    }
  }

  /** A set has only one strictly sorted enumeration. */
  lemma {:induction false} StrictUnique<T(!new)>(a: seq<T>, b: seq<T>, key: T -> Key)
    requires Strict(a, key) && Strict(b, key) && SameElements(a, b)
    ensures a == b
  {
    assert b != [] ==> b[0] in b;
    if a != [] {
      assert a[0] in a;
      assert a[0] in b;
      assert b[0] in b;
      assert b[0] in a;
      assert a[0] == b[0];
      forall x ensures x in a[1..] <==> x in b[1..] {
        if x in a[1..] {
          var i :| 0 <= i < |a[1..]| && a[1..][i] == x;
          assert x == a[i + 1] && x in a && x in b;
          assert Less(key(a[0]), key(x));
          var j :| 0 <= j < |b| && b[j] == x;
          assert j != 0;
          assert x == b[1..][j - 1];
        }
        if x in b[1..] {
          var i :| 0 <= i < |b[1..]| && b[1..][i] == x;
          assert x == b[i + 1] && x in b && x in a;
          assert Less(key(b[0]), key(x));
          var j :| 0 <= j < |a| && a[j] == x;
          assert j != 0;
          assert x == a[1..][j - 1];
        }
      }
      StrictUnique(a[1..], b[1..], key);
      assert a == [a[0]] + a[1..] && b == [b[0]] + b[1..];
    }
  }

  lemma {:induction false} FilterMembers<T(!new)>(s: seq<T>, keep: T -> bool)
    ensures forall x :: x in Filter(s, keep) <==> x in s && keep(x)
  {
    if s != [] {
      FilterMembers(s[1..], keep);
      assert s == [s[0]] + s[1..];
    }
  }

  lemma {:induction false} FilterSame<T(!new)>(s: seq<T>, keep: T -> bool, other: T -> bool)
    requires forall x :: x in s ==> keep(x) == other(x)
    ensures Filter(s, keep) == Filter(s, other)
  {
    if s != [] {
      FilterSame(s[1..], keep, other);
    }
  }

  lemma {:induction false} FilterNothing<T(!new)>(s: seq<T>, keep: T -> bool)
    requires forall x :: x in s ==> !keep(x)
    ensures Filter(s, keep) == []
  {
    if s != [] {
      FilterNothing(s[1..], keep);
    }
  }

  lemma {:induction false} FilterStrict<T(!new)>(s: seq<T>, keep: T -> bool, key: T -> Key)
    requires Strict(s, key)
    ensures Strict(Filter(s, keep), key)
  {
    if s != [] {
      FilterStrict(s[1..], keep, key);
      FilterMembers(s[1..], keep);
      var rest := Filter(s[1..], keep);
      forall j | 0 <= j < |rest| ensures Less(key(s[0]), key(rest[j])) {
        assert rest[j] in rest;
        assert rest[j] in s[1..];
      }
    }
  }

  lemma {:induction false} FilterDistinct<T(!new)>(s: seq<T>, keep: T -> bool, key: T -> Key)
    requires DistinctKeys(s, key)
    ensures DistinctKeys(Filter(s, keep), key)
  {
    if s != [] {
      FilterDistinct(s[1..], keep, key);
      FilterMembers(s[1..], keep);
      var rest := Filter(s[1..], keep);
      forall j | 0 <= j < |rest| ensures key(s[0]) != key(rest[j]) {
        assert rest[j] in rest;
        var i :| 0 <= i < |s[1..]| && s[1..][i] == rest[j];
        assert s[i + 1] == rest[j];
      }
    }
  }

  lemma {:induction false} FilterAppend<T(!new)>(a: seq<T>, b: seq<T>, keep: T -> bool)
    ensures Filter(a + b, keep) == Filter(a, keep) + Filter(b, keep)
  {
    if a == [] {
      assert a + b == b;
    } else {
      FilterAppend(a[1..], b, keep);
      assert (a + b)[1..] == a[1..] + b;
    }
  }

  /** Sorting an already sorted sequence changes nothing. */
  lemma {:induction false} SortIdempotent<T(!new)>(s: seq<T>, key: T -> Key)
    requires Strict(s, key)
    ensures Sort(s, key) == s
  {
    SortStrict(s, key);
    SortMembers(s, key);
    StrictUnique(Sort(s, key), s, key);
  }

  lemma {:induction false} SortSame<T(!new)>(a: seq<T>, b: seq<T>, key: T -> Key)
    requires DistinctKeys(a, key) && DistinctKeys(b, key) && SameElements(a, b)
    ensures Sort(a, key) == Sort(b, key)
  {
    SortStrict(a, key);
    SortStrict(b, key);
    SortMembers(a, key);
    SortMembers(b, key);
    StrictUnique(Sort(a, key), Sort(b, key), key);
  }

  function InsertAll<T>(xs: seq<T>, s: seq<T>, key: T -> Key): seq<T> {
    if xs == [] then s else Insert(xs[0], InsertAll(xs[1..], s, key), key)
  }

  lemma {:induction false} SortAppend<T(!new)>(xs: seq<T>, ys: seq<T>, key: T -> Key)
    ensures Sort(xs + ys, key) == InsertAll(xs, Sort(ys, key), key)
  {
    if xs == [] {
      assert xs + ys == ys;
    } else {
      SortAppend(xs[1..], ys, key);
      assert (xs + ys)[1..] == xs[1..] + ys;
    }
  }

  lemma {:induction false} TakeCons<T>(x: T, s: seq<T>, k: nat)
    ensures Take([x] + s, k) == if k == 0 then [] else [x] + Take(s, k - 1)
  {
  }

  lemma {:induction false} TakeInsert<T(!new)>(x: T, s: seq<T>, k: nat, key: T -> Key)
    ensures Take(Insert(x, Take(s, k), key), k) == Take(Insert(x, s, key), k)
  {
    if k == 0 || s == [] {
    } else {
      var kept := Take(s, k);
      assert s == [s[0]] + s[1..];
      TakeCons(s[0], s[1..], k);
      assert kept[1..] == Take(s[1..], k - 1);
      if Less(key(s[0]), key(x)) {
        TakeInsert(x, s[1..], k - 1, key);
        TakeCons(s[0], Insert(x, s[1..], key), k);
        TakeCons(s[0], Insert(x, kept[1..], key), k);
      } else {
        TakeCons(x, s, k);
        TakeCons(x, kept, k);
        assert Take(kept, k - 1) == Take(s, k - 1);
      }
    }
  }

  lemma {:induction false} TakeInsertAll<T(!new)>(xs: seq<T>, s: seq<T>, k: nat, key: T -> Key)
    ensures Take(InsertAll(xs, Take(s, k), key), k) == Take(InsertAll(xs, s, key), k)
  {
    if xs == [] {
    } else {
      TakeInsertAll(xs[1..], s, k, key);
      TakeInsert(xs[0], InsertAll(xs[1..], s, key), k, key);
      TakeInsert(xs[0], InsertAll(xs[1..], Take(s, k), key), k, key);
    }
  }

  /** Keeping only the best k between batches loses nothing: the best k of a new
      batch and the kept ones are the best k of everything. */
  lemma {:induction false} BestOfBatches<T(!new)>(batch: seq<T>, seen: seq<T>, k: nat, key: T -> Key)
    requires DistinctKeys(seen, key)
    ensures Take(Sort(batch + Take(Sort(seen, key), k), key), k) == Take(Sort(batch + seen, key), k)
  {
    var best := Take(Sort(seen, key), k);
    SortStrict(seen, key);
    SortIdempotent(best, key);
    SortAppend(batch, best, key);
    SortAppend(batch, seen, key);
    TakeInsertAll(batch, Sort(seen, key), k, key);
  }

  /** A strictly sorted sequence has no more elements than one that contains it. */
  lemma {:induction false} StrictPartLength<T(!new)>(part: seq<T>, all: seq<T>, key: T -> Key)
    requires Strict(part, key) && Strict(all, key) && forall x :: x in part ==> x in all
    ensures |part| <= |all|
  {
    if part != [] {
      assert part[0] in all;
      var i :| 0 <= i < |all| && all[i] == part[0];
      forall x | x in part[1..] ensures x in all[i + 1..] {
        assert x in part && Less(key(part[0]), key(x));
        var j :| 0 <= j < |all| && all[j] == x;
        assert j > i;
        assert all[i + 1..][j - i - 1] == x;
      }
      StrictPartLength(part[1..], all[i + 1..], key);
    }
  }

  /** The first n values of a function. */
  function Tabulate<T>(f: nat --> T, n: nat): (values: seq<T>)
    requires forall i: nat :: i < n ==> f.requires(i)
    ensures |values| == n
  {
    if n == 0 then [] else Tabulate(f, n - 1) + [f(n - 1)]
  }

  lemma {:induction false} TabulateAt<T>(f: nat --> T, n: nat, i: nat)
    requires i < n && forall k: nat :: k < n ==> f.requires(k)
    ensures Tabulate(f, n)[i] == f(i)
    decreases n
  {
    if i < n - 1 {
      TabulateAt(f, n - 1, i);
    }
  }
}
