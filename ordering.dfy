/**
 * The query shapes both backends use over their tables: `WHERE` (Filter),
 * `ORDER BY key DESC` (SortDesc), `OFFSET`/`LIMIT` (Page).
 */
module Ordering {
  import opened Wrappers

  /** No element has a larger key than one before it: the order `ORDER BY key DESC` returns. */
  predicate SortedDesc<T>(s: seq<T>, key: T -> int) {
    forall i, j :: 0 <= i < j < |s| ==> key(s[i]) >= key(s[j])
  }

  /** Keys strictly increase along the sequence (e.g. insertion timestamps in table order). */
  predicate Increasing<T>(s: seq<T>, key: T -> int) {
    forall i, j :: 0 <= i < j < |s| ==> key(s[i]) < key(s[j])
  }

  /** Putting an element with a key no smaller than the head in front of a descending sequence keeps it descending. */
  lemma SortedDescCons<T>(a: T, t: seq<T>, key: T -> int)
    requires SortedDesc(t, key)
    requires |t| > 0 ==> key(t[0]) <= key(a)
    ensures SortedDesc([a] + t, key)
  {
    var r := [a] + t;
    forall i, j | 0 <= i < j < |r| ensures key(r[i]) >= key(r[j]) {
      if i == 0 {
        assert r[j] == t[j - 1];
      } else {
        assert r[i] == t[i - 1] && r[j] == t[j - 1];
      }
    }
  }

  /** Inserts `x` into a descending sequence, in front of the first element whose key is not larger. */
  function InsertDesc<T>(x: T, s: seq<T>, key: T -> int): (r: seq<T>)
    requires SortedDesc(s, key)
    ensures SortedDesc(r, key)
    ensures multiset(r) == multiset(s) + multiset{x}
    ensures |r| == |s| + 1
    ensures r[0] == x || (|s| > 0 && r[0] == s[0])
    decreases |s|
  {
    if s == [] then [x]
    else if key(s[0]) <= key(x) then
      SortedDescCons(x, s, key);
      [x] + s
    else
      var t := InsertDesc(x, s[1..], key);
      InsertDescBehind(x, s, t, key);
      [s[0]] + t
  }

  /** Keeping the head of `s` in front of `x` inserted into its tail gives `x` inserted into `s`. */
  lemma InsertDescBehind<T>(x: T, s: seq<T>, t: seq<T>, key: T -> int)
    requires |s| > 0 && key(x) < key(s[0]) && SortedDesc(s, key) && SortedDesc(t, key)
    requires multiset(t) == multiset(s[1..]) + multiset{x}
    requires |t| > 0 && (t[0] == x || (|s| > 1 && t[0] == s[1]))
    ensures SortedDesc([s[0]] + t, key)
    ensures multiset([s[0]] + t) == multiset(s) + multiset{x}
  {
    assert s == [s[0]] + s[1..];
    assert key(t[0]) <= key(s[0]);
    SortedDescCons(s[0], t, key);
  }

  /**
   * `ORDER BY key DESC`, as an insertion sort. Elements with equal keys keep their
   * table order; SQL leaves that order open, and this is the one the model picks.
   */
  function SortDesc<T>(s: seq<T>, key: T -> int): (r: seq<T>)
    ensures SortedDesc(r, key)
    ensures multiset(r) == multiset(s)
    ensures |r| == |s|
    decreases |s|
  {
    if s == [] then []
    else
      assert s == [s[0]] + s[1..];
      InsertDesc(s[0], SortDesc(s[1..], key), key)
  }

  /** Sorting keeps exactly the rows it was given. */
  lemma SortDescSameRows<T>(s: seq<T>, key: T -> int)
    ensures forall i :: 0 <= i < |SortDesc(s, key)| ==> SortDesc(s, key)[i] in s
    ensures forall x :: x in s ==> x in SortDesc(s, key)
  {
    var r := SortDesc(s, key);
    forall i | 0 <= i < |r| ensures r[i] in s {
      assert r[i] in multiset(r);
    }
    forall x | x in s ensures x in r {
      assert x in multiset(s);
    }
  }

  function Reverse<T>(s: seq<T>): (r: seq<T>)
    ensures |r| == |s|
    ensures forall i :: 0 <= i < |s| ==> r[i] == s[|s| - 1 - i]
    decreases |s|
  {
    if s == [] then [] else Reverse(s[1..]) + [s[0]]
  }

  /** An element whose key is below every key of a descending sequence goes to its end. */
  lemma {:induction false} InsertBelowAll<T>(x: T, s: seq<T>, key: T -> int)
    requires SortedDesc(s, key)
    requires forall i :: 0 <= i < |s| ==> key(s[i]) > key(x)
    ensures InsertDesc(x, s, key) == s + [x]
    decreases |s|
  {
    if s != [] {
      InsertBelowAll(x, s[1..], key);
      assert [s[0]] + (s[1..] + [x]) == s + [x];
    }
  }

  /**
   * When the keys grow along the table (rows stamped by a clock that moves forward),
   * `ORDER BY key DESC` is exactly the table read backwards: newest first.
   */
  lemma {:induction false} SortDescOfIncreasing<T>(s: seq<T>, key: T -> int)
    requires Increasing(s, key)
    ensures SortDesc(s, key) == Reverse(s)
    decreases |s|
  {
    if s != [] {
      var tail := s[1..];
      assert Increasing(tail, key) by {
        forall i, j | 0 <= i < j < |tail| ensures key(tail[i]) < key(tail[j]) {
          assert tail[i] == s[i + 1] && tail[j] == s[j + 1];
        }
      }
      SortDescOfIncreasing(tail, key);
      var t := Reverse(tail);
      assert SortDesc(s, key) == InsertDesc(s[0], t, key);
      assert forall i :: 0 <= i < |t| ==> key(t[i]) > key(s[0]) by {
        forall i | 0 <= i < |t| ensures key(t[i]) > key(s[0]) {
          var k := |tail| - 1 - i;
          assert t[i] == tail[k];
          assert tail[k] == s[k + 1];
        }
      }
      InsertBelowAll(s[0], t, key);
      assert Reverse(s) == t + [s[0]];
    }
  }

  /** `WHERE p`: the rows satisfying `p`, in table order. */
  function Filter<T>(s: seq<T>, p: T -> bool): (r: seq<T>)
    ensures |r| <= |s|
    ensures forall i :: 0 <= i < |r| ==> p(r[i]) && r[i] in s
    ensures forall i :: 0 <= i < |s| && p(s[i]) ==> s[i] in r
    decreases |s|
  {
    if s == [] then []
    else
      var rest := Filter(s[1..], p);
      assert forall i :: 1 <= i < |s| ==> s[i] == s[1..][i - 1];
      (if p(s[0]) then [s[0]] else []) + rest
  }

  /** A lower bound on every key of a table is one on every key of its filtered rows. */
  lemma {:induction false} FilterAbove<T>(s: seq<T>, p: T -> bool, key: T -> int, bound: int)
    requires forall i :: 0 <= i < |s| ==> key(s[i]) > bound
    ensures forall i :: 0 <= i < |Filter(s, p)| ==> key(Filter(s, p)[i]) > bound
    decreases |s|
  {
    if s != [] {
      assert forall i :: 0 <= i < |s[1..]| ==> s[1..][i] == s[i + 1];
      FilterAbove(s[1..], p, key, bound);
    }
  }

  /** An element with a key below every key of an increasing sequence can go in front of it. */
  lemma IncreasingCons<T>(a: T, t: seq<T>, key: T -> int)
    requires Increasing(t, key)
    requires forall i :: 0 <= i < |t| ==> key(t[i]) > key(a)
    ensures Increasing([a] + t, key)
  {
    var r := [a] + t;
    forall i, j | 0 <= i < j < |r| ensures key(r[i]) < key(r[j]) {
      assert r[j] == t[j - 1];
      if i > 0 {
        assert r[i] == t[i - 1];
      }
    }
  }

  /** Filtering keeps increasing keys increasing. */
  lemma {:induction false} FilterIncreasing<T>(s: seq<T>, p: T -> bool, key: T -> int)
    requires Increasing(s, key)
    ensures Increasing(Filter(s, p), key)
    decreases |s|
  {
    if s != [] {
      var tail := s[1..];
      assert forall i :: 0 <= i < |tail| ==> tail[i] == s[i + 1];
      FilterIncreasing(tail, p, key);
      FilterAbove(tail, p, key, key(s[0]));
      if p(s[0]) {
        IncreasingCons(s[0], Filter(tail, p), key);
      }
    }
  }

  /** Filtering a table in two pieces is filtering each piece: rows keep their order and their multiplicity. */
  lemma {:induction false} FilterAppend<T>(a: seq<T>, b: seq<T>, p: T -> bool)
    ensures Filter(a + b, p) == Filter(a, p) + Filter(b, p)
    decreases |a|
  {
    if a == [] {
      assert a + b == b;
    } else {
      assert (a + b)[1..] == a[1..] + b;
      FilterAppend(a[1..], b, p);
    }
  }

  /** A single row passes the filter exactly when it satisfies `p`. */
  lemma FilterOne<T>(x: T, p: T -> bool)
    ensures Filter([x], p) == if p(x) then [x] else []
  {
  }

  /** Number of rows satisfying `p`: `sum(1 for x in s if p(x))`. */
  function Count<T>(s: seq<T>, p: T -> bool): nat {
    |Filter(s, p)|
  }

  function Min(a: int, b: int): int {
    if a <= b then a else b
  }

  /**
   * Where `OFFSET skip` starts in a table of `len` rows: SQLite reads a negative offset
   * as 0, and an offset past the end leaves nothing.
   */
  function PageStart(len: nat, skip: int): (k: nat)
    ensures k <= len
    ensures skip <= 0 ==> k == 0
    ensures 0 <= skip <= len ==> k == skip
  {
    if skip <= 0 then 0 else if skip <= len then skip else len
  }

  /**
   * `OFFSET skip LIMIT limit` on SQLite: the rows from `PageStart` on, at most `limit`
   * of them; a negative `limit` sets no bound.
   */
  function Page<T>(s: seq<T>, skip: int, limit: int): (r: seq<T>)
    ensures limit >= 0 ==> |r| == Min(limit, |s| - PageStart(|s|, skip))
    ensures limit < 0 ==> |r| == |s| - PageStart(|s|, skip)
    ensures forall i :: 0 <= i < |r| ==> r[i] == s[PageStart(|s|, skip) + i]
  {
    var rest := s[PageStart(|s|, skip)..];
    if 0 <= limit < |rest| then rest[..limit] else rest
  }

  /** A page holds rows of the table only. */
  lemma PageRows<T>(s: seq<T>, skip: int, limit: int)
    ensures forall i :: 0 <= i < |Page(s, skip, limit)| ==> Page(s, skip, limit)[i] in s
  {
    var r := Page(s, skip, limit);
    forall i | 0 <= i < |r| ensures r[i] in s {
      assert r[i] == s[PageStart(|s|, skip) + i];
    }
  }

  /** A page of a sorted table is sorted. */
  lemma PageSorted<T>(s: seq<T>, skip: int, limit: int, key: T -> int)
    requires SortedDesc(s, key)
    ensures SortedDesc(Page(s, skip, limit), key)
  {
    var r := Page(s, skip, limit);
    var k := PageStart(|s|, skip);
    forall i, j | 0 <= i < j < |r| ensures key(r[i]) >= key(r[j]) {
      assert r[i] == s[k + i] && r[j] == s[k + j];
    }
  }

  /** `sum(f(x) for x in s)` over integers. */
  function SumInt<T>(s: seq<T>, f: T -> int): int
    decreases |s|
  {
    if s == [] then 0 else SumInt(s[..|s| - 1], f) + f(s[|s| - 1])
  }

  /** `sum(f(x) for x in s)` over reals. */
  function SumReal<T>(s: seq<T>, f: T -> real): real
    decreases |s|
  {
    if s == [] then 0.0 else SumReal(s[..|s| - 1], f) + f(s[|s| - 1])
  }

  /** Adding a row adds its term to a sum. */
  lemma SumIntAppend<T>(s: seq<T>, x: T, f: T -> int)
    ensures SumInt(s + [x], f) == SumInt(s, f) + f(x)
  {
    assert (s + [x])[..|s|] == s;
  }

  lemma SumRealAppend<T>(s: seq<T>, x: T, f: T -> real)
    ensures SumReal(s + [x], f) == SumReal(s, f) + f(x)
  {
    assert (s + [x])[..|s|] == s;
  }

  /** `.filter(p).first()`: the index of the first row satisfying `p`, in table order. */
  function FirstIndex<T>(s: seq<T>, p: T -> bool): (r: Option<nat>)
    ensures r.Some? ==> r.value < |s| && p(s[r.value])
    ensures r.Some? ==> forall j :: 0 <= j < r.value ==> !p(s[j])
    ensures r.None? ==> forall j :: 0 <= j < |s| ==> !p(s[j])
    decreases |s|
  {
    if s == [] then None
    else if p(s[0]) then Some(0)
    else match FirstIndex(s[1..], p)
      case None => None
      case Some(k) => Some(k + 1)
  }

  /** The first row satisfying `p` is the one `FirstIndex` finds. */
  lemma FirstIndexIs<T>(s: seq<T>, p: T -> bool, k: nat)
    requires k < |s| && p(s[k])
    requires forall j :: 0 <= j < k ==> !p(s[j])
    ensures FirstIndex(s, p) == Some(k)
  {
  }

  /** Row `i` carries the id `i + 1`: ids are handed out in insertion order and nothing is deleted. */
  predicate Numbered<T>(s: seq<T>, id: T -> int) {
    forall i :: 0 <= i < |s| ==> id(s[i]) == i + 1
  }

  /** Overwriting one row changes a sum by the difference of its terms. */
  lemma {:induction false} SumIntUpdate<T>(s: seq<T>, k: nat, x: T, f: T -> int)
    requires k < |s|
    ensures SumInt(s[k := x], f) == SumInt(s, f) - f(s[k]) + f(x)
    decreases |s|
  {
    var n := |s| - 1;
    if k == n {
      assert s[k := x][..n] == s[..n];
    } else {
      assert s[k := x][..n] == s[..n][k := x];
      SumIntUpdate(s[..n], k, x, f);
    }
  }
}
