/**
 * `ORDER BY key DESC LIMIT ? OFFSET ?` over a list of rows. SQLite leaves the
 * order of ties open; the model fixes one (insertion order among equal keys) but
 * its contracts claim only what SQL promises: sorted, and a permutation.
 */
module Ordering {

  /** Non-increasing by `key`. */
  predicate SortedDesc<T>(s: seq<T>, key: T -> int) {
    forall i, j :: 0 <= i < j < |s| ==> key(s[i]) >= key(s[j])
  }

  function InsertDesc<T>(x: T, s: seq<T>, key: T -> int): (r: seq<T>)
    ensures |r| == |s| + 1
  {
    if s == [] then [x]
    else if key(x) >= key(s[0]) then [x] + s
    else [s[0]] + InsertDesc(x, s[1..], key)
  }

  /** Inserting under a bound every key already respects keeps every key under it. */
  lemma {:induction false} InsertDescBound<T>(x: T, s: seq<T>, key: T -> int, b: int)
    requires key(x) <= b
    requires forall i :: 0 <= i < |s| ==> key(s[i]) <= b
    ensures forall i :: 0 <= i < |InsertDesc(x, s, key)| ==> key(InsertDesc(x, s, key)[i]) <= b
  {
    if s != [] && key(x) < key(s[0]) {
      InsertDescBound(x, s[1..], key, b);
    }
  }

  lemma {:induction false} InsertDescSorted<T>(x: T, s: seq<T>, key: T -> int)
    requires SortedDesc(s, key)
    ensures SortedDesc(InsertDesc(x, s, key), key)
  {
    if s != [] && key(x) < key(s[0]) {
      var rest := InsertDesc(x, s[1..], key);
      InsertDescSorted(x, s[1..], key);
      InsertDescBound(x, s[1..], key, key(s[0]));
      var r := [s[0]] + rest;
      forall i, j | 0 <= i < j < |r| ensures key(r[i]) >= key(r[j]) {
        if i > 0 {
          assert r[i] == rest[i - 1] && r[j] == rest[j - 1];
        } else {
          assert r[j] == rest[j - 1];
        }
      }
    }
  }

  lemma {:induction false} InsertDescPermutes<T>(x: T, s: seq<T>, key: T -> int)
    ensures multiset(InsertDesc(x, s, key)) == multiset(s) + multiset{x}
  {
    if s != [] && key(x) < key(s[0]) {
      InsertDescPermutes(x, s[1..], key);
      assert s == [s[0]] + s[1..];
    }
  }

  /** The rows in descending key order (insertion sort). */
  function SortDesc<T>(s: seq<T>, key: T -> int): seq<T> {
    if s == [] then [] else InsertDesc(s[0], SortDesc(s[1..], key), key)
  }

  /** `ORDER BY key DESC` yields a non-increasing permutation of its input. */
  lemma {:induction false} SortDescCorrect<T>(s: seq<T>, key: T -> int)
    ensures SortedDesc(SortDesc(s, key), key)
    ensures multiset(SortDesc(s, key)) == multiset(s)
    ensures |SortDesc(s, key)| == |s|
  {
    if s != [] {
      SortDescCorrect(s[1..], key);
      InsertDescSorted(s[0], SortDesc(s[1..], key), key);
      InsertDescPermutes(s[0], SortDesc(s[1..], key), key);
      assert s == [s[0]] + s[1..];
    }
  }

  /** Where SQLite starts reading: a negative offset counts as 0. */
  function Start(offset: int, n: nat): (k: nat)
    ensures k <= n
  {
    if offset < 0 then 0 else if offset > n then n else offset
  }

  /**
   * `LIMIT limit OFFSET offset` in SQLite: skip `offset` rows (none when negative),
   * then take `limit` rows, or all of them when `limit` is negative.
   */
  function Window<T>(rows: seq<T>, limit: int, offset: int): (r: seq<T>)
    ensures limit >= 0 ==> |r| <= limit
    ensures r <= rows[Start(offset, |rows|)..]
    ensures limit < 0 ==> r == rows[Start(offset, |rows|)..]
    ensures limit >= 0 && 0 <= offset && offset + limit <= |rows| ==> |r| == limit
    ensures offset >= |rows| ==> r == []
  {
    var k := Start(offset, |rows|);
    if limit < 0 || k + limit > |rows| then rows[k..] else rows[k..k + limit]
  }

  /** A window of a sorted list is sorted. */
  lemma WindowSorted<T>(rows: seq<T>, key: T -> int, limit: int, offset: int)
    requires SortedDesc(rows, key)
    ensures SortedDesc(Window(rows, limit, offset), key)
  {
    var w := Window(rows, limit, offset);
    var k := Start(offset, |rows|);
    forall i, j | 0 <= i < j < |w| ensures key(w[i]) >= key(w[j]) {
      assert w[i] == rows[k + i] && w[j] == rows[k + j];
    }
  }
}
