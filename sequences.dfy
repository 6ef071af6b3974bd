/** Sequence operations the SQL queries of the domain layer are built from:
    removing duplicate rows (`UNION`) and ordering rows by an integer key
    (`ORDER BY`). */
module Sequences {

  ghost predicate NoDuplicates<T>(s: seq<T>) {
    forall i, j | 0 <= i < j < |s| :: s[i] != s[j]
  }

  /** `s` is in non-decreasing order of `key`. */
  ghost predicate SortedBy<T>(s: seq<T>, key: T -> int) {
    forall i, j | 0 <= i < j < |s| :: key(s[i]) <= key(s[j])
  }

  /** The rows of `s`, each kept once, at its first occurrence. */
  function Distinct<T(==, !new)>(s: seq<T>): (r: seq<T>)
    ensures forall x :: x in r <==> x in s
    ensures NoDuplicates(r)
  {
    if s == [] then []
    else
      var d := Distinct(s[..|s| - 1]);
      assert forall x :: x in s <==> x in s[..|s| - 1] || x == s[|s| - 1];
      if s[|s| - 1] in d then d else d + [s[|s| - 1]]
  }

  /** Inserts `x` into the sorted `s` before the first element whose key is not smaller. */
  function Insert<T>(x: T, s: seq<T>, key: T -> int): (r: seq<T>)
    requires SortedBy(s, key)
    ensures SortedBy(r, key)
    ensures multiset(r) == multiset(s) + multiset{x}
  {
    if s == [] || key(x) <= key(s[0]) then [x] + s
    else
      var t := Insert(x, s[1..], key);
      assert s == [s[0]] + s[1..];
      KeysAtLeast(t, s[1..], x, key, key(s[0]));
      [s[0]] + t
  }

  /** A permutation of `s` plus `x` has keys no smaller than `lo` when `x` and `s` do. */
  lemma KeysAtLeast<T>(t: seq<T>, s: seq<T>, x: T, key: T -> int, lo: int)
    requires multiset(t) == multiset(s) + multiset{x}
    requires lo <= key(x) && forall k | 0 <= k < |s| :: lo <= key(s[k])
    ensures forall k | 0 <= k < |t| :: lo <= key(t[k])
  {
    forall k | 0 <= k < |t| ensures lo <= key(t[k]) {
      assert t[k] in multiset(t);
      if t[k] != x {
        assert t[k] in multiset(s);
        var j :| 0 <= j < |s| && s[j] == t[k];
      }
    }
  }

  /** An insertion sort of `s` by `key`; elements with equal keys keep no particular order
      that callers may rely on. */
  function SortBy<T>(s: seq<T>, key: T -> int): (r: seq<T>)
    ensures SortedBy(r, key)
    ensures multiset(r) == multiset(s)
  {
    if s == [] then []
    else
      assert s == [s[0]] + s[1..];
      Insert(s[0], SortBy(s[1..], key), key)
  }

  lemma {:induction false} InsertKeepsDistinct<T>(x: T, s: seq<T>, key: T -> int)
    requires SortedBy(s, key) && NoDuplicates(s) && x !in s
    ensures NoDuplicates(Insert(x, s, key))
  {
    if s == [] || key(x) <= key(s[0]) {
    } else {
      assert s == [s[0]] + s[1..];
      var t := Insert(x, s[1..], key);
      InsertKeepsDistinct(x, s[1..], key);
      assert s[0] !in multiset(t) by {
        assert s[0] !in multiset(s[1..]);
      }
      assert forall k | 0 <= k < |t| :: t[k] != s[0] by {
        forall k | 0 <= k < |t| ensures t[k] != s[0] {
          assert t[k] in multiset(t);
        }
      }
    }
  }

  /** Sorting a sequence without duplicates yields one without duplicates. */
  lemma {:induction false} SortByKeepsDistinct<T>(s: seq<T>, key: T -> int)
    requires NoDuplicates(s)
    ensures NoDuplicates(SortBy(s, key))
  {
    if s != [] {
      assert s == [s[0]] + s[1..];
      SortByKeepsDistinct(s[1..], key);
      assert s[0] !in multiset(SortBy(s[1..], key)) by {
        assert s[0] !in multiset(s[1..]);
      }
      InsertKeepsDistinct(s[0], SortBy(s[1..], key), key);
    }
  }
}
