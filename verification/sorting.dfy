/**
 Python's stable sort, `sorted(xs, key=f)` and `xs.sort(key=f)`, for keys
 that are strings or tuples of strings.

 A sort key is written as the sequence of a tuple's components and compared
 with `Ordering.KeyLt`. The result is characterised by three facts: it is
 sorted, it is a permutation of the input, and for every key the elements
 carrying that key keep their input order (stability). Sorting `dict.items()`
 or a list of distinct strings is the special case of a key function that
 never repeats a key.
 */
module Sorting {
  import opened Ordering

  /** `s` is in non-decreasing key order. */
  ghost predicate SortedBy<T>(s: seq<T>, key: T -> seq<string>) {
    forall i, j :: 0 <= i < j < |s| ==> KeyLe(key(s[i]), key(s[j]))
  }

  /** The elements of `s` whose key is `k`, in the order they occur in `s`. */
  function WithKey<T>(s: seq<T>, key: T -> seq<string>, k: seq<string>): seq<T>
  {
    if |s| == 0 then [] else (if key(s[0]) == k then [s[0]] else []) + WithKey(s[1..], key, k)
  }

  /** Inserts `x` after every element whose key is not greater than `x`'s. */
  function Insert<T>(x: T, s: seq<T>, key: T -> seq<string>): seq<T>
  {
    if |s| == 0 then [x]
    else if KeyLt(key(x), key(s[0])) then [x] + s
    else [s[0]] + Insert(x, s[1..], key)
  }

  /** Stable insertion sort: each element in turn is inserted behind its equals. */
  function SortBy<T>(s: seq<T>, key: T -> seq<string>): (r: seq<T>)
    ensures SortedBy(r, key)
    ensures multiset(r) == multiset(s)
    ensures forall k :: WithKey(r, key, k) == WithKey(s, key, k)
  {
    if |s| == 0 then []
    else
      var p := SortBy(s[..|s| - 1], key);
      InsertLast(s, p, key);
      Insert(s[|s| - 1], p, key)
  }

  /** Inserting the last element into a stable sort of the rest is a stable sort of the whole. */
  lemma InsertLast<T>(s: seq<T>, p: seq<T>, key: T -> seq<string>)
    requires |s| > 0
    requires SortedBy(p, key)
    requires multiset(p) == multiset(s[..|s| - 1])
    requires forall k :: WithKey(p, key, k) == WithKey(s[..|s| - 1], key, k)
    ensures SortedBy(Insert(s[|s| - 1], p, key), key)
    ensures multiset(Insert(s[|s| - 1], p, key)) == multiset(s)
    ensures forall k :: WithKey(Insert(s[|s| - 1], p, key), key, k) == WithKey(s, key, k)
  {
    var x := s[|s| - 1];
    InsertFacts(x, p, key);
    assert s == s[..|s| - 1] + [x];
    forall k ensures WithKey(Insert(x, p, key), key, k) == WithKey(s, key, k) {
      WithKeyAppend(s[..|s| - 1], [x], key, k);
      assert WithKey([x], key, k) == (if key(x) == k then [x] else []) + WithKey([x][1..], key, k);
    }
  }

  lemma InsertFacts<T>(x: T, s: seq<T>, key: T -> seq<string>)
    requires SortedBy(s, key)
    ensures SortedBy(Insert(x, s, key), key)
    ensures multiset(Insert(x, s, key)) == multiset(s) + multiset{x}
    ensures forall k :: WithKey(Insert(x, s, key), key, k)
                        == WithKey(s, key, k) + (if key(x) == k then [x] else [])
  {
    InsertPerm(x, s, key);
    InsertSorted(x, s, key);
    forall k ensures WithKey(Insert(x, s, key), key, k) == WithKey(s, key, k) + (if key(x) == k then [x] else []) {
      InsertWithKey(x, s, key, k);
    }
  }

  lemma {:induction false} InsertPerm<T>(x: T, s: seq<T>, key: T -> seq<string>)
    ensures multiset(Insert(x, s, key)) == multiset(s) + multiset{x}
    decreases |s|
  {
    if |s| > 0 && !KeyLt(key(x), key(s[0])) {
      InsertPerm(x, s[1..], key);
      assert s == [s[0]] + s[1..];
    }
  }

  lemma {:induction false} InsertSorted<T>(x: T, s: seq<T>, key: T -> seq<string>)
    requires SortedBy(s, key)
    ensures SortedBy(Insert(x, s, key), key)
    decreases |s|
  {
    if |s| == 0 {
    } else if KeyLt(key(x), key(s[0])) {
      forall i | 0 <= i < |s| ensures KeyLe(key(x), key(s[i])) {
        if i == 0 {
          KeyLtIrreflexive(key(s[0]));
          KeyLtLeTransitive(key(x), key(s[0]), key(s[0]));
        } else {
          KeyLtLeTransitive(key(x), key(s[0]), key(s[i]));
        }
      }
      SortedCons(x, s, key);
    } else {
      var t := s[1..];
      InsertSorted(x, t, key);
      InsertPerm(x, t, key);
      var u := Insert(x, t, key);
      forall i | 0 <= i < |u| ensures KeyLe(key(s[0]), key(u[i])) {
        assert u[i] in multiset(u);
        if u[i] != x {
          assert u[i] in multiset(t);
          var j :| 0 <= j < |t| && t[j] == u[i];
          assert s[j + 1] == t[j];
        }
      }
      SortedCons(s[0], u, key);
    }
  }

  lemma {:induction false} InsertWithKey<T>(x: T, s: seq<T>, key: T -> seq<string>, k: seq<string>)
    requires SortedBy(s, key)
    ensures WithKey(Insert(x, s, key), key, k) == WithKey(s, key, k) + (if key(x) == k then [x] else [])
    decreases |s|
  {
    var r := Insert(x, s, key);
    var hx: seq<T> := if key(x) == k then [x] else [];
    if |s| == 0 {
      assert r == [x];
      assert WithKey(r, key, k) == hx + WithKey(r[1..], key, k);
      assert r[1..] == [];
    } else if KeyLt(key(x), key(s[0])) {
      assert r == [x] + s;
      assert r[0] == x && r[1..] == s;
      assert WithKey(r, key, k) == hx + WithKey(s, key, k);
      if key(x) == k {
        forall i | 0 <= i < |s| ensures key(s[i]) != k {
          if i == 0 {
            KeyLtIrreflexive(key(s[0]));
            KeyLtLeTransitive(key(x), key(s[0]), key(s[0]));
          } else {
            KeyLtLeTransitive(key(x), key(s[0]), key(s[i]));
          }
        }
        WithKeyAbsent(s, key, k);
      } else {
        assert hx == [];
      }
    } else {
      var h := if key(s[0]) == k then [s[0]] else [];
      var t := Insert(x, s[1..], key);
      assert r == [s[0]] + t;
      assert r[0] == s[0] && r[1..] == t;
      InsertWithKey(x, s[1..], key, k);
      calc {
        WithKey(r, key, k);
        h + WithKey(t, key, k);
        h + (WithKey(s[1..], key, k) + hx);
        { assert h + (WithKey(s[1..], key, k) + hx) == (h + WithKey(s[1..], key, k)) + hx; }
        (h + WithKey(s[1..], key, k)) + hx;
        WithKey(s, key, k) + hx;
      }
    }
  }

  lemma SortedCons<T>(x: T, s: seq<T>, key: T -> seq<string>)
    requires SortedBy(s, key)
    requires forall i :: 0 <= i < |s| ==> KeyLe(key(x), key(s[i]))
    ensures SortedBy([x] + s, key)
  {
    var r := [x] + s;
    forall i, j | 0 <= i < j < |r| ensures KeyLe(key(r[i]), key(r[j])) {
      if i == 0 {
        assert r[j] == s[j - 1];
      } else {
        assert r[i] == s[i - 1] && r[j] == s[j - 1];
      }
    }
  }

  lemma {:induction false} WithKeyAbsent<T>(s: seq<T>, key: T -> seq<string>, k: seq<string>)
    requires forall i :: 0 <= i < |s| ==> key(s[i]) != k
    ensures WithKey(s, key, k) == []
    decreases |s|
  {
    if |s| > 0 {
      WithKeyAbsent(s[1..], key, k);
    }
  }

  lemma {:induction false} WithKeyAppend<T>(a: seq<T>, b: seq<T>, key: T -> seq<string>, k: seq<string>)
    ensures WithKey(a + b, key, k) == WithKey(a, key, k) + WithKey(b, key, k)
    decreases |a|
  {
    if |a| == 0 {
      assert a + b == b;
      assert WithKey(a, key, k) == [];
    } else {
      var h := if key(a[0]) == k then [a[0]] else [];
      var x := WithKey(a[1..], key, k);
      var y := WithKey(b, key, k);
      assert (a + b)[0] == a[0];
      assert (a + b)[1..] == a[1..] + b;
      calc {
        WithKey(a + b, key, k);
        h + WithKey(a[1..] + b, key, k);
        { WithKeyAppend(a[1..], b, key, k); }
        h + (x + y);
        { assert h + (x + y) == (h + x) + y; }
        (h + x) + y;
        WithKey(a, key, k) + y;
      }
    }
  }

  // ---------------------------------------------------------------- distinct keys

  /** No two elements of `s` share a key. */
  predicate DistinctKeys<T, K(==)>(s: seq<T>, key: T -> K) {
    forall i, j :: 0 <= i < j < |s| ==> key(s[i]) != key(s[j])
  }

  /** A permutation of a list whose keys are distinct has distinct keys too. */
  lemma PermDistinctKeys<T, K>(s: seq<T>, r: seq<T>, key: T -> K)
    requires multiset(r) == multiset(s)
    requires DistinctKeys(s, key)
    ensures DistinctKeys(r, key)
  {
    forall i, j | 0 <= i < j < |r| ensures key(r[i]) != key(r[j]) {
      if key(r[i]) == key(r[j]) {
        assert r[i] in multiset(s) && r[j] in multiset(s);
        var a :| 0 <= a < |s| && s[a] == r[i];
        var b :| 0 <= b < |s| && s[b] == r[j];
        assert a == b;
        PairCount(r, i, j);
        DistinctCount(s, key, r[i]);
        assert false;
      }
    }
  }

  lemma {:induction false} DistinctCount<T, K>(s: seq<T>, key: T -> K, x: T)
    requires DistinctKeys(s, key)
    ensures multiset(s)[x] <= 1
    decreases |s|
  {
    if |s| > 0 {
      var p := s[..|s| - 1];
      assert s == p + [s[|s| - 1]];
      DistinctCount(p, key, x);
    }
  }

  lemma PairCount<T>(s: seq<T>, i: int, j: int)
    requires 0 <= i < j < |s| && s[i] == s[j]
    ensures multiset(s)[s[i]] >= 2
  {
    assert s == s[..i] + [s[i]] + s[i + 1..j] + [s[j]] + s[j + 1..];
  }

  /** A sorted list without repeated keys is strictly increasing. */
  lemma SortedDistinct<T>(s: seq<T>, key: T -> seq<string>)
    requires SortedBy(s, key) && DistinctKeys(s, key)
    ensures forall i, j :: 0 <= i < j < |s| ==> KeyLt(key(s[i]), key(s[j]))
  {
    forall i, j | 0 <= i < j < |s| ensures KeyLt(key(s[i]), key(s[j])) {
      KeyLtTotal(key(s[i]), key(s[j]));
    }
  }

  /** Two strictly increasing lists of strings with the same elements are the same list. */
  lemma {:induction false} StrictlySortedUnique(a: seq<string>, b: seq<string>)
    requires forall i, j :: 0 <= i < j < |a| ==> StrLt(a[i], a[j])
    requires forall i, j :: 0 <= i < j < |b| ==> StrLt(b[i], b[j])
    requires forall x :: x in a <==> x in b
    ensures a == b
    decreases |a|
  {
    if |a| == 0 {
      assert forall s: seq<string> :: |s| > 0 ==> s[0] in s;
    } else {
      assert a[0] in b;
      if a[0] != b[0] {
        assert b[0] in a;
        var k :| 0 <= k < |a| && a[k] == b[0];
        var m :| 0 <= m < |b| && b[m] == a[0];
        StrLtTransitive(a[0], b[0], a[0]);
        StrLtIrreflexive(a[0]);
      }
      forall x ensures x in a[1..] <==> x in b[1..] {
        if x in a[1..] {
          var k :| 1 <= k < |a| && a[k] == x;
          StrLtIrreflexive(x);
          assert x in b && x != b[0];
        }
        if x in b[1..] {
          var k :| 1 <= k < |b| && b[k] == x;
          StrLtIrreflexive(x);
          assert x in a && x != a[0];
        }
      }
      StrictlySortedUnique(a[1..], b[1..]);
      assert a == [a[0]] + a[1..] && b == [b[0]] + b[1..];
    }
  }

  // ---------------------------------------------------------------- pairs of strings

  function Fst(p: (string, string)): string {
    p.0
  }

  /** The sort key of a pair of strings, such as a `dict.items()` entry: the pair itself. */
  function PairKey(p: (string, string)): seq<string> {
    [p.0, p.1]
  }

  /**
   Sorting pairs whose first components are distinct orders them strictly by
   first component and keeps the same pairs.
   */
  lemma SortedPairs(s: seq<(string, string)>, r: seq<(string, string)>)
    requires DistinctKeys(s, Fst)
    requires SortedBy(r, PairKey) && multiset(r) == multiset(s)
    ensures DistinctKeys(r, Fst)
    ensures forall i, j :: 0 <= i < j < |r| ==> StrLt(r[i].0, r[j].0)
    ensures forall p :: p in r <==> p in s
    ensures |r| == |s|
  {
    PermDistinctKeys(s, r, Fst);
    assert DistinctKeys(r, PairKey) by {
      forall i, j | 0 <= i < j < |r| ensures PairKey(r[i]) != PairKey(r[j]) {
        assert PairKey(r[i])[0] == Fst(r[i]);
      }
    }
    SortedDistinct(r, PairKey);
    forall i, j | 0 <= i < j < |r| ensures StrLt(r[i].0, r[j].0) {
      assert Fst(r[i]) != Fst(r[j]);
      KeyLtPairFirst(r[i].0, r[i].1, r[j].0, r[j].1);
    }
    forall p ensures p in r <==> p in s {
      assert p in r <==> p in multiset(r);
      assert p in s <==> p in multiset(s);
    }
    assert |r| == |multiset(r)| == |multiset(s)| == |s|;
  }
}
