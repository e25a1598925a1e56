/**
 First-occurrence deduplication, the `if x not in seen: seen.append(x)` loop
 the loader writes for regions, categories, descriptions and products, and
 its keyed form `if k not in d: d[k] = v` used for countries.
 */
module Dedups {

  /** Some element of `s` has key `k`. */
  predicate HasKey<T, K(==)>(s: seq<T>, key: T -> K, k: K) {
    exists i :: 0 <= i < |s| && key(s[i]) == k
  }

  /** Position of the first element of `s` whose key is `k`. */
  function FirstIndex<T, K(==)>(s: seq<T>, key: T -> K, k: K): (n: nat)
    requires HasKey(s, key, k)
    ensures n < |s| && key(s[n]) == k
    ensures forall j :: 0 <= j < n ==> key(s[j]) != k
  {
    if key(s[0]) == k then 0
    else
      assert HasKey(s[1..], key, k) by {
        var i :| 0 <= i < |s| && key(s[i]) == k;
        assert s[1..][i - 1] == s[i];
      }
      1 + FirstIndex(s[1..], key, k)
  }

  /** The first index is the only index with the key and no earlier occurrence. */
  lemma FirstIndexUnique<T, K>(s: seq<T>, key: T -> K, k: K, n: nat)
    requires n < |s| && key(s[n]) == k
    requires forall j :: 0 <= j < n ==> key(s[j]) != k
    ensures HasKey(s, key, k) && FirstIndex(s, key, k) == n
  {
    assert HasKey(s, key, k) by { assert key(s[n]) == k; }
  }

  /**
   Keeps, in order, the first element of each key: the element is appended
   exactly when no element kept so far has its key.
   */
  function DedupBy<T, K(==,!new)>(s: seq<T>, key: T -> K): (r: seq<T>)
    ensures forall i, j :: 0 <= i < j < |r| ==> key(r[i]) != key(r[j])
    ensures forall k :: HasKey(r, key, k) <==> HasKey(s, key, k)
    ensures forall i :: 0 <= i < |r| ==> HasKey(s, key, key(r[i])) && r[i] == s[FirstIndex(s, key, key(r[i]))]
    ensures forall i, j :: 0 <= i < j < |r| ==>
              FirstIndex(s, key, key(r[i])) < FirstIndex(s, key, key(r[j]))
    ensures |r| <= |s|
  {
    if |s| == 0 then []
    else
      var d := DedupBy(s[..|s| - 1], key);
      var x := s[|s| - 1];
      DedupStep(s, d, key);
      if HasKey(d, key, key(x)) then d else d + [x]
  }

  /** What DedupBy promises about its result `r` for input `s`. */
  ghost predicate DedupOf<T, K(!new)>(s: seq<T>, key: T -> K, r: seq<T>) {
    && (forall i, j :: 0 <= i < j < |r| ==> key(r[i]) != key(r[j]))
    && (forall k :: HasKey(r, key, k) <==> HasKey(s, key, k))
    && (forall i :: 0 <= i < |r| ==> HasKey(s, key, key(r[i])) && r[i] == s[FirstIndex(s, key, key(r[i]))])
    && (forall i, j :: 0 <= i < j < |r| ==>
          FirstIndex(s, key, key(r[i])) < FirstIndex(s, key, key(r[j])))
    && |r| <= |s|
  }

  /** The loop step: keeping the last element only if its key is new preserves the contract. */
  lemma DedupStep<T, K(!new)>(s: seq<T>, d: seq<T>, key: T -> K)
    requires |s| > 0
    requires DedupOf(s[..|s| - 1], key, d)
    ensures DedupOf(s, key, if HasKey(d, key, key(s[|s| - 1])) then d else d + [s[|s| - 1]])
  {
    PrefixKeys(s, key);
    if HasKey(d, key, key(s[|s| - 1])) {
      DedupDrop(s, d, key);
    } else {
      DedupKeep(s, d, key);
    }
  }

  /**
   Keys of the prefix keep their first index in `s`, and `s` has exactly
   the prefix's keys and its last element's.
   */
  lemma PrefixKeys<T, K>(s: seq<T>, key: T -> K)
    requires |s| > 0
    ensures forall k :: HasKey(s[..|s| - 1], key, k) ==>
      HasKey(s, key, k) && FirstIndex(s, key, k) == FirstIndex(s[..|s| - 1], key, k)
    ensures forall k :: HasKey(s, key, k) <==> HasKey(s[..|s| - 1], key, k) || key(s[|s| - 1]) == k
  {
    var p := s[..|s| - 1];
    var x := s[|s| - 1];
    forall k | HasKey(p, key, k) ensures HasKey(s, key, k) && FirstIndex(s, key, k) == FirstIndex(p, key, k) {
      var n := FirstIndex(p, key, k);
      assert s[n] == p[n];
      forall j | 0 <= j < n ensures key(s[j]) != k { assert s[j] == p[j]; }
      FirstIndexUnique(s, key, k, n);
    }
    forall k ensures HasKey(s, key, k) <==> HasKey(p, key, k) || key(x) == k {
      if HasKey(s, key, k) && key(x) != k {
        var i :| 0 <= i < |s| && key(s[i]) == k;
        assert p[i] == s[i];
      }
      if key(x) == k {
        assert key(s[|s| - 1]) == k;
      }
    }
  }

  /** A last element whose key is already kept is dropped. */
  lemma DedupDrop<T, K(!new)>(s: seq<T>, d: seq<T>, key: T -> K)
    requires |s| > 0
    requires DedupOf(s[..|s| - 1], key, d)
    requires HasKey(d, key, key(s[|s| - 1]))
    requires forall k :: HasKey(s[..|s| - 1], key, k) ==>
      HasKey(s, key, k) && FirstIndex(s, key, k) == FirstIndex(s[..|s| - 1], key, k)
    requires forall k :: HasKey(s, key, k) <==> HasKey(s[..|s| - 1], key, k) || key(s[|s| - 1]) == k
    ensures DedupOf(s, key, d)
  {
    var p := s[..|s| - 1];
    forall i | 0 <= i < |d| ensures HasKey(s, key, key(d[i])) && d[i] == s[FirstIndex(s, key, key(d[i]))] {
      assert HasKey(p, key, key(d[i]));
      assert p[FirstIndex(p, key, key(d[i]))] == s[FirstIndex(p, key, key(d[i]))];
    }
    forall i, j | 0 <= i < j < |d|
      ensures FirstIndex(s, key, key(d[i])) < FirstIndex(s, key, key(d[j]))
    {
      assert HasKey(p, key, key(d[i]));
      assert HasKey(p, key, key(d[j]));
    }
  }

  /** A last element with a new key is appended. */
  lemma DedupKeep<T, K(!new)>(s: seq<T>, d: seq<T>, key: T -> K)
    requires |s| > 0
    requires DedupOf(s[..|s| - 1], key, d)
    requires !HasKey(d, key, key(s[|s| - 1]))
    requires forall k :: HasKey(s[..|s| - 1], key, k) ==>
      HasKey(s, key, k) && FirstIndex(s, key, k) == FirstIndex(s[..|s| - 1], key, k)
    requires forall k :: HasKey(s, key, k) <==> HasKey(s[..|s| - 1], key, k) || key(s[|s| - 1]) == k
    ensures DedupOf(s, key, d + [s[|s| - 1]])
  {
    var p := s[..|s| - 1];
    var x := s[|s| - 1];
    var r := d + [x];
    assert !HasKey(p, key, key(x));
    forall j | 0 <= j < |p| ensures key(s[j]) != key(x) { assert s[j] == p[j]; }
    FirstIndexUnique(s, key, key(x), |s| - 1);
    HasKeyAppend(d, x, key);
    forall k ensures HasKey(r, key, k) <==> HasKey(s, key, k) {
      assert HasKey(r, key, k) <==> HasKey(d, key, k) || key(x) == k;
      assert HasKey(d, key, k) <==> HasKey(p, key, k);
      assert HasKey(s, key, k) <==> HasKey(p, key, k) || key(x) == k;
    }
    forall i, j | 0 <= i < j < |r| ensures key(r[i]) != key(r[j]) {
      if j == |d| {
        assert r[i] == d[i];
        assert HasKey(d, key, key(d[i]));
      }
    }
    KeepFirstIndices(s, d, key);
    assert |r| <= |s| by {
      assert |d| <= |p|;
    }
    FoldDedupOf(s, key, r);
  }

  lemma FoldDedupOf<T, K(!new)>(s: seq<T>, key: T -> K, r: seq<T>)
    requires forall i, j :: 0 <= i < j < |r| ==> key(r[i]) != key(r[j])
    requires forall k :: HasKey(r, key, k) <==> HasKey(s, key, k)
    requires forall i :: 0 <= i < |r| ==> HasKey(s, key, key(r[i])) && r[i] == s[FirstIndex(s, key, key(r[i]))]
    requires forall i, j :: 0 <= i < j < |r| ==>
      FirstIndex(s, key, key(r[i])) < FirstIndex(s, key, key(r[j]))
    requires |r| <= |s|
    ensures DedupOf(s, key, r)
  {
  }

  /** The keys of `d + [x]` are those of `d` and `x`'s. */
  lemma HasKeyAppend<T, K>(d: seq<T>, x: T, key: T -> K)
    ensures forall k :: HasKey(d + [x], key, k) <==> HasKey(d, key, k) || key(x) == k
  {
    var r := d + [x];
    forall k ensures HasKey(r, key, k) <==> HasKey(d, key, k) || key(x) == k {
      if HasKey(d, key, k) {
        var i :| 0 <= i < |d| && key(d[i]) == k;
        assert r[i] == d[i];
      }
      if HasKey(r, key, k) && key(x) != k {
        var i :| 0 <= i < |r| && key(r[i]) == k;
        assert i < |d| && r[i] == d[i];
      }
      assert r[|d|] == x;
    }
  }

  lemma KeepFirstIndices<T, K(!new)>(s: seq<T>, d: seq<T>, key: T -> K)
    requires |s| > 0
    requires DedupOf(s[..|s| - 1], key, d)
    requires !HasKey(d, key, key(s[|s| - 1]))
    requires HasKey(s, key, key(s[|s| - 1])) && FirstIndex(s, key, key(s[|s| - 1])) == |s| - 1
    requires forall k :: HasKey(s[..|s| - 1], key, k) ==>
      HasKey(s, key, k) && FirstIndex(s, key, k) == FirstIndex(s[..|s| - 1], key, k)
    ensures var r := d + [s[|s| - 1]];
      && (forall i :: 0 <= i < |r| ==> HasKey(s, key, key(r[i])) && r[i] == s[FirstIndex(s, key, key(r[i]))])
      && (forall i, j :: 0 <= i < j < |r| ==>
            FirstIndex(s, key, key(r[i])) < FirstIndex(s, key, key(r[j])))
  {
    var p := s[..|s| - 1];
    var r := d + [s[|s| - 1]];
    forall i | 0 <= i < |r| ensures HasKey(s, key, key(r[i])) && r[i] == s[FirstIndex(s, key, key(r[i]))] {
      if i < |d| {
        assert r[i] == d[i];
        assert HasKey(p, key, key(d[i]));
        assert p[FirstIndex(p, key, key(d[i]))] == s[FirstIndex(p, key, key(d[i]))];
      }
    }
    forall i, j | 0 <= i < j < |r|
      ensures FirstIndex(s, key, key(r[i])) < FirstIndex(s, key, key(r[j]))
    {
      assert r[i] == d[i];
      assert HasKey(p, key, key(d[i]));
      if j < |d| {
        assert r[j] == d[j];
        assert HasKey(p, key, key(d[j]));
      }
    }
  }

  /** `Dedup(s)`: the distinct elements of `s`, each at its first occurrence. */
  function Dedup<T(==,!new)>(s: seq<T>): (r: seq<T>)
    ensures forall i, j :: 0 <= i < j < |r| ==> r[i] != r[j]
    ensures forall x :: x in r <==> x in s
    ensures forall i, j :: 0 <= i < j < |r| ==> IndexOf(s, r[i]) < IndexOf(s, r[j])
    ensures |r| <= |s|
  {
    var r := DedupBy(s, Id);
    HasIdKey(r);
    HasIdKey(s);
    r
  }

  /** With the identity key, "has key x" is plain membership. */
  lemma HasIdKey<T>(s: seq<T>)
    ensures forall x :: x in s <==> HasKey(s, Id, x)
  {
    forall x ensures x in s <==> HasKey(s, Id, x) {
      if x in s {
        var i :| 0 <= i < |s| && s[i] == x;
        assert Id(s[i]) == x;
      }
    }
  }

  /** Python's `s.index(x)`: the position of the first occurrence of `x`. */
  function IndexOf<T(==)>(s: seq<T>, x: T): (n: nat)
    requires x in s
    ensures n < |s| && s[n] == x
    ensures forall j :: 0 <= j < n ==> s[j] != x
  {
    HasIdKey(s);
    FirstIndex(s, Id, x)
  }

  function Id<T>(x: T): T {
    x
  }

  /** An element whose key was already seen is dropped: the loop does not change the result. */
  lemma DedupByKnownLast<T, K(!new)>(s: seq<T>, x: T, key: T -> K)
    requires HasKey(s, key, key(x))
    ensures DedupBy(s + [x], key) == DedupBy(s, key)
  {
    assert (s + [x])[..|s|] == s;
  }
}
