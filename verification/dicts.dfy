/**
 The lookup dictionaries of steps 2, 4, 6, 8 and 10: each starts empty and
 maps, row by row over the rows a SELECT returns, the row's name to its id,
 so a later row overwrites an earlier row with the same name.
 */
module Dicts {

  /** No later pair of `pairs` rebinds the key of pair `i`. */
  ghost predicate IsLastBinding<K, V>(pairs: seq<(K, V)>, i: int)
    requires 0 <= i < |pairs|
  {
    forall j :: i < j < |pairs| ==> pairs[j].0 != pairs[i].0
  }

  /** The dictionary built by assigning the pairs in order: the last binding of each key wins. */
  function ToDict<K, V>(pairs: seq<(K, V)>): (m: map<K, V>)
    ensures m.Keys == set i | 0 <= i < |pairs| :: pairs[i].0
    ensures forall i :: 0 <= i < |pairs| && IsLastBinding(pairs, i) ==> m[pairs[i].0] == pairs[i].1
  {
    if |pairs| == 0 then map[]
    else
      var p := pairs[..|pairs| - 1];
      var (k, v) := pairs[|pairs| - 1];
      ToDictStep(pairs, ToDict(p));
      ToDict(p)[k := v]
  }

  /** `k` is a key of the dictionary exactly when some pair binds it. */
  lemma InToDict<K, V>(pairs: seq<(K, V)>, k: K)
    ensures k in ToDict(pairs) <==> exists i :: 0 <= i < |pairs| && pairs[i].0 == k
  {
    if k in ToDict(pairs) {
      assert k in set i | 0 <= i < |pairs| :: pairs[i].0;
    }
  }

  lemma ToDictStep<K, V>(pairs: seq<(K, V)>, d: map<K, V>)
    requires |pairs| > 0
    requires d.Keys == set i | 0 <= i < |pairs| - 1 :: pairs[i].0
    requires forall i :: 0 <= i < |pairs| - 1 && IsLastBinding(pairs[..|pairs| - 1], i) ==> d[pairs[i].0] == pairs[i].1
    ensures var m := d[pairs[|pairs| - 1].0 := pairs[|pairs| - 1].1];
      && m.Keys == (set i | 0 <= i < |pairs| :: pairs[i].0)
      && forall i :: 0 <= i < |pairs| && IsLastBinding(pairs, i) ==> m[pairs[i].0] == pairs[i].1
  {
    var n := |pairs| - 1;
    var p := pairs[..n];
    var m := d[pairs[n].0 := pairs[n].1];
    assert m.Keys == (set i | 0 <= i < |pairs| :: pairs[i].0) by {
      forall k | k in (set i | 0 <= i < |pairs| :: pairs[i].0) ensures k in m.Keys {
        var i :| 0 <= i < |pairs| && pairs[i].0 == k;
        if i < n {
          assert k in d.Keys;
        }
      }
    }
    forall i | 0 <= i < |pairs| && IsLastBinding(pairs, i) ensures m[pairs[i].0] == pairs[i].1 {
      if i < n {
        assert pairs[n].0 != pairs[i].0;
        assert IsLastBinding(p, i) by {
          forall j | i < j < |p| ensures p[j].0 != p[i].0 {
            assert p[j] == pairs[j] && p[i] == pairs[i];
          }
        }
        assert p[i] == pairs[i];
      }
    }
  }

  /** Keys that are pairwise distinct are each bound to their own value. */
  lemma DistinctKeysDict<K, V>(pairs: seq<(K, V)>)
    requires forall i, j :: 0 <= i < j < |pairs| ==> pairs[i].0 != pairs[j].0
    ensures forall i :: 0 <= i < |pairs| ==> pairs[i].0 in ToDict(pairs) && ToDict(pairs)[pairs[i].0] == pairs[i].1
  {
    forall i | 0 <= i < |pairs| ensures IsLastBinding(pairs, i) {
    }
  }

  /** Python's `if not d.get(k)`: negated; a missing key and a stored 0 are both falsy. */
  predicate Found(d: map<string, int>, k: string) {
    k in d && d[k] != 0
  }

  /** Positive ids are truthy, so for such a dictionary `d.get(k)` succeeds exactly on its keys. */
  lemma FoundPositive(d: map<string, int>, k: string)
    requires forall x :: x in d ==> d[x] >= 1
    ensures Found(d, k) <==> k in d
  {
  }

  /**
   The dictionary of pairs `(names[i], i + 1)` with distinct names sends each
   name to its position plus one, and holds no other value.
   */
  lemma NumberedDict(pairs: seq<(string, int)>)
    requires forall i :: 0 <= i < |pairs| ==> pairs[i].1 == i + 1
    requires forall i, j :: 0 <= i < j < |pairs| ==> pairs[i].0 != pairs[j].0
    ensures forall i :: 0 <= i < |pairs| ==> ToDict(pairs)[pairs[i].0] == i + 1
    ensures forall x :: x in ToDict(pairs) ==> 1 <= ToDict(pairs)[x] <= |pairs|
  {
    DistinctKeysDict(pairs);
    forall x | x in ToDict(pairs) ensures 1 <= ToDict(pairs)[x] <= |pairs| {
      InToDict(pairs, x);
    }
  }

  /** Every key of the dictionary is bound by some pair that no later pair rebinds. */
  lemma LastBinding<K, V>(pairs: seq<(K, V)>, k: K) returns (i: int)
    requires k in ToDict(pairs)
    ensures 0 <= i < |pairs| && pairs[i].0 == k && ToDict(pairs)[k] == pairs[i].1
    ensures forall j :: i < j < |pairs| ==> pairs[j].0 != k
  {
    InToDict(pairs, k);
    i :| 0 <= i < |pairs| && pairs[i].0 == k;
    while !IsLastBinding(pairs, i)
      invariant 0 <= i < |pairs| && pairs[i].0 == k
      decreases |pairs| - i
    {
      var j :| i < j < |pairs| && pairs[j].0 == pairs[i].0;
      i := j;
    }
  }
}
