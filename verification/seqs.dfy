/**
 Sequence helpers for the loader: mapping a failing operation over a list in
 order (the first exception ends the loop), concatenating the per-row lists
 that a loop accumulates, and Python's truncating `zip`.
 */
module Seqs {
  import opened Results

  /**
   Applies `f` to every element in order; the first failure is the result,
   as the first exception raised inside a Python loop is.
   */
  function Traverse<A, B>(s: seq<A>, f: A -> Result<B>): (r: Result<seq<B>>)
    ensures r.Ok? <==> forall i :: 0 <= i < |s| ==> f(s[i]).Ok?
    ensures r.Ok? ==> |r.value| == |s| && forall i :: 0 <= i < |s| ==> r.value[i] == f(s[i]).value
    ensures r.Err? ==> exists i :: 0 <= i < |s| && f(s[i]).Err? && f(s[i]).error == r.error
                                   && forall j :: 0 <= j < i ==> f(s[j]).Ok?
  {
    if |s| == 0 then Ok([])
    else
      var p := Traverse(s[..|s| - 1], f);
      var x := s[|s| - 1];
      if p.Err? then
        assert forall i :: 0 <= i < |s| - 1 ==> s[..|s| - 1][i] == s[i];
        p.PropagateFailure()
      else if f(x).Err? then
        assert forall i :: 0 <= i < |s| - 1 ==> s[..|s| - 1][i] == s[i];
        f(x).PropagateFailure()
      else
        assert forall i :: 0 <= i < |s| - 1 ==> s[..|s| - 1][i] == s[i];
        Ok(p.value + [f(x).value])
  }

  /** The concatenation of a list of lists, `sum(lists, [])`. */
  function Concat<T(!new)>(ss: seq<seq<T>>): (r: seq<T>)
    ensures forall x :: x in r <==> exists i :: 0 <= i < |ss| && x in ss[i]
  {
    if |ss| == 0 then []
    else
      var p := Concat(ss[..|ss| - 1]);
      assert forall i :: 0 <= i < |ss| - 1 ==> ss[..|ss| - 1][i] == ss[i];
      p + ss[|ss| - 1]
  }

  lemma ConcatAppend<T(!new)>(ss: seq<seq<T>>, t: seq<T>)
    ensures Concat(ss + [t]) == Concat(ss) + t
  {
    assert (ss + [t])[..|ss|] == ss;
  }

  /** Python's `zip(a, b, c)`: triples up to the length of the shortest list. */
  function Zip3<A, B, C>(a: seq<A>, b: seq<B>, c: seq<C>): (r: seq<(A, B, C)>)
    ensures |r| == Min(|a|, Min(|b|, |c|))
    ensures forall i :: 0 <= i < |r| ==> r[i] == (a[i], b[i], c[i])
  {
    seq(Min(|a|, Min(|b|, |c|)), i requires 0 <= i < Min(|a|, Min(|b|, |c|)) => (a[i], b[i], c[i]))
  }

  function Min(x: int, y: int): int {
    if x <= y then x else y
  }
}
