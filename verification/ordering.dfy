/**
 Python's ordering of strings and of tuples of strings.

 Python compares two `str` values code point by code point, and a proper
 prefix sorts first; it compares two tuples element by element, deciding at
 the first position where the elements differ, and again a shorter prefix
 sorts first. Both are the lexicographic extension of an order on the
 elements, defined here once as `LexLt`. (Dafny's own `<` on sequences means
 "proper prefix", which is not this order.)
 */
module Ordering {

  /** `lt` is irreflexive, transitive and total: a strict total order. */
  ghost predicate StrictTotalOrder<T(!new)>(lt: (T, T) -> bool) {
    && (forall x :: !lt(x, x))
    && (forall x, y, z :: lt(x, y) && lt(y, z) ==> lt(x, z))
    && (forall x, y :: x == y || lt(x, y) || lt(y, x))
  }

  /** `le` is reflexive, antisymmetric, transitive and total: a total order. */
  ghost predicate TotalOrder<T(!new)>(le: (T, T) -> bool) {
    && (forall x :: le(x, x))
    && (forall x, y :: le(x, y) && le(y, x) ==> x == y)
    && (forall x, y, z :: le(x, y) && le(y, z) ==> le(x, z))
    && (forall x, y :: le(x, y) || le(y, x))
  }

  /** `a` sorts strictly before `b` lexicographically, elements compared by `lt`. */
  function LexLt<T(==)>(lt: (T, T) -> bool, a: seq<T>, b: seq<T>): bool
    decreases |a|
  {
    if |a| == 0 then |b| > 0
    else if |b| == 0 then false
    else if a[0] != b[0] then lt(a[0], b[0])
    else LexLt(lt, a[1..], b[1..])
  }

  lemma {:induction false} LexIrreflexive<T(!new)>(lt: (T, T) -> bool, a: seq<T>)
    requires StrictTotalOrder(lt)
    ensures !LexLt(lt, a, a)
    decreases |a|
  {
    if |a| > 0 {
      LexIrreflexive(lt, a[1..]);
    }
  }

  lemma {:induction false} LexTransitive<T(!new)>(lt: (T, T) -> bool, a: seq<T>, b: seq<T>, c: seq<T>)
    requires StrictTotalOrder(lt)
    requires LexLt(lt, a, b) && LexLt(lt, b, c)
    ensures LexLt(lt, a, c)
    decreases |a|
  {
    if |a| > 0 && a[0] == b[0] && b[0] == c[0] {
      LexTransitive(lt, a[1..], b[1..], c[1..]);
    }
  }

  lemma {:induction false} LexTotal<T(!new)>(lt: (T, T) -> bool, a: seq<T>, b: seq<T>)
    requires StrictTotalOrder(lt)
    ensures a == b || LexLt(lt, a, b) || LexLt(lt, b, a)
    decreases |a|
  {
    if |a| > 0 && |b| > 0 && a[0] == b[0] {
      LexTotal(lt, a[1..], b[1..]);
      if a[1..] == b[1..] {
        assert a == [a[0]] + a[1..] && b == [b[0]] + b[1..];
      }
    }
  }

  /** The lexicographic extension of a strict total order is a strict total order. */
  lemma LexIsStrictTotal<T(!new)>(lt: (T, T) -> bool)
    requires StrictTotalOrder(lt)
    ensures StrictTotalOrder((a: seq<T>, b: seq<T>) => LexLt(lt, a, b))
  {
    forall a: seq<T> ensures !LexLt(lt, a, a) {
      LexIrreflexive(lt, a);
    }
    forall a: seq<T>, b: seq<T>, c: seq<T> | LexLt(lt, a, b) && LexLt(lt, b, c)
      ensures LexLt(lt, a, c)
    {
      LexTransitive(lt, a, b, c);
    }
    forall a: seq<T>, b: seq<T> ensures a == b || LexLt(lt, a, b) || LexLt(lt, b, a) {
      LexTotal(lt, a, b);
    }
  }

  // ---------------------------------------------------------------- str

  /** Python's `<` on single characters: code point order. */
  function CharLt(x: char, y: char): bool {
    x < y
  }

  /** Python's `<` on `str`. */
  function StrLt(a: string, b: string): bool {
    LexLt(CharLt, a, b)
  }

  /** Python's `<=` on `str`. */
  function StrLe(a: string, b: string): bool {
    !StrLt(b, a)
  }

  lemma StrLtIrreflexive(a: string)
    ensures !StrLt(a, a)
  {
    assert StrictTotalOrder(CharLt);
    LexIrreflexive(CharLt, a);
  }

  lemma StrLtTransitive(a: string, b: string, c: string)
    requires StrLt(a, b) && StrLt(b, c)
    ensures StrLt(a, c)
  {
    assert StrictTotalOrder(CharLt);
    LexTransitive(CharLt, a, b, c);
  }

  lemma StrLtIsStrictTotal()
    ensures StrictTotalOrder(StrLt)
  {
    assert StrictTotalOrder(CharLt);
    LexIsStrictTotal(CharLt);
    assert forall a, b :: StrLt(a, b) == ((x: string, y: string) => LexLt(CharLt, x, y))(a, b);
  }

  /** Python's `<=` on `str` is a total order (in particular a total preorder). */
  lemma StrLeIsTotalOrder()
    ensures TotalOrder(StrLe)
  {
    StrLtIsStrictTotal();
  }

  // ---------------------------------------------------------------- tuples of str

  /**
   Python's `<` on tuples of strings, a tuple written as the sequence of its
   components (so `(first, last)` is `[first, last]`).
   */
  function KeyLt(a: seq<string>, b: seq<string>): bool {
    LexLt(StrLt, a, b)
  }

  /** Python's `<=` on tuples of strings. */
  function KeyLe(a: seq<string>, b: seq<string>): bool {
    !KeyLt(b, a)
  }

  lemma KeyLtIsStrictTotal()
    ensures StrictTotalOrder(KeyLt)
  {
    StrLtIsStrictTotal();
    LexIsStrictTotal(StrLt);
    assert forall a, b :: KeyLt(a, b) == ((x: seq<string>, y: seq<string>) => LexLt(StrLt, x, y))(a, b);
  }

  lemma KeyLeIsTotalOrder()
    ensures TotalOrder(KeyLe)
  {
    KeyLtIsStrictTotal();
  }

  /** On one-component tuples the tuple order is the string order. */
  lemma KeyLtSingleton(a: string, b: string)
    ensures KeyLt([a], [b]) == StrLt(a, b)
  {
    assert [a][1..] == [] && [b][1..] == [];
    if a != b {
      assert [a][0] != [b][0];
    } else {
      assert StrictTotalOrder(CharLt);
      LexIrreflexive(CharLt, a);
      assert !LexLt(StrLt, [a][1..], [b][1..]);
    }
  }

  /** Pairs whose first components differ are ordered by their first components. */
  lemma KeyLtPairFirst(a: string, x: string, b: string, y: string)
    requires a != b
    ensures KeyLt([a, x], [b, y]) == StrLt(a, b)
  {
    assert [a, x][0] != [b, y][0];
  }

  // Point-wise facts about the tuple order, for use in proofs about sorting.

  lemma KeyLtIrreflexive(a: seq<string>)
    ensures !KeyLt(a, a)
  {
    KeyLtIsStrictTotal();
  }

  lemma KeyLtTransitive(a: seq<string>, b: seq<string>, c: seq<string>)
    requires KeyLt(a, b) && KeyLt(b, c)
    ensures KeyLt(a, c)
  {
    KeyLtIsStrictTotal();
  }

  lemma KeyLtTotal(a: seq<string>, b: seq<string>)
    ensures a == b || KeyLt(a, b) || KeyLt(b, a)
  {
    KeyLtIsStrictTotal();
  }

  lemma KeyLtLeTransitive(a: seq<string>, b: seq<string>, c: seq<string>)
    requires KeyLt(a, b) && KeyLe(b, c)
    ensures KeyLt(a, c) && KeyLe(a, c) && a != c
  {
    KeyLtIsStrictTotal();
  }
}
