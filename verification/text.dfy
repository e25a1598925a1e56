/**
 The Python string operations the loader relies on: `str.strip()`,
 `str.split(sep)` with an explicit one-character separator, `str.split()`
 with no argument (runs of whitespace), and `sep.join(parts)`.
 */
module Text {

  /** Python's `str.isspace()`: the characters `strip()` and `split()` treat as whitespace. */
  predicate IsSpace(c: char) {
    || ('\U{0009}' <= c <= '\U{000D}')
    || ('\U{001C}' <= c <= '\U{001F}')
    || c == ' ' || c == '\U{0085}' || c == '\U{00A0}' || c == '\U{1680}'
    || ('\U{2000}' <= c <= '\U{200A}')
    || c == '\U{2028}' || c == '\U{2029}' || c == '\U{202F}' || c == '\U{205F}' || c == '\U{3000}'
  }

  predicate NoSpace(s: string) {
    forall k :: 0 <= k < |s| ==> !IsSpace(s[k])
  }

  predicate AllSpace(s: string) {
    forall k :: 0 <= k < |s| ==> IsSpace(s[k])
  }

  // ---------------------------------------------------------------- strip

  /** `s.lstrip()`: the suffix left after dropping leading whitespace. */
  function LStrip(s: string): (r: string)
    ensures |r| <= |s| && r == s[|s| - |r|..]
    ensures AllSpace(s[..|s| - |r|])
    ensures |r| > 0 ==> !IsSpace(r[0])
  {
    if |s| > 0 && IsSpace(s[0]) then LStrip(s[1..]) else s
  }

  /** `s.rstrip()`: the prefix left after dropping trailing whitespace. */
  function RStrip(s: string): (r: string)
    ensures |r| <= |s| && r == s[..|r|]
    ensures AllSpace(s[|r|..])
    ensures |r| > 0 ==> !IsSpace(r[|r| - 1])
  {
    if |s| > 0 && IsSpace(s[|s| - 1]) then
      var r := RStrip(s[..|s| - 1]);
      assert s[|r|..] == s[..|s| - 1][|r|..] + [s[|s| - 1]];
      r
    else s
  }

  /** `s.strip()`: `s` without its leading and trailing whitespace (see StripIsSlice). */
  function Strip(s: string): (r: string)
    ensures |r| <= |s|
    ensures |r| > 0 ==> !IsSpace(r[0]) && !IsSpace(r[|r| - 1])
    ensures r == "" <==> AllSpace(s)
  {
    var l := LStrip(s);
    var r := RStrip(l);
    assert r == "" ==> AllSpace(s) by {
      if r == "" {
        var i := |s| - |l|;
        assert AllSpace(s[i..]) by {
          assert s[i..] == l[|r|..];
        }
        assert s == s[..i] + s[i..];
        AllSpaceConcat(s[..i], s[i..]);
      }
    }
    r
  }

  /**
   `s.strip()` is the longest slice of `s` that neither starts nor ends with
   whitespace: only whitespace lies outside it.
   */
  lemma StripIsSlice(s: string)
    ensures exists i, j :: 0 <= i <= j <= |s| && Strip(s) == s[i..j] && AllSpace(s[..i]) && AllSpace(s[j..])
  {
    var l := LStrip(s);
    var r := RStrip(l);
    var i := |s| - |l|;
    var j := i + |r|;
    assert Strip(s) == r;
    assert r == s[i..j];
    assert AllSpace(s[j..]) by {
      assert s[j..] == l[|r|..];
    }
  }

  lemma AllSpaceConcat(a: string, b: string)
    requires AllSpace(a) && AllSpace(b)
    ensures AllSpace(a + b)
  {
    forall k | 0 <= k < |a + b| ensures IsSpace((a + b)[k]) {
      if k < |a| { assert (a + b)[k] == a[k]; } else { assert (a + b)[k] == b[k - |a|]; }
    }
  }

  // ---------------------------------------------------------------- join

  /** `sep.join(parts)` for a one-character separator (`"".join([]) == ""`). */
  function Join(parts: seq<string>, sep: char): string
  {
    if |parts| == 0 then ""
    else if |parts| == 1 then parts[0]
    else parts[0] + [sep] + Join(parts[1..], sep)
  }

  /** The number of characters in all the parts together. */
  function TotalLen(parts: seq<string>): nat {
    if |parts| == 0 then 0 else |parts[0]| + TotalLen(parts[1..])
  }

  /** The join holds every part's characters plus one separator between each two parts. */
  lemma {:induction false} JoinLength(parts: seq<string>, sep: char)
    requires |parts| > 0
    ensures |Join(parts, sep)| == TotalLen(parts) + |parts| - 1
    decreases |parts|
  {
    if |parts| > 1 {
      JoinLength(parts[1..], sep);
    }
  }

  /** Joining `n` sep-free parts puts exactly `n - 1` separators in the text. */
  lemma JoinSepCount(parts: seq<string>, sep: char)
    requires |parts| >= 1
    requires forall i :: 0 <= i < |parts| ==> sep !in parts[i]
    ensures Count(Join(parts, sep), sep) == |parts| - 1
  {
    SplitJoin(parts, sep);
  }

  // ---------------------------------------------------------------- split(sep)

  /**
   `s.split(sep)`: the pieces between occurrences of `sep`, empty pieces kept,
   so that there is always at least one piece. The pieces are the unique
   sep-free list whose join is `s`.
   */
  function SplitOn(s: string, sep: char): (r: seq<string>)
    ensures |r| >= 1
    ensures forall i :: 0 <= i < |r| ==> sep !in r[i]
    ensures Join(r, sep) == s
    ensures |r| == 1 + Count(s, sep)
  {
    if |s| == 0 then [""]
    else
      var rest := SplitOn(s[1..], sep);
      if s[0] == sep then
        assert s == [sep] + s[1..];
        [""] + rest
      else
        var r := [[s[0]] + rest[0]] + rest[1..];
        assert r[1..] == rest[1..];
        assert s == [s[0]] + s[1..];
        r
  }

  /** Number of occurrences of `c` in `s`. */
  function Count(s: string, c: char): nat
  {
    if |s| == 0 then 0 else (if s[0] == c then 1 else 0) + Count(s[1..], c)
  }

  /** Splitting a join of sep-free pieces gives the pieces back. */
  lemma {:induction false} SplitJoin(parts: seq<string>, sep: char)
    requires |parts| >= 1
    requires forall i :: 0 <= i < |parts| ==> sep !in parts[i]
    ensures SplitOn(Join(parts, sep), sep) == parts
    decreases |parts|
  {
    if |parts| == 1 {
      SplitOnSepFree(parts[0], sep);
    } else {
      SplitOnPrefix(parts[0], Join(parts[1..], sep), sep);
      SplitJoin(parts[1..], sep);
      assert parts == [parts[0]] + parts[1..];
    }
  }

  lemma {:induction false} SplitOnSepFree(p: string, sep: char)
    requires sep !in p
    ensures SplitOn(p, sep) == [p]
    decreases |p|
  {
    if |p| > 0 {
      SplitOnSepFree(p[1..], sep);
      assert p == [p[0]] + p[1..];
    }
  }

  lemma {:induction false} SplitOnPrefix(p: string, t: string, sep: char)
    requires sep !in p
    ensures SplitOn(p + [sep] + t, sep) == [p] + SplitOn(t, sep)
    decreases |p|
  {
    var s := p + [sep] + t;
    if |p| == 0 {
      assert s == [sep] + t;
      assert s[1..] == t;
    } else {
      assert s[1..] == p[1..] + [sep] + t;
      SplitOnPrefix(p[1..], t, sep);
      assert p == [p[0]] + p[1..];
    }
  }

  // ---------------------------------------------------------------- split()

  /** Length of the leading run of non-whitespace characters of `s`. */
  function WordLen(s: string): (n: nat)
    ensures n <= |s|
    ensures NoSpace(s[..n])
    ensures n < |s| ==> IsSpace(s[n])
  {
    if |s| == 0 || IsSpace(s[0]) then 0 else 1 + WordLen(s[1..])
  }

  /**
   `s.split()`: the maximal runs of non-whitespace characters, in order;
   leading, trailing and repeated whitespace produce no empty tokens.
   */
  function SplitWs(s: string): (r: seq<string>)
    ensures forall i :: 0 <= i < |r| ==> |r[i]| > 0 && NoSpace(r[i])
    ensures |r| == 0 <==> AllSpace(s)
    ensures |s| > 0 && !IsSpace(s[0]) ==> |r| > 0 && r[0] == s[..WordLen(s)]
    decreases |s|
  {
    if |s| == 0 then []
    else if IsSpace(s[0]) then SplitWs(s[1..])
    else
      var n := WordLen(s);
      var rest := SplitWs(s[n..]);
      assert !AllSpace(s) by { assert !IsSpace(s[0]); }
      [s[..n]] + rest
  }

  /**
   Any whitespace character separates tokens: `split()` of two texts joined
   by one whitespace character is the tokens of the first followed by the
   tokens of the second.
   */
  lemma {:induction false} SplitWsAtSpace(a: string, c: char, b: string)
    requires IsSpace(c)
    ensures SplitWs(a + [c] + b) == SplitWs(a) + SplitWs(b)
    decreases |a|, 1
  {
    var s := a + [c] + b;
    if |a| == 0 {
      assert s == [c] + b;
      assert s[1..] == b;
    } else if IsSpace(a[0]) {
      assert s[0] == a[0];
      assert s[1..] == a[1..] + [c] + b;
      SplitWsAtSpace(a[1..], c, b);
    } else {
      SplitWsAtSpaceWord(a, c, b);
    }
  }

  /** SplitWsAtSpace when `a` starts with a word. */
  lemma {:induction false} SplitWsAtSpaceWord(a: string, c: char, b: string)
    requires IsSpace(c)
    requires |a| > 0 && !IsSpace(a[0])
    ensures SplitWs(a + [c] + b) == SplitWs(a) + SplitWs(b)
    decreases |a|, 0
  {
    var s := a + [c] + b;
    var n := WordLen(a);
    assert s[0] == a[0];
    assert s == a + ([c] + b);
    if n < |a| {
      WordLenAppend(a, [c] + b);
      assert s[..n] == a[..n];
      assert s[n..] == a[n..] + [c] + b;
      SplitWsAtSpace(a[n..], c, b);
      calc {
        SplitWs(s);
        [a[..n]] + SplitWs(a[n..] + [c] + b);
        [a[..n]] + (SplitWs(a[n..]) + SplitWs(b));
        ([a[..n]] + SplitWs(a[n..])) + SplitWs(b);
      }
    } else {
      assert a[..n] == a;
      WordLenPrefix(a, [c] + b);
      assert s[..n] == a;
      assert s[n..] == [c] + b;
      assert s[n..][1..] == b;
      SplitWsOneWord(a);
    }
  }

  /** The first word of `a` is the first word of `a + t` when `a` has whitespace after it. */
  lemma {:induction false} WordLenAppend(a: string, t: string)
    requires WordLen(a) < |a|
    ensures WordLen(a + t) == WordLen(a)
    decreases |a|
  {
    assert (a + t)[0] == a[0];
    if !IsSpace(a[0]) {
      assert (a + t)[1..] == a[1..] + t;
      WordLenAppend(a[1..], t);
    }
  }

  /** A string made of tokens separated by exactly one ASCII space. */
  predicate SingleSpaced(s: string) {
    && |s| > 0
    && s[0] != ' ' && s[|s| - 1] != ' '
    && (forall k :: 0 <= k < |s| ==> IsSpace(s[k]) ==> s[k] == ' ')
    && (forall k :: 0 <= k < |s| - 1 ==> !(s[k] == ' ' && s[k + 1] == ' '))
  }

  /** Joining the whitespace tokens of a single-spaced string with `' '` gives it back. */
  lemma {:induction false} JoinSplitWs(s: string)
    requires SingleSpaced(s)
    ensures Join(SplitWs(s), ' ') == s
    decreases |s|
  {
    var n := WordLen(s);
    assert !IsSpace(s[0]);
    if n == |s| {
      assert s[..n] == s;
      SplitWsOneWord(s);
    } else {
      var w := s[..n];
      var t := s[n + 1..];
      SingleSpacedAfterWord(s);
      SplitWsAfterWord(s);
      assert SplitWs(s) == [w] + SplitWs(t);
      JoinSplitWs(t);
      var r := SplitWs(t);
      assert |r| > 0 by {
        assert !IsSpace(t[0]);
      }
      JoinCons(w, r, ' ');
      assert Join(SplitWs(s), ' ') == w + [' '] + t;
      SplitAround(s, n);
    }
  }

  lemma SplitAround(s: string, n: int)
    requires 0 <= n < |s|
    ensures s == s[..n] + [s[n]] + s[n + 1..]
  {
  }

  lemma SplitWsOneWord(s: string)
    requires |s| > 0 && NoSpace(s)
    ensures SplitWs(s) == [s]
  {
    WordLenNoSpace(s);
    var e := s[|s|..];
    assert e == [];
    assert SplitWs(e) == [];
    assert s[..|s|] == s;
    assert SplitWs(s) == [s] + SplitWs(e);
  }

  lemma SingleSpacedAfterWord(s: string)
    requires SingleSpaced(s)
    requires WordLen(s) < |s|
    ensures WordLen(s) + 1 < |s| && s[WordLen(s)] == ' '
    ensures SingleSpaced(s[WordLen(s) + 1..])
  {
    var n := WordLen(s);
    assert IsSpace(s[n]);
    assert s[n] == ' ';
    assert n + 1 < |s|;
    assert s[n + 1] != ' ';
    var t := s[n + 1..];
    assert t[0] != ' ';
    assert t[|t| - 1] != ' ';
    forall k | 0 <= k < |t| ensures IsSpace(t[k]) ==> t[k] == ' ' {
      assert t[k] == s[n + 1 + k];
    }
    forall k | 0 <= k < |t| - 1 ensures !(t[k] == ' ' && t[k + 1] == ' ') {
      assert t[k] == s[n + 1 + k] && t[k + 1] == s[n + 2 + k];
    }
  }

  /** After the first word and one whitespace character, `split()` continues on the rest. */
  lemma SplitWsAfterWord(s: string)
    requires |s| > 0 && !IsSpace(s[0])
    requires WordLen(s) < |s|
    ensures SplitWs(s) == [s[..WordLen(s)]] + SplitWs(s[WordLen(s) + 1..])
  {
    var n := WordLen(s);
    assert SplitWs(s) == [s[..n]] + SplitWs(s[n..]);
    assert s[n..][1..] == s[n + 1..];
  }

  lemma JoinCons(w: string, r: seq<string>, sep: char)
    requires |r| > 0
    ensures Join([w] + r, sep) == w + [sep] + Join(r, sep)
  {
    assert ([w] + r)[1..] == r;
  }

  /** Splitting a single-space join of clean tokens gives the tokens back. */
  lemma {:induction false} SplitWsJoin(toks: seq<string>)
    requires forall i :: 0 <= i < |toks| ==> |toks[i]| > 0 && NoSpace(toks[i])
    ensures SplitWs(Join(toks, ' ')) == toks
    decreases |toks|
  {
    if |toks| == 1 {
      SplitWsOneWord(toks[0]);
    } else if |toks| > 1 {
      var w := toks[0];
      var t := Join(toks[1..], ' ');
      var s := Join(toks, ' ');
      assert s == w + ([' '] + t);
      WordLenPrefix(w, [' '] + t);
      assert !IsSpace(s[0]) by { assert s[0] == w[0]; }
      SplitWsAfterWord(s);
      assert s[..|w|] == w;
      assert s[|w| + 1..] == t;
      SplitWsJoin(toks[1..]);
      assert toks == [w] + toks[1..];
    }
  }

  lemma {:induction false} WordLenNoSpace(w: string)
    requires NoSpace(w)
    ensures WordLen(w) == |w|
    decreases |w|
  {
    if |w| > 0 {
      assert NoSpace(w[1..]) by {
        forall k | 0 <= k < |w| - 1 ensures !IsSpace(w[1..][k]) { assert w[1..][k] == w[k + 1]; }
      }
      WordLenNoSpace(w[1..]);
    }
  }

  lemma {:induction false} WordLenPrefix(w: string, t: string)
    requires NoSpace(w)
    requires |t| > 0 && IsSpace(t[0])
    ensures WordLen(w + t) == |w|
    decreases |w|
  {
    if |w| == 0 {
      assert w + t == t;
    } else {
      assert (w + t)[1..] == w[1..] + t;
      assert NoSpace(w[1..]) by {
        forall k | 0 <= k < |w| - 1 ensures !IsSpace(w[1..][k]) { assert w[1..][k] == w[k + 1]; }
      }
      WordLenPrefix(w[1..], t);
    }
  }
}
