/**
 Decimal digits, and Python's `int(q)` on the quantity sub-fields of the
 order-detail step.
 */
module Ints {
  import opened Results
  import opened Text

  predicate IsDigit(c: char) {
    '0' <= c <= '9'
  }

  predicate AllDigits(s: string) {
    forall k :: 0 <= k < |s| ==> IsDigit(s[k])
  }

  function DigitValue(c: char): nat
    requires IsDigit(c)
  {
    (c as int) - ('0' as int)
  }

  function DigitChar(d: nat): (c: char)
    requires d < 10
    ensures IsDigit(c) && DigitValue(c) == d
  {
    (('0' as int) + d) as char
  }

  /** The value of a string of ASCII digits read in base 10 (leading zeros allowed). */
  function DecimalValue(s: string): nat
    requires AllDigits(s)
  {
    if |s| == 0 then 0 else 10 * DecimalValue(s[..|s| - 1]) + DigitValue(s[|s| - 1])
  }

  /** Python's `str(n)` for `n >= 0`: no leading zeros. */
  function Decimal(n: nat): (s: string)
    ensures |s| > 0 && AllDigits(s)
    ensures DecimalValue(s) == n
    ensures s[0] == '0' ==> n == 0
  {
    if n < 10 then [DigitChar(n)]
    else
      var p := Decimal(n / 10);
      var s := p + [DigitChar(n % 10)];
      assert s[..|s| - 1] == p;
      s
  }

  /** Python's `str(n)`. */
  function ShowInt(n: int): string {
    if n < 0 then "-" + Decimal(-n) else Decimal(n)
  }

  /**
   The digits part that `int()` accepts: ASCII digits, with single
   underscores allowed between two digits (PEP 515).
   */
  predicate DigitGroups(s: string) {
    && |s| > 0 && IsDigit(s[0]) && IsDigit(s[|s| - 1])
    && (forall k :: 0 <= k < |s| ==> IsDigit(s[k]) || s[k] == '_')
    && (forall k :: 0 <= k < |s| - 1 ==> !(s[k] == '_' && s[k + 1] == '_'))
  }

  /** The digits of `s` with the underscores removed. */
  function DropUnderscores(s: string): (r: string)
    requires forall k :: 0 <= k < |s| ==> IsDigit(s[k]) || s[k] == '_'
    ensures AllDigits(r)
    ensures AllDigits(s) ==> r == s
  {
    if |s| == 0 then ""
    else
      var p := DropUnderscores(s[..|s| - 1]);
      if s[|s| - 1] == '_' then p else p + [s[|s| - 1]]
  }

  /**
   The characters `int()` skips before and after the number. `int()` of a
   string first turns every non-ASCII whitespace character into a space,
   then skips only space, tab, newline, vertical tab, form feed and carriage
   return; so of the whitespace `str.strip()` removes it does not skip the
   separators U+001C..U+001F.
   */
  predicate IsIntSpace(c: char) {
    IsSpace(c) && !('\U{001C}' <= c <= '\U{001F}')
  }

  /** `s` without its leading `int()` whitespace. */
  function SkipLeading(s: string): (r: string)
    ensures |r| <= |s| && r == s[|s| - |r|..]
    ensures forall k :: 0 <= k < |s| - |r| ==> IsIntSpace(s[k])
    ensures |r| > 0 ==> !IsIntSpace(r[0])
  {
    if |s| > 0 && IsIntSpace(s[0]) then SkipLeading(s[1..]) else s
  }

  /** `s` without its trailing `int()` whitespace. */
  function SkipTrailing(s: string): (r: string)
    ensures |r| <= |s| && r == s[..|r|]
    ensures forall k :: |r| <= k < |s| ==> IsIntSpace(s[k])
    ensures |r| > 0 ==> !IsIntSpace(r[|r| - 1])
  {
    if |s| > 0 && IsIntSpace(s[|s| - 1]) then SkipTrailing(s[..|s| - 1]) else s
  }

  /** The text `int()` reads the number from: `s` without surrounding `int()` whitespace. */
  function IntTrim(s: string): (r: string)
    ensures |r| <= |s|
    ensures |r| > 0 ==> !IsIntSpace(r[0]) && !IsIntSpace(r[|r| - 1])
  {
    SkipTrailing(SkipLeading(s))
  }

  /**
   The largest number of digits `int()` converts (`sys.get_int_max_str_digits()`
   of Python 3.11 and later, at its default); longer numbers raise ValueError.
   */
  const MaxStrDigits: nat := 4300

  /**
   Python's `int(q)` for base 10: surrounding whitespace is ignored, one
   optional sign, then digit groups of at most `MaxStrDigits` digits;
   anything else raises ValueError.
   */
  function ParseInt(q: string): (r: Result<int>)
    ensures r.Ok? <==> var body := SignSplit(IntTrim(q)).1;
      DigitGroups(body) && |DropUnderscores(body)| <= MaxStrDigits
    ensures r.Err? ==> r.error == ValueError
  {
    var sign := SignSplit(IntTrim(q));
    var negative := sign.0;
    var body := sign.1;
    if !DigitGroups(body) then Err(ValueError)
    else
      var digits := DropUnderscores(body);
      if |digits| > MaxStrDigits then Err(ValueError)
      else
        var v := DecimalValue(digits) as int;
        Ok(if negative then -v else v)
  }

  /** Separates one leading sign: whether it is `-`, and the text after it. */
  function SignSplit(t: string): (bool, string) {
    if |t| > 0 && (t[0] == '+' || t[0] == '-') then (t[0] == '-', t[1..]) else (false, t)
  }

  /** A plain run of at most `MaxStrDigits` ASCII digits reads as its decimal value. */
  lemma ParseDigits(q: string)
    requires 0 < |q| <= MaxStrDigits && AllDigits(q)
    ensures ParseInt(q) == Ok(DecimalValue(q) as int)
  {
    assert !IsIntSpace(q[0]) && !IsIntSpace(q[|q| - 1]);
    IntTrimUnchanged(q);
    assert SignSplit(q) == (false, q);
    ParseIntOf(q, false, q);
  }

  lemma IntTrimUnchanged(s: string)
    requires |s| > 0 && !IsIntSpace(s[0]) && !IsIntSpace(s[|s| - 1])
    ensures IntTrim(s) == s
  {
    assert SkipLeading(s) == s;
    assert SkipTrailing(s) == s;
  }

  /** A minus sign before a run of at most `MaxStrDigits` ASCII digits reads as the negated value. */
  lemma ParseNegativeDigits(d: string)
    requires 0 < |d| <= MaxStrDigits && AllDigits(d)
    ensures ParseInt("-" + d) == Ok(-(DecimalValue(d) as int))
  {
    var s := "-" + d;
    assert s[0] == '-';
    assert s[|s| - 1] == d[|d| - 1];
    IntTrimUnchanged(s);
    assert s[1..] == d;
    assert SignSplit(s) == (true, d);
    ParseIntOf(s, true, d);
  }

  /** Plain digits after the sign: the value is the digits' decimal value, negated after `-`. */
  lemma ParseIntOf(q: string, negative: bool, digits: string)
    requires SignSplit(IntTrim(q)) == (negative, digits)
    requires 0 < |digits| <= MaxStrDigits && AllDigits(digits)
    ensures ParseInt(q) == Ok(if negative then -(DecimalValue(digits) as int) else DecimalValue(digits) as int)
  {
    PlainDigits(digits);
  }

  /** Plain digits are digit groups without underscores. */
  lemma PlainDigits(d: string)
    requires |d| > 0 && AllDigits(d)
    ensures DigitGroups(d) && DropUnderscores(d) == d
  {
  }

  /**
   `int(str(n)) == n`: the quantity text a program writes reads back as the
   same number, for every integer of at most `MaxStrDigits` digits.
   */
  lemma ParseShowInt(n: int)
    requires |Decimal(if n < 0 then -n else n)| <= MaxStrDigits
    ensures ParseInt(ShowInt(n)) == Ok(n)
  {
    if n < 0 {
      ParseNegativeDigits(Decimal(-n));
    } else {
      ParseDigits(Decimal(n));
    }
  }

  /** A run of more than `MaxStrDigits` digits raises ValueError, whatever its value. */
  lemma ParseTooManyDigits(d: string)
    requires |d| > MaxStrDigits && AllDigits(d)
    ensures ParseInt(d) == Err(ValueError)
  {
    assert !IsIntSpace(d[0]) && !IsIntSpace(d[|d| - 1]);
    IntTrimUnchanged(d);
    assert SignSplit(d) == (false, d);
    assert DropUnderscores(d) == d;
  }

  /**
   A leading U+001C is whitespace to `str.strip()` but not to `int()`:
   `int("\x1c5")` raises ValueError although the stripped text is `"5"`.
   */
  lemma FileSeparatorNotSkipped()
    ensures Strip("\U{001C}5") == "5"
    ensures ParseInt("\U{001C}5") == Err(ValueError)
  {
    StripDropsFileSeparator();
    ParseKeepsFileSeparator();
  }

  lemma StripDropsFileSeparator()
    ensures Strip("\U{001C}5") == "5"
  {
    var s := "\U{001C}5";
    var five := "5";
    assert !IsSpace(five[0]) && !IsSpace(five[|five| - 1]);
    assert LStrip(five) == five;
    assert RStrip(five) == five;
    assert IsSpace(s[0]) && s[1..] == five;
    assert LStrip(s) == five;
  }

  lemma ParseKeepsFileSeparator()
    ensures ParseInt("\U{001C}5") == Err(ValueError)
  {
    var s := "\U{001C}5";
    assert !IsIntSpace(s[0]);
    assert SkipLeading(s) == s;
    assert SkipTrailing(s) == s;
    assert SignSplit(IntTrim(s)) == (false, s);
    assert !DigitGroups(s);
  }
}
