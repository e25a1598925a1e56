/**
 The order-date conversion of step 11,
 `datetime.strptime(s, '%Y%m%d').strftime('%Y-%m-%d')`.

 `strptime` matches `s` against the regular expression it builds for the
 format, `(\d\d\d\d)(1[0-2]|0[1-9]|[1-9])(3[0-1]|[1-2]\d|0[1-9]|[1-9]| [1-9])`,
 trying the alternatives in that order and backtracking into the month
 group when no day alternative fits; it raises ValueError when nothing
 matches or when the match does not reach the end of `s`, and again when the
 numbers are not a date of the proleptic Gregorian calendar with a year from
 1 to 9999. `strftime` then prints a four-digit year and two-digit month and
 day. For an eight-digit `YYYYMMDD` string that names a real date the whole
 conversion is `YYYY-MM-DD`.
 */
module Dates {
  import opened Results
  import opened Ints

  datatype Date = Date(year: int, month: int, day: int)

  function DaysInMonth(year: int, month: int): int {
    if month == 2 then (if IsLeapYear(year) then 29 else 28)
    else if month == 4 || month == 6 || month == 9 || month == 11 then 30
    else 31
  }

  predicate IsLeapYear(year: int) {
    year % 4 == 0 && (year % 100 != 0 || year % 400 == 0)
  }

  /** A date `datetime.date` accepts. */
  predicate ValidDate(d: Date) {
    && 1 <= d.year <= 9999
    && 1 <= d.month <= 12
    && 1 <= d.day <= DaysInMonth(d.year, d.month)
  }

  /** One group of the format's regular expression as matched: its length and its number. */
  datatype Group = Group(len: nat, val: nat)

  /** The `%m` alternatives that match at position 4, in the order the regex tries them. */
  function MonthGroups(s: string): (r: seq<Group>)
    ensures forall i :: 0 <= i < |r| ==> 1 <= r[i].val <= 12 && 1 <= r[i].len <= 2 && 4 + r[i].len <= |s|
  {
    (if |s| >= 6 && s[4] == '1' && '0' <= s[5] <= '2' then [Group(2, 10 + DigitValue(s[5]))] else [])
    + (if |s| >= 6 && s[4] == '0' && '1' <= s[5] <= '9' then [Group(2, DigitValue(s[5]))] else [])
    + (if |s| >= 5 && '1' <= s[4] <= '9' then [Group(1, DigitValue(s[4]))] else [])
  }

  /** The first `%d` alternative that matches at position `p`, if any. */
  function DayGroup(s: string, p: nat): (r: Option<Group>)
    ensures r.Some? ==> 1 <= r.value.val <= 31 && 1 <= r.value.len <= 2 && p + r.value.len <= |s|
  {
    if p + 1 < |s| && s[p] == '3' && '0' <= s[p + 1] <= '1' then Some(Group(2, 30 + DigitValue(s[p + 1])))
    else if p + 1 < |s| && '1' <= s[p] <= '2' && IsDigit(s[p + 1]) then Some(Group(2, 10 * DigitValue(s[p]) + DigitValue(s[p + 1])))
    else if p + 1 < |s| && s[p] == '0' && '1' <= s[p + 1] <= '9' then Some(Group(2, DigitValue(s[p + 1])))
    else if p < |s| && '1' <= s[p] <= '9' then Some(Group(1, DigitValue(s[p])))
    else if p + 1 < |s| && s[p] == ' ' && '1' <= s[p + 1] <= '9' then Some(Group(2, DigitValue(s[p + 1])))
    else None
  }

  /** The regex match: the first month alternative after which some day alternative matches. */
  function MatchMonthDay(s: string, months: seq<Group>): (r: Option<(Group, Group)>)
    ensures r.Some? ==> exists i :: 0 <= i < |months| && r.value.0 == months[i]
                          && DayGroup(s, 4 + months[i].len) == Some(r.value.1)
  {
    if |months| == 0 then None
    else match DayGroup(s, 4 + months[0].len)
      case Some(d) => Some((months[0], d))
      case None =>
        var r := MatchMonthDay(s, months[1..]);
        if r.Some? then
          var i :| 0 <= i < |months| - 1 && r.value.0 == months[1..][i]
                   && DayGroup(s, 4 + months[1..][i].len) == Some(r.value.1);
          assert months[1..][i] == months[i + 1];
          r
        else r
  }

  /** `datetime.strptime(s, '%Y%m%d')`. */
  function Strptime(s: string): (r: Result<Date>)
    ensures r.Ok? ==> ValidDate(r.value)
  {
    if |s| < 4 || !AllDigits(s[..4]) then Err(ValueError)
    else match MatchMonthDay(s, MonthGroups(s))
      case None => Err(ValueError)
      case Some((m, d)) =>
        if 4 + m.len + d.len != |s| then Err(ValueError)
        else
          var date := Date(DecimalValue(s[..4]), m.val, d.val);
          if ValidDate(date) then Ok(date) else Err(ValueError)
  }

  /** `n` as exactly `width` decimal digits, zero-padded on the left. */
  function Padded(n: nat, width: nat): (s: string)
    ensures |s| == width && AllDigits(s)
  {
    if width == 0 then "" else Padded(n / 10, width - 1) + [DigitChar(n % 10)]
  }

  /** `date.strftime('%Y-%m-%d')`. */
  function Strftime(d: Date): (s: string)
    requires ValidDate(d)
    ensures |s| == 10 && s[4] == '-' && s[7] == '-'
    ensures s[..4] == Padded(d.year, 4) && s[5..7] == Padded(d.month, 2) && s[8..] == Padded(d.day, 2)
  {
    var y := Padded(d.year, 4);
    var m := Padded(d.month, 2);
    var dd := Padded(d.day, 2);
    var s := y + "-" + m + "-" + dd;
    assert s[..4] == y;
    assert s[5..7] == m;
    assert s[8..] == dd;
    s
  }

  /** `strptime(s, '%Y%m%d').strftime('%Y-%m-%d')`, ValueError when `s` is not a date. */
  function ReformatDate(s: string): (r: Result<string>)
    ensures r.Ok? ==> |r.value| == 10 && r.value[4] == '-' && r.value[7] == '-'
                      && AllDigits(r.value[..4]) && AllDigits(r.value[5..7]) && AllDigits(r.value[8..])
  {
    var d :- Strptime(s);
    Ok(Strftime(d))
  }

  /** `strftime('%Y%m%d')`: the compact form the input file uses. */
  function Compact(d: Date): (s: string)
    requires ValidDate(d)
    ensures |s| == 8 && AllDigits(s)
  {
    Padded(d.year, 4) + Padded(d.month, 2) + Padded(d.day, 2)
  }

  // ---------------------------------------------------------------- properties

  lemma {:induction false} PaddedValue(n: nat, width: nat)
    requires n < Pow10(width)
    ensures DecimalValue(Padded(n, width)) == n
  {
    if width > 0 {
      var p := Padded(n / 10, width - 1);
      var s := p + [DigitChar(n % 10)];
      assert s[..|s| - 1] == p;
      assert n / 10 < Pow10(width - 1);
      PaddedValue(n / 10, width - 1);
    }
  }

  function Pow10(k: nat): (p: nat)
    ensures p >= 1
  {
    if k == 0 then 1 else 10 * Pow10(k - 1)
  }

  lemma {:induction false} DigitsPadded(s: string)
    requires AllDigits(s)
    ensures DecimalValue(s) < Pow10(|s|)
    ensures Padded(DecimalValue(s), |s|) == s
    decreases |s|
  {
    if |s| > 0 {
      var p := s[..|s| - 1];
      DigitsPadded(p);
      var v := DecimalValue(s);
      var vp := DecimalValue(p);
      var dig := DigitValue(s[|s| - 1]);
      assert v == 10 * vp + dig && dig < 10;
      assert v / 10 == vp && v % 10 == dig;
      assert v < Pow10(|s|) by {
        assert vp + 1 <= Pow10(|p|);
        assert Pow10(|s|) == 10 * Pow10(|p|);
      }
      assert Padded(v, |s|) == Padded(vp, |p|) + [DigitChar(dig)];
      assert DigitChar(DigitValue(s[|s| - 1])) == s[|s| - 1];
      assert s == p + [s[|s| - 1]];
    }
  }

  /** The value of a two-digit string. */
  lemma TwoDigits(t: string)
    requires |t| == 2 && AllDigits(t)
    ensures DecimalValue(t) == 10 * DigitValue(t[0]) + DigitValue(t[1])
  {
    var h := t[..1];
    assert h[..0] == "" && h[0] == t[0] && |h| == 1;
    assert DecimalValue(h) == 10 * DecimalValue(h[..0]) + DigitValue(h[0]);
    assert DecimalValue(t) == 10 * DecimalValue(h) + DigitValue(t[1]);
  }

  /**
   For an eight-digit string `YYYYMMDD`, `strptime` succeeds exactly when
   YYYY, MM, DD name a real date, and then it reads exactly those numbers.
   */
  lemma StrptimeEightDigits(s: string)
    requires |s| == 8 && AllDigits(s)
    ensures var d := Date(DecimalValue(s[..4]), DecimalValue(s[4..6]), DecimalValue(s[6..]));
      && (Strptime(s).Ok? <==> ValidDate(d))
      && (Strptime(s).Ok? ==> Strptime(s).value == d)
  {
    var d := Date(DecimalValue(s[..4]), DecimalValue(s[4..6]), DecimalValue(s[6..]));
    assert AllDigits(s[4..6]) && AllDigits(s[6..]);
    TwoDigits(s[4..6]);
    TwoDigits(s[6..]);
    assert s[4..6][0] == s[4] && s[4..6][1] == s[5] && s[6..][0] == s[6] && s[6..][1] == s[7];
    if Strptime(s).Ok? {
      StrptimeReads(s);
    }
    if ValidDate(d) {
      MonthDayMatch(s);
      assert AllDigits(s[..4]);
    }
  }

  /** A successful `strptime` of eight digits reads YYYY, MM and DD as two-digit groups. */
  lemma StrptimeReads(s: string)
    requires |s| == 8 && AllDigits(s)
    requires Strptime(s).Ok?
    ensures Strptime(s).value == Date(DecimalValue(s[..4]), 10 * DigitValue(s[4]) + DigitValue(s[5]),
                                      10 * DigitValue(s[6]) + DigitValue(s[7]))
  {
    var months := MonthGroups(s);
    var mm := MatchMonthDay(s, months);
    assert mm.Some?;
    var m := mm.value.0;
    var dd := mm.value.1;
    assert 4 + m.len + dd.len == 8;
    assert m.len == 2 && dd.len == 2;
    var i :| 0 <= i < |months| && m == months[i] && DayGroup(s, 4 + months[i].len) == Some(dd);
    TwoDigitMonth(s, i);
    TwoDigitDay(s);
    assert Strptime(s) == Ok(Date(DecimalValue(s[..4]), m.val, dd.val));
  }

  /** A two-character month alternative over two digits reads them as a number. */
  lemma TwoDigitMonth(s: string, i: int)
    requires |s| == 8 && AllDigits(s)
    requires 0 <= i < |MonthGroups(s)| && MonthGroups(s)[i].len == 2
    ensures MonthGroups(s)[i].val == 10 * DigitValue(s[4]) + DigitValue(s[5])
  {
  }

  /** A two-character day alternative at position 6 over two digits reads them as a number. */
  lemma TwoDigitDay(s: string)
    requires |s| == 8 && AllDigits(s)
    requires DayGroup(s, 6).Some? && DayGroup(s, 6).value.len == 2
    ensures DayGroup(s, 6).value.val == 10 * DigitValue(s[6]) + DigitValue(s[7])
  {
    assert s[6] != ' ';
  }

  /** Two-digit month 01..12 and day 01..31 are matched as two two-digit groups. */
  lemma MonthDayMatch(s: string)
    requires |s| == 8 && AllDigits(s)
    requires 1 <= 10 * DigitValue(s[4]) + DigitValue(s[5]) <= 12
    requires 1 <= 10 * DigitValue(s[6]) + DigitValue(s[7]) <= 31
    ensures MatchMonthDay(s, MonthGroups(s)) ==
      Some((Group(2, 10 * DigitValue(s[4]) + DigitValue(s[5])), Group(2, 10 * DigitValue(s[6]) + DigitValue(s[7]))))
  {
    var day := DayGroup(s, 6);
    assert day == Some(Group(2, 10 * DigitValue(s[6]) + DigitValue(s[7])));
    var months := MonthGroups(s);
    assert months[0] == Group(2, 10 * DigitValue(s[4]) + DigitValue(s[5]));
  }

  /** `YYYYMMDD` naming a real date becomes `YYYY-MM-DD`. */
  lemma ReformatEightDigits(s: string)
    requires |s| == 8 && AllDigits(s)
    requires ValidDate(Date(DecimalValue(s[..4]), DecimalValue(s[4..6]), DecimalValue(s[6..])))
    ensures ReformatDate(s) == Ok(s[..4] + "-" + s[4..6] + "-" + s[6..])
  {
    StrptimeEightDigits(s);
    assert AllDigits(s[..4]) && AllDigits(s[4..6]) && AllDigits(s[6..]);
    DigitsPadded(s[..4]);
    DigitsPadded(s[4..6]);
    DigitsPadded(s[6..]);
  }

  /** Writing a date in the file's compact form and reading it back gives the same date. */
  lemma StrptimeCompact(d: Date)
    requires ValidDate(d)
    ensures Strptime(Compact(d)) == Ok(d)
  {
    var s := Compact(d);
    assert s[..4] == Padded(d.year, 4) && s[4..6] == Padded(d.month, 2) && s[6..] == Padded(d.day, 2);
    assert Pow10(4) == 10000 && Pow10(2) == 100;
    PaddedValue(d.year, 4);
    PaddedValue(d.month, 2);
    PaddedValue(d.day, 2);
    StrptimeEightDigits(s);
  }
}
