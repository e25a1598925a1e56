/**
 Reading the tab-delimited data file, as every table step does it.

 The file is given as its lines. Blank lines are skipped, the first
 non-blank line is the header, and every later non-blank line, stripped,
 is split on tabs into the fields `data[0]`, `data[1]`, ...
 */
module Lines {
  import opened Results
  import opened Text
  import opened Seqs

  /**
   The reading loop, one line at a time; `seenHeader` says whether the
   header has been read. Each line gives at most one row, the header none,
   and every row starts with a non-blank field.
   */
  function ScanRows(lines: seq<string>, seenHeader: bool): (r: seq<seq<string>>)
    ensures |r| <= |lines|
    ensures !seenHeader && |lines| > 0 ==> |r| < |lines|
    ensures FirstFieldsNonBlank(r)
  {
    if |lines| == 0 then []
    else
      var line := Strip(lines[0]);
      if line == "" then ScanRows(lines[1..], seenHeader)
      else if !seenHeader then ScanRows(lines[1..], true)
      else [SplitOn(line, '\t')] + ScanRows(lines[1..], true)
  }

  /**
   The split data rows of the file, in file order: fewer rows than lines
   when there is a line at all, since the header gives none, and a
   non-blank first field in every row.
   */
  function DataRows(lines: seq<string>): (r: seq<seq<string>>)
    ensures |r| <= |lines| && (|lines| > 0 ==> |r| < |lines|)
    ensures FirstFieldsNonBlank(r)
  {
    ScanRows(lines, false)
  }

  /** The non-blank lines of the file, stripped, in file order. */
  function NonBlank(lines: seq<string>): seq<string>
  {
    if |lines| == 0 then []
    else (if Strip(lines[0]) == "" then [] else [Strip(lines[0])]) + NonBlank(lines[1..])
  }

  /** Each line split on tabs. */
  function SplitTabs(ls: seq<string>): (r: seq<seq<string>>)
    ensures |r| == |ls| && forall i :: 0 <= i < |ls| ==> r[i] == SplitOn(ls[i], '\t')
  {
    seq(|ls|, i requires 0 <= i < |ls| => SplitOn(ls[i], '\t'))
  }

  /** `data[k]`, IndexError when the row has no field `k`. */
  function Field(row: seq<string>, k: nat): (r: Result<string>)
    ensures r.Ok? <==> k < |row|
    ensures r.Ok? ==> r.value == row[k]
    ensures r.Err? ==> r.error == IndexError
  {
    if k < |row| then Ok(row[k]) else Err(IndexError)
  }

  /** Every data row has a field `k`. */
  predicate HasField(data: seq<seq<string>>, k: nat) {
    forall i :: 0 <= i < |data| ==> k < |data[i]|
  }

  /** `data[k]` of every data row, in file order. */
  function ColumnOf(data: seq<seq<string>>, k: nat): (r: seq<string>)
    requires HasField(data, k)
    ensures |r| == |data| && forall i :: 0 <= i < |data| ==> r[i] == data[i][k]
  {
    seq(|data|, i requires 0 <= i < |data| => data[i][k])
  }

  /** Reading `data[k]` of every data row in turn; IndexError at the first row that is too short. */
  function Column(data: seq<seq<string>>, k: nat): (r: Result<seq<string>>)
    ensures r.Ok? <==> HasField(data, k)
    ensures r.Ok? ==> r.value == ColumnOf(data, k)
    ensures r.Err? ==> r.error == IndexError
  {
    Traverse(data, (row: seq<string>) => Field(row, k))
  }

  // ---------------------------------------------------------------- properties

  /**
   The data rows are the non-blank lines after the first one, each split on
   tabs: blank lines and the header never contribute a row.
   */
  lemma DataRowsAfterHeader(lines: seq<string>)
    ensures var nb := NonBlank(lines);
      DataRows(lines) == if |nb| == 0 then [] else SplitTabs(nb[1..])
  {
    ScanBeforeHeader(lines);
  }

  lemma {:induction false} ScanBeforeHeader(lines: seq<string>)
    ensures var nb := NonBlank(lines);
      ScanRows(lines, false) == if |nb| == 0 then [] else SplitTabs(nb[1..])
    decreases |lines|
  {
    if |lines| > 0 {
      var line := Strip(lines[0]);
      if line == "" {
        ScanBeforeHeader(lines[1..]);
      } else {
        ScanAfterHeader(lines[1..]);
        assert NonBlank(lines) == [line] + NonBlank(lines[1..]);
        assert NonBlank(lines)[1..] == NonBlank(lines[1..]);
      }
    }
  }

  lemma {:induction false} ScanAfterHeader(lines: seq<string>)
    ensures ScanRows(lines, true) == SplitTabs(NonBlank(lines))
    decreases |lines|
  {
    if |lines| == 0 {
      assert SplitTabs([]) == [];
    } else {
      var line := Strip(lines[0]);
      var rest := lines[1..];
      ScanAfterHeader(rest);
      if line == "" {
        assert ScanRows(lines, true) == ScanRows(rest, true);
        assert NonBlank(lines) == NonBlank(rest);
      } else {
        assert ScanRows(lines, true) == [SplitOn(line, '\t')] + ScanRows(rest, true);
        assert NonBlank(lines) == [line] + NonBlank(rest);
        SplitTabsCons(line, NonBlank(rest));
      }
    }
  }

  lemma SplitTabsCons(l: string, ls: seq<string>)
    ensures SplitTabs([l] + ls) == [SplitOn(l, '\t')] + SplitTabs(ls)
  {
    var a := SplitTabs([l] + ls);
    var b := [SplitOn(l, '\t')] + SplitTabs(ls);
    assert |a| == |b|;
    forall i | 0 <= i < |a| ensures a[i] == b[i] {
      if i > 0 {
        assert ([l] + ls)[i] == ls[i - 1];
      }
    }
  }

  /** Every row has a first field that is not blank. */
  predicate FirstFieldsNonBlank(data: seq<seq<string>>) {
    forall k :: 0 <= k < |data| ==> |data[k]| >= 1 && !AllSpace(data[k][0])
  }

  /** A whitespace-only line anywhere in the file changes no data row. */
  lemma BlankLineIgnored(before: seq<string>, blank: string, after: seq<string>)
    requires AllSpace(blank)
    ensures DataRows(before + [blank] + after) == DataRows(before + after)
  {
    var withBlank := before + [blank] + after;
    var without := before + after;
    var tail := [blank] + after;
    assert withBlank == before + tail;
    assert tail[0] == blank && tail[1..] == after;
    assert NonBlank(tail) == NonBlank(after);
    NonBlankAppend(before, tail);
    NonBlankAppend(before, after);
    assert NonBlank(withBlank) == NonBlank(without);
    DataRowsAfterHeader(withBlank);
    DataRowsAfterHeader(without);
  }

  /** Which non-blank line serves as the header does not change the data rows. */
  lemma HeaderIgnored(header1: string, header2: string, rest: seq<string>)
    requires Strip(header1) != "" && Strip(header2) != ""
    ensures DataRows([header1] + rest) == DataRows([header2] + rest)
  {
    assert ([header1] + rest)[1..] == rest;
    assert ([header2] + rest)[1..] == rest;
  }

  lemma {:induction false} NonBlankAppend(a: seq<string>, b: seq<string>)
    ensures NonBlank(a + b) == NonBlank(a) + NonBlank(b)
    decreases |a|
  {
    if |a| == 0 {
      assert a + b == b;
      assert NonBlank(a) == [];
    } else {
      var h := if Strip(a[0]) == "" then [] else [Strip(a[0])];
      var x := NonBlank(a[1..]);
      var y := NonBlank(b);
      assert (a + b)[0] == a[0];
      assert (a + b)[1..] == a[1..] + b;
      calc {
        NonBlank(a + b);
        h + NonBlank(a[1..] + b);
        { NonBlankAppend(a[1..], b); }
        h + (x + y);
        { assert h + (x + y) == (h + x) + y; }
        (h + x) + y;
        NonBlank(a) + y;
      }
    }
  }
}
