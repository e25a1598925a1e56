/**
 Steps 1 and 2: the Region table and the region-to-RegionID dictionary.

 Step 1 collects `data[4]` of every data row, keeps the first occurrence of
 each value, sorts the distinct values and inserts the one at position `i`
 with RegionID `i + 1`. Step 2 reads the rows back and maps each region
 name to its RegionID.
 */
module Regions {
  import opened Results
  import opened Ordering
  import opened Sorting
  import opened Dedups
  import opened Dicts
  import opened Lines

  datatype RegionRow = RegionRow(regionId: int, region: string)

  /** The regions of the rows in table order. */
  function Names(rows: seq<RegionRow>): (r: seq<string>)
    ensures |r| == |rows| && forall i :: 0 <= i < |rows| ==> r[i] == rows[i].region
  {
    seq(|rows|, i requires 0 <= i < |rows| => rows[i].region)
  }

  /** `x` is the `data[4]` of some data row. */
  predicate IsRegionOf(data: seq<seq<string>>, x: string)
    requires HasField(data, 4)
  {
    exists k :: 0 <= k < |data| && data[k][4] == x
  }

  /** The sort key of a plain string. */
  function StrKey(s: string): seq<string> {
    [s]
  }

  /** Sorting distinct strings yields them in strictly increasing order, the same elements. */
  function SortDistinct(s: seq<string>): (r: seq<string>)
    requires forall i, j :: 0 <= i < j < |s| ==> s[i] != s[j]
    ensures forall i, j :: 0 <= i < j < |r| ==> StrLt(r[i], r[j])
    ensures forall x :: x in r <==> x in s
    ensures |r| == |s|
  {
    var r := SortBy(s, StrKey);
    SortDistinctFacts(s, r);
    r
  }

  lemma SortDistinctFacts(s: seq<string>, r: seq<string>)
    requires forall i, j :: 0 <= i < j < |s| ==> s[i] != s[j]
    requires SortedBy(r, StrKey) && multiset(r) == multiset(s)
    ensures forall i, j :: 0 <= i < j < |r| ==> StrLt(r[i], r[j])
    ensures forall x :: x in r <==> x in s
    ensures |r| == |s|
  {
    assert DistinctKeys(s, StrKey) by {
      forall i, j | 0 <= i < j < |s| ensures StrKey(s[i]) != StrKey(s[j]) {
        assert StrKey(s[i])[0] == s[i];
      }
    }
    PermDistinctKeys(s, r, StrKey);
    SortedDistinct(r, StrKey);
    forall i, j | 0 <= i < j < |r| ensures StrLt(r[i], r[j]) {
      KeyLtSingleton(r[i], r[j]);
    }
    forall x ensures x in r <==> x in s {
      assert x in r <==> x in multiset(r);
      assert x in s <==> x in multiset(s);
    }
    assert |r| == |multiset(r)| == |multiset(s)| == |s|;
  }

  /** Step 1: the rows inserted into the Region table, IndexError when a data row has no `data[4]`. */
  function RegionTable(data: seq<seq<string>>): (r: Result<seq<RegionRow>>)
    ensures r.Ok? <==> HasField(data, 4)
    ensures r.Err? ==> r.error == IndexError
    ensures r.Ok? ==> var rows := r.value;
      && (forall i :: 0 <= i < |rows| ==> rows[i].regionId == i + 1)
      && (forall i, j :: 0 <= i < j < |rows| ==> StrLt(rows[i].region, rows[j].region))
      && (forall x :: x in Names(rows) <==> IsRegionOf(data, x))
  {
    var col :- Column(data, 4);
    ColumnRegions(data, col);
    Ok(Number(SortDistinct(Dedup(col))))
  }

  /** The rows `(i + 1, regions[i])`. */
  function Number(regions: seq<string>): (rows: seq<RegionRow>)
    ensures |rows| == |regions|
    ensures forall i :: 0 <= i < |rows| ==> rows[i] == RegionRow(i + 1, regions[i])
    ensures Names(rows) == regions
  {
    seq(|regions|, i requires 0 <= i < |regions| => RegionRow(i + 1, regions[i]))
  }

  lemma ColumnRegions(data: seq<seq<string>>, col: seq<string>)
    requires HasField(data, 4)
    requires |col| == |data| && forall k :: 0 <= k < |col| ==> col[k] == data[k][4]
    ensures forall x :: x in col <==> IsRegionOf(data, x)
  {
    forall x ensures x in col <==> IsRegionOf(data, x) {
      if IsRegionOf(data, x) {
        var k :| 0 <= k < |data| && data[k][4] == x;
        assert col[k] == x;
      }
    }
  }

  /** The pairs `(region, regionId)` of the rows, in table order. */
  function RegionPairs(rows: seq<RegionRow>): (r: seq<(string, int)>)
    ensures |r| == |rows| && forall i :: 0 <= i < |rows| ==> r[i] == (rows[i].region, rows[i].regionId)
  {
    seq(|rows|, i requires 0 <= i < |rows| => (rows[i].region, rows[i].regionId))
  }

  /** Step 2: `{region: regionId}` over the rows of the Region table. */
  function RegionIds(rows: seq<RegionRow>): (d: map<string, int>)
    ensures forall x :: x in d <==> x in Names(rows)
  {
    var pairs := RegionPairs(rows);
    forall x ensures x in ToDict(pairs) <==> x in Names(rows) {
      InToDict(pairs, x);
    }
    ToDict(pairs)
  }

  // ---------------------------------------------------------------- properties

  /**
   Step 2 inverts step 1: every region of the file maps to the RegionID it
   was inserted with, and nothing else is in the dictionary.
   */
  lemma RegionIdsInvert(data: seq<seq<string>>)
    requires RegionTable(data).Ok?
    ensures var rows := RegionTable(data).value; var d := RegionIds(rows);
      && (forall x :: x in d <==> IsRegionOf(data, x))
      && (forall i :: 0 <= i < |rows| ==> d[rows[i].region] == i + 1)
      && (forall x :: x in d ==> 1 <= d[x] <= |rows|)
  {
    NumberedRegionIds(RegionTable(data).value);
  }

  /** The dictionary of rows numbered 1..n with strictly increasing names sends each name to its number. */
  lemma NumberedRegionIds(rows: seq<RegionRow>)
    requires forall i :: 0 <= i < |rows| ==> rows[i].regionId == i + 1
    requires forall i, j :: 0 <= i < j < |rows| ==> StrLt(rows[i].region, rows[j].region)
    ensures var d := RegionIds(rows);
      && (forall i :: 0 <= i < |rows| ==> d[rows[i].region] == i + 1)
      && (forall x :: x in d ==> 1 <= d[x] <= |rows|)
  {
    var pairs := RegionPairs(rows);
    forall i, j | 0 <= i < j < |pairs| ensures pairs[i].0 != pairs[j].0 {
      StrLtIrreflexive(rows[i].region);
    }
    NumberedDict(pairs);
  }

  /**
   Step 1 is determined by its specification: any strictly increasing list
   holding exactly the file's regions is the list of region names inserted.
   */
  lemma RegionTableUnique(data: seq<seq<string>>, regions: seq<string>)
    requires RegionTable(data).Ok?
    requires forall i, j :: 0 <= i < j < |regions| ==> StrLt(regions[i], regions[j])
    requires forall x :: x in regions <==> IsRegionOf(data, x)
    ensures Names(RegionTable(data).value) == regions
  {
    StrictlySortedUnique(Names(RegionTable(data).value), regions);
  }
}
