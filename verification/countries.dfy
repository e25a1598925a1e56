/**
 Steps 3 and 4: the Country table and the country-to-CountryID dictionary.

 Step 3 pairs each country (`data[3]`) with the region (`data[4]`) of the
 first data row that names it, sorts the pairs, looks every region up in
 the region dictionary of step 2 (a missing region raises KeyError) and
 inserts `(country, regionId)`. Step 4 maps each country to its CountryID.
 */
module Countries {
  import opened Results
  import opened Ordering
  import opened Sorting
  import opened Dedups
  import opened Dicts
  import opened Seqs
  import opened Lines
  import Regions

  /**
   A row of the Country table. CountryID is assigned by the database engine;
   a freshly created table numbers its rows 1, 2, ... in insertion order,
   which is what `countryId` holds.
   */
  datatype CountryRow = CountryRow(countryId: int, country: string, regionId: int)

  /** `(data[3], data[4])`, read in that order. */
  function CountryRegion(row: seq<string>): (r: Result<(string, string)>)
    ensures r.Ok? <==> 4 < |row|
    ensures r.Ok? ==> r.value == (row[3], row[4])
    ensures r.Err? ==> r.error == IndexError
  {
    var country :- Field(row, 3);
    var region :- Field(row, 4);
    Ok((country, region))
  }

  /** `(country, region)` of every data row, in file order. */
  function CountryRegionPairs(data: seq<seq<string>>): (r: Result<seq<(string, string)>>)
    ensures r.Ok? <==> HasField(data, 4)
    ensures r.Err? ==> r.error == IndexError
    ensures r.Ok? ==> |r.value| == |data|
    ensures r.Ok? ==> forall k :: 0 <= k < |r.value| ==> r.value[k] == (data[k][3], data[k][4])
  {
    Traverse(data, CountryRegion)
  }

  /** The region of the first pair naming country `c`. */
  function FirstRegion(pairs: seq<(string, string)>, c: string): string
    requires HasKey(pairs, Fst, c)
  {
    pairs[FirstIndex(pairs, Fst, c)].1
  }

  /** Every country's first region is a key of the region dictionary. */
  predicate FirstRegionsKnown(pairs: seq<(string, string)>, d: map<string, int>) {
    forall i :: 0 <= i < |pairs| ==> HasKey(pairs, Fst, Fst(pairs[i])) && FirstRegion(pairs, Fst(pairs[i])) in d
  }

  /** The countries of the rows in table order. */
  function Names(rows: seq<CountryRow>): (r: seq<string>)
    ensures |r| == |rows| && forall i :: 0 <= i < |rows| ==> r[i] == rows[i].country
  {
    seq(|rows|, i requires 0 <= i < |rows| => rows[i].country)
  }

  /** `r_id = d[r]`. */
  function Resolve(d: map<string, int>, p: (string, string)): (r: Result<(string, int)>)
    ensures r.Ok? <==> p.1 in d
    ensures r.Ok? ==> r.value == (p.0, d[p.1])
    ensures r.Err? ==> r.error == KeyError(p.1)
  {
    if p.1 in d then Ok((p.0, d[p.1])) else Err(KeyError(p.1))
  }

  function Resolver(d: map<string, int>): ((string, string)) -> Result<(string, int)> {
    p => Resolve(d, p)
  }

  /** The rows `(i + 1, country, regionId)` in the order given. */
  function Number(pairs: seq<(string, int)>): (rows: seq<CountryRow>)
    ensures |rows| == |pairs|
    ensures forall i :: 0 <= i < |rows| ==> rows[i] == CountryRow(i + 1, pairs[i].0, pairs[i].1)
  {
    seq(|pairs|, i requires 0 <= i < |pairs| => CountryRow(i + 1, pairs[i].0, pairs[i].1))
  }

  /** The first `(country, region)` pair of each country, sorted. */
  function SortedFirsts(pairs: seq<(string, string)>): (r: seq<(string, string)>)
    ensures forall i, j :: 0 <= i < j < |r| ==> StrLt(r[i].0, r[j].0)
    ensures forall c :: HasKey(r, Fst, c) <==> HasKey(pairs, Fst, c)
    ensures forall i :: 0 <= i < |r| ==> HasKey(pairs, Fst, r[i].0) && r[i].1 == FirstRegion(pairs, r[i].0)
  {
    var firsts := DedupBy(pairs, Fst);
    var r := SortBy(firsts, PairKey);
    SortedFirstsFacts(pairs, firsts, r);
    r
  }

  lemma SortedFirstsFacts(pairs: seq<(string, string)>, firsts: seq<(string, string)>, r: seq<(string, string)>)
    requires DistinctKeys(firsts, Fst)
    requires forall c :: HasKey(firsts, Fst, c) <==> HasKey(pairs, Fst, c)
    requires forall i :: 0 <= i < |firsts| ==>
               HasKey(pairs, Fst, Fst(firsts[i])) && firsts[i] == pairs[FirstIndex(pairs, Fst, Fst(firsts[i]))]
    requires SortedBy(r, PairKey) && multiset(r) == multiset(firsts)
    ensures forall i, j :: 0 <= i < j < |r| ==> StrLt(r[i].0, r[j].0)
    ensures forall c :: HasKey(r, Fst, c) <==> HasKey(pairs, Fst, c)
    ensures forall i :: 0 <= i < |r| ==> HasKey(pairs, Fst, r[i].0) && r[i].1 == FirstRegion(pairs, r[i].0)
  {
    SortedPairs(firsts, r);
    forall c ensures HasKey(r, Fst, c) <==> HasKey(firsts, Fst, c) {
      if HasKey(r, Fst, c) {
        var i :| 0 <= i < |r| && Fst(r[i]) == c;
        assert r[i] in firsts;
        var j :| 0 <= j < |firsts| && firsts[j] == r[i];
      }
      if HasKey(firsts, Fst, c) {
        var i :| 0 <= i < |firsts| && Fst(firsts[i]) == c;
        assert firsts[i] in r;
        var j :| 0 <= j < |r| && r[j] == firsts[i];
      }
    }
    forall i | 0 <= i < |r| ensures HasKey(pairs, Fst, r[i].0) && r[i].1 == FirstRegion(pairs, r[i].0) {
      assert r[i] in firsts;
      var j :| 0 <= j < |firsts| && firsts[j] == r[i];
      assert Fst(firsts[j]) == r[i].0;
    }
  }

  /**
   Step 3: the rows inserted into the Country table, given the region
   dictionary `d` of step 2. IndexError when a data row has no `data[4]`;
   otherwise what `CountriesFrom` makes of the file's `(country, region)` pairs.
   */
  function CountryTable(data: seq<seq<string>>, d: map<string, int>): (r: Result<seq<CountryRow>>)
    ensures r.Err? ==> r.error == IndexError || (r.error.KeyError? && r.error.key !in d)
    ensures r.Err? && r.error == IndexError <==> !HasField(data, 4)
  {
    var pairs :- CountryRegionPairs(data);
    CountriesFrom(pairs, d)
  }

  /**
   The sorting, lookup and numbering of step 3, from the `(country, region)`
   pairs of the file; KeyError(region) when a looked-up region is not in `d`.
   */
  function CountriesFrom(pairs: seq<(string, string)>, d: map<string, int>): (r: Result<seq<CountryRow>>)
    ensures r.Err? ==> r.error.KeyError? && r.error.key !in d
  {
    var resolved :- Traverse(SortedFirsts(pairs), Resolver(d));
    Ok(Number(resolved))
  }

  /**
   What step 3 promises about its rows: the countries of the file in
   increasing order, numbered from 1, each with the RegionID of the region
   of its first row.
   */
  ghost predicate CountryRowsSpec(pairs: seq<(string, string)>, d: map<string, int>, rows: seq<CountryRow>) {
    && (forall i :: 0 <= i < |rows| ==> rows[i].countryId == i + 1)
    && (forall i, j :: 0 <= i < j < |rows| ==> StrLt(rows[i].country, rows[j].country))
    && (forall c :: c in Names(rows) <==> HasKey(pairs, Fst, c))
    && (forall i :: 0 <= i < |rows| ==>
          HasKey(pairs, Fst, rows[i].country) && FirstRegion(pairs, rows[i].country) in d
          && rows[i].regionId == d[FirstRegion(pairs, rows[i].country)])
  }

  /** Step 3 succeeds exactly when every country's first region is known, and then meets its specification. */
  lemma CountriesFromSpec(pairs: seq<(string, string)>, d: map<string, int>)
    ensures CountriesFrom(pairs, d).Ok? <==> FirstRegionsKnown(pairs, d)
    ensures CountriesFrom(pairs, d).Ok? ==> CountryRowsSpec(pairs, d, CountriesFrom(pairs, d).value)
  {
    var firsts := SortedFirsts(pairs);
    var t := Traverse(firsts, Resolver(d));
    if t.Ok? {
      assert CountriesFrom(pairs, d) == Ok(Number(t.value));
      CountryTableFacts(pairs, firsts, d, t.value, Number(t.value));
    } else {
      var i :| 0 <= i < |firsts| && Resolver(d)(firsts[i]).Err?;
      UnknownFirstRegion(pairs, d, firsts[i]);
    }
  }

  /** The numbered rows name exactly the countries of `firsts`. */
  lemma NumberedNames(firsts: seq<(string, string)>, resolved: seq<(string, int)>, rows: seq<CountryRow>)
    requires |resolved| == |firsts| && forall i :: 0 <= i < |firsts| ==> resolved[i].0 == firsts[i].0
    requires rows == Number(resolved)
    ensures forall c :: c in Names(rows) <==> HasKey(firsts, Fst, c)
  {
    forall c ensures c in Names(rows) <==> HasKey(firsts, Fst, c) {
      if c in Names(rows) {
        var i :| 0 <= i < |rows| && Names(rows)[i] == c;
        assert Fst(firsts[i]) == c;
      }
      if HasKey(firsts, Fst, c) {
        var i :| 0 <= i < |firsts| && Fst(firsts[i]) == c;
        assert Names(rows)[i] == c;
      }
    }
  }

  /** A country whose first region is unknown makes FirstRegionsKnown false. */
  lemma UnknownFirstRegion(pairs: seq<(string, string)>, d: map<string, int>, f: (string, string))
    requires HasKey(pairs, Fst, f.0) && f.1 == FirstRegion(pairs, f.0)
    requires f.1 !in d
    ensures !FirstRegionsKnown(pairs, d)
  {
    var k := FirstIndex(pairs, Fst, f.0);
    assert Fst(pairs[k]) == f.0;
    assert FirstRegion(pairs, Fst(pairs[k])) !in d;
  }

  lemma CountryTableFacts(pairs: seq<(string, string)>, firsts: seq<(string, string)>, d: map<string, int>,
                          resolved: seq<(string, int)>, rows: seq<CountryRow>)
    requires forall i, j :: 0 <= i < j < |firsts| ==> StrLt(firsts[i].0, firsts[j].0)
    requires forall c :: HasKey(firsts, Fst, c) <==> HasKey(pairs, Fst, c)
    requires forall i :: 0 <= i < |firsts| ==> HasKey(pairs, Fst, firsts[i].0) && firsts[i].1 == FirstRegion(pairs, firsts[i].0)
    requires |resolved| == |firsts| && forall i :: 0 <= i < |firsts| ==> Resolver(d)(firsts[i]).Ok? && resolved[i] == Resolver(d)(firsts[i]).value
    requires rows == Number(resolved)
    ensures FirstRegionsKnown(pairs, d)
    ensures CountryRowsSpec(pairs, d, rows)
  {
    forall i | 0 <= i < |pairs| ensures HasKey(pairs, Fst, Fst(pairs[i])) && FirstRegion(pairs, Fst(pairs[i])) in d {
      assert HasKey(pairs, Fst, Fst(pairs[i]));
      var j :| 0 <= j < |firsts| && Fst(firsts[j]) == Fst(pairs[i]);
      assert Resolver(d)(firsts[j]).Ok?;
    }
    NumberedNames(firsts, resolved, rows);
    assert forall c :: c in Names(rows) <==> HasKey(pairs, Fst, c);
    forall i | 0 <= i < |rows| ensures rows[i].regionId == d[firsts[i].1] && rows[i].country == firsts[i].0 {
      assert Resolver(d)(firsts[i]).Ok?;
    }
  }

  /** The pairs `(country, countryId)` of the rows, in table order. */
  function CountryPairs(rows: seq<CountryRow>): (r: seq<(string, int)>)
    ensures |r| == |rows| && forall i :: 0 <= i < |rows| ==> r[i] == (rows[i].country, rows[i].countryId)
  {
    seq(|rows|, i requires 0 <= i < |rows| => (rows[i].country, rows[i].countryId))
  }

  /** Step 4: `{country: countryId}` over the rows of the Country table. */
  function CountryIds(rows: seq<CountryRow>): (d: map<string, int>)
    ensures forall x :: x in d <==> x in Names(rows)
  {
    var pairs := CountryPairs(rows);
    forall x ensures x in ToDict(pairs) <==> x in Names(rows) {
      InToDict(pairs, x);
    }
    ToDict(pairs)
  }

  // ---------------------------------------------------------------- properties

  /**
   Step 4 inverts step 3: every country of the file maps to the CountryID
   of its row, and the dictionary holds nothing else.
   */
  lemma CountryIdsInvert(pairs: seq<(string, string)>, d: map<string, int>)
    requires CountriesFrom(pairs, d).Ok?
    ensures var rows := CountriesFrom(pairs, d).value; var ids := CountryIds(rows);
      && (forall c :: c in ids <==> HasKey(pairs, Fst, c))
      && (forall i :: 0 <= i < |rows| ==> ids[rows[i].country] == i + 1)
      && (forall c :: c in ids ==> 1 <= ids[c] <= |rows|)
  {
    CountriesFromSpec(pairs, d);
    var rows := CountriesFrom(pairs, d).value;
    var cp := CountryPairs(rows);
    forall i, j | 0 <= i < j < |cp| ensures cp[i].0 != cp[j].0 {
      StrLtIrreflexive(rows[i].country);
    }
    NumberedDict(cp);
  }

  /**
   Once step 1 has succeeded, step 3 with the dictionary of step 2 cannot
   fail: every country's region is a region of the file, hence in the
   dictionary, and the stored RegionID is a RegionID of the Region table.
   */
  lemma CountryTableAfterRegions(data: seq<seq<string>>)
    requires Regions.RegionTable(data).Ok?
    ensures var regions := Regions.RegionTable(data).value; var d := Regions.RegionIds(regions);
      && CountryTable(data, d).Ok?
      && forall i :: 0 <= i < |CountryTable(data, d).value| ==> 1 <= CountryTable(data, d).value[i].regionId <= |regions|
  {
    var regions := Regions.RegionTable(data).value;
    var d := Regions.RegionIds(regions);
    Regions.RegionIdsInvert(data);
    var pairs := CountryRegionPairs(data).value;
    forall k | 0 <= k < |pairs| ensures pairs[k].1 in d {
      assert data[k][4] == pairs[k].1;
      assert Regions.IsRegionOf(data, pairs[k].1);
    }
    AllRegionsKnown(pairs, d);
    CountriesFromSpec(pairs, d);
    assert CountryTable(data, d) == CountriesFrom(pairs, d);
    var rows := CountriesFrom(pairs, d).value;
    forall i | 0 <= i < |rows| ensures 1 <= rows[i].regionId <= |regions| {
      assert FirstRegion(pairs, rows[i].country) in d;
    }
  }

  /** When every row's region is known, so is every country's first region. */
  lemma AllRegionsKnown(pairs: seq<(string, string)>, d: map<string, int>)
    requires forall k :: 0 <= k < |pairs| ==> pairs[k].1 in d
    ensures FirstRegionsKnown(pairs, d)
  {
    forall i | 0 <= i < |pairs| ensures HasKey(pairs, Fst, Fst(pairs[i])) && FirstRegion(pairs, Fst(pairs[i])) in d {
      assert HasKey(pairs, Fst, Fst(pairs[i]));
      var k := FirstIndex(pairs, Fst, Fst(pairs[i]));
      assert pairs[k].1 in d;
    }
  }

  /**
   A later data row naming a country that is already present changes
   nothing, whatever region it carries: the first region of a country is final.
   */
  lemma LaterRowIgnored(data: seq<seq<string>>, row: seq<string>, d: map<string, int>)
    requires CountryRegionPairs(data).Ok?
    requires 4 < |row| && HasKey(CountryRegionPairs(data).value, Fst, row[3])
    ensures CountryTable(data + [row], d) == CountryTable(data, d)
  {
    var pairs := CountryRegionPairs(data).value;
    assert CountryRegionPairs(data + [row]) == Ok(pairs + [(row[3], row[4])]);
    KnownCountryIgnored(pairs, (row[3], row[4]), d);
  }

  lemma KnownCountryIgnored(pairs: seq<(string, string)>, p: (string, string), d: map<string, int>)
    requires HasKey(pairs, Fst, p.0)
    ensures CountriesFrom(pairs + [p], d) == CountriesFrom(pairs, d)
  {
    DedupByKnownLast(pairs, p, Fst);
    assert SortedFirsts(pairs + [p]) == SortedFirsts(pairs);
  }
}
