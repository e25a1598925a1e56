/**
 Steps 7 and 8: the ProductCategory table and the category-to-ID dictionary.

 Step 7 splits `data[6]` and `data[7]` of every data row on `;` and keeps
 the first occurrence of each category and, independently, of each
 description. The k-th distinct category is paired with the k-th distinct
 description (IndexError when there are fewer descriptions than
 categories); the pairs go through a dictionary, are sorted and numbered
 from 1. Step 8 maps each category back to its ProductCategoryID.
 */
module Categories {
  import opened Results
  import opened Text
  import opened Ordering
  import opened Sorting
  import opened Dedups
  import opened Dicts
  import opened Seqs
  import opened Lines

  datatype CategoryRow = CategoryRow(categoryId: int, category: string, description: string)

  /** Each field split on `;`. */
  function Pieces(fields: seq<string>): (r: seq<seq<string>>)
    ensures |r| == |fields| && forall k :: 0 <= k < |fields| ==> r[k] == SplitOn(fields[k], ';')
  {
    seq(|fields|, k requires 0 <= k < |fields| => SplitOn(fields[k], ';'))
  }

  /**
   The `;`-pieces of the fields, collected in field order into a list that
   keeps each piece only at its first occurrence.
   */
  function DistinctPieces(fields: seq<string>): (r: seq<string>)
    ensures forall i, j :: 0 <= i < j < |r| ==> r[i] != r[j]
    ensures forall x :: x in r <==> exists k :: 0 <= k < |fields| && x in SplitOn(fields[k], ';')
    ensures forall x :: x in r <==> x in AllPieces(fields)
    ensures forall i, j :: 0 <= i < j < |r| ==> IndexOf(AllPieces(fields), r[i]) < IndexOf(AllPieces(fields), r[j])
  {
    var pieces := Pieces(fields);
    assert forall x :: x in Concat(pieces) <==> exists k :: 0 <= k < |fields| && x in SplitOn(fields[k], ';') by {
      forall x ensures x in Concat(pieces) <==> exists k :: 0 <= k < |fields| && x in SplitOn(fields[k], ';') {
        if exists k :: 0 <= k < |fields| && x in SplitOn(fields[k], ';') {
          var k :| 0 <= k < |fields| && x in SplitOn(fields[k], ';');
          assert x in pieces[k];
        }
      }
    }
    Dedup(Concat(pieces))
  }

  /** Every `;`-piece of the fields, in field order, repeats included. */
  function AllPieces(fields: seq<string>): seq<string> {
    Concat(Pieces(fields))
  }

  /** `x` is one of the `;`-separated categories of some data row. */
  predicate IsCategoryOf(data: seq<seq<string>>, x: string)
    requires HasField(data, 6)
  {
    exists k :: 0 <= k < |data| && x in SplitOn(data[k][6], ';')
  }

  /** The distinct categories of the file in first-occurrence order, `cts`. */
  function CategoryList(data: seq<seq<string>>): (r: seq<string>)
    requires HasField(data, 6)
    ensures forall i, j :: 0 <= i < j < |r| ==> r[i] != r[j]
    ensures forall x :: x in r <==> x in AllPieces(ColumnOf(data, 6))
    ensures forall i, j :: 0 <= i < j < |r| ==>
      IndexOf(AllPieces(ColumnOf(data, 6)), r[i]) < IndexOf(AllPieces(ColumnOf(data, 6)), r[j])
  {
    DistinctPieces(ColumnOf(data, 6))
  }

  /** The distinct descriptions of the file in first-occurrence order, `dts`. */
  function DescriptionList(data: seq<seq<string>>): (r: seq<string>)
    requires HasField(data, 7)
    ensures forall i, j :: 0 <= i < j < |r| ==> r[i] != r[j]
    ensures forall x :: x in r <==> x in AllPieces(ColumnOf(data, 7))
    ensures forall i, j :: 0 <= i < j < |r| ==>
      IndexOf(AllPieces(ColumnOf(data, 7)), r[i]) < IndexOf(AllPieces(ColumnOf(data, 7)), r[j])
  {
    DistinctPieces(ColumnOf(data, 7))
  }

  /** The pairs `(cts[i], dts[i])`, the items of the category dictionary. */
  function Pair(cts: seq<string>, dts: seq<string>): (r: seq<(string, string)>)
    requires |cts| <= |dts|
    ensures |r| == |cts| && forall i :: 0 <= i < |cts| ==> r[i] == (cts[i], dts[i])
  {
    seq(|cts|, i requires 0 <= i < |cts| => (cts[i], dts[i]))
  }

  /** The rows `(i + 1, category, description)`. */
  function Number(items: seq<(string, string)>): (rows: seq<CategoryRow>)
    ensures |rows| == |items|
    ensures forall i :: 0 <= i < |rows| ==> rows[i] == CategoryRow(i + 1, items[i].0, items[i].1)
  {
    seq(|items|, i requires 0 <= i < |items| => CategoryRow(i + 1, items[i].0, items[i].1))
  }

  /**
   Step 7: the rows inserted into the ProductCategory table, IndexError when
   a data row has no `data[7]`.
   */
  function CategoryTable(data: seq<seq<string>>): (r: Result<seq<CategoryRow>>)
    ensures r.Err? ==> r.error == IndexError
  {
    var categories :- Column(data, 6);
    var descriptions :- Column(data, 7);
    CategoriesFrom(DistinctPieces(categories), DistinctPieces(descriptions))
  }

  /**
   Pairing the k-th category with the k-th description (IndexError when the
   descriptions run out first), then `sorted(category_dict.items())`
   numbered from 1. The categories are distinct, so the dictionary's items
   are exactly the pairs (see DictItems).
   */
  function CategoriesFrom(cts: seq<string>, dts: seq<string>): (r: Result<seq<CategoryRow>>)
    ensures r.Err? <==> |dts| < |cts|
    ensures r.Err? ==> r.error == IndexError
  {
    if |dts| < |cts| then Err(IndexError)
    else Ok(Number(SortBy(Pair(cts, dts), PairKey)))
  }

  function Names(rows: seq<CategoryRow>): (r: seq<string>)
    ensures |r| == |rows| && forall i :: 0 <= i < |rows| ==> r[i] == rows[i].category
  {
    seq(|rows|, i requires 0 <= i < |rows| => rows[i].category)
  }

  /** The pairs `(category, categoryId)` of the rows, in table order. */
  function CategoryPairs(rows: seq<CategoryRow>): (r: seq<(string, int)>)
    ensures |r| == |rows| && forall i :: 0 <= i < |rows| ==> r[i] == (rows[i].category, rows[i].categoryId)
  {
    seq(|rows|, i requires 0 <= i < |rows| => (rows[i].category, rows[i].categoryId))
  }

  /** Step 8: `{category: categoryId}` over the rows of the ProductCategory table. */
  function CategoryIds(rows: seq<CategoryRow>): (d: map<string, int>)
    ensures forall x :: x in d <==> x in Names(rows)
  {
    var pairs := CategoryPairs(rows);
    forall x ensures x in ToDict(pairs) <==> x in Names(rows) {
      InToDict(pairs, x);
    }
    ToDict(pairs)
  }

  // ---------------------------------------------------------------- properties

  /**
   The table built from distinct categories `cts` and descriptions `dts`:
   one row per category, numbered 1..n in strictly increasing category
   order, each carrying the description at its category's position in `cts`.
   */
  ghost predicate CategoryRowsSpec(cts: seq<string>, dts: seq<string>, rows: seq<CategoryRow>) {
    && |rows| == |cts|
    && (forall i :: 0 <= i < |rows| ==> rows[i].categoryId == i + 1)
    && (forall i, j :: 0 <= i < j < |rows| ==> StrLt(rows[i].category, rows[j].category))
    && (forall x :: x in Names(rows) <==> x in cts)
    && (forall i :: 0 <= i < |rows| ==>
          rows[i].category in cts && IndexOf(cts, rows[i].category) < |dts|
          && rows[i].description == dts[IndexOf(cts, rows[i].category)])
  }

  lemma CategoriesFromSpec(cts: seq<string>, dts: seq<string>)
    requires forall i, j :: 0 <= i < j < |cts| ==> cts[i] != cts[j]
    ensures CategoriesFrom(cts, dts).Ok? <==> |dts| >= |cts|
    ensures CategoriesFrom(cts, dts).Ok? ==> CategoryRowsSpec(cts, dts, CategoriesFrom(cts, dts).value)
  {
    if |dts| >= |cts| {
      var items := Pair(cts, dts);
      var sorted := SortBy(items, PairKey);
      assert DistinctKeys(items, Fst) by {
        forall i, j | 0 <= i < j < |items| ensures Fst(items[i]) != Fst(items[j]) {
          assert items[i].0 == cts[i] && items[j].0 == cts[j];
        }
      }
      SortedPairs(items, sorted);
      var rows := Number(sorted);
      assert CategoriesFrom(cts, dts) == Ok(rows);
      SortedRowDescriptions(cts, dts, sorted);
      SortedRowNames(cts, dts, sorted);
    }
  }

  /** Each sorted pair is some `(cts[k], dts[k])`, so it carries its category's description. */
  lemma SortedRowDescriptions(cts: seq<string>, dts: seq<string>, sorted: seq<(string, string)>)
    requires forall i, j :: 0 <= i < j < |cts| ==> cts[i] != cts[j]
    requires |cts| <= |dts|
    requires forall p :: p in sorted <==> p in Pair(cts, dts)
    ensures forall i :: 0 <= i < |sorted| ==>
      sorted[i].0 in cts && IndexOf(cts, sorted[i].0) < |dts| && sorted[i].1 == dts[IndexOf(cts, sorted[i].0)]
  {
    var items := Pair(cts, dts);
    forall i | 0 <= i < |sorted|
      ensures sorted[i].0 in cts && IndexOf(cts, sorted[i].0) < |dts| && sorted[i].1 == dts[IndexOf(cts, sorted[i].0)]
    {
      assert sorted[i] in items;
      var k :| 0 <= k < |items| && items[k] == sorted[i];
      assert cts[k] == sorted[i].0;
      assert IndexOf(cts, cts[k]) == k;
    }
  }

  /** The numbered rows name exactly the categories. */
  lemma SortedRowNames(cts: seq<string>, dts: seq<string>, sorted: seq<(string, string)>)
    requires |cts| <= |dts|
    requires forall p :: p in sorted <==> p in Pair(cts, dts)
    ensures forall x :: x in Names(Number(sorted)) <==> x in cts
  {
    var items := Pair(cts, dts);
    var rows := Number(sorted);
    forall x ensures x in Names(rows) <==> x in cts {
      if x in cts {
        var k :| 0 <= k < |cts| && cts[k] == x;
        assert items[k] in sorted;
        var i :| 0 <= i < |sorted| && sorted[i] == items[k];
        assert Names(rows)[i] == x;
      }
      if x in Names(rows) {
        var i :| 0 <= i < |rows| && Names(rows)[i] == x;
        assert sorted[i] in items;
      }
    }
  }

  /**
   What step 7 inserts: it fails exactly when a data row has no `data[7]` or
   there are fewer distinct descriptions than categories; otherwise one row
   per distinct category of the file, as CategoryRowsSpec describes.
   */
  lemma CategoryTableSpec(data: seq<seq<string>>)
    ensures CategoryTable(data).Ok? <==>
      HasField(data, 7) && |DescriptionList(data)| >= |CategoryList(data)|
    ensures CategoryTable(data).Ok? ==>
      var rows := CategoryTable(data).value;
      && CategoryRowsSpec(CategoryList(data), DescriptionList(data), rows)
      && (forall x :: x in Names(rows) <==> IsCategoryOf(data, x))
  {
    if HasField(data, 7) {
      assert HasField(data, 6);
      var cts := CategoryList(data);
      var dts := DescriptionList(data);
      assert CategoryTable(data) == CategoriesFrom(cts, dts);
      CategoriesFromSpec(cts, dts);
      forall x ensures x in cts <==> IsCategoryOf(data, x) {
        ColumnPieces(data, 6, x);
      }
    }
  }

  /** A piece of the column is a piece of some row's field. */
  lemma ColumnPieces(data: seq<seq<string>>, f: nat, x: string)
    requires HasField(data, f)
    ensures (exists k :: 0 <= k < |data| && x in SplitOn(ColumnOf(data, f)[k], ';'))
        <==> (exists k :: 0 <= k < |data| && x in SplitOn(data[k][f], ';'))
  {
    if exists k :: 0 <= k < |data| && x in SplitOn(data[k][f], ';') {
      var k :| 0 <= k < |data| && x in SplitOn(data[k][f], ';');
      assert ColumnOf(data, f)[k] == data[k][f];
    }
  }

  /**
   Step 8 inverts step 7: every category of the file maps to the
   ProductCategoryID it was inserted with, and nothing else is in the
   dictionary.
   */
  lemma CategoryIdsInvert(data: seq<seq<string>>)
    requires CategoryTable(data).Ok?
    ensures HasField(data, 6)
    ensures var rows := CategoryTable(data).value; var d := CategoryIds(rows);
      && (forall x :: x in d <==> IsCategoryOf(data, x))
      && (forall i :: 0 <= i < |rows| ==> d[rows[i].category] == i + 1)
      && (forall x :: x in d ==> 1 <= d[x] <= |rows|)
  {
    CategoryTableSpec(data);
    NumberedRows(CategoryTable(data).value);
  }

  /** Rows numbered 1..n with strictly increasing names give each name its own id. */
  lemma NumberedRows(rows: seq<CategoryRow>)
    requires forall i :: 0 <= i < |rows| ==> rows[i].categoryId == i + 1
    requires forall i, j :: 0 <= i < j < |rows| ==> StrLt(rows[i].category, rows[j].category)
    ensures forall i :: 0 <= i < |rows| ==> CategoryIds(rows)[rows[i].category] == i + 1
    ensures forall x :: x in CategoryIds(rows) ==> 1 <= CategoryIds(rows)[x] <= |rows|
  {
    var pairs := CategoryPairs(rows);
    forall i, j | 0 <= i < j < |pairs| ensures pairs[i].0 != pairs[j].0 {
      StrLtIrreflexive(rows[i].category);
    }
    NumberedDict(pairs);
  }

  /**
   With distinct categories, `{cts[i]: dts[i]}` holds exactly the pairs:
   its keys are the categories and each is bound to its own description.
   */
  lemma DictItems(cts: seq<string>, dts: seq<string>)
    requires forall i, j :: 0 <= i < j < |cts| ==> cts[i] != cts[j]
    requires |cts| <= |dts|
    ensures forall x :: x in ToDict(Pair(cts, dts)) <==> x in cts
    ensures forall i :: 0 <= i < |cts| ==> ToDict(Pair(cts, dts))[cts[i]] == dts[i]
  {
    var items := Pair(cts, dts);
    DistinctKeysDict(items);
    forall x ensures x in ToDict(items) <==> x in cts {
      InToDict(items, x);
    }
  }
}
