/**
 Steps 9 and 10: the Product table and the product-to-ProductID dictionary.

 Step 9 splits `data[5]` (names), `data[6]` (categories) and `data[8]`
 (unit prices) of every data row on `;`, zips the three lists (stopping at
 the shortest), and keeps the first occurrence of each (name, category,
 price) triple. The triples are sorted by name alone, stably, and the one at
 position `i` becomes product `i + 1`, its category replaced by the
 ProductCategoryID the category dictionary holds for it (KeyError when it
 holds none). Step 10 maps each product name to its ProductID.
 */
module Products {
  import opened Results
  import opened Text
  import opened Ordering
  import opened Sorting
  import opened Dedups
  import opened Dicts
  import opened Seqs
  import opened Lines

  /** A product row; the unit price is kept as the text of `data[8]`. */
  datatype ProductRow = ProductRow(productId: int, name: string, price: string, categoryId: int)

  /** One candidate product: (name, category, price). */
  type Triple = (string, string, string)

  /** `zip(pn.split(';'), pc.split(';'), pup.split(';'))` of one data row. */
  function RowTriples(row: seq<string>): seq<Triple>
    requires 8 < |row|
  {
    Zip3(SplitOn(row[5], ';'), SplitOn(row[6], ';'), SplitOn(row[8], ';'))
  }

  function FileTriples(data: seq<seq<string>>): (r: seq<seq<Triple>>)
    requires HasField(data, 8)
    ensures |r| == |data| && forall k :: 0 <= k < |data| ==> r[k] == RowTriples(data[k])
  {
    seq(|data|, k requires 0 <= k < |data| => RowTriples(data[k]))
  }

  /**
   `t` is read from the same position `i` of the three split fields of some
   data row, a position all three lists have.
   */
  predicate IsProductOf(data: seq<seq<string>>, t: Triple)
    requires HasField(data, 8)
  {
    exists k, i :: 0 <= k < |data| && 0 <= i < |SplitOn(data[k][5], ';')|
      && i < |SplitOn(data[k][6], ';')| && i < |SplitOn(data[k][8], ';')|
      && t == (SplitOn(data[k][5], ';')[i], SplitOn(data[k][6], ';')[i], SplitOn(data[k][8], ';')[i])
  }

  /**
   `res`: every triple of the file once, at its first occurrence; IndexError
   when a data row has no `data[8]`.
   */
  function Candidates(data: seq<seq<string>>): (r: Result<seq<Triple>>)
    ensures r.Ok? <==> HasField(data, 8)
    ensures r.Err? ==> r.error == IndexError
    ensures r.Ok? ==> ((forall i, j :: 0 <= i < j < |r.value| ==> r.value[i] != r.value[j])
                       && (forall t :: t in r.value <==> IsProductOf(data, t)))
    ensures r.Ok? ==> forall t :: t in r.value <==> t in Concat(FileTriples(data))
    ensures r.Ok? ==> forall i, j :: 0 <= i < j < |r.value| ==>
      IndexOf(Concat(FileTriples(data)), r.value[i]) < IndexOf(Concat(FileTriples(data)), r.value[j])
  {
    if !HasField(data, 8) then Err(IndexError)
    else
      var all := Concat(FileTriples(data));
      forall t ensures t in all <==> IsProductOf(data, t) {
        TriplesOfFile(data, t);
      }
      Ok(Dedup(all))
  }

  lemma TriplesOfFile(data: seq<seq<string>>, t: Triple)
    requires HasField(data, 8)
    ensures t in Concat(FileTriples(data)) <==> IsProductOf(data, t)
  {
    var ts := FileTriples(data);
    if t in Concat(ts) {
      var k :| 0 <= k < |ts| && t in ts[k];
      RowTripleIsProduct(data, k, t);
    }
    if IsProductOf(data, t) {
      var k, i :| 0 <= k < |data| && 0 <= i < |SplitOn(data[k][5], ';')|
        && i < |SplitOn(data[k][6], ';')| && i < |SplitOn(data[k][8], ';')|
        && t == (SplitOn(data[k][5], ';')[i], SplitOn(data[k][6], ';')[i], SplitOn(data[k][8], ';')[i]);
      ProductIsRowTriple(data, k, i);
      assert t in ts[k];
    }
  }

  lemma RowTripleIsProduct(data: seq<seq<string>>, k: int, t: Triple)
    requires HasField(data, 8) && 0 <= k < |data|
    requires t in RowTriples(data[k])
    ensures IsProductOf(data, t)
  {
    var a := SplitOn(data[k][5], ';');
    var b := SplitOn(data[k][6], ';');
    var c := SplitOn(data[k][8], ';');
    var ts := RowTriples(data[k]);
    var i :| 0 <= i < |ts| && ts[i] == t;
    assert i < |a| && i < |b| && i < |c| && t == (a[i], b[i], c[i]);
  }

  lemma ProductIsRowTriple(data: seq<seq<string>>, k: int, i: int)
    requires HasField(data, 8) && 0 <= k < |data|
    requires 0 <= i < |SplitOn(data[k][5], ';')| && i < |SplitOn(data[k][6], ';')| && i < |SplitOn(data[k][8], ';')|
    ensures i < |RowTriples(data[k])|
    ensures RowTriples(data[k])[i] == (SplitOn(data[k][5], ';')[i], SplitOn(data[k][6], ';')[i], SplitOn(data[k][8], ';')[i])
  {
  }

  /** The sort key `lambda x: x[0]`: the name alone. */
  function NameKey(t: Triple): seq<string> {
    [t.0]
  }

  /** `d[val[1]]`, KeyError when the category is not in the dictionary. */
  function LookupCategory(d: map<string, int>, t: Triple): (r: Result<int>)
    ensures r.Ok? <==> t.1 in d
    ensures r.Ok? ==> r.value == d[t.1]
    ensures r.Err? ==> r.error == KeyError(t.1)
  {
    if t.1 in d then Ok(d[t.1]) else Err(KeyError(t.1))
  }

  function CategoryLookup(d: map<string, int>): Triple -> Result<int> {
    t => LookupCategory(d, t)
  }

  /** The rows `(i + 1, name, price, categoryId)`. */
  function Number(sorted: seq<Triple>, ids: seq<int>): (rows: seq<ProductRow>)
    requires |ids| == |sorted|
    ensures |rows| == |sorted|
    ensures forall i :: 0 <= i < |rows| ==> rows[i] == ProductRow(i + 1, sorted[i].0, sorted[i].2, ids[i])
  {
    seq(|sorted|, i requires 0 <= i < |sorted| => ProductRow(i + 1, sorted[i].0, sorted[i].2, ids[i]))
  }

  /**
   Sorting the candidates by name and resolving each category in that
   order: the first category missing from `d` raises KeyError.
   */
  function ProductsFrom(cands: seq<Triple>, d: map<string, int>): (r: Result<seq<ProductRow>>)
    ensures r.Err? ==> r.error.KeyError? && r.error.key !in d
  {
    var sorted := SortBy(cands, NameKey);
    var ids :- Traverse(sorted, CategoryLookup(d));
    Ok(Number(sorted, ids))
  }

  /** Step 9: the rows inserted into the Product table, given step 8's dictionary `d`. */
  function ProductTable(data: seq<seq<string>>, d: map<string, int>): (r: Result<seq<ProductRow>>)
    ensures r.Err? ==> ((r.error == IndexError && !HasField(data, 8))
                        || (r.error.KeyError? && r.error.key !in d))
  {
    var cands :- Candidates(data);
    ProductsFrom(cands, d)
  }

  /** The pairs `(name, productId)` of the rows, in table order. */
  function ProductPairs(rows: seq<ProductRow>): (r: seq<(string, int)>)
    ensures |r| == |rows| && forall i :: 0 <= i < |rows| ==> r[i] == (rows[i].name, rows[i].productId)
  {
    seq(|rows|, i requires 0 <= i < |rows| => (rows[i].name, rows[i].productId))
  }

  /** Step 10: `{name: productId}` over the rows of the Product table; a later row with the same name wins. */
  function ProductIds(rows: seq<ProductRow>): (d: map<string, int>)
    ensures forall x :: x in d <==> exists i :: 0 <= i < |rows| && rows[i].name == x
  {
    var pairs := ProductPairs(rows);
    forall x ensures x in ToDict(pairs) <==> exists i :: 0 <= i < |rows| && rows[i].name == x {
      InToDict(pairs, x);
      if exists i :: 0 <= i < |rows| && rows[i].name == x {
        var i :| 0 <= i < |rows| && rows[i].name == x;
        assert pairs[i].0 == x;
      }
    }
    ToDict(pairs)
  }

  // ---------------------------------------------------------------- properties

  /** `s` is the candidates sorted by name, equal names kept in their original order. */
  ghost predicate StableSortOf(cands: seq<Triple>, s: seq<Triple>) {
    && multiset(s) == multiset(cands)
    && SortedBy(s, NameKey)
    && forall k :: WithKey(s, NameKey, k) == WithKey(cands, NameKey, k)
  }

  /** Row `i` is product `i + 1`: the name and price of `s[i]` and the id `d` holds for its category. */
  ghost predicate RowsFrom(s: seq<Triple>, d: map<string, int>, rows: seq<ProductRow>) {
    && |rows| == |s|
    && forall i :: 0 <= i < |s| ==>
         s[i].1 in d && rows[i] == ProductRow(i + 1, s[i].0, s[i].2, d[s[i].1])
  }

  /**
   Resolving succeeds exactly when every candidate's category is in `d`;
   then the rows are the stably name-sorted candidates, numbered 1..n.
   */
  lemma ProductsFromSpec(cands: seq<Triple>, d: map<string, int>)
    ensures ProductsFrom(cands, d).Ok? <==> forall t :: t in cands ==> t.1 in d
    ensures ProductsFrom(cands, d).Ok? ==> exists s :: StableSortOf(cands, s) && RowsFrom(s, d, ProductsFrom(cands, d).value)
  {
    var sorted := SortBy(cands, NameKey);
    assert StableSortOf(cands, sorted);
    SameMembers(cands, sorted);
    ResolveAll(sorted, d);
  }

  /** Resolving a list succeeds exactly when every category is known, giving their ids in order. */
  lemma ResolveAll(s: seq<Triple>, d: map<string, int>)
    ensures Traverse(s, CategoryLookup(d)).Ok? <==> forall i :: 0 <= i < |s| ==> s[i].1 in d
    ensures Traverse(s, CategoryLookup(d)).Ok? ==>
      RowsFrom(s, d, Number(s, Traverse(s, CategoryLookup(d)).value))
  {
    var f := CategoryLookup(d);
    assert forall i :: 0 <= i < |s| ==> f(s[i]) == LookupCategory(d, s[i]);
  }

  /** A permutation has the same members. */
  lemma SameMembers<T>(a: seq<T>, b: seq<T>)
    requires multiset(a) == multiset(b)
    ensures forall t :: t in a <==> t in b
  {
    forall t ensures t in a <==> t in b {
      assert t in a <==> t in multiset(a);
      assert t in b <==> t in multiset(b);
    }
  }

  /**
   What step 9 inserts: it fails exactly when a data row has no `data[8]` or
   some product's category is missing from `d`; otherwise the file's
   distinct triples, stably sorted by name and numbered 1..n.
   */
  lemma ProductTableSpec(data: seq<seq<string>>, d: map<string, int>)
    ensures ProductTable(data, d).Ok? <==>
      HasField(data, 8) && forall t :: IsProductOf(data, t) ==> t.1 in d
    ensures ProductTable(data, d).Ok? ==>
      var cands := Candidates(data).value;
      exists s :: StableSortOf(cands, s) && RowsFrom(s, d, ProductTable(data, d).value)
  {
    if HasField(data, 8) {
      ProductsFromSpec(Candidates(data).value, d);
    }
  }

  /**
   Step 10 against step 9's numbering: a row whose name no later row
   repeats is the one the name maps to.
   */
  lemma ProductIdsLastWins(rows: seq<ProductRow>, i: int)
    requires forall i :: 0 <= i < |rows| ==> rows[i].productId == i + 1
    requires 0 <= i < |rows|
    requires forall j :: i < j < |rows| ==> rows[j].name != rows[i].name
    ensures ProductIds(rows)[rows[i].name] == i + 1
  {
    var pairs := ProductPairs(rows);
    assert IsLastBinding(pairs, i);
  }

  /**
   Every ProductID in step 10's dictionary is that of the last row with that
   name: products sharing a name resolve to the last of them.
   */
  lemma ProductIdsRange(rows: seq<ProductRow>, x: string)
    requires forall i :: 0 <= i < |rows| ==> rows[i].productId == i + 1
    requires x in ProductIds(rows)
    ensures var id := ProductIds(rows)[x];
      && 1 <= id <= |rows| && rows[id - 1].name == x
      && forall j :: id - 1 < j < |rows| ==> rows[j].name != x
  {
    var i := LastNamed(rows, x);
    assert ProductIds(rows)[x] == i + 1;
  }

  /** The row whose ProductID step 10 stores for `x`: the last one named `x`. */
  lemma LastNamed(rows: seq<ProductRow>, x: string) returns (i: int)
    requires x in ProductIds(rows)
    ensures 0 <= i < |rows| && rows[i].name == x && ProductIds(rows)[x] == rows[i].productId
    ensures forall j :: i < j < |rows| ==> rows[j].name != x
  {
    var pairs := ProductPairs(rows);
    assert ProductIds(rows) == ToDict(pairs);
    i := LastBinding(pairs, x);
    forall j | i < j < |rows| ensures rows[j].name != x {
      assert pairs[j].0 != x;
    }
  }

  /** The rows step 9 inserts are numbered 1..n, so step 10's lemmas apply to them. */
  lemma ProductTableNumbered(data: seq<seq<string>>, d: map<string, int>)
    requires ProductTable(data, d).Ok?
    ensures var rows := ProductTable(data, d).value;
      forall i :: 0 <= i < |rows| ==> rows[i].productId == i + 1
  {
    ProductTableSpec(data, d);
  }
}
