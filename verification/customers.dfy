/**
 Steps 5 and 6: the Customer table and the full-name-to-CustomerID dictionary.

 Step 5 reads one customer per data row, with no deduplication: `data[0]`
 split on whitespace gives the first name (the first token) and the last
 name (the other tokens joined by single spaces), `data[1]` the address,
 `data[2]` the city and `data[3]` the country, which must be a key of the
 country dictionary of step 4. The customers are stably sorted by
 (first name, last name) and inserted in that order. Step 6 maps
 `first + ' ' + last` to the CustomerID, a later row winning over an
 earlier one with the same full name.
 */
module Customers {
  import opened Results
  import opened Text
  import opened Ordering
  import opened Sorting
  import opened Dicts
  import opened Seqs
  import opened Lines

  datatype Customer = Customer(firstName: string, lastName: string, address: string, city: string, countryId: int)

  /**
   A row of the Customer table. CustomerID is assigned by the database
   engine; a freshly created table numbers its rows 1, 2, ... in insertion
   order, which is what `customerId` holds.
   */
  datatype CustomerRow = CustomerRow(customerId: int, customer: Customer)

  /**
   `name = full.split()`; two tokens are first and last name, otherwise the
   first token is the first name and the rest, joined by single spaces, the
   last name. IndexError when `full` has no token at all.
   */
  function SplitName(full: string): (r: Result<(string, string)>)
    ensures r.Ok? <==> !AllSpace(full)
    ensures r.Err? ==> r.error == IndexError
    ensures r.Ok? ==> |r.value.0| > 0 && NoSpace(r.value.0)
  {
    var name := SplitWs(full);
    if |name| == 2 then Ok((name[0], name[1]))
    else if |name| == 0 then Err(IndexError)
    else Ok((name[0], Join(name[1..], ' ')))
  }

  /** The customer of one data row, its fields read in the order the loop reads them. */
  function CustomerOf(row: seq<string>, countries: map<string, int>): (r: Result<Customer>)
    ensures r.Ok? <==> 3 < |row| && !AllSpace(row[0]) && row[3] in countries
    ensures r.Err? ==> r.error == IndexError || (3 < |row| && r.error == KeyError(row[3]))
    ensures r.Ok? ==> var c := r.value;
      && SplitName(row[0]) == Ok((c.firstName, c.lastName))
      && c.address == row[1] && c.city == row[2] && c.countryId == countries[row[3]]
  {
    var full :- Field(row, 0);
    var name :- SplitName(full);
    var address :- Field(row, 1);
    var city :- Field(row, 2);
    var country :- Field(row, 3);
    if country in countries then Ok(Customer(name.0, name.1, address, city, countries[country]))
    else Err(KeyError(country))
  }

  function Reader(countries: map<string, int>): seq<string> -> Result<Customer> {
    row => CustomerOf(row, countries)
  }

  /** The customers of the data rows in file order, before sorting. */
  function FileCustomers(data: seq<seq<string>>, countries: map<string, int>): (r: Result<seq<Customer>>)
    ensures r.Ok? <==> forall k :: 0 <= k < |data| ==> CustomerOf(data[k], countries).Ok?
    ensures r.Ok? ==> |r.value| == |data| && forall k :: 0 <= k < |data| ==> r.value[k] == CustomerOf(data[k], countries).value
    ensures r.Err? ==> exists k :: 0 <= k < |data| && CustomerOf(data[k], countries) == Err(r.error)
                                   && forall j :: 0 <= j < k ==> CustomerOf(data[j], countries).Ok?
  {
    Traverse(data, Reader(countries))
  }

  /** The sort key `(x[0], x[1])`. */
  function NameKey(c: Customer): seq<string> {
    [c.firstName, c.lastName]
  }

  /** The customers of the rows in table order. */
  function Customers(rows: seq<CustomerRow>): (r: seq<Customer>)
    ensures |r| == |rows| && forall i :: 0 <= i < |rows| ==> r[i] == rows[i].customer
  {
    seq(|rows|, i requires 0 <= i < |rows| => rows[i].customer)
  }

  /** The rows `(i + 1, cs[i])`. */
  function Number(cs: seq<Customer>): (rows: seq<CustomerRow>)
    ensures |rows| == |cs| && forall i :: 0 <= i < |rows| ==> rows[i] == CustomerRow(i + 1, cs[i])
    ensures Customers(rows) == cs
  {
    seq(|cs|, i requires 0 <= i < |cs| => CustomerRow(i + 1, cs[i]))
  }

  /** Step 5: the rows inserted into the Customer table, given the country dictionary of step 4. */
  function CustomerTable(data: seq<seq<string>>, countries: map<string, int>): (r: Result<seq<CustomerRow>>)
    ensures r.Err? ==> FileCustomers(data, countries).Err? && r.error == FileCustomers(data, countries).error
    ensures r.Ok? ==> |r.value| == |data|
  {
    var cs :- FileCustomers(data, countries);
    var sorted := SortBy(cs, NameKey);
    assert |multiset(sorted)| == |multiset(cs)|;
    Ok(Number(sorted))
  }

  /**
   Step 5 emits one row per data row, numbered from 1: the customers of the
   file, stably sorted by (first name, last name). An unknown country or a
   short row stops the step with the error of the first offending row.
   */
  lemma CustomerTableSpec(data: seq<seq<string>>, countries: map<string, int>)
    ensures CustomerTable(data, countries).Ok? <==> forall k :: 0 <= k < |data| ==> CustomerOf(data[k], countries).Ok?
    ensures CustomerTable(data, countries).Ok? ==>
      var rows := CustomerTable(data, countries).value; var cs := FileCustomers(data, countries).value;
      && |rows| == |data|
      && (forall i :: 0 <= i < |rows| ==> rows[i].customerId == i + 1)
      && multiset(Customers(rows)) == multiset(cs)
      && SortedBy(Customers(rows), NameKey)
      && (forall key :: WithKey(Customers(rows), NameKey, key) == WithKey(cs, NameKey, key))
  {
    var r := FileCustomers(data, countries);
    if r.Ok? {
      var sorted := SortBy(r.value, NameKey);
      assert CustomerTable(data, countries) == Ok(Number(sorted));
      assert |multiset(sorted)| == |multiset(r.value)|;
    }
  }

  /** The rows step 5 inserts are numbered 1..n, so step 6's lemmas apply to them. */
  lemma CustomerTableNumbered(data: seq<seq<string>>, countries: map<string, int>)
    requires CustomerTable(data, countries).Ok?
    ensures var rows := CustomerTable(data, countries).value;
      forall i :: 0 <= i < |rows| ==> rows[i].customerId == i + 1
  {
    CustomerTableSpec(data, countries);
  }

  // ---------------------------------------------------------------- step 6

  /** `row[1] + ' ' + row[2]`: the dictionary key of a customer. */
  function FullName(c: Customer): string {
    c.firstName + " " + c.lastName
  }

  function NamePairs(rows: seq<CustomerRow>): (r: seq<(string, int)>)
    ensures |r| == |rows| && forall i :: 0 <= i < |rows| ==> r[i] == (FullName(rows[i].customer), rows[i].customerId)
  {
    seq(|rows|, i requires 0 <= i < |rows| => (FullName(rows[i].customer), rows[i].customerId))
  }

  /** Step 6: `{first + ' ' + last: customerId}` over the rows of the Customer table. */
  function CustomerIds(rows: seq<CustomerRow>): (d: map<string, int>)
    ensures forall x :: x in d <==> exists i :: 0 <= i < |rows| && FullName(rows[i].customer) == x
  {
    var pairs := NamePairs(rows);
    forall x ensures x in ToDict(pairs) <==> exists i :: 0 <= i < |rows| && FullName(rows[i].customer) == x {
      InToDict(pairs, x);
    }
    ToDict(pairs)
  }

  // ---------------------------------------------------------------- properties

  /** Both branches of the name split agree: the last name is always the remaining tokens joined. */
  lemma SplitNameBranchesAgree(full: string)
    requires !AllSpace(full)
    ensures var toks := SplitWs(full);
      |toks| > 0 && SplitName(full) == Ok((toks[0], Join(toks[1..], ' ')))
  {
    var toks := SplitWs(full);
    if |toks| == 2 {
      assert Join(toks[1..], ' ') == toks[1];
    }
  }

  /** The first name is the text of `full` up to its first whitespace, once leading whitespace is dropped. */
  lemma FirstNameIsFirstWord(full: string)
    requires |full| > 0 && !IsSpace(full[0])
    ensures SplitName(full).Ok? && SplitName(full).value.0 == full[..WordLen(full)]
  {
  }

  /**
   For a name of at least two tokens separated by single spaces, putting
   first and last name back together with one space gives the name back:
   step 6's key for the customer is the `data[0]` step 11 looks up.
   */
  lemma FullNameRoundTrip(full: string)
    requires SingleSpaced(full) && |SplitWs(full)| >= 2
    ensures SplitName(full).Ok?
    ensures SplitName(full).value.0 + " " + SplitName(full).value.1 == full
  {
    var toks := SplitWs(full);
    JoinSplitWs(full);
    SplitNameBranchesAgree(full);
    assert toks == [toks[0]] + toks[1..];
    JoinCons(toks[0], toks[1..], ' ');
  }

  /**
   A one-word name yields an empty last name, so its dictionary key is the
   word followed by a space, which is not the word: step 11 never finds
   such a customer by `data[0]`.
   */
  lemma OneWordNameKey(full: string)
    requires |full| > 0 && NoSpace(full)
    ensures SplitName(full) == Ok((full, ""))
    ensures SplitName(full).value.0 + " " + SplitName(full).value.1 != full
  {
    SplitWsOneWord(full);
    assert !IsSpace(full[0]);
  }

  /**
   No key of step 6's dictionary is free of whitespace, since every key has
   the space between first and last name: step 11 finds no customer for a
   one-word `data[0]`, whatever rows the Customer table holds.
   */
  lemma OneWordNotFound(rows: seq<CustomerRow>, w: string)
    requires NoSpace(w)
    ensures w !in CustomerIds(rows)
  {
    forall i | 0 <= i < |rows| ensures FullName(rows[i].customer) != w {
      var f := FullName(rows[i].customer);
      assert IsSpace(f[|rows[i].customer.firstName|]);
    }
  }

  /**
   Step 6 inverts step 5: a full name maps to the CustomerID of the last row
   carrying it, since a later row overwrites an earlier one with the same name.
   */
  lemma CustomerIdsLastWins(rows: seq<CustomerRow>, i: int)
    requires forall i :: 0 <= i < |rows| ==> rows[i].customerId == i + 1
    requires 0 <= i < |rows|
    requires forall j :: i < j < |rows| ==> FullName(rows[j].customer) != FullName(rows[i].customer)
    ensures CustomerIds(rows)[FullName(rows[i].customer)] == i + 1
  {
    var pairs := NamePairs(rows);
    assert IsLastBinding(pairs, i);
  }

  /** Every CustomerID in step 6's dictionary is that of a row with that full name. */
  lemma CustomerIdsRange(rows: seq<CustomerRow>, x: string)
    requires forall i :: 0 <= i < |rows| ==> rows[i].customerId == i + 1
    requires x in CustomerIds(rows)
    ensures 1 <= CustomerIds(rows)[x] <= |rows| && FullName(rows[CustomerIds(rows)[x] - 1].customer) == x
  {
    var pairs := NamePairs(rows);
    var i := LastBinding(pairs, x);
    assert CustomerIds(rows) == ToDict(pairs);
    assert pairs[i].1 == i + 1;
  }

  /**
   A data row whose name has two or more single-spaced tokens is found by
   step 11: its `data[0]` is a key of the dictionary step 6 builds from the
   table step 5 inserts.
   */
  lemma CustomerFoundByName(data: seq<seq<string>>, countries: map<string, int>, k: int)
    requires CustomerTable(data, countries).Ok?
    requires 0 <= k < |data| && SingleSpaced(data[k][0]) && |SplitWs(data[k][0])| >= 2
    ensures data[k][0] in CustomerIds(CustomerTable(data, countries).value)
  {
    CustomerTableSpec(data, countries);
    var rows := CustomerTable(data, countries).value;
    var cs := FileCustomers(data, countries).value;
    var c := cs[k];
    FullNameRoundTrip(data[k][0]);
    assert FullName(c) == data[k][0];
    assert c in multiset(Customers(rows));
    var i :| 0 <= i < |rows| && Customers(rows)[i] == c;
    assert FullName(rows[i].customer) == data[k][0];
  }
}
