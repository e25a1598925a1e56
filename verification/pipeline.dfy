/**
 The whole load: steps 1 to 11 run in order on one data file, each
 dictionary step reading back the table its predecessor inserted. The first
 exception ends the load.

 The properties here are about the steps together: the lookups of steps 3,
 5 and 9 cannot fail once the earlier steps have succeeded, and every
 foreign key stored is the id of a row of the table it refers to.
 */
module Pipeline {
  import opened Results
  import opened Text
  import opened Dedups
  import opened Dicts
  import opened Sorting
  import opened Lines
  import Regions
  import Countries
  import Customers
  import Categories
  import Products
  import Orders

  datatype Database = Database(
    regions: seq<Regions.RegionRow>,
    countries: seq<Countries.CountryRow>,
    customers: seq<Customers.CustomerRow>,
    categories: seq<Categories.CategoryRow>,
    products: seq<Products.ProductRow>,
    orders: seq<Orders.OrderRow>)

  /** Steps 1 to 11 on the lines of the data file. */
  function Load(lines: seq<string>): (r: Result<Database>)
    ensures r.Err? ==> !r.error.KeyError?
  {
    LoadNoKeyError(DataRows(lines));
    LoadRows(DataRows(lines))
  }

  /**
   Steps 1 to 11 on the data rows of the file, each step reading the
   dictionary of the table before it; the first step that raises ends the
   run. A run that gets through has read the first nine fields of every row.
   */
  function LoadRows(data: seq<seq<string>>): (r: Result<Database>)
    ensures r.Ok? ==> HasField(data, 8)
  {
    var regions :- Regions.RegionTable(data);
    var countries :- Countries.CountryTable(data, Regions.RegionIds(regions));
    var customers :- Customers.CustomerTable(data, Countries.CountryIds(countries));
    var categories :- Categories.CategoryTable(data);
    var products :- Products.ProductTable(data, Categories.CategoryIds(categories));
    var orders :- Orders.OrderTable(data, Customers.CustomerIds(customers), Products.ProductIds(products));
    Ok(Database(regions, countries, customers, categories, products, orders))
  }

  // ---------------------------------------------------------------- properties

  /**
   Once step 1 has succeeded, every country of the file is in the
   dictionary step 4 builds from step 3's table.
   */
  lemma CountriesKnown(data: seq<seq<string>>)
    requires Regions.RegionTable(data).Ok?
    ensures var rd := Regions.RegionIds(Regions.RegionTable(data).value);
      && Countries.CountryTable(data, rd).Ok?
      && var countries := Countries.CountryTable(data, rd).value;
         var cd := Countries.CountryIds(countries);
         && (forall k :: 0 <= k < |data| ==> 3 < |data[k]| && data[k][3] in cd)
         && (forall c :: c in cd ==> 1 <= cd[c] <= |countries|)
  {
    var rd := Regions.RegionIds(Regions.RegionTable(data).value);
    Countries.CountryTableAfterRegions(data);
    var pairs := Countries.CountryRegionPairs(data).value;
    assert Countries.CountryTable(data, rd) == Countries.CountriesFrom(pairs, rd);
    Countries.CountryIdsInvert(pairs, rd);
    forall k | 0 <= k < |data| ensures 3 < |data[k]| && HasKey(pairs, Fst, data[k][3]) {
      assert pairs[k].0 == data[k][3];
    }
  }

  /**
   Once steps 1 and 3 have succeeded, step 5 with step 4's dictionary
   cannot fail: every data row's name has a first word, and every country
   it names is in the Country table. Each stored CountryID is the id of a
   Country row.
   */
  lemma CustomerTableAfterCountries(data: seq<seq<string>>)
    requires FirstFieldsNonBlank(data)
    requires Regions.RegionTable(data).Ok?
    ensures var rd := Regions.RegionIds(Regions.RegionTable(data).value);
      && Countries.CountryTable(data, rd).Ok?
      && var countries := Countries.CountryTable(data, rd).value;
         var rows := Customers.CustomerTable(data, Countries.CountryIds(countries));
         && rows.Ok?
         && forall i :: 0 <= i < |rows.value| ==> 1 <= rows.value[i].customer.countryId <= |countries|
  {
    var rd := Regions.RegionIds(Regions.RegionTable(data).value);
    CountriesKnown(data);
    var countries := Countries.CountryTable(data, rd).value;
    var cd := Countries.CountryIds(countries);
    CustomerCountries(data, cd, |countries|);
  }

  lemma CustomerCountries(data: seq<seq<string>>, cd: map<string, int>, n: int)
    requires FirstFieldsNonBlank(data)
    requires forall k :: 0 <= k < |data| ==> 3 < |data[k]| && data[k][3] in cd
    requires forall c :: c in cd ==> 1 <= cd[c] <= n
    ensures var rows := Customers.CustomerTable(data, cd);
      && rows.Ok?
      && forall i :: 0 <= i < |rows.value| ==> 1 <= rows.value[i].customer.countryId <= n
  {
    Customers.CustomerTableSpec(data, cd);
    var rows := Customers.CustomerTable(data, cd).value;
    var cs := Customers.FileCustomers(data, cd).value;
    forall i | 0 <= i < |rows| ensures 1 <= rows[i].customer.countryId <= n {
      assert Customers.Customers(rows)[i] == rows[i].customer;
      assert rows[i].customer in multiset(cs);
      var k :| 0 <= k < |cs| && cs[k] == rows[i].customer;
      assert data[k][3] in cd;
    }
  }

  /**
   Once step 7 has succeeded, step 9 with step 8's dictionary raises no
   KeyError: every product's category is one of the file's categories. Each
   stored ProductCategoryID is the id of a ProductCategory row.
   */
  lemma ProductTableAfterCategories(data: seq<seq<string>>)
    requires Categories.CategoryTable(data).Ok? && HasField(data, 8)
    ensures var cats := Categories.CategoryTable(data).value;
      var rows := Products.ProductTable(data, Categories.CategoryIds(cats));
      && rows.Ok?
      && forall i :: 0 <= i < |rows.value| ==> 1 <= rows.value[i].categoryId <= |cats|
  {
    var cats := Categories.CategoryTable(data).value;
    var d := Categories.CategoryIds(cats);
    Categories.CategoryIdsInvert(data);
    forall t | Products.IsProductOf(data, t) ensures t.1 in d {
      var k, i :| 0 <= k < |data| && 0 <= i < |SplitOn(data[k][5], ';')|
        && i < |SplitOn(data[k][6], ';')| && i < |SplitOn(data[k][8], ';')|
        && t == (SplitOn(data[k][5], ';')[i], SplitOn(data[k][6], ';')[i], SplitOn(data[k][8], ';')[i]);
      assert t.1 in SplitOn(data[k][6], ';');
      assert Categories.IsCategoryOf(data, t.1);
    }
    Products.ProductTableSpec(data, d);
    var rows := Products.ProductTable(data, d).value;
    var s: seq<Products.Triple> :| Products.StableSortOf(Products.Candidates(data).value, s) && Products.RowsFrom(s, d, rows);
    forall i | 0 <= i < |rows| ensures 1 <= rows[i].categoryId <= |cats| {
      assert s[i].1 in d;
    }
  }

  /**
   Every order refers to an existing customer and product: its CustomerID
   and ProductID lie in 1..n of the tables steps 6 and 10 read.
   */
  lemma OrderKeysInRange(data: seq<seq<string>>, customers: seq<Customers.CustomerRow>, products: seq<Products.ProductRow>)
    requires forall i :: 0 <= i < |customers| ==> customers[i].customerId == i + 1
    requires forall i :: 0 <= i < |products| ==> products[i].productId == i + 1
    requires Orders.OrderTable(data, Customers.CustomerIds(customers), Products.ProductIds(products)).Ok?
    ensures var orders := Orders.OrderTable(data, Customers.CustomerIds(customers), Products.ProductIds(products)).value;
      forall o :: o in orders ==> 1 <= o.customerId <= |customers| && 1 <= o.productId <= |products|
  {
    var cd := Customers.CustomerIds(customers);
    var pd := Products.ProductIds(products);
    Orders.OrderTableKeys(data, cd, pd);
    forall x | x in cd ensures 1 <= cd[x] <= |customers| {
      Customers.CustomerIdsRange(customers, x);
    }
    forall x | x in pd ensures 1 <= pd[x] <= |products| {
      Products.ProductIdsRange(products, x);
    }
  }

  /**
   Step 11 finds the customer of a data row whose name is two or more words
   separated by single spaces: step 6's key for that customer is the row's
   `data[0]`, and its CustomerID is truthy.
   */
  lemma NameFoundInStep11(data: seq<seq<string>>, countries: map<string, int>, k: int)
    requires Customers.CustomerTable(data, countries).Ok?
    requires 0 <= k < |data| && 1 <= |data[k]| && SingleSpaced(data[k][0]) && |SplitWs(data[k][0])| >= 2
    ensures Found(Customers.CustomerIds(Customers.CustomerTable(data, countries).value), data[k][0])
  {
    var rows := Customers.CustomerTable(data, countries).value;
    var x := data[k][0];
    Customers.CustomerTableNumbered(data, countries);
    Customers.CustomerFoundByName(data, countries, k);
    assert x in Customers.CustomerIds(rows);
    Customers.CustomerIdsRange(rows, x);
    assert Customers.CustomerIds(rows)[x] >= 1;
  }

  /**
   A load never raises KeyError: the only lookups that can raise it are
   those of steps 3, 5 and 9, and each is covered by the step before it.
   Step 5 raises no IndexError either, as every data row has a non-blank
   first field and, after step 1, a `data[3]`.
   */
  lemma LoadNoKeyError(data: seq<seq<string>>)
    requires FirstFieldsNonBlank(data)
    ensures LoadRows(data).Err? ==> !LoadRows(data).error.KeyError?
  {
    var r := Regions.RegionTable(data);
    if r.Ok? {
      CustomerTableAfterCountries(data);
      var countries := Countries.CountryTable(data, Regions.RegionIds(r.value)).value;
      var customers := Customers.CustomerTable(data, Countries.CountryIds(countries)).value;
      var c := Categories.CategoryTable(data);
      if c.Ok? {
        var p := Products.ProductTable(data, Categories.CategoryIds(c.value));
        if HasField(data, 8) {
          ProductTableAfterCategories(data);
        } else {
          assert p == Err(IndexError);
        }
        if p.Ok? {
          var o := Orders.OrderTable(data, Customers.CustomerIds(customers), Products.ProductIds(p.value));
          assert LoadRows(data) == if o.Ok? then Ok(Database(r.value, countries, customers, c.value, p.value, o.value)) else Err(o.error);
        } else {
          assert LoadRows(data) == Err(p.error);
        }
      } else {
        assert LoadRows(data) == Err(c.error);
      }
    } else {
      assert LoadRows(data) == Err(r.error);
    }
  }

  /** All foreign keys of a completed load point at existing rows. */
  lemma LoadForeignKeys(data: seq<seq<string>>)
    requires FirstFieldsNonBlank(data)
    requires LoadRows(data).Ok?
    ensures var db := LoadRows(data).value;
      && (forall i :: 0 <= i < |db.countries| ==> 1 <= db.countries[i].regionId <= |db.regions|)
      && (forall i :: 0 <= i < |db.customers| ==> 1 <= db.customers[i].customer.countryId <= |db.countries|)
      && (forall i :: 0 <= i < |db.products| ==> 1 <= db.products[i].categoryId <= |db.categories|)
      && (forall o :: o in db.orders ==> 1 <= o.customerId <= |db.customers| && 1 <= o.productId <= |db.products|)
  {
    var regions := Regions.RegionTable(data).value;
    var countries := Countries.CountryTable(data, Regions.RegionIds(regions)).value;
    var customers := Customers.CustomerTable(data, Countries.CountryIds(countries)).value;
    var categories := Categories.CategoryTable(data).value;
    var products := Products.ProductTable(data, Categories.CategoryIds(categories)).value;
    var orders := Orders.OrderTable(data, Customers.CustomerIds(customers), Products.ProductIds(products)).value;
    assert LoadRows(data).value == Database(regions, countries, customers, categories, products, orders);
    Countries.CountryTableAfterRegions(data);
    CustomerTableAfterCountries(data);
    ProductTableAfterCategories(data);
    Customers.CustomerTableNumbered(data, Countries.CountryIds(countries));
    Products.ProductTableNumbered(data, Categories.CategoryIds(categories));
    OrderKeysInRange(data, customers, products);
  }
}
