# Normalising the sales data file: a Dafny model of the ETL steps

`mini_project2.py` reads one tab-delimited file of sales records and splits it
into six tables: Region, Country, Customer, ProductCategory, Product and
OrderDetail. It does this in eleven steps. The odd steps read the file and
insert the rows of one table. The even steps read a table back into a
dictionary from natural key to surrogate id. Later steps use that dictionary
to fill in foreign keys.

This project models the logic of those eleven steps as pure functions and
proves what each step promises about its rows and errors:

- **Reading the file** (`Lines`): surrounding whitespace is stripped from
  each line, blank lines are skipped, and the first non-blank line is the
  header. Every later line is split on tabs into the fields `data[0]`,
  `data[1]`, and so on.
- **Region, steps 1–2** (`Regions`): the distinct `data[4]` values, sorted,
  get ids `1..n`.
- **Country, steps 3–4** (`Countries`): each country keeps the region of the
  first row that names it. The `(country, region)` pairs are sorted and each
  region is looked up in the region dictionary, where a missing region
  raises KeyError.
- **Customer, steps 5–6** (`Customers`):
  - one customer per row, with no deduplication;
  - `data[0].split()` gives the first name (first token) and the last name
    (the other tokens joined with single spaces);
  - the country is looked up in the country dictionary;
  - customers are stably sorted by (first, last);
  - the step 6 dictionary is keyed by `first + " " + last`, and a later row
    overwrites an earlier one.
- **ProductCategory, steps 7–8** (`Categories`): the `;`-separated
  categories of `data[6]` and descriptions of `data[7]` are deduplicated
  independently. The k-th distinct category is paired with the k-th distinct
  description. That description belongs to the category only when the two
  lists line up. There is an IndexError when descriptions run out. The pairs
  are sorted and numbered.
- **Product, steps 9–10** (`Products`):
  - the `;`-lists of names (`data[5]`), categories (`data[6]`) and prices
    (`data[8]`) are zipped;
  - the distinct (name, category, price) triples are kept;
  - the triples are stably sorted by name alone and numbered;
  - each category is resolved through the category dictionary, where a
    missing one raises KeyError;
  - in the step 10 dictionary, the last product with a given name wins.
- **OrderDetail, step 11** (`Orders`):
  - a row whose `data[0]` the customer dictionary does not give a truthy id
    is skipped;
  - otherwise every product name the product dictionary knows yields one
    order, with the date and the quantity at that product's own index;
  - quantities are read with `int()`;
  - dates are converted from `%Y%m%d` to `%Y-%m-%d` by
    `strptime`/`strftime` (`Ints`, `Dates`).
- **The load** (`Pipeline`): the steps run in order and the first exception
  ends the load.

The model reproduces the Python library behaviour these steps depend on:

- `str.strip()`, `str.split(sep)` and `str.split()` over the full
  `str.isspace()` character set;
- `sep.join`;
- stable `sorted`, with code-point string order and tuple order;
- dictionaries where the last write wins;
- the truthiness of `d.get(k)`;
- `int()` of a string: it skips surrounding whitespace, except the
  separators U+001C..U+001F that `str.strip()` removes but `int()` does
  not; it takes one optional sign and PEP 515 underscores, and refuses
  more than 4300 digits;
- `datetime.strptime` with `%Y%m%d`, which matches through its regular
  expression, tries alternatives in order and backtracks.

Python exceptions are values: `Result<T>` is `Ok(value)` or
`Err(IndexError | KeyError(key) | ValueError)`. The database becomes the
sequences of rows each step inserts. An id the engine assigns is the row's
1-based position in insertion order on a freshly created table. A dictionary
step reads the rows back in that order.

Besides each step's own contract, the cross-step properties are proved:

- every even step inverts the odd step before it;
- the KeyError lookups of steps 3, 5 and 9 cannot fail once the steps before
  them have succeeded, so a load never raises KeyError, provided no region
  contains a `'` or a NUL character (see "Left out": step 1 writes the region
  into its SQL as a literal);
- every stored foreign key is the id of a row of the referenced table;
- the date conversion maps `YYYYMMDD` to `YYYY-MM-DD` for every real date;
- `int(str(n)) == n` for every integer of at most 4300 digits;
- a customer whose name is two or more single-spaced words is found again in
  step 11, and a one-word `data[0]` is never a key of step 6's dictionary.

## Model

| member | source | states |
|---|---|---|
| `Text.Strip` | mini_project2.py:53 | the stripped line neither starts nor ends with whitespace, and it is empty exactly when the line is all whitespace |
| `Text.StripIsSlice` | mini_project2.py:53 | `strip()` only removes whitespace: the result is a contiguous slice of the line with nothing but whitespace before and after it |
| `Text.SplitOn` | mini_project2.py:59 | `split(sep)` gives at least one piece and one more piece than there are separators; no piece contains the separator; joining the pieces with it restores the string |
| `Text.Join` | mini_project2.py:177 | `sep.join(parts)`: the parts in order with one separator between each two; its length is stated by JoinLength, its separator count by JoinSepCount, and SplitJoin proves `split(sep)` inverts it |
| `Text.JoinLength` | mini_project2.py:177 | `sep.join(parts)` holds every part's characters plus one separator between each two parts |
| `Text.JoinSepCount` | mini_project2.py:177 | joining n separator-free parts puts exactly n - 1 separators in the text |
| `Text.SplitJoin` | mini_project2.py:232-238 | splitting a join of separator-free pieces gives back exactly those pieces, empty ones included |
| `Text.SplitWs` | mini_project2.py:172 | `split()` yields non-empty, whitespace-free tokens; it yields none exactly when the text is all whitespace; the first token is the text's leading word |
| `Text.SplitWsAtSpace` | mini_project2.py:172 | any single whitespace character separates tokens: `split()` of `a + c + b` is the tokens of `a` followed by the tokens of `b` |
| `Text.SplitWsJoin` | mini_project2.py:177 | `split()` inverts `" ".join` on clean tokens |
| `Text.JoinSplitWs` | mini_project2.py:177 | `" ".join(s.split())` gives back a string whose words are separated by single spaces |
| `Lines.Column` | mini_project2.py:60 | reading `data[k]` from every row raises IndexError exactly when some row has no field `k`, and otherwise gives each row's field `k` |
| `Lines.DataRowsAfterHeader` | mini_project2.py:49-59 | the data rows are the stripped non-blank lines after the first one, each split on tabs |
| `Lines.BlankLineIgnored` | mini_project2.py:53-55 | inserting a whitespace-only line anywhere in the file changes no data row |
| `Lines.HeaderIgnored` | mini_project2.py:56-57 | the content of the header line does not affect the data rows |
| `Lines.DataRows` | mini_project2.py:49-59 | the reading loop gives at most one row per line and none for the header, and every row has a first field that is not blank |
| `Seqs.Traverse` | mini_project2.py:124-126 | a loop over items succeeds exactly when every item does, with results in order; otherwise it fails with the error of the first failing item, all earlier items having succeeded |
| `Seqs.Zip3` | mini_project2.py:308 | `zip` of three lists stops at the shortest and pairs equal positions |
| `Dedups.Dedup` | mini_project2.py:61-62 | the `if x not in seen: seen.append(x)` loop keeps each element exactly once, in order of first occurrence, and loses none |
| `Dedups.DedupBy` | mini_project2.py:121-122 | keeping the first entry per key: keys are distinct, the same keys are present, each kept entry is the first with its key, in first-occurrence order |
| `Dedups.DedupByKnownLast` | mini_project2.py:121-122 | an entry whose key was already seen leaves the result unchanged |
| `Dicts.ToDict` | mini_project2.py:85-87 | assigning pairs into a dictionary in order: its keys are the pairs' keys, and a key's value is that of its last binding |
| `Dicts.LastBinding` | mini_project2.py:85-87 | every key's value comes from some pair that no later pair rebinds |
| `Dicts.FoundPositive` | mini_project2.py:369-370 | when all ids are positive, `d.get(k)` is truthy exactly for the keys of `d` |
| `Sorting.SortBy` | mini_project2.py:183 | `sort(key=…)` is sorted by key, is a permutation, and keeps elements with equal keys in their original order (stability) |
| `Ordering.StrLtIsStrictTotal` | mini_project2.py:63 | Python's string comparison is a strict total order |
| `Ordering.KeyLtIsStrictTotal` | mini_project2.py:183 | tuple comparison of sort keys is a strict total order |
| `Regions.SortDistinct` | mini_project2.py:63 | sorting distinct regions gives a strictly increasing list of the same regions |
| `Regions.RegionTable` | mini_project2.py:59-75 | step 1 raises IndexError exactly when a row lacks `data[4]`; otherwise its rows are numbered `1..n`, strictly increasing, and hold exactly the file's regions |
| `Regions.RegionTableUnique` | mini_project2.py:61-63 | any strictly increasing list of exactly the file's regions is the list step 1 inserts |
| `Regions.RegionIds` | mini_project2.py:85-88 | step 2's keys are exactly the Region table's names |
| `Regions.RegionIdsInvert` | mini_project2.py:82-88 | step 2 inverts step 1: every region of the file maps to the id it was inserted with, and every id is in `1..n` |
| `Countries.CountryRegion` | mini_project2.py:119-120 | reads `(data[3], data[4])`, IndexError exactly when the row is shorter than five fields |
| `Countries.CountryRegionPairs` | mini_project2.py:118-120 | one `(country, region)` pair per data row, in file order; IndexError exactly when some row lacks `data[4]` |
| `Countries.Resolve` | mini_project2.py:125 | `d[r]` succeeds exactly when `r` is a key, and otherwise raises KeyError naming `r` |
| `Countries.SortedFirsts` | mini_project2.py:121-124 | strictly increasing countries; exactly the file's countries; each paired with the region of the first row naming it |
| `Countries.CountryTable` | mini_project2.py:107-126 | step 3 raises IndexError exactly when a row lacks `data[4]`, and any other error is a KeyError for a region missing from the dictionary |
| `Countries.CountriesFrom` | mini_project2.py:121-126 | resolving the sorted countries fails only with KeyError for a region missing from the dictionary |
| `Countries.CountriesFromSpec` | mini_project2.py:121-126 | step 3 succeeds exactly when every country's first region is known; its rows are then the file's countries, strictly increasing, numbered from 1, each with the id of its first region |
| `Countries.LaterRowIgnored` | mini_project2.py:121-122 | a later row for a country already seen changes nothing, whatever its region |
| `Countries.CountryIds` | mini_project2.py:139-143 | step 4's keys are exactly the Country table's names |
| `Countries.CountryIdsInvert` | mini_project2.py:139-143 | step 4 inverts step 3: exactly the file's countries, each mapped to its row's CountryID in `1..n` |
| `Countries.CountryTableAfterRegions` | mini_project2.py:123-126 | after step 1 succeeds, step 3 with step 2's dictionary cannot fail, and every stored RegionID is a Region row's id |
| `Customers.SplitName` | mini_project2.py:172-177 | the name split fails with IndexError exactly when the name is blank; the first name is then a non-empty word |
| `Customers.SplitNameBranchesAgree` | mini_project2.py:173-177 | the two-token branch and the general branch agree: the last name is always the remaining tokens joined by single spaces |
| `Customers.FirstNameIsFirstWord` | mini_project2.py:176 | the first name is the name's text up to its first whitespace |
| `Customers.FullNameRoundTrip` | mini_project2.py:172-177 | for a name of two or more single-spaced words, `first + " " + last` is the name again |
| `Customers.OneWordNameKey` | mini_project2.py:175-177 | a one-word name gets an empty last name, and its step 6 key is not the name |
| `Customers.OneWordNotFound` | mini_project2.py:197-201 | no whitespace-free text is a key of step 6's dictionary, whatever rows the Customer table holds, because every key has the space between first and last name |
| `Customers.CustomerOf` | mini_project2.py:172-182 | a row gives a customer exactly when it has `data[3]`, a non-blank name and a known country; the fields come from the expected positions; otherwise IndexError or KeyError for the country |
| `Customers.FileCustomers` | mini_project2.py:162-182 | one customer per data row in file order, or the error of the first failing row |
| `Customers.CustomerTable` | mini_project2.py:161-188 | step 5 fails only with the error of the first failing data row, and otherwise inserts one row per data row |
| `Customers.CustomerTableSpec` | mini_project2.py:183-188 | step 5 succeeds exactly when every row does; one row per data row, numbered from 1, a permutation of the file's customers, stably sorted by (first, last) |
| `Customers.CustomerTableNumbered` | mini_project2.py:186-188 | the Customer rows carry ids `1..n` in insertion order |
| `Customers.CustomerIds` | mini_project2.py:197-201 | step 6's keys are exactly the full names `first + " " + last` of the Customer rows |
| `Customers.CustomerIdsLastWins` | mini_project2.py:197-201 | a full name maps to the id of the last row carrying it |
| `Customers.CustomerIdsRange` | mini_project2.py:197-201 | every id in step 6's dictionary is in `1..n` and belongs to a row with that full name |
| `Customers.CustomerFoundByName` | mini_project2.py:368-369 | a data row whose name is two or more single-spaced words has its `data[0]` as a key of step 6's dictionary |
| `Categories.DistinctPieces` | mini_project2.py:232-238 | the `;`-pieces of all rows, each exactly once, no other value, in order of first occurrence in the pieces of the fields in turn |
| `Categories.CategoryList` | mini_project2.py:229-238 | `cts` holds each category piece of the file once, in order of first occurrence |
| `Categories.DescriptionList` | mini_project2.py:229-238 | `dts` holds each description piece of the file once, in order of first occurrence |
| `Categories.CategoriesFrom` | mini_project2.py:240-248 | pairing raises IndexError exactly when there are fewer distinct descriptions than categories, and raises nothing else |
| `Categories.CategoryTable` | mini_project2.py:229-248 | step 7 can fail only with IndexError |
| `Categories.CategoriesFromSpec` | mini_project2.py:240-248 | pairing succeeds exactly when there are at least as many descriptions as categories; the rows are then the categories, strictly increasing, numbered from 1, each with the description at its category's position |
| `Categories.CategoryTableSpec` | mini_project2.py:229-248 | step 7 succeeds exactly when every row has `data[7]` and descriptions do not run out; its rows then hold exactly the file's categories, each paired with the description at its position in the first-occurrence list `cts` |
| `Categories.DictItems` | mini_project2.py:244 | with distinct categories, the dictionary comprehension keeps every pair: the keys are the categories, each bound to its own description |
| `Categories.CategoryIds` | mini_project2.py:266-269 | step 8's keys are exactly the ProductCategory table's names |
| `Categories.CategoryIdsInvert` | mini_project2.py:263-269 | step 8 inverts step 7: exactly the file's categories, each mapped to its row's id in `1..n` |
| `Products.Candidates` | mini_project2.py:304-310 | IndexError exactly when a row lacks `data[8]`; otherwise the distinct triples, each read at one position of all three split lists, all such triples, in order of first occurrence over the rows |
| `Products.LookupCategory` | mini_project2.py:315 | `d[val[1]]` succeeds exactly when the category is a key, and otherwise raises KeyError naming it |
| `Products.ProductsFrom` | mini_project2.py:311-316 | resolving can fail only with KeyError for a category missing from the dictionary |
| `Products.ProductsFromSpec` | mini_project2.py:311-316 | resolving succeeds exactly when every candidate's category is known; the rows are then the candidates stably sorted by name, numbered from 1, each with its category's id |
| `Products.ProductTable` | mini_project2.py:304-316 | step 9 fails only with IndexError for a missing `data[8]` or KeyError for an unknown category |
| `Products.ProductTableSpec` | mini_project2.py:304-316 | step 9 succeeds exactly when every row has `data[8]` and every product's category is known; the rows are then the file's distinct triples, in first-occurrence order, stably sorted by name and numbered |
| `Products.ProductTableNumbered` | mini_project2.py:314-316 | the Product rows carry ids `1..n` in insertion order |
| `Products.ProductIds` | mini_project2.py:332-335 | step 10's keys are exactly the Product table's names |
| `Products.ProductIdsLastWins` | mini_project2.py:332-335 | a name maps to the id of the last row carrying it |
| `Products.ProductIdsRange` | mini_project2.py:332-335 | every id in step 10's dictionary is in `1..n`, names a row with that name, and no later row has that name |
| `Products.LastNamed` | mini_project2.py:332-335 | step 10's id for a name is that of the last row with that name |
| `Ints.ParseInt` | mini_project2.py:373 | `int(q)` succeeds exactly when the text, without the whitespace `int()` skips and after one optional sign, is digit groups with single underscores between digits and at most 4300 digits; every failure is ValueError |
| `Ints.ParseIntOf` | mini_project2.py:373 | plain digits after the sign read as their decimal value, negated after `-` |
| `Ints.ParseDigits` | mini_project2.py:373 | a run of at most 4300 ASCII digits reads as its decimal value |
| `Ints.ParseNegativeDigits` | mini_project2.py:373 | a minus sign before digits negates the value |
| `Ints.ParseShowInt` | mini_project2.py:373 | `int(str(n)) == n` for every integer of at most 4300 digits |
| `Ints.ParseTooManyDigits` | mini_project2.py:373 | more than 4300 digits raise ValueError whatever their value |
| `Ints.FileSeparatorNotSkipped` | mini_project2.py:373 | `int()` does not skip a leading U+001C although `strip()` removes it: `int("\x1c5")` raises ValueError |
| `Dates.Strptime` | mini_project2.py:381 | `strptime` succeeds only with a date of the proleptic Gregorian calendar with year 1..9999 |
| `Dates.Strftime` | mini_project2.py:381 | `strftime('%Y-%m-%d')` gives ten characters, dashes at positions 4 and 7, and zero-padded year, month and day between them |
| `Dates.ReformatDate` | mini_project2.py:381 | a successful conversion yields `DDDD-DD-DD` |
| `Dates.StrptimeEightDigits` | mini_project2.py:381 | for eight ASCII digits `YYYYMMDD`, `strptime` succeeds exactly when they name a real date, and reads exactly those numbers |
| `Dates.ReformatEightDigits` | mini_project2.py:381 | `YYYYMMDD` naming a real date converts to `YYYY-MM-DD` |
| `Dates.StrptimeCompact` | mini_project2.py:381 | writing a valid date as `%Y%m%d` and parsing it gives the date back |
| `Orders.Item` | mini_project2.py:377-383 | an unknown product gives nothing; a known one gives the order with date and quantity at its own index, or IndexError when either is missing, or ValueError when the date is not one |
| `Orders.ItemOrders` | mini_project2.py:376-383 | the product loop fails only with IndexError or ValueError |
| `Orders.ItemOrdersSpec` | mini_project2.py:376-383 | the product loop succeeds exactly when every known product has a date that parses and a quantity; it then yields one order per known product, in order, with that product's own date and quantity |
| `Orders.RowOrders` | mini_project2.py:368-383 | a row whose customer is not truthy gives no orders; errors are IndexError or ValueError, and when the fields and quantities are readable an error comes from the product loop |
| `Orders.OrderTable` | mini_project2.py:358-383 | step 11 succeeds exactly when every row does, and otherwise fails with IndexError or ValueError |
| `Orders.UnknownCustomerSkipped` | mini_project2.py:369-371 | appending a row whose customer is not found leaves step 11's result unchanged |
| `Orders.OrderTableAppend` | mini_project2.py:360-383 | the orders of a later row follow all orders of the earlier rows |
| `Orders.RowOrdersKeys` | mini_project2.py:369-383 | every order of a row carries the row's customer id and the id of a known product |
| `Orders.OrderTableKeys` | mini_project2.py:368-383 | every stored CustomerID and ProductID is a truthy value of the corresponding dictionary |
| `Orders.OrderDateFormat` | mini_project2.py:380-381 | an order whose date text is eight digits is stored as `YYYY-MM-DD` of those digits |
| `Pipeline.LoadRows` | mini_project2.py:44-388 | the steps run in order, each reading the dictionary of the table before it; a run that gets through has read the first nine fields of every row |
| `Pipeline.Load` | mini_project2.py:44-383 | loading a file whose regions contain no `'` and no NUL character never raises KeyError |
| `Pipeline.CountriesKnown` | mini_project2.py:119-126 | after step 1, every row's `data[3]` is a key of step 4's dictionary, with an id in `1..n` |
| `Pipeline.CustomerTableAfterCountries` | mini_project2.py:180-181 | on rows with non-blank first fields, once step 1 succeeds, steps 3 and 5 cannot fail, and every stored CountryID is a Country row's id |
| `Pipeline.ProductTableAfterCategories` | mini_project2.py:315 | after step 7, and with every row holding `data[8]`, step 9 cannot fail, and every stored ProductCategoryID is a ProductCategory row's id |
| `Pipeline.OrderKeysInRange` | mini_project2.py:368-383 | every order's CustomerID and ProductID are ids of existing Customer and Product rows |
| `Pipeline.NameFoundInStep11` | mini_project2.py:368-370 | a customer whose name is two or more single-spaced words is found by step 11 with a truthy id |
| `Pipeline.LoadNoKeyError` | mini_project2.py:123-316 | on rows with non-blank first fields, the load fails only with IndexError or ValueError, never with KeyError |
| `Pipeline.LoadForeignKeys` | mini_project2.py:346-351 | after a complete load, every foreign key of the Country, Customer, Product and OrderDetail rows is the id of a row of the referenced table |

## Left out

- The database layer is not modelled: `create_connection`, `create_table`, `execute_sql_statement`, the DROP/CREATE/INSERT/SELECT statements and the connections. Each table is the sequence of rows its step inserts, and each dictionary step is a function of that sequence. This assumes a SELECT without ORDER BY returns rows in insertion order.
- Ids the engine assigns (CountryID, CustomerID) are taken to be 1, 2, … in insertion order on a freshly dropped and created table. OrderID is passed as NULL and left to the engine, so order rows carry no OrderID.
- The file is given as a list of lines. Opening it, decoding it, universal-newline translation, and re-reading it in every step are left out; every step reads the same lines.
- A step that fails after `create_table` leaves an empty table behind, and the earlier steps' tables stay in the database. A load that fails returns only the error.
- The `print(cus_data)` at line 184 is output only and is left out.
- Regions.RegionTable: the model assumes no region contains `'` or a NUL character. Step 1 writes each region into its INSERT as an SQL string literal (line 74), the only place in the core that builds SQL text from the file, and `execute_sql_statement` (lines 36-38) hands that text to `cur.execute`. A NUL character is not whitespace, survives `strip()`, and makes the sqlite3 module refuse the statement with an error the contract does not list. A lone `'` makes that statement raise sqlite3.OperationalError, which the contract does not list either. A doubled `''` is stored as a single `'`, and other quote sequences can alter the stored text, so the Region table need not hold the file's regions as written.
- Regions.RegionIdsInvert: assumes no region contains `'` or a NUL character. A NUL character makes step 1 fail, and otherwise a region stored altered by line 74 is read back by step 2 under its altered name, so the file's region is not a key.
- Countries.CountryTableAfterRegions: assumes no region contains `'` or a NUL character. A NUL character makes step 1 fail, and otherwise step 3's `d[r]` at line 125 raises KeyError for a region that line 74 stored altered.
- Pipeline.CountriesKnown: assumes no region contains `'` or a NUL character, for the same reason as Countries.CountryTableAfterRegions.
- Pipeline.CustomerTableAfterCountries: assumes no region contains `'` or a NUL character. Otherwise step 3, and so step 5, can fail after step 1.
- Pipeline.LoadNoKeyError: assumes no region contains `'` or a NUL character. Otherwise the program raises KeyError at line 125 for a region stored altered by line 74, or step 1 fails with the error the sqlite3 module raises for a NUL character.
- Pipeline.Load: assumes no region contains `'` or a NUL character, for the same reason as Pipeline.LoadNoKeyError.
- Products.ProductsFrom: the loop at lines 311-316 also evaluates `float(val[2])` right after `d[val[1]]`, so a known category with a non-numeric price raises ValueError there. The price is not evaluated in the model, so the contract says resolving fails only with KeyError.
- Products.ProductsFromSpec: for the same reason, success does not also require every candidate's price to be a number.
- Products.ProductTable: the price stays the text of its `data[8]` piece. `float(val[2])` at line 316 is not evaluated, so the ValueError a non-numeric price raises is not modelled and the error contract lists only IndexError and KeyError.
- Products.ProductTableSpec: for the same reason, success does not also require every price to be a number.
- Pipeline.ProductTableAfterCategories: step 9 succeeding after step 7 also relies on every price being numeric, which the model does not check.
- Ints.ParseInt: only ASCII digits are accepted, while Python's `int()` also accepts other Unicode decimal digits.
- Ints.ParseInt: the 4300-digit limit is the default of Python 3.11 and later. Python before 3.11 has no limit, and an interpreter whose limit was changed uses its own.
- Orders.OrderTable: a quantity outside the signed 64-bit range makes `executemany` at line 388 raise OverflowError in the database layer. The model stores any integer, so that error is not in the contract.
- Dates.Strptime: `%Y%m%d` is matched over ASCII digits only, while Python's regular expression `\d` also matches other Unicode decimal digits.
- Dates.Strftime: the year is always printed with four digits. The platform C library may print years below 1000 without padding, so for those years the stored text can differ.
- The query functions `ex1` to `ex11` are not part of this model.
- Floating point, the product price value and any monetary arithmetic are not modelled.
