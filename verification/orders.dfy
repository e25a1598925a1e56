/**
 Step 11: the OrderDetail rows, given step 6's customer dictionary and step
 10's product dictionary.

 For every data row in file order: `data[0]` is looked up in the customer
 dictionary and the row is skipped when `d.get` gives nothing truthy.
 Otherwise the product names `data[5]`, the quantities `data[9]` (each read
 with `int`) and the order dates `data[10]` are split on `;`, and for each
 product name at index `i` that the product dictionary knows, the row
 (CustomerID, ProductID, date `i` reformatted, quantity `i`) is emitted. An
 unknown product is skipped without shifting the index, so the date and
 quantity always come from the product's own position.

 OrderID is left to the engine, so the model's rows leave it out.
 */
module Orders {
  import opened Results
  import opened Text
  import opened Ints
  import opened Dates
  import opened Dicts
  import opened Seqs
  import opened Lines

  datatype OrderRow = OrderRow(customerId: int, productId: int, orderDate: string, quantity: int)

  /** `list(enumerate(s))`. */
  function Enumerate<T>(s: seq<T>): (r: seq<(nat, T)>)
    ensures |r| == |s| && forall i :: 0 <= i < |s| ==> r[i] == (i, s[i])
  {
    seq(|s|, i requires 0 <= i < |s| => (i, s[i]))
  }

  /**
   One pass of the product loop for `(i, name)`: nothing for an unknown
   product; otherwise date `i` (IndexError when missing, ValueError when not
   a date) and then quantity `i` (IndexError when missing).
   */
  function Item(cid: int, prods: map<string, int>, qtys: seq<int>, dates: seq<string>, e: (nat, string))
    : (r: Result<Option<OrderRow>>)
    ensures r == Ok(None) <==> !Found(prods, e.1)
    ensures r.Ok? && r.value.Some? ==>
      && Found(prods, e.1) && e.0 < |dates| && e.0 < |qtys| && ReformatDate(dates[e.0]).Ok?
      && r.value.value == OrderRow(cid, prods[e.1], ReformatDate(dates[e.0]).value, qtys[e.0])
    ensures r.Err? ==>
      && Found(prods, e.1)
      && (e.0 >= |dates| || ReformatDate(dates[e.0]).Err? || e.0 >= |qtys|)
      && (r.error == IndexError || r.error == ValueError)
      && (r.error == ValueError <==> e.0 < |dates| && ReformatDate(dates[e.0]).Err?)
  {
    var (i, name) := e;
    if !Found(prods, name) then Ok(None)
    else if i >= |dates| then Err(IndexError)
    else
      var date :- ReformatDate(dates[i]);
      if i >= |qtys| then Err(IndexError)
      else Ok(Some(OrderRow(cid, prods[name], date, qtys[i])))
  }

  function ItemReader(cid: int, prods: map<string, int>, qtys: seq<int>, dates: seq<string>)
    : ((nat, string)) -> Result<Option<OrderRow>>
  {
    e => Item(cid, prods, qtys, dates, e)
  }

  /** The values of the `Some` entries, in order. */
  function Present<T>(s: seq<Option<T>>): (r: seq<T>)
    ensures |r| <= |s|
  {
    if |s| == 0 then []
    else
      var p := Present(s[..|s| - 1]);
      match s[|s| - 1]
      case None => p
      case Some(x) => p + [x]
  }

  /** The product loop of a known customer's row, over the split product names. */
  function ItemOrders(cid: int, prods: map<string, int>, qtys: seq<int>, dates: seq<string>, names: seq<string>)
    : (r: Result<seq<OrderRow>>)
    ensures r.Err? ==> r.error == IndexError || r.error == ValueError
  {
    var items :- Traverse(Enumerate(names), ItemReader(cid, prods, qtys, dates));
    Ok(Present(items))
  }

  /**
   The order rows of one data row. The reads happen in the source's order:
   `data[0]`, then `data[5]`, `data[9]` and its quantities, `data[10]`, and
   then the products one by one.
   */
  function RowOrders(row: seq<string>, custs: map<string, int>, prods: map<string, int>)
    : (r: Result<seq<OrderRow>>)
    ensures 0 < |row| && !Found(custs, row[0]) ==> r == Ok([])
    ensures r.Err? ==> r.error == IndexError || r.error == ValueError
    ensures r.Err? && |row| > 10 && Found(custs, row[0]) && Traverse(SplitOn(row[9], ';'), ParseInt).Ok?
      ==> ItemOrders(custs[row[0]], prods, Traverse(SplitOn(row[9], ';'), ParseInt).value,
                     SplitOn(row[10], ';'), SplitOn(row[5], ';')).Err?
  {
    var name :- Field(row, 0);
    if !Found(custs, name) then Ok([])
    else
      var names :- Field(row, 5);
      var qtext :- Field(row, 9);
      var qtys :- Traverse(SplitOn(qtext, ';'), ParseInt);
      var dtext :- Field(row, 10);
      ItemOrders(custs[name], prods, qtys, SplitOn(dtext, ';'), SplitOn(names, ';'))
  }

  function RowReader(custs: map<string, int>, prods: map<string, int>): seq<string> -> Result<seq<OrderRow>> {
    row => RowOrders(row, custs, prods)
  }

  /**
   Step 11: the rows inserted into the OrderDetail table, in file order; the
   first failing data row ends the step.
   */
  function OrderTable(data: seq<seq<string>>, custs: map<string, int>, prods: map<string, int>)
    : (r: Result<seq<OrderRow>>)
    ensures r.Ok? <==> forall k :: 0 <= k < |data| ==> RowOrders(data[k], custs, prods).Ok?
    ensures r.Err? ==> r.error == IndexError || r.error == ValueError
  {
    var f := RowReader(custs, prods);
    assert forall k :: 0 <= k < |data| ==> f(data[k]) == RowOrders(data[k], custs, prods);
    var per :- Traverse(data, f);
    Ok(Concat(per))
  }

  // ---------------------------------------------------------------- properties

  /** The indices of the product names the dictionary knows, in increasing order. */
  function Kept(names: seq<string>, prods: map<string, int>): (r: seq<nat>)
    ensures forall j :: 0 <= j < |r| ==> r[j] < |names| && Found(prods, names[r[j]])
    ensures forall j, l :: 0 <= j < l < |r| ==> r[j] < r[l]
    ensures forall i :: 0 <= i < |names| && Found(prods, names[i]) ==> i in r
  {
    if |names| == 0 then []
    else
      var n := |names| - 1;
      var p := Kept(names[..n], prods);
      assert forall j :: 0 <= j < |p| ==> names[..n][p[j]] == names[p[j]];
      if Found(prods, names[n]) then p + [n] else p
  }

  /**
   Dropping the `None`s keeps the entries at the known products' indices:
   the j-th value comes from the j-th kept index.
   */
  lemma {:induction false} PresentAligned(items: seq<Option<OrderRow>>, names: seq<string>, prods: map<string, int>)
    requires |items| == |names|
    requires forall i :: 0 <= i < |items| ==> (items[i].Some? <==> Found(prods, names[i]))
    ensures |Present(items)| == |Kept(names, prods)|
    ensures forall j :: 0 <= j < |Present(items)| ==> Present(items)[j] == items[Kept(names, prods)[j]].value
    decreases |items|
  {
    if |items| > 0 {
      var n := |items| - 1;
      var pi := items[..n];
      var pn := names[..n];
      forall i | 0 <= i < n ensures pi[i].Some? <==> Found(prods, pn[i]) {
        assert pi[i] == items[i] && pn[i] == names[i];
      }
      PresentAligned(pi, pn, prods);
      var p := Present(pi);
      var k := Kept(pn, prods);
      assert names[..n] == pn;
      if items[n].Some? {
        assert Present(items) == p + [items[n].value];
        assert Kept(names, prods) == k + [n];
        forall j | 0 <= j < |p| + 1 ensures (p + [items[n].value])[j] == items[(k + [n])[j]].value {
          if j < |p| {
            assert pi[k[j]] == items[k[j]];
          }
        }
      } else {
        assert Present(items) == p;
        assert Kept(names, prods) == k;
        forall j | 0 <= j < |p| ensures p[j] == items[k[j]].value {
          assert pi[k[j]] == items[k[j]];
        }
      }
    }
  }

  /**
   The product loop of a known customer yields one order per known product,
   in product order, each taking the date and the quantity at that
   product's own index; it fails exactly when some known product lacks a
   date, has one that is not a date, or lacks a quantity.
   */
  lemma ItemOrdersSpec(cid: int, prods: map<string, int>, qtys: seq<int>, dates: seq<string>, names: seq<string>)
    ensures var kept := Kept(names, prods);
      && (ItemOrders(cid, prods, qtys, dates, names).Ok? <==>
            forall i :: 0 <= i < |names| && Found(prods, names[i]) ==>
              i < |dates| && ReformatDate(dates[i]).Ok? && i < |qtys|)
      && (ItemOrders(cid, prods, qtys, dates, names).Ok? ==>
            var r := ItemOrders(cid, prods, qtys, dates, names).value;
            && |r| == |kept|
            && forall j :: 0 <= j < |r| ==>
                 r[j] == OrderRow(cid, prods[names[kept[j]]], ReformatDate(dates[kept[j]]).value, qtys[kept[j]]))
  {
    var kept := Kept(names, prods);
    var t := Traverse(Enumerate(names), ItemReader(cid, prods, qtys, dates));
    ItemResults(cid, prods, qtys, dates, names);
    if t.Ok? {
      var items := t.value;
      assert ItemOrders(cid, prods, qtys, dates, names) == Ok(Present(items));
      forall i | 0 <= i < |items| ensures items[i].Some? <==> Found(prods, names[i]) {
        assert items[i] == Item(cid, prods, qtys, dates, (i, names[i])).value;
      }
      PresentAligned(items, names, prods);
      KeptItems(cid, prods, qtys, dates, names, items);
      forall i | 0 <= i < |names| && Found(prods, names[i]) ensures i < |dates| && ReformatDate(dates[i]).Ok? && i < |qtys| {
        assert Item(cid, prods, qtys, dates, (i, names[i])) != Ok(None);
      }
    } else {
      assert ItemOrders(cid, prods, qtys, dates, names).Err?;
      var i :| 0 <= i < |names| && Item(cid, prods, qtys, dates, (i, names[i])).Err?;
    }
  }

  /** The product loop, one index at a time: which indices succeed, and with what. */
  lemma ItemResults(cid: int, prods: map<string, int>, qtys: seq<int>, dates: seq<string>, names: seq<string>)
    ensures var t := Traverse(Enumerate(names), ItemReader(cid, prods, qtys, dates));
      && (t.Ok? <==> forall i :: 0 <= i < |names| ==> Item(cid, prods, qtys, dates, (i, names[i])).Ok?)
      && (t.Ok? ==> |t.value| == |names| && forall i :: 0 <= i < |names| ==>
            t.value[i] == Item(cid, prods, qtys, dates, (i, names[i])).value)
  {
    var es := Enumerate(names);
    var f := ItemReader(cid, prods, qtys, dates);
    assert forall i :: 0 <= i < |es| ==> f(es[i]) == Item(cid, prods, qtys, dates, (i, names[i]));
  }

  lemma KeptItems(cid: int, prods: map<string, int>, qtys: seq<int>, dates: seq<string>, names: seq<string>,
                  items: seq<Option<OrderRow>>)
    requires |items| == |names|
    requires forall i :: 0 <= i < |names| ==> Item(cid, prods, qtys, dates, (i, names[i])) == Ok(items[i])
    ensures var kept := Kept(names, prods);
      forall j :: 0 <= j < |kept| ==>
        && kept[j] < |dates| && ReformatDate(dates[kept[j]]).Ok? && kept[j] < |qtys|
        && items[kept[j]] == Some(OrderRow(cid, prods[names[kept[j]]], ReformatDate(dates[kept[j]]).value, qtys[kept[j]]))
  {
    var kept := Kept(names, prods);
    forall j | 0 <= j < |kept|
      ensures && kept[j] < |dates| && ReformatDate(dates[kept[j]]).Ok? && kept[j] < |qtys|
              && items[kept[j]] == Some(OrderRow(cid, prods[names[kept[j]]], ReformatDate(dates[kept[j]]).value, qtys[kept[j]]))
    {
      var i := kept[j];
      var r := Item(cid, prods, qtys, dates, (i, names[i]));
      assert r != Ok(None);
    }
  }

  /** A data row whose name the customer dictionary does not give produces no order. */
  lemma UnknownCustomerSkipped(data: seq<seq<string>>, row: seq<string>, custs: map<string, int>, prods: map<string, int>)
    requires 0 < |row| && !Found(custs, row[0])
    ensures OrderTable(data + [row], custs, prods) == OrderTable(data, custs, prods)
  {
    OrderTableAppend(data, row, custs, prods);
    assert RowOrders(row, custs, prods) == Ok([]);
    if OrderTable(data, custs, prods).Ok? {
      assert OrderTable(data, custs, prods).value + [] == OrderTable(data, custs, prods).value;
    }
  }

  /** The rows of a later data row come after all rows of the earlier ones. */
  lemma OrderTableAppend(data: seq<seq<string>>, row: seq<string>, custs: map<string, int>, prods: map<string, int>)
    ensures OrderTable(data + [row], custs, prods) ==
      match OrderTable(data, custs, prods)
      case Err(e) => Err(e)
      case Ok(before) =>
        match RowOrders(row, custs, prods)
        case Err(e) => Err(e)
        case Ok(now) => Ok(before + now)
  {
    var f := RowReader(custs, prods);
    assert (data + [row])[..|data|] == data;
    var t := Traverse(data, f);
    if t.Ok? && RowOrders(row, custs, prods).Ok? {
      ConcatAppend(t.value, RowOrders(row, custs, prods).value);
    }
  }

  /**
   Foreign-key integrity of one data row: every order carries the row's
   customer's id and the id of a product the dictionary knows.
   */
  lemma RowOrdersKeys(row: seq<string>, custs: map<string, int>, prods: map<string, int>)
    requires RowOrders(row, custs, prods).Ok?
    ensures forall o :: o in RowOrders(row, custs, prods).value ==>
      && 0 < |row| && Found(custs, row[0]) && o.customerId == custs[row[0]]
      && exists x :: Found(prods, x) && o.productId == prods[x]
  {
    var r := RowOrders(row, custs, prods).value;
    if |r| > 0 {
      var cid := custs[row[0]];
      var names := SplitOn(row[5], ';');
      var qtys := Traverse(SplitOn(row[9], ';'), ParseInt).value;
      var dates := SplitOn(row[10], ';');
      assert r == ItemOrders(cid, prods, qtys, dates, names).value;
      ItemOrdersKeys(cid, prods, qtys, dates, names);
    }
  }

  /** Every order of one row's product loop carries `cid` and a known product's id. */
  lemma ItemOrdersKeys(cid: int, prods: map<string, int>, qtys: seq<int>, dates: seq<string>, names: seq<string>)
    requires ItemOrders(cid, prods, qtys, dates, names).Ok?
    ensures forall o :: o in ItemOrders(cid, prods, qtys, dates, names).value ==>
      o.customerId == cid && exists x :: Found(prods, x) && o.productId == prods[x]
  {
    var r := ItemOrders(cid, prods, qtys, dates, names).value;
    ItemOrdersSpec(cid, prods, qtys, dates, names);
    var kept := Kept(names, prods);
    forall o | o in r
      ensures o.customerId == cid && exists x :: Found(prods, x) && o.productId == prods[x]
    {
      var j :| 0 <= j < |r| && r[j] == o;
      assert Found(prods, names[kept[j]]);
    }
  }

  /**
   Foreign-key integrity of step 11: every CustomerID and ProductID it
   inserts is a value the corresponding dictionary holds for some name.
   */
  lemma OrderTableKeys(data: seq<seq<string>>, custs: map<string, int>, prods: map<string, int>)
    requires OrderTable(data, custs, prods).Ok?
    ensures forall o :: o in OrderTable(data, custs, prods).value ==>
      && (exists x :: Found(custs, x) && o.customerId == custs[x])
      && (exists x :: Found(prods, x) && o.productId == prods[x])
  {
    var f := RowReader(custs, prods);
    var per: seq<seq<OrderRow>> := Traverse(data, f).value;
    forall o: OrderRow | o in Concat(per)
      ensures (exists x :: Found(custs, x) && o.customerId == custs[x])
           && (exists x :: Found(prods, x) && o.productId == prods[x])
    {
      var k :| 0 <= k < |per| && o in per[k];
      assert per[k] == RowOrders(data[k], custs, prods).value;
      RowOrdersKeys(data[k], custs, prods);
    }
  }

  /** An order date `YYYYMMDD` naming a real date is stored as `YYYY-MM-DD`. */
  lemma OrderDateFormat(cid: int, prods: map<string, int>, qtys: seq<int>, dates: seq<string>, names: seq<string>, j: int)
    requires ItemOrders(cid, prods, qtys, dates, names).Ok?
    requires 0 <= j < |ItemOrders(cid, prods, qtys, dates, names).value|
    ensures var kept := Kept(names, prods);
      |kept| == |ItemOrders(cid, prods, qtys, dates, names).value| && kept[j] < |dates|
    ensures var s := dates[Kept(names, prods)[j]];
      |s| == 8 && AllDigits(s) ==>
        ItemOrders(cid, prods, qtys, dates, names).value[j].orderDate == s[..4] + "-" + s[4..6] + "-" + s[6..]
  {
    ItemOrdersSpec(cid, prods, qtys, dates, names);
    var s := dates[Kept(names, prods)[j]];
    if |s| == 8 && AllDigits(s) {
      StrptimeEightDigits(s);
      ReformatEightDigits(s);
    }
  }
}
