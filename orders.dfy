/**
 * The order store (OrderModel): a store of orders that owns the store of
 * order line items, and `create_order`, which writes an order and then one
 * line item per product in it.
 */
module Orders {
  import opened Wrappers
  import opened Text
  import opened Records
  import opened Validation
  import opened Store
  import opened Search
  import opened Keys

  /** One product line of a new order: amounts in kopecks, as `:.2f` prints them. */
  datatype LineInput = LineInput(productId: string, quantity: int, priceCents: int, totalCents: int)

  /** The order record `create_order` builds before it has an id. */
  function NewOrder(customerId: string, totalCents: int, customerInfo: string, now: DateTime): Record {
    Order("", customerId, FormatCents(totalCents), FormatDate(now), customerInfo)
  }

  /** The line-item record `create_order` builds for one line of order `orderId`. */
  function LineRecord(line: LineInput, orderId: string): Record {
    OrderItem("", orderId, line.productId, IntToString(line.quantity),
              FormatCents(line.priceCents), FormatCents(line.totalCents))
  }

  /** What adding the line items one by one leaves in the item store. */
  function AddLines(data: seq<Record>, lines: seq<LineInput>, orderId: string): (r: seq<Record>)
    requires NumeralIds(data)
    ensures NumeralIds(r)
    decreases |lines|
  {
    if lines == [] then data
    else Added(AddLines(data, lines[..|lines| - 1], orderId), LineRecord(lines[|lines| - 1], orderId))
  }

  /**
   * A new order is never refused for its amount text, only for a missing
   * customer or an amount that is not positive; validating it never raises.
   */
  lemma NewOrderVerdict(customerId: string, totalCents: int, customerInfo: string, now: DateTime)
    ensures Validate(NewOrder(customerId, totalCents, customerInfo, now)) ==
      if customerId == [] then Rejected([CustomerRequired])
      else if totalCents > 0 then Accepted
      else Rejected([AmountNotPositive])
  {
    FormatCentsRoundTrip(totalCents);
    PositiveDecimal(Decimal(totalCents < 0, if totalCents < 0 then -totalCents else totalCents, 2));
  }

  /** Every line item `create_order` builds passes the item rule. */
  lemma LineRecordAccepted(line: LineInput, orderId: string)
    ensures Validate(LineRecord(line, orderId)) == Accepted
  {
    var r := LineRecord(line, orderId);
    FormatCentsRoundTrip(line.priceCents);
    FormatCentsRoundTrip(line.totalCents);
    ParseIntRoundTrip(line.quantity);
    ItemRules(r);
  }

  /** A new order's date key computes: it is the clock reading, so created orders sort by date. */
  lemma NewOrderDateKey(customerId: string, totalCents: int, customerInfo: string, now: DateTime)
    requires ValidDate(now)
    ensures KeyValue(ByDate, NewOrder(customerId, totalCents, customerInfo, now)) == Some(DateNumber(now) as real)
  {
    var r := NewOrder(customerId, totalCents, customerInfo, now);
    ParseFormatDate(now);
    DateKeyOf(r, now);
  }

  /** A new order's amount key computes: it is the amount in roubles. */
  lemma NewOrderAmountKey(customerId: string, totalCents: int, customerInfo: string, now: DateTime)
    ensures KeyValue(ByAmount, NewOrder(customerId, totalCents, customerInfo, now)) == Some(Roubles(totalCents))
  {
    var r := NewOrder(customerId, totalCents, customerInfo, now);
    CentsAmountKey(r, totalCents);
  }

  /** One more line appends one accepted item under the next id. */
  lemma AddLinesStep(data: seq<Record>, lines: seq<LineInput>, orderId: string)
    requires NumeralIds(data) && lines != []
    ensures var before := AddLines(data, lines[..|lines| - 1], orderId);
      AddLines(data, lines, orderId) == before + [LineRecord(lines[|lines| - 1], orderId).WithId(NextId(before))]
  {
    var before := AddLines(data, lines[..|lines| - 1], orderId);
    LineRecordAccepted(lines[|lines| - 1], orderId);
    AddedAccepted(before, LineRecord(lines[|lines| - 1], orderId));
  }

  /** Adding one more line of `lines` adds its record to what the earlier lines left. */
  lemma AddLinesPrefix(data: seq<Record>, lines: seq<LineInput>, i: nat, orderId: string)
    requires NumeralIds(data) && i < |lines|
    ensures AddLines(data, lines[..i + 1], orderId) == Added(AddLines(data, lines[..i], orderId), LineRecord(lines[i], orderId))
  {
    assert lines[..i + 1][..i] == lines[..i];
  }

  /** Adding the lines keeps the item store's invariant. */
  lemma {:induction false} AddLinesKeepsInvariant(data: seq<Record>, lines: seq<LineInput>, orderId: string)
    requires StoreInvariant(data, OrderItems)
    ensures StoreInvariant(AddLines(data, lines, orderId), OrderItems)
    decreases |lines|
  {
    if lines != [] {
      var before := AddLines(data, lines[..|lines| - 1], orderId);
      AddLinesKeepsInvariant(data, lines[..|lines| - 1], orderId);
      AddLinesStep(data, lines, orderId);
      AppendPreservesInvariant(before, OrderItems, LineRecord(lines[|lines| - 1], orderId).WithId(NextId(before)));
    }
  }

  /** From position `k` on, `r` holds each line's record, in line order, under some id. */
  predicate Carries(r: seq<Record>, k: nat, lines: seq<LineInput>, orderId: string)
    requires k + |lines| <= |r|
  {
    forall i :: 0 <= i < |lines| ==> r[k + i] == LineRecord(lines[i], orderId).WithId(r[k + i].id)
  }

  lemma CarriesStep(before: seq<Record>, item: Record, k: nat, lines: seq<LineInput>, orderId: string)
    requires lines != [] && k + |lines| == |before| + 1
    requires Carries(before, k, lines[..|lines| - 1], orderId)
    requires item == LineRecord(lines[|lines| - 1], orderId).WithId(item.id)
    ensures Carries(before + [item], k, lines, orderId)
  {
    var r := before + [item];
    forall i | 0 <= i < |lines|
      ensures r[k + i] == LineRecord(lines[i], orderId).WithId(r[k + i].id)
    {
      if i < |lines| - 1 {
        assert lines[i] == lines[..|lines| - 1][i];
        assert r[k + i] == before[k + i];
      } else {
        assert r[k + i] == item;
      }
    }
  }

  /**
   * Adding the lines appends exactly one item per line, in order, each the
   * line's record under some id, and leaves the items already there alone.
   */
  lemma {:induction false} AddLinesAppends(data: seq<Record>, lines: seq<LineInput>, orderId: string)
    requires NumeralIds(data)
    ensures var r := AddLines(data, lines, orderId);
      && |r| == |data| + |lines| && r[..|data|] == data
      && (forall i :: 0 <= i < |lines| ==> r[|data| + i] == LineRecord(lines[i], orderId).WithId(r[|data| + i].id))
    decreases |lines|
  {
    if lines != [] {
      var init := lines[..|lines| - 1];
      AddLinesAppends(data, init, orderId);
      AddLinesGrows(data, lines, orderId);
      var before := AddLines(data, init, orderId);
      var r := AddLines(data, lines, orderId);
      assert Carries(before, |data|, init, orderId);
      CarriesStep(before, r[|before|], |data|, lines, orderId);
      assert Carries(r, |data|, lines, orderId);
      assert r[..|data|] == before[..|data|];
    }
  }

  /** Appending one more item of the order extends the order's new items by it. */
  lemma ItemsAppendStep(data: seq<Record>, before: seq<Record>, item: Record, orderId: string)
    requires |data| <= |before| && ItemsByOrder(before, orderId) == ItemsByOrder(data, orderId) + before[|data|..]
    requires item.OrderItem? && item.orderId == orderId
    ensures ItemsByOrder(before + [item], orderId) == ItemsByOrder(data, orderId) + (before + [item])[|data|..]
  {
    ItemsByOrderAppend(before, item, orderId);
    assert (before + [item])[|data|..] == before[|data|..] + [item];
  }

  /** One more line appends one item of the order and nothing else. */
  lemma AddLinesGrows(data: seq<Record>, lines: seq<LineInput>, orderId: string)
    requires NumeralIds(data) && lines != []
    ensures var before := AddLines(data, lines[..|lines| - 1], orderId);
      var r := AddLines(data, lines, orderId);
      |r| == |before| + 1 && r == before + [r[|before|]]
      && r[|before|].OrderItem? && r[|before|].orderId == orderId
      && r[|before|] == LineRecord(lines[|lines| - 1], orderId).WithId(r[|before|].id)
  {
    var before := AddLines(data, lines[..|lines| - 1], orderId);
    var id := NextId(before);
    var item := LineRecord(lines[|lines| - 1], orderId).WithId(id);
    AddLinesStep(data, lines, orderId);
    LineFields(lines[|lines| - 1], orderId, id);
    assert (before + [item])[|before|] == item;
  }

  /** The order's items after adding the lines are the ones it had, followed by all the new ones. */
  lemma {:induction false} AddLinesItems(data: seq<Record>, lines: seq<LineInput>, orderId: string)
    requires NumeralIds(data)
    ensures var r := AddLines(data, lines, orderId);
      |data| <= |r| && ItemsByOrder(r, orderId) == ItemsByOrder(data, orderId) + r[|data|..]
    decreases |lines|
  {
    if lines != [] {
      var init := lines[..|lines| - 1];
      AddLinesItems(data, init, orderId);
      AddLinesGrows(data, lines, orderId);
      var before := AddLines(data, init, orderId);
      var r := AddLines(data, lines, orderId);
      ItemsAppendStep(data, before, r[|before|], orderId);
    }
  }

  /** A line's item, once it has an id, carries the line's fields as `create_order` writes them. */
  lemma LineFields(line: LineInput, orderId: string, id: string)
    ensures LineRecord(line, orderId).WithId(id) ==
      OrderItem(id, orderId, line.productId, IntToString(line.quantity), FormatCents(line.priceCents), FormatCents(line.totalCents))
  {
  }

  lemma OrderExample(now: DateTime)
    ensures NewOrder("7", 50000, "info", now).WithId("1").totalAmount == "500.00"
  {
    CentsExample();
    assert NewOrder("7", 50000, "info", now).WithId("1").totalAmount == FormatCents(50000);
  }

  /** On an empty item store, every item the lines add belongs to the order. */
  lemma FreshItemsAllOfOrder(lines: seq<LineInput>, orderId: string)
    ensures var items := AddLines([], lines, orderId);
      ItemsByOrder(items, orderId) == items
  {
    var items := AddLines([], lines, orderId);
    assert ItemsByOrder([], orderId) == [] by {
      ItemsOfUnknownOrder([], orderId);
    }
    AddLinesItems([], lines, orderId);
    assert items[0..] == items;
  }

  /** One line on an empty item store becomes item "1". */
  lemma OneLine(first: LineInput, orderId: string)
    ensures AddLines([], [first], orderId) == [LineRecord(first, orderId).WithId("1")]
  {
    AddLinesStep([], [first], orderId);
    assert [first][..0] == [];
  }

  /** After a single record with id "1", the next id is "2". */
  lemma NextAfterOne(one: seq<Record>)
    requires NumeralIds(one) && |one| == 1 && one[0].id == "1"
    ensures NextId(one) == "2"
  {
    assert MaxId(one) == 1 by {
      assert DigitsValue("1") == DigitsValue([]) * 10 + 1;
    }
    NatToStringRoundTrip(2);
    assert NatToString(2) == "2";
  }

  /** Two lines on an empty item store become items "1" and "2" of the order, in line order. */
  lemma TwoLines(first: LineInput, second: LineInput, orderId: string)
    ensures var items := AddLines([], [first, second], orderId);
      && items == [LineRecord(first, orderId).WithId("1"), LineRecord(second, orderId).WithId("2")]
      && ItemsByOrder(items, orderId) == items
  {
    var lines := [first, second];
    OneLine(first, orderId);
    var one := AddLines([], [first], orderId);
    assert lines[..1] == [first];
    AddLinesStep([], lines, orderId);
    NextAfterOne(one);
    FreshItemsAllOfOrder(lines, orderId);
  }

  /** The two line items of the example order, as the order's items. */
  predicate ExampleItems(items: seq<Record>) {
    && |items| == 2 && items[0].OrderItem? && items[1].OrderItem?
    && items[0].orderId == "1" && items[0].productId == "1" && items[0].quantity == "2" && items[0].total == "200.00"
    && items[1].orderId == "1" && items[1].productId == "2" && items[1].quantity == "1" && items[1].total == "300.00"
    && ItemsByOrder(items, "1") == items
  }

  /**
   * On an empty pair of stores, an order of 500.00 for customer "7" with
   * lines of 2 x 100.00 of product "1" and 1 x 300.00 of product "2" gets id
   * "1" and amount text "500.00", and both line items carry order id "1".
   */
  lemma CreateOrderExample(now: DateTime, first: LineInput, second: LineInput)
    requires first == LineInput("1", 2, 10000, 20000) && second == LineInput("2", 1, 30000, 30000)
    ensures NextId([]) == "1"
    ensures NewOrder("7", 50000, "info", now).WithId("1").totalAmount == "500.00"
    ensures ExampleItems(AddLines([], [first, second], "1"))
  {
    OrderExample(now);
    CentsExample();
    TwoLines(first, second, "1");
    LineFields(first, "1", "1");
    LineFields(second, "1", "2");
  }

  class OrderStore {
    /** The orders themselves (the BaseModel part of OrderModel). */
    const orders: Store
    /** The owned OrderItemsModel. */
    const items: Store

    ghost predicate Valid()
      reads this, orders, items
    {
      orders != items && orders.kind == Orders && items.kind == OrderItems && orders.Valid() && items.Valid()
    }

    constructor()
      ensures Valid() && fresh(orders) && fresh(items) && orders.data == [] && items.data == []
    {
      orders := new Store(Orders);
      items := new Store(OrderItems);
    }

    /** The loop of `create_order`: one `add_item` on the item store per line, answers ignored. */
    method AddLineItems(lines: seq<LineInput>, orderId: string, lineSaved: bool)
      requires Valid()
      modifies items
      ensures Valid()
      ensures items.data == AddLines(old(items.data), lines, orderId)
    {
      var i := 0;
      while i < |lines|
        invariant 0 <= i <= |lines|
        invariant Valid()
        invariant items.data == AddLines(old(items.data), lines[..i], orderId)
      {
        AddLinesPrefix(old(items.data), lines, i, orderId);
        ghost var before := items.data;
        var _ := items.AddItem(LineRecord(lines[i], orderId), lineSaved);
        assert items.data == Added(before, LineRecord(lines[i], orderId));
        i := i + 1;
      }
      assert lines[..|lines|] == lines;
    }

    /**
     * `create_order`: validate the order, append it under the next id and
     * save; only when the save succeeds, add one line item per line through
     * the item store, ignoring what each of those answers. `now` is the
     * clock's reading, always a valid date, and `orderSaved` the outcome of
     * writing the order file;
     * `lineSaved`, the outcome of writing the item file, is discarded.
     */
    method CreateOrder(customerId: string, totalCents: int, customerInfo: string, lines: seq<LineInput>,
                       now: DateTime, orderSaved: bool, lineSaved: bool) returns (ok: bool)
      requires Valid() && ValidDate(now)
      modifies orders, items
      ensures Valid()
      ensures customerId == [] || totalCents <= 0 ==>
        !ok && orders.data == old(orders.data) && items.data == old(items.data)
      ensures customerId != [] && totalCents > 0 ==>
        var id := NextId(old(orders.data));
        && orders.data == old(orders.data) + [NewOrder(customerId, totalCents, customerInfo, now).WithId(id)]
        && ok == orderSaved
        && items.data == if orderSaved then AddLines(old(items.data), lines, id) else old(items.data)
    ensures customerId != [] && totalCents > 0 ==>
      var order := orders.data[|old(orders.data)|];
      && KeyValue(ByDate, order) == Some(DateNumber(now) as real)
      && KeyValue(ByAmount, order) == Some(Roubles(totalCents))
    {
      var order := NewOrder(customerId, totalCents, customerInfo, now);
      NewOrderVerdict(customerId, totalCents, customerInfo, now);
      if Validate(order) != Accepted {
        return false;
      }
      var id := NextId(orders.data);
      NewOrderDateKey(customerId, totalCents, customerInfo, now);
      NewOrderAmountKey(customerId, totalCents, customerInfo, now);
      AppendPreservesInvariant(orders.data, Orders, order.WithId(id));
      orders.data := orders.data + [order.WithId(id)];
      if !orderSaved {
        return false;
      }
      AddLineItems(lines, id, lineSaved);
      ok := true;
    }
  }
}
