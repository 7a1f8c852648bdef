# Sales records: record stores, validation, order sorting and the customer network

This project models the data layer of a small sales-records application
(`models.py`) and the data half of its customer-network analysis
(`analysis.py`). The model is written in Dafny and proves properties of it.

The modules follow the program's structure:

- `Records`: the four kinds of record (customer, product, order, order line
  item). Every field is text, as in the CSV files behind the stores.
- `Store`: `BaseModel`, a class holding the ordered list of records.
  - Ids are handed out as the largest id plus one, or "1" in an empty store.
  - `add_item` validates, assigns the id and appends; `find_by_id` and
    `delete_item` work by linear scan.
  - `get_all` is the reading function `Store.Store.GetAll`.
  - The outcome of writing the CSV file is a `saved` parameter.
- `Validation`: the `validate` rules of the four stores.
  - The phone and e-mail regular expressions are hand-written parsers. Each
    parser is proved sound and complete against an explicit description of
    the strings the pattern accepts.
  - The customer and product rules collect every broken rule. The order rule
    stops at the first one.
- `Text`: what the program takes from Python's strings and numbers.
  - `strip`, `lower`, substring `in`, `int()`, and `float()` restricted to
    plain decimal notation.
  - `str()` of an integer, and `f"{x:.2f}"` for amounts held as whole kopecks.
- `Filters` and `Search`: the list comprehensions.
  - `search` of customers and products.
  - `get_items_by_order`. `OrderModel.get_order_items` only forwards to the
    owned item store, so it is `Search.ItemsByOrder` applied to
    `OrderStore.items.data`.
- `Keys` and `Sorting`: `sort_orders`.
  - Its three keys: the date parsed with "%Y-%m-%d %H:%M:%S", the amount, and
    the id.
  - The recursive three-way quicksort around the middle element.
  - The reversal for descending order.
- `Orders`: `OrderModel` as a class that owns the order store and the line-item
  store, with `create_order`.
- `Network`: the node labels, the products per customer, the weighted edges
  between customers who share products, and how `show_customer_network`
  ends: its two messages, the two errors it catches, or the graph.

Where a reader might expect otherwise, the model follows the code:

- Ids can be reused. Deleting the record with the largest id makes the next
  `add_item` hand out that id again (`Store.IdReusedAfterDelete`).
- The phone pattern requires the "+7" or "8" prefix; it is not optional.
- `OrderModel.validate` does not guard `float(total_amount)`. An unparsable
  amount raises ValueError out of `validate`, and out of `add_item`, instead of
  being reported as a broken rule (`Verdict.RaisesValueError`,
  `Reply.Raised`).
- The customer check of an order is `not order.get('customer_id')`: an id made
  only of spaces passes it.
- `delete_item` answers the save outcome, not simply true.
- A failed save does not roll back the appended record.
- Ascending sorting keeps equal keys in input order. Descending sorting is the
  ascending result reversed, so equal keys come out in reversed input order
  (`Sorting.SortOrdersTies`).
- Customer search looks at the middle name as well as the other four text
  fields.

## Model

| member | source | states |
|---|---|---|
| `Records.Record.WithId` | models.py:157 | giving a record an id changes its id to that id and leaves every other field as it was |
| `Store.MaxId` | models.py:139 | the largest id value is at least every record's id value and is the value of one of them |
| `Store.NextId` | models.py:128-140 | "1" for an empty store, otherwise the largest id plus one; the result is a numeral larger than, and so different from, every existing id |
| `Store.FirstWithId` | models.py:173-190 | found exactly when some record has the id; the record found has that id, is in the data, and no earlier record has the id |
| `Store.RemoveFirst` | models.py:206-213 | an absent id leaves the data as it was; a present id leaves one record fewer |
| `Store.Added` | models.py:142-160 | what `add_item` leaves keeps every id a numeral |
| `Store.AddedAccepted` | models.py:156-158 | adding an accepted record keeps every earlier record in place and puts exactly one record at the end: the item's fields under a numeral id that no earlier record carries |
| `Store.Store.constructor` | models.py:48-50 | a new store holds no records and satisfies the store invariant |
| `Store.Store.AddItem` | models.py:142-160 | an accepted record is appended under the next id and the answer is the save outcome, even when the save fails; a rejected record leaves the data unchanged and answers false; a ValueError from validation escapes with the data unchanged; the ids stay unique numerals of the store's kind |
| `Store.Store.FindById` | models.py:173-190 | the scan returns the first record carrying the id, or nothing |
| `Store.Store.DeleteItem` | models.py:192-215 | the first record carrying the id is removed and the answer is the save outcome; an absent id answers false and changes nothing; the invariant is kept |
| `Store.AppendPreservesInvariant` | models.py:156-158 | appending a record of the store's kind under the next id keeps ids unique numerals |
| `Store.RemovePreservesInvariant` | models.py:212-213 | removing any one record keeps the store invariant |
| `Store.AddThenFind` | models.py:156-158 | after an accepted add, looking up the new id finds the record just added |
| `Store.DeleteRemovesOnlyThat` | models.py:206-214 | after a delete the id finds nothing, every other id finds what it found before, and the other records keep their order |
| `Store.IdReusedAfterDelete` | models.py:137-140 | adding a record and deleting it again restores the data, and the next id is the deleted record's id again |
| `Text.TrimStart` | models.py:296 | the result is the suffix left after a run of leading whitespace and does not start with whitespace |
| `Text.TrimEnd` | models.py:296 | the result is the prefix left before a run of trailing whitespace and does not end with whitespace |
| `Text.BlankIffAllSpace` | models.py:296-299 | a field is blank after `strip()` exactly when it consists of whitespace only |
| `Text.ContainsIffOccurs` | models.py:340-344 | substring `in` holds exactly when the needle occurs at some position of the text |
| `Text.NatToString` | models.py:140 | `str(n)` is a non-empty run of digits |
| `Text.NatToStringRoundTrip` | models.py:139-140 | reading back `str(n)` gives `n` |
| `Text.ParseIntRoundTrip` | models.py:514 | `int(str(i)) == i` for every integer, negative ones included |
| `Text.PositiveDecimal` | models.py:393 | a parsed decimal is positive exactly when it has no minus sign and a non-zero digit |
| `Text.FormatCentsRoundTrip` | models.py:500 | `float()` of an amount formatted to two places reads back the same number of kopecks, sign included |
| `Text.CentsValue` | models.py:500 | the value read back from a formatted amount is the amount in roubles |
| `Validation.Trunk` | models.py:256 | the prefix is "+7" or "8" when the number starts with one of them, and empty only when it starts with neither |
| `Validation.ParsePhoneSound` | models.py:256 | what the phone parser accepts is well-formed pieces that spell the whole input |
| `Validation.ParsePhoneComplete` | models.py:256 | every number the pattern describes is accepted and parsed back into the same pieces |
| `Validation.IsPhoneIffMatches` | models.py:238-257 | `validate_phone` accepts exactly the strings the pattern describes |
| `Validation.ParseEmailSound` | models.py:273 | what the e-mail parser accepts is well-formed local part, domain and top-level domain spelling the whole input |
| `Validation.ParseEmailComplete` | models.py:273 | every address the pattern describes is accepted and parsed back into the same pieces |
| `Validation.IsEmailIffMatches` | models.py:259-274 | `validate_email` accepts exactly the strings the pattern describes |
| `Validation.RefusesWithoutAt` | models.py:273 | a string without `@` is never an address |
| `Validation.RequiredRule` | models.py:296-299 | a required field is reported, once, exactly when it is whitespace only |
| `Validation.PhoneRuleMeaning` | models.py:301-305 | the trimmed phone gives "required" exactly when empty, "format" exactly when present but not a phone number, and nothing otherwise |
| `Validation.EmailRuleMeaning` | models.py:307-309 | the trimmed e-mail is reported, once, exactly when present and not an address |
| `Validation.PriceRuleMeaning` | models.py:391-396 | a price is reported as not a number exactly when `float()` fails, as not positive exactly when it parses to zero or less, accepted exactly when positive, and reported at most once |
| `Validation.CustomerAccepted` | models.py:276-314 | a customer is accepted exactly when both names are non-blank, the trimmed phone is present and a phone number, and the trimmed e-mail is absent or an address; otherwise it is rejected with its list of broken rules and never raises |
| `Validation.CustomerReports` | models.py:294-314 | each of the five messages is in the customer's report exactly when its rule is broken, and the report has at most four entries |
| `Validation.ProductAccepted` | models.py:367-401 | a product is accepted exactly when name and unit are non-blank and the price parses to a positive number; otherwise it is rejected with its list and never raises |
| `Validation.ProductReports` | models.py:385-401 | blank name, blank unit, an unparsable price and a price that parses to zero or less are each reported exactly when they occur; a price is never reported both as not a number and as not positive |
| `Validation.OrderRules` | models.py:468-474 | an empty customer id alone is reported; otherwise an unparsable amount raises ValueError, an amount of zero or less is rejected with the not-positive message alone, and the order is accepted exactly when the amount is positive |
| `Validation.ItemRules` | models.py:620-627 | a line item is accepted exactly when price and total parse as numbers and quantity as an integer, otherwise rejected with the one message |
| `Validation.PhoneExamples` | models.py:254-257 | the three documented formats are accepted; "123", "abc", "" and "+799912345678" are refused |
| `Validation.EmailExamples` | models.py:259-274 | "test@example.com" and "user.name@domain.ru" are accepted; "invalid", "user@" and "@domain.com" are refused |
| `Filters.Filter` | models.py:338-345 | the result is no longer than the input and every record in it satisfies the condition |
| `Filters.FilterMembers` | models.py:341-345 | a record is in the result exactly when it is in the input and satisfies the condition |
| `Filters.FilterIsSubsequence` | models.py:341-345 | the result is the input with records deleted, the rest in their order |
| `Filters.FilterCount` | models.py:341-345 | each satisfying record occurs as often as in the input, others never |
| `Filters.FilterAppend` | models.py:341-345 | filtering a concatenation is concatenating the filtered parts |
| `Filters.FilterIdempotent` | models.py:341-345 | filtering twice by one condition is filtering once |
| `Search.CustomerSearch` | models.py:316-345 | a blank query returns all customers; the result is always an order-preserving subsequence of the data |
| `Search.ProductSearch` | models.py:403-425 | a blank query returns all products; the result is always an order-preserving subsequence of the data |
| `Search.ItemsByOrder` | models.py:629-643 | an order-preserving subsequence holding exactly the line items whose order id is the given one |
| `Search.CustomerMatchesMeaning` | models.py:340-344 | the customer condition holds exactly when the query occurs in one of the five lowercased text fields |
| `Search.ProductMatchesMeaning` | models.py:422-424 | the product condition holds exactly when the query occurs in the lowercased name or unit |
| `Search.CustomerSearchFinds` | models.py:334-345 | a non-blank query keeps exactly the customers with the query in a field, each as often as in the data |
| `Search.ProductSearchFinds` | models.py:417-425 | a non-blank query keeps exactly the products with the query in the name or unit, each as often as in the data |
| `Search.CustomerSearchIdempotent` | models.py:334-345 | searching a search result for the same text changes nothing |
| `Search.ProductSearchIdempotent` | models.py:417-425 | searching a search result for the same text changes nothing |
| `Search.CustomerSearchAppend` | models.py:334-345 | searching a concatenation is searching each part |
| `Search.ItemsOfUnknownOrder` | models.py:643 | an order no item refers to has no items |
| `Search.ItemsByOrderAppend` | models.py:643 | a new item is added to its own order's items and to no other order's |
| `Keys.SortKeyOf` | models.py:559-563 | "date" sorts by date, "amount" by amount, anything else by id |
| `Keys.ParseFormatDate` | models.py:496 | a valid date written with "%Y-%m-%d %H:%M:%S" parses back to itself |
| `Keys.FormatParseDate` | models.py:560 | every text the date parser accepts is a valid date written in that format |
| `Keys.DateNumberOrder` | models.py:560 | comparing dates as numbers is comparing them chronologically, and equal numbers are equal dates |
| `Keys.DateKeyOrder` | models.py:559-563 | under the date key, orders compare as their dates do chronologically |
| `Keys.CentsAmountKey` | models.py:561 | an order whose amount was written from a count of kopecks has that amount in roubles as its key |
| `Sorting.Reverse` | models.py:576-577 | the reversal has the same length and puts the i-th record from the end at position i |
| `Sorting.ReverseKeepsMultiset` | models.py:576-577 | the reversal holds the same records |
| `Sorting.PartitionMultiset` | models.py:568-571 | `left`, `middle` and `right` together hold every record exactly once |
| `Sorting.QuickSort` | models.py:565-572 | the result is a permutation of the input in non-decreasing key order |
| `Sorting.QuickSortMembers` | models.py:565-572 | a record is in the sorted result exactly when it is in the input |
| `Sorting.QuickSortStable` | models.py:565-572 | the records sharing any one key come out in their input order |
| `Sorting.ReverseDescending` | models.py:576-577 | reversing an ascending list gives a descending one |
| `Sorting.SortOrders` | models.py:539-579 | it fails with ValueError exactly when two or more orders are sorted and some key does not compute; otherwise it returns a permutation of the orders, ascending or descending as asked |
| `Sorting.DescendingIsReverse` | models.py:574-579 | the descending result is exactly the ascending result reversed |
| `Sorting.SortOrdersTies` | models.py:565-579 | records with equal keys keep their input order ascending and come out in reversed input order descending |
| `Sorting.SortThree` | models.py:539-579 | three orders with distinct keys sort to the one ascending order, and descending to its reverse |
| `Sorting.SortByAmountExample` | models.py:539-579 | orders of 300.00, 100.00 and 200.00 sorted by amount come out 2, 3, 1 ascending and 1, 3, 2 descending |
| `Orders.NewOrderVerdict` | models.py:498-505 | a new order is rejected for an empty customer id, else for a non-positive amount, and otherwise accepted; it never raises |
| `Orders.LineRecordAccepted` | models.py:511-518 | every line item `create_order` writes passes the line-item rule |
| `Orders.NewOrderDateKey` | models.py:496 | a new order's date key is the clock reading it was stamped with |
| `Orders.NewOrderAmountKey` | models.py:500 | a new order's amount key is its amount in roubles |
| `Orders.AddLinesStep` | models.py:511-519 | each further line appends one accepted item under the next id |
| `Orders.AddLinesKeepsInvariant` | models.py:511-519 | adding the lines keeps the item store's ids unique numerals of one kind |
| `Orders.AddLinesAppends` | models.py:511-519 | adding the lines appends one item per line, in line order, each carrying the line's fields, and leaves the earlier items alone |
| `Orders.AddLinesItems` | models.py:511-519 | the order's items afterwards are its earlier items followed by every item just added |
| `Orders.FreshItemsAllOfOrder` | models.py:511-519 | on an empty item store every item the lines add belongs to the order |
| `Orders.TwoLines` | models.py:511-519 | two lines on an empty item store become items "1" and "2" of the order, in line order |
| `Orders.CreateOrderExample` | models.py:476-521 | on empty stores, an order of 500.00 for customer "7" with two lines gets id "1" and amount "500.00", and both items carry order id "1" |
| `Orders.OrderStore.constructor` | models.py:445-447 | a new order store owns two fresh, distinct, empty stores |
| `Orders.OrderStore.AddLineItems` | models.py:511-519 | the item store afterwards is what adding each line in turn leaves, whatever the individual answers |
| `Orders.OrderStore.CreateOrder` | models.py:476-521 | an empty customer id or a non-positive amount answers false and changes nothing; otherwise the order is appended under the next id with its amount at two places, and its date and amount sort keys are the clock reading and the amount in roubles; the answer is the order's save outcome, and only a successful save adds the lines, whose outcomes are ignored |
| `Network.CustomerIndex` | analysis.py:178 | the index holds exactly the customers' ids, each mapped to a customer carrying it |
| `Network.CustomerIndexLast` | analysis.py:178 | a later customer with the same id replaces an earlier one |
| `Network.Label` | analysis.py:181-183 | "Last F." or "Last F.M." when the middle name is not blank, piece by piece; no label for an empty first name |
| `Network.NodeLabels` | analysis.py:179-184 | one label per indexed customer, or none when some customer has an empty first name |
| `Network.CustomerLabels` | analysis.py:178-184 | the labels fail exactly when some indexed customer has an empty first name; otherwise there is one label per customer id |
| `Network.Buyers` | analysis.py:187-191 | the customer ids of the orders, each present exactly when some order carries it |
| `Network.BuyersDistinct` | analysis.py:199 | the buyers, being dictionary keys, hold no id twice |
| `Network.BoughtMeaning` | analysis.py:187-196 | a product is in a customer's set exactly when a line item of it belongs to one of that customer's orders |
| `Network.BoughtNothing` | analysis.py:189-191 | someone with no orders has an empty set |
| `Network.AddProducts` | analysis.py:194-196 | the inner loop adds the products of the order's items to the one customer's set and changes no other set |
| `Network.CustomerProducts` | analysis.py:187-196 | the loop's keys are the buyers in insertion order and each customer's set is everything they bought |
| `Network.LinkRowFrom` | analysis.py:201-206 | the inner loop settles every pair of row `i` and keeps the earlier rows settled |
| `Network.CommonProductEdges` | analysis.py:199-206 | every pair `i < j` sharing products has an edge weighing the size of the intersection, other pairs have none, and every edge is such a pair |
| `Network.EdgesMeaning` | analysis.py:199-212 | the computed edges link exactly the buyers with products in common, and there are edges exactly when two customers are connected |
| `Network.EdgesIffConnected` | analysis.py:209-212 | the edge map is empty exactly when no two buyers share a product |
| `Network.EdgeWeights` | analysis.py:199-206 | every edge joins two different customers and weighs at least one and at most what either of them bought |
| `Network.StoredLabels` | analysis.py:178-184 | with unique customer ids, each node is labelled from that customer's own record |
| `Network.BuyerEdges` | analysis.py:186-206 | the edges built from the products per customer are exactly the common-product edges, and there are some exactly when two customers are connected |
| `Network.StrangerEdge` | analysis.py:206-222 | some edge has an end that is not a customer id exactly when two buyers share a product and one of them is not among the customers |
| `Network.CustomerNetwork` | analysis.py:164-257 | each outcome exactly when its condition holds. "Insufficient data" when a store is empty. Otherwise the caught IndexError when a customer has an empty first name. Otherwise "no connections" when no two buyers share a product. Otherwise the caught KeyError when a linked buyer is not a customer. Otherwise the graph, holding every customer's label and exactly the common-product edges, with every edge end labelled |

## Left out

- Reading and writing the CSV files (`load_data`, `save_data`) is not modelled. The outcome of a save is a `saved` parameter, and a store starts empty.
- `datetime.now()` is the `now` parameter of `Orders.OrderStore.CreateOrder`, which requires it to be a valid date, as a clock reading always is.
- Amounts handed to `create_order` are whole kopecks, and `f"{x:.2f}"` is `Text.FormatCents` on them. Binary floating point and its rounding are not modelled.
- `float()` accepts plain decimal notation only: no exponent, no underscores, no "inf" or "nan". `int()` takes no underscores.
- Whitespace, `\s` and `\d` are ASCII only. `lower()` lowers only the ASCII capitals, А-Я and Ё; other capitals (Latin-1, Greek, the rest of Ѐ-Џ) are left as they are. The regex `$` matching before a final newline is not modelled.
- `datetime.strptime` is modelled on zero-padded fields and exactly one space between date and time. It also accepts non-padded fields and any run of whitespace for that space; the model does not.
- The `messagebox` dialogs are not modelled. Their messages are the `Violation` values in a rejected verdict.
- `create_order` receives `quantity` as a Python int, and the model takes that as given.
- Key values are real numbers. A date key is the number YYYYMMDDhhmmss, which orders dates as `datetime` does (`Keys.DateNumberOrder`).
- Records read from files are taken to have numeral ids. `NextId` requires it, since `int(item['id'])` would otherwise raise.
- Python aliasing is not modelled. `get_all` returns the list itself, while `search` with a blank query returns a copy; in the model both are values. `add_item` also writes the new id into the caller's own dictionary, which the caller then sees; in the model the record is a value, and only the stored copy gets the id.
- Every record carries every field; a dictionary with a missing key is not modelled. For a missing key the program uses "" for text fields but the number 0 for `price`, `total_amount`, `total` and `quantity`. So a product without a price would be reported as not positive, an order without an amount rejected as not positive, and an item without a quantity accepted. The model has no such records.
- `Store.Added`: states only that ids stay numerals; what it appends for an accepted record is stated by `Store.AddedAccepted`, and all three verdicts by `Store.Store.AddItem`.
- `Store.RemoveFirst`: states only the length change; which record goes is stated by `Store.DeleteRemovesOnlyThat` and `Store.Store.DeleteItem`.
- Drawing the graph (analysis.py:214-252) is not modelled beyond the label lookup at analysis.py:222. Any other error raised while drawing is not modelled either. `show_top_customers` and `show_orders_dynamics` are not modelled.
- The Tkinter interface (gui.py) and the CSV/JSON import and export (db.py) are not part of this model.
