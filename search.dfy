/**
 * The read-only queries of the stores: case-insensitive substring search
 * over customers and products, and the line items of one order.
 */
module Search {
  import opened Text
  import opened Records
  import opened Filters

  /** `search_text.lower().strip()` */
  function Query(text: string): string {
    Trim(Lower(text))
  }

  /** `field.lower()` holds `q` somewhere, stated by position rather than by the scan. */
  ghost predicate Mentions(field: string, q: string) {
    exists i :: OccursAt(Lower(field), q, i)
  }

  /** The customers a non-blank query finds: the query occurs in one of the five text fields. */
  ghost predicate CustomerHit(r: Record, q: string) {
    r.Customer? &&
    (Mentions(r.lastName, q) || Mentions(r.firstName, q) || Mentions(r.middleName, q)
     || Mentions(r.phone, q) || Mentions(r.email, q))
  }

  /** The products a non-blank query finds: the query occurs in the name or the unit. */
  ghost predicate ProductHit(r: Record, q: string) {
    r.Product? && (Mentions(r.name, q) || Mentions(r.unit, q))
  }

  /** CustomerModel.search */
  function CustomerSearch(data: seq<Record>, text: string): (r: seq<Record>)
    ensures Query(text) == [] ==> r == data
    ensures IsSubsequence(r, data)
  {
    var q := Query(text);
    if q == [] then IsSubsequenceRefl(data); data
    else
      FilterIsSubsequence(data, CustomerQuery(q));
      Filter(data, CustomerQuery(q))
  }

  /** ProductModel.search */
  function ProductSearch(data: seq<Record>, text: string): (r: seq<Record>)
    ensures Query(text) == [] ==> r == data
    ensures IsSubsequence(r, data)
  {
    var q := Query(text);
    if q == [] then IsSubsequenceRefl(data); data
    else
      FilterIsSubsequence(data, ProductQuery(q));
      Filter(data, ProductQuery(q))
  }

  /** OrderItemsModel.get_items_by_order */
  function ItemsByOrder(data: seq<Record>, orderId: string): (r: seq<Record>)
    ensures IsSubsequence(r, data)
    ensures forall x :: x in r <==> x in data && x.OrderItem? && x.orderId == orderId
  {
    FilterIsSubsequence(data, OfOrder(orderId));
    FilterMembers(data, OfOrder(orderId));
    Filter(data, OfOrder(orderId))
  }

  lemma IsSubsequenceRefl(s: seq<Record>)
    ensures IsSubsequence(s, s)
  {
    if s != [] {
      IsSubsequenceRefl(s[1..]);
    }
  }

  lemma CustomerMatchesMeaning(r: Record, q: string)
    ensures CustomerMatches(q, r) <==> CustomerHit(r, q)
  {
    if r.Customer? {
      ContainsIffOccurs(Lower(r.lastName), q);
      ContainsIffOccurs(Lower(r.firstName), q);
      ContainsIffOccurs(Lower(r.middleName), q);
      ContainsIffOccurs(Lower(r.phone), q);
      ContainsIffOccurs(Lower(r.email), q);
    }
  }

  lemma ProductMatchesMeaning(r: Record, q: string)
    ensures ProductMatches(q, r) <==> ProductHit(r, q)
  {
    if r.Product? {
      ContainsIffOccurs(Lower(r.name), q);
      ContainsIffOccurs(Lower(r.unit), q);
    }
  }

  /**
   * A non-blank query keeps exactly the customers with the query in a field,
   * each as often as it occurs in `data`, in their original order.
   */
  lemma CustomerSearchFinds(data: seq<Record>, text: string, x: Record)
    requires Query(text) != []
    ensures x in CustomerSearch(data, text) <==> x in data && CustomerHit(x, Query(text))
    ensures multiset(CustomerSearch(data, text))[x] == if CustomerHit(x, Query(text)) then multiset(data)[x] else 0
  {
    CustomerMatchesMeaning(x, Query(text));
    FilterCount(data, CustomerQuery(Query(text)), x);
  }

  /**
   * A non-blank query keeps exactly the products with the query in the name
   * or unit, each as often as it occurs in `data`, in their original order.
   */
  lemma ProductSearchFinds(data: seq<Record>, text: string, x: Record)
    requires Query(text) != []
    ensures x in ProductSearch(data, text) <==> x in data && ProductHit(x, Query(text))
    ensures multiset(ProductSearch(data, text))[x] == if ProductHit(x, Query(text)) then multiset(data)[x] else 0
  {
    ProductMatchesMeaning(x, Query(text));
    FilterCount(data, ProductQuery(Query(text)), x);
  }

  /** Searching the result of a search for the same text finds nothing new. */
  lemma CustomerSearchIdempotent(data: seq<Record>, text: string)
    ensures CustomerSearch(CustomerSearch(data, text), text) == CustomerSearch(data, text)
  {
    if Query(text) != [] {
      FilterIdempotent(data, CustomerQuery(Query(text)));
    }
  }

  lemma ProductSearchIdempotent(data: seq<Record>, text: string)
    ensures ProductSearch(ProductSearch(data, text), text) == ProductSearch(data, text)
  {
    if Query(text) != [] {
      FilterIdempotent(data, ProductQuery(Query(text)));
    }
  }

  /** Searching a concatenation is searching each part. */
  lemma CustomerSearchAppend(a: seq<Record>, b: seq<Record>, text: string)
    ensures CustomerSearch(a + b, text) == CustomerSearch(a, text) + CustomerSearch(b, text)
  {
    if Query(text) != [] {
      FilterAppend(a, b, CustomerQuery(Query(text)));
    }
  }

  /** An order nobody's items refer to has no items. */
  lemma ItemsOfUnknownOrder(data: seq<Record>, orderId: string)
    requires forall i :: 0 <= i < |data| ==> !(data[i].OrderItem? && data[i].orderId == orderId)
    ensures ItemsByOrder(data, orderId) == []
  {
    FilterNone(data, OfOrder(orderId));
  }

  /** Adding a record to the items adds it to its order's items and to no other order's. */
  lemma ItemsByOrderAppend(data: seq<Record>, item: Record, orderId: string)
    ensures ItemsByOrder(data + [item], orderId) ==
      ItemsByOrder(data, orderId) + (if item.OrderItem? && item.orderId == orderId then [item] else [])
  {
    FilterAppend(data, [item], OfOrder(orderId));
  }
}
