/**
 * The data half of the customer network (`DataAnalyzer.show_customer_network`):
 * customers are nodes labelled "Last F.M.", and two customers are linked when
 * their orders share a product, the link weighing as many products as they
 * share. Drawing the graph is not modelled; the graph is a map of node labels
 * and a map from customer-id pairs to weights.
 */
module Network {
  import opened Wrappers
  import opened Text
  import opened Records
  import opened Store
  import opened Search

  /**
   * What the analysis ends with: one of its two messages, one of the two
   * errors it catches and shows, or the graph it draws.
   * `LabelFailed` is the IndexError of a customer without a first name;
   * `UnlabelledNode` is the KeyError of looking up the label of a node that
   * an edge created for a buyer who is not among the customers.
   */
  datatype Outcome =
    | InsufficientData
    | LabelFailed
    | UnlabelledNode
    | NoConnections
    | Graph(labels: map<string, string>, edges: map<(string, string), nat>)

  // ---------------------------------------------------------------- nodes

  /** No record after the `k`-th carries its id. */
  predicate LastWithId(customers: seq<Record>, k: nat)
    requires k < |customers|
  {
    forall l :: k < l < |customers| ==> customers[l].id != customers[k].id
  }

  /** `{c['id']: c for c in customers}`: one entry per id among the customers. */
  function CustomerIndex(customers: seq<Record>): (m: map<string, Record>)
    ensures forall id :: id in m <==> exists k :: 0 <= k < |customers| && customers[k].id == id
    ensures forall id :: id in m ==> m[id] in customers && m[id].id == id
    decreases |customers|
  {
    if customers == [] then map[]
    else
      var last := customers[|customers| - 1];
      var m := CustomerIndex(customers[..|customers| - 1]);
      assert forall k :: 0 <= k < |customers| - 1 ==> customers[..|customers| - 1][k] == customers[k];
      m[last.id := last]
  }

  /** A later record with the same id replaces an earlier one: each id maps to the last record carrying it. */
  lemma {:induction false} CustomerIndexLast(customers: seq<Record>, k: nat)
    requires k < |customers| && LastWithId(customers, k)
    ensures CustomerIndex(customers)[customers[k].id] == customers[k]
    decreases |customers|
  {
    var init := customers[..|customers| - 1];
    if k < |customers| - 1 {
      assert init[k] == customers[k];
      CustomerIndexLast(init, k);
    }
  }

  /**
   * A node's label, "Last F." or "Last F.M." when the middle name is not
   * blank. An empty first name has no initial: taking it raises, and the
   * analysis reports that error instead of a graph.
   */
  function Label(c: Record): (r: Option<string>)
    requires c.Customer?
    ensures r.None? <==> c.firstName == []
    ensures r.Some? ==> var n := |c.lastName|;
      && |r.value| == n + (if IsBlank(c.middleName) then 3 else 5)
      && r.value[..n] == c.lastName
      && r.value[n..n + 3] == [' ', c.firstName[0], '.']
      && r.value[n + 3..] == if IsBlank(c.middleName) then [] else [c.middleName[0], '.']
  {
    if c.firstName == [] then None
    else
      var name := c.lastName + " " + [c.firstName[0]] + ".";
      assert name[..|c.lastName|] == c.lastName && name[|c.lastName|..] == [' ', c.firstName[0], '.'];
      if c.middleName != [] && !IsBlank(c.middleName) then
        var full := name + [c.middleName[0]] + ".";
        assert full[..|name|] == name && full[|name|..] == [c.middleName[0], '.'];
        Some(full)
      else
        assert IsBlank(c.middleName) by {
          if c.middleName == [] { BlankIffAllSpace(c.middleName); }
        }
        Some(name)
  }

  /** A customer without a first name, whose label cannot be made. */
  predicate Unnamed(c: Record) {
    c.Customer? && c.firstName == []
  }

  /** The label of every customer in the index, or nothing when one of them has no first name. */
  function NodeLabels(index: map<string, Record>): (r: Option<map<string, string>>)
    requires forall id :: id in index ==> index[id].Customer?
    ensures r.None? <==> exists id :: id in index && index[id].firstName == []
    ensures r.Some? ==> r.value.Keys == index.Keys && forall id :: id in index ==> Label(index[id]) == Some(r.value[id])
  {
    if exists id :: id in index && index[id].firstName == [] then None
    else Some(map id | id in index :: Label(index[id]).value)
  }

  /** The index of a list of customers holds only customers. */
  lemma {:induction false} CustomerIndexOfKind(customers: seq<Record>)
    requires OfKind(customers, Customers)
    ensures forall id :: id in CustomerIndex(customers) ==> CustomerIndex(customers)[id].Customer?
  {
    var m := CustomerIndex(customers);
    forall id | id in m
      ensures m[id].Customer?
    {
      var k :| 0 <= k < |customers| && customers[k] == m[id];
      assert customers[k].KindOf() == Customers;
    }
  }

  /** The labels of the customers' nodes, or nothing when one of them cannot be labelled. */
  function CustomerLabels(customers: seq<Record>): (r: Option<map<string, string>>)
    requires OfKind(customers, Customers)
    ensures r.None? ==> exists id :: id in CustomerIndex(customers) && Unnamed(CustomerIndex(customers)[id])
    ensures (exists id :: id in CustomerIndex(customers) && Unnamed(CustomerIndex(customers)[id])) ==> r.None?
    ensures r.Some? ==> r.value.Keys == CustomerIndex(customers).Keys
  {
    CustomerIndexOfKind(customers);
    NodeLabels(CustomerIndex(customers))
  }

  // ---------------------------------------------------------------- products per customer

  /** The customer ids of the orders, each once, in the order they first appear. */
  function Buyers(orders: seq<Record>): (r: seq<string>)
    requires OfKind(orders, Orders)
    ensures forall c :: c in r <==> exists i :: 0 <= i < |orders| && orders[i].customerId == c
    decreases |orders|
  {
    if orders == [] then []
    else
      var init := orders[..|orders| - 1];
      var c := orders[|orders| - 1].customerId;
      assert forall i :: 0 <= i < |init| ==> init[i] == orders[i];
      var b := Buyers(init);
      if c in b then b else b + [c]
  }

  predicate Distinct(s: seq<string>) {
    forall i, j :: 0 <= i < j < |s| ==> s[i] != s[j]
  }

  /** Each customer id is among the buyers once: they are the keys of a dictionary. */
  lemma {:induction false} BuyersDistinct(orders: seq<Record>)
    requires OfKind(orders, Orders)
    ensures Distinct(Buyers(orders))
    decreases |orders|
  {
    if orders != [] {
      var init := orders[..|orders| - 1];
      BuyersDistinct(init);
      var b := Buyers(init);
      var c := orders[|orders| - 1].customerId;
      if c !in b {
        assert forall k :: 0 <= k < |b| ==> b[k] != c;
      }
    }
  }

  /** One more order adds its customer to the buyers, if new, and its products to what that customer bought. */
  lemma OrdersStep(orders: seq<Record>, items: seq<Record>, i: nat)
    requires OfKind(orders, Orders) && i < |orders|
    ensures OfKind(orders[..i], Orders) && OfKind(orders[..i + 1], Orders)
    ensures var c, before := orders[i].customerId, Buyers(orders[..i]);
      Buyers(orders[..i + 1]) == if c in before then before else before + [c]
    ensures forall d :: Bought(orders[..i + 1], items, d) == Bought(orders[..i], items, d) + FromOrder(orders[i], items, d)
  {
    assert orders[..i + 1][..i] == orders[..i];
    assert orders[..i + 1][i] == orders[i];
  }

  /** The product ids of some line items. */
  function ProductIds(s: seq<Record>): set<string> {
    set x | x in s && x.OrderItem? :: x.productId
  }

  /** The products on the line items of the order with id `orderId`. */
  function OrderProducts(items: seq<Record>, orderId: string): set<string> {
    ProductIds(ItemsByOrder(items, orderId))
  }

  /** The products customer `c` ordered, over all of their orders. */
  function Bought(orders: seq<Record>, items: seq<Record>, c: string): set<string>
    requires OfKind(orders, Orders)
    decreases |orders|
  {
    if orders == [] then {}
    else
      var o := orders[|orders| - 1];
      Bought(orders[..|orders| - 1], items, c) + FromOrder(o, items, c)
  }

  /** What order `o` adds to the products customer `c` bought. */
  function FromOrder(o: Record, items: seq<Record>, c: string): set<string>
    requires o.Order?
  {
    if o.customerId == c then OrderProducts(items, o.id) else {}
  }

  /** A product is bought by `c` exactly when a line item of it belongs to one of `c`'s orders. */
  lemma {:induction false} BoughtMeaning(orders: seq<Record>, items: seq<Record>, c: string, p: string)
    requires OfKind(orders, Orders)
    ensures p in Bought(orders, items, c) <==>
      exists i, x :: 0 <= i < |orders| && x in items && orders[i].customerId == c
        && x.OrderItem? && x.orderId == orders[i].id && x.productId == p
    decreases |orders|
  {
    if orders != [] {
      var init := orders[..|orders| - 1];
      var o := orders[|orders| - 1];
      BoughtMeaning(init, items, c, p);
      assert forall i :: 0 <= i < |init| ==> init[i] == orders[i];
      if p in Bought(orders, items, c) && p !in Bought(init, items, c) {
        var x :| x in ItemsByOrder(items, o.id) && x.OrderItem? && x.productId == p;
        assert orders[|orders| - 1] == o;
      }
      if p !in Bought(orders, items, c) {
        forall i, x | 0 <= i < |orders| && x in items && orders[i].customerId == c && x.OrderItem? && x.orderId == orders[i].id
          ensures x.productId != p
        {
          if i == |orders| - 1 {
            assert x in ItemsByOrder(items, o.id);
          }
        }
      }
    }
  }

  /** Someone with no orders has bought nothing. */
  lemma {:induction false} BoughtNothing(orders: seq<Record>, items: seq<Record>, c: string)
    requires OfKind(orders, Orders) && c !in Buyers(orders)
    ensures Bought(orders, items, c) == {}
    decreases |orders|
  {
    if orders != [] {
      var init := orders[..|orders| - 1];
      assert forall i :: 0 <= i < |init| ==> init[i] == orders[i];
      assert orders[|orders| - 1].customerId != c;
      BoughtNothing(init, items, c);
    }
  }

  /**
   * The loop building `customer_products`: each order's customer gets a set
   * (its key added on first sight), and every line item of the order adds its
   * product to it. Returns the keys in insertion order and the map.
   */
  method CustomerProducts(orders: seq<Record>, items: seq<Record>) returns (ids: seq<string>, products: map<string, set<string>>)
    requires OfKind(orders, Orders)
    ensures ids == Buyers(orders)
    ensures products.Keys == set c | c in ids
    ensures forall c :: c in products ==> products[c] == Bought(orders, items, c)
  {
    ids, products := [], map[];
    var i := 0;
    while i < |orders|
      invariant 0 <= i <= |orders|
      invariant ProductsUpTo(orders, items, i, ids, products)
    {
      var order := orders[i];
      var c := order.customerId;
      ProductsStep(orders, items, i, ids, products);
      if c !in products {
        ids, products := ids + [c], products[c := {}];
      }
      products := AddProducts(products, c, ItemsByOrder(items, order.id));
      i := i + 1;
    }
    assert orders[..i] == orders;
  }

  /** The loop's state after the first `i` orders: their buyers, and what each of them bought in those orders. */
  ghost predicate ProductsUpTo(orders: seq<Record>, items: seq<Record>, i: nat, ids: seq<string>, products: map<string, set<string>>)
    requires OfKind(orders, Orders) && i <= |orders|
  {
    && OfKind(orders[..i], Orders)
    && ids == Buyers(orders[..i])
    && products.Keys == (set c | c in ids)
    && forall c :: c in products ==> products[c] == Bought(orders[..i], items, c)
  }

  /** Handling order `i`: its customer gets a set on first sight, and the set grows by the order's products. */
  lemma ProductsStep(orders: seq<Record>, items: seq<Record>, i: nat, ids: seq<string>, products: map<string, set<string>>)
    requires OfKind(orders, Orders) && i < |orders| && ProductsUpTo(orders, items, i, ids, products)
    ensures var c := orders[i].customerId;
      var ids' := if c in products then ids else ids + [c];
      var start := if c in products then products else products[c := {}];
      ProductsUpTo(orders, items, i + 1, ids', start[c := start[c] + OrderProducts(items, orders[i].id)])
  {
    var o := orders[i];
    var c := o.customerId;
    OrdersStep(orders, items, i);
    KeysStep(ids, products, c, OrderProducts(items, o.id));
    if c !in products {
      BoughtNothing(orders[..i], items, c);
    }
    ValuesStep(orders, items, i, products);
  }

  /** Giving a customer a set on first sight keeps the keys those of the customer list. */
  lemma KeysStep(ids: seq<string>, products: map<string, set<string>>, c: string, more: set<string>)
    requires products.Keys == (set d | d in ids)
    ensures var ids' := if c in products then ids else ids + [c];
      var start := if c in products then products else products[c := {}];
      start[c := start[c] + more].Keys == (set d | d in ids')
  {
  }

  /** Adding order `i`'s products to its customer's set keeps each set what that customer bought. */
  lemma ValuesStep(orders: seq<Record>, items: seq<Record>, i: nat, products: map<string, set<string>>)
    requires OfKind(orders, Orders) && i < |orders| && OfKind(orders[..i], Orders) && OfKind(orders[..i + 1], Orders)
    requires forall d :: d in products ==> products[d] == Bought(orders[..i], items, d)
    requires orders[i].customerId !in products ==> Bought(orders[..i], items, orders[i].customerId) == {}
    requires forall d :: Bought(orders[..i + 1], items, d) == Bought(orders[..i], items, d) + FromOrder(orders[i], items, d)
    ensures var c := orders[i].customerId;
      var start := if c in products then products else products[c := {}];
      var next := start[c := start[c] + OrderProducts(items, orders[i].id)];
      forall d :: d in next ==> next[d] == Bought(orders[..i + 1], items, d)
  {
    var o := orders[i];
    var c := o.customerId;
    var start := if c in products then products else products[c := {}];
    var next := start[c := start[c] + OrderProducts(items, o.id)];
    forall d | d in next
      ensures next[d] == Bought(orders[..i + 1], items, d)
    {
      if d != c {
        assert FromOrder(o, items, d) == {};
      } else {
        assert FromOrder(o, items, d) == OrderProducts(items, o.id);
      }
    }
  }

  /** Adding one more line item adds its product. */
  lemma ProductIdsStep(s: seq<Record>, j: nat)
    requires j < |s| && s[j].OrderItem?
    ensures ProductIds(s[..j + 1]) == ProductIds(s[..j]) + {s[j].productId}
  {
    assert s[..j + 1] == s[..j] + [s[j]];
  }

  /** The inner loop of `customer_products`: add the product of every line item of one order to customer `c`'s set. */
  method AddProducts(products: map<string, set<string>>, c: string, its: seq<Record>) returns (r: map<string, set<string>>)
    requires c in products && forall x :: x in its ==> x.OrderItem?
    ensures r == products[c := products[c] + ProductIds(its)]
  {
    r := products;
    var j := 0;
    assert ProductIds(its[..0]) == {};
    while j < |its|
      invariant 0 <= j <= |its|
      invariant r.Keys == products.Keys && forall d :: d in r && d != c ==> r[d] == products[d]
      invariant r[c] == products[c] + ProductIds(its[..j])
    {
      ProductIdsStep(its, j);
      r := r[c := r[c] + {its[j].productId}];
      j := j + 1;
    }
    assert its[..j] == its;
    assert r == products[c := products[c] + ProductIds(its)];
  }

  // ---------------------------------------------------------------- edges

  /** The products customers `a` and `b` have in common. */
  function Common(products: map<string, set<string>>, a: string, b: string): set<string>
    requires a in products && b in products
  {
    products[a] * products[b]
  }

  /** The pair of the `a`-th and `b`-th customers is linked exactly when they share products, weighing how many. */
  predicate Settled(ids: seq<string>, products: map<string, set<string>>, edges: map<(string, string), nat>, a: nat, b: nat)
    requires a < |ids| && b < |ids| && ids[a] in products && ids[b] in products
  {
    && ((ids[a], ids[b]) in edges <==> Common(products, ids[a], ids[b]) != {})
    && ((ids[a], ids[b]) in edges ==> edges[(ids[a], ids[b])] == |Common(products, ids[a], ids[b])|)
  }

  /** Pair `(a, b)` comes before pair `(i, j)` in the loops' order. */
  predicate Before(a: nat, b: nat, i: nat, j: nat) {
    a < i || (a == i && b < j)
  }

  /** The id pairs of the index pairs `a < b` the loops visit before `(i, j)`, row by row. */
  function Visited(ids: seq<string>, i: nat, j: nat): set<(string, string)>
    requires i < j <= |ids| + 1
    decreases i, j
  {
    if j > i + 1 then
      Visited(ids, i, j - 1) + if j - 1 < |ids| then {(ids[i], ids[j - 1])} else {}
    else if i == 0 then {}
    else Visited(ids, i - 1, |ids|)
  }

  /** Every visited pair is the pair of an earlier and a later customer. */
  lemma {:induction false} VisitedPairs(ids: seq<string>, i: nat, j: nat, e: (string, string))
    requires i < j <= |ids| + 1 && e in Visited(ids, i, j)
    ensures exists a, b :: 0 <= a < b < |ids| && e == (ids[a], ids[b])
    decreases i, j
  {
    if j > i + 1 {
      if e !in Visited(ids, i, j - 1) {
        assert e == (ids[i], ids[j - 1]);
      } else {
        VisitedPairs(ids, i, j - 1, e);
      }
    } else {
      VisitedPairs(ids, i - 1, |ids|, e);
    }
  }

  /** The edges hold exactly the linked pairs before `(i, j)`. */
  predicate Linked(ids: seq<string>, products: map<string, set<string>>, edges: map<(string, string), nat>, i: nat, j: nat)
    requires forall c :: c in ids ==> c in products
    requires i < j <= |ids| + 1
  {
    && (forall a, b {:trigger Before(a, b, i, j)} :: 0 <= a < b < |ids| && Before(a, b, i, j) ==> Settled(ids, products, edges, a, b))
    && Sound(products, edges)
    && edges.Keys <= Visited(ids, i, j)
  }

  /** Every edge joins two customers with products in common and weighs how many. */
  predicate Sound(products: map<string, set<string>>, edges: map<(string, string), nat>) {
    forall e :: e in edges ==>
      && e.0 in products && e.1 in products
      && products[e.0] * products[e.1] != {}
      && edges[e] == |products[e.0] * products[e.1]|
  }

  /** Settling pair `(i, j)` keeps the loops' invariant, now up to the pair after it. */
  lemma LinkStep(ids: seq<string>, products: map<string, set<string>>, prev: map<(string, string), nat>,
                 edges: map<(string, string), nat>, i: nat, j: nat)
    requires forall c :: c in ids ==> c in products
    requires i < j < |ids| && Linked(ids, products, prev, i, j)
    requires var common := products[ids[i]] * products[ids[j]];
      edges == if common != {} then prev[(ids[i], ids[j]) := |common|] else prev
    ensures Linked(ids, products, edges, i, j + 1)
  {
    var key := (ids[i], ids[j]);
    forall a, b | 0 <= a < b < |ids| && Before(a, b, i, j + 1)
      ensures Settled(ids, products, edges, a, b)
    {
      if (ids[a], ids[b]) != key {
        assert Before(a, b, i, j);
        assert Settled(ids, products, prev, a, b);
      }
    }
    assert Visited(ids, i, j + 1) == Visited(ids, i, j) + {key};
  }

  /** Finishing row `i` is starting row `i + 1`: no pair lies between `(i, |ids|)` and `(i + 1, i + 2)`. */
  lemma LinkRow(ids: seq<string>, products: map<string, set<string>>, edges: map<(string, string), nat>, i: nat)
    requires forall c :: c in ids ==> c in products
    requires i < |ids|
    requires Linked(ids, products, edges, i, |ids|)
    ensures Linked(ids, products, edges, i + 1, i + 2)
  {
    forall a, b | 0 <= a < b < |ids| && Before(a, b, i + 1, i + 2)
      ensures Settled(ids, products, edges, a, b)
    {
      assert Before(a, b, i, |ids|);
    }
  }

  /** No pair has been settled yet. */
  lemma LinkStart(ids: seq<string>, products: map<string, set<string>>)
    requires forall c :: c in ids ==> c in products
    ensures Linked(ids, products, map[], 0, 1)
  {
  }

  /** Past the last row every pair is settled, and nothing else is in the edges. */
  lemma LinkDone(ids: seq<string>, products: map<string, set<string>>, edges: map<(string, string), nat>)
    requires forall c :: c in ids ==> c in products
    requires Linked(ids, products, edges, |ids|, |ids| + 1)
    ensures forall a, b {:trigger Settled(ids, products, edges, a, b)} :: 0 <= a < b < |ids| ==> Settled(ids, products, edges, a, b)
    ensures forall e :: e in edges ==> exists a, b :: 0 <= a < b < |ids| && e == (ids[a], ids[b])
  {
    forall a, b | 0 <= a < b < |ids|
      ensures Settled(ids, products, edges, a, b)
    {
      assert Before(a, b, |ids|, |ids| + 1);
    }
    forall e | e in edges
      ensures exists a, b :: 0 <= a < b < |ids| && e == (ids[a], ids[b])
    {
      VisitedPairs(ids, |ids|, |ids| + 1, e);
    }
  }

  /** The inner loop of the pairing, for row `i`: pair customer `i` with every later one. */
  method LinkRowFrom(ids: seq<string>, products: map<string, set<string>>, edges: map<(string, string), nat>, i: nat)
    returns (next: map<(string, string), nat>)
    requires forall c :: c in ids ==> c in products
    requires i < |ids| && Linked(ids, products, edges, i, i + 1)
    ensures Linked(ids, products, next, i + 1, i + 2)
  {
    next := edges;
    var j := i + 1;
    while j < |ids|
      invariant i + 1 <= j <= |ids|
      invariant Linked(ids, products, next, i, j)
    {
      ghost var prev := next;
      var common := products[ids[i]] * products[ids[j]];
      if common != {} {
        next := next[(ids[i], ids[j]) := |common|];
      }
      LinkStep(ids, products, prev, next, i, j);
      j := j + 1;
    }
    LinkRow(ids, products, next, i);
  }

  /**
   * The two nested loops over `customer_ids`: every pair `i < j` whose
   * product sets intersect gets an edge weighing the size of the intersection.
   */
  method CommonProductEdges(ids: seq<string>, products: map<string, set<string>>) returns (edges: map<(string, string), nat>)
    requires forall c :: c in ids ==> c in products
    ensures forall a, b {:trigger Settled(ids, products, edges, a, b)} :: 0 <= a < b < |ids| ==> Settled(ids, products, edges, a, b)
    ensures forall e :: e in edges ==> exists a, b :: 0 <= a < b < |ids| && e == (ids[a], ids[b])
  {
    edges := map[];
    LinkStart(ids, products);
    var i := 0;
    while i < |ids|
      invariant 0 <= i <= |ids|
      invariant Linked(ids, products, edges, i, i + 1)
    {
      edges := LinkRowFrom(ids, products, edges, i);
      i := i + 1;
    }
    LinkDone(ids, products, edges);
  }

  // ---------------------------------------------------------------- the analysis

  /** Two different customers with orders bought a product in common. */
  ghost predicate Connected(orders: seq<Record>, items: seq<Record>)
    requires OfKind(orders, Orders)
  {
    var buyers := Buyers(orders);
    exists a, b :: 0 <= a < b < |buyers| && Bought(orders, items, buyers[a]) * Bought(orders, items, buyers[b]) != {}
  }

  /** The `a`-th and `b`-th buyers are linked exactly when they bought products in common, weighing how many. */
  ghost predicate LinkedBuyers(orders: seq<Record>, items: seq<Record>, edges: map<(string, string), nat>, a: nat, b: nat)
    requires OfKind(orders, Orders) && a < |Buyers(orders)| && b < |Buyers(orders)|
  {
    var buyers := Buyers(orders);
    var common := Bought(orders, items, buyers[a]) * Bought(orders, items, buyers[b]);
    && ((buyers[a], buyers[b]) in edges <==> common != {})
    && ((buyers[a], buyers[b]) in edges ==> edges[(buyers[a], buyers[b])] == |common|)
  }

  /**
   * The edges link exactly the pairs of customers, earlier buyer first, who
   * bought products in common, each weighing how many.
   */
  ghost predicate NetworkEdges(orders: seq<Record>, items: seq<Record>, edges: map<(string, string), nat>)
    requires OfKind(orders, Orders)
  {
    var buyers := Buyers(orders);
    && (forall a, b {:trigger LinkedBuyers(orders, items, edges, a, b)} :: 0 <= a < b < |buyers| ==> LinkedBuyers(orders, items, edges, a, b))
    && (forall e :: e in edges ==> exists a, b :: 0 <= a < b < |buyers| && e == (buyers[a], buyers[b]))
  }

  /**
   * Two buyers bought a product in common and one of them is not among the
   * customers, so the edge between them brings in a node without a label.
   */
  ghost predicate LinksStranger(orders: seq<Record>, items: seq<Record>, customers: seq<Record>)
    requires OfKind(orders, Orders)
  {
    var buyers, known := Buyers(orders), CustomerIndex(customers);
    exists a, b :: 0 <= a < b < |buyers|
      && Bought(orders, items, buyers[a]) * Bought(orders, items, buyers[b]) != {}
      && (buyers[a] !in known || buyers[b] !in known)
  }

  /** An edge of the network has an end outside the customers exactly when a stranger is linked. */
  lemma StrangerEdge(orders: seq<Record>, items: seq<Record>, customers: seq<Record>, edges: map<(string, string), nat>)
    requires OfKind(orders, Orders) && NetworkEdges(orders, items, edges)
    ensures (exists e :: e in edges && (e.0 !in CustomerIndex(customers) || e.1 !in CustomerIndex(customers)))
      <==> LinksStranger(orders, items, customers)
  {
    var known := CustomerIndex(customers);
    if e :| e in edges && (e.0 !in known || e.1 !in known) {
      EdgeToStranger(orders, items, customers, edges, e);
    }
    if LinksStranger(orders, items, customers) {
      StrangerToEdge(orders, items, customers, edges);
    }
  }

  /** An edge reaching outside the customers links a stranger. */
  lemma EdgeToStranger(orders: seq<Record>, items: seq<Record>, customers: seq<Record>, edges: map<(string, string), nat>,
                       e: (string, string))
    requires OfKind(orders, Orders) && NetworkEdges(orders, items, edges)
    requires e in edges && (e.0 !in CustomerIndex(customers) || e.1 !in CustomerIndex(customers))
    ensures LinksStranger(orders, items, customers)
  {
    var buyers := Buyers(orders);
    var a, b :| 0 <= a < b < |buyers| && e == (buyers[a], buyers[b]);
    assert LinkedBuyers(orders, items, edges, a, b);
  }

  /** A linked stranger is the end of an edge. */
  lemma StrangerToEdge(orders: seq<Record>, items: seq<Record>, customers: seq<Record>, edges: map<(string, string), nat>)
    requires OfKind(orders, Orders) && NetworkEdges(orders, items, edges)
    requires LinksStranger(orders, items, customers)
    ensures exists e :: e in edges && (e.0 !in CustomerIndex(customers) || e.1 !in CustomerIndex(customers))
  {
    var buyers, known := Buyers(orders), CustomerIndex(customers);
    var a, b :| 0 <= a < b < |buyers|
      && Bought(orders, items, buyers[a]) * Bought(orders, items, buyers[b]) != {}
      && (buyers[a] !in known || buyers[b] !in known);
    assert LinkedBuyers(orders, items, edges, a, b);
    assert (buyers[a], buyers[b]) in edges;
  }

  /** The products per customer and the edges between them: the network's edges, present exactly when two customers are connected. */
  method BuyerEdges(orders: seq<Record>, items: seq<Record>) returns (edges: map<(string, string), nat>)
    requires OfKind(orders, Orders)
    ensures NetworkEdges(orders, items, edges)
    ensures edges != map[] <==> Connected(orders, items)
  {
    var ids, products := CustomerProducts(orders, items);
    edges := CommonProductEdges(ids, products);
    EdgesMeaning(orders, items, ids, products, edges);
  }

  /**
   * The data part of `show_customer_network`: not enough data when any of
   * the three stores is empty; otherwise the labels (whose failure aborts the
   * analysis), the products per customer, the edges, no connections when
   * there is no edge, the caught KeyError when an edge reaches a buyer who is
   * not a customer, and otherwise the graph.
   */
  method CustomerNetwork(orders: seq<Record>, items: seq<Record>, customers: seq<Record>) returns (out: Outcome)
    requires OfKind(orders, Orders) && OfKind(customers, Customers)
    ensures out == InsufficientData <==> orders == [] || items == [] || customers == []
    ensures out == LabelFailed <==>
      orders != [] && items != [] && customers != [] && CustomerLabels(customers).None?
    ensures out == NoConnections <==>
      orders != [] && items != [] && customers != [] && CustomerLabels(customers).Some? && !Connected(orders, items)
    ensures out == UnlabelledNode <==>
      orders != [] && items != [] && customers != [] && CustomerLabels(customers).Some?
      && LinksStranger(orders, items, customers)
    ensures out.Graph? <==>
      orders != [] && items != [] && customers != [] && CustomerLabels(customers).Some?
      && Connected(orders, items) && !LinksStranger(orders, items, customers)
    ensures out.Graph? ==>
      && CustomerLabels(customers) == Some(out.labels)
      && out.edges != map[]
      && NetworkEdges(orders, items, out.edges)
      && forall e :: e in out.edges ==> e.0 in out.labels && e.1 in out.labels
  {
    if orders == [] || items == [] || customers == [] {
      return InsufficientData;
    }
    var labels := CustomerLabels(customers);
    if labels.None? {
      return LabelFailed;
    }
    var edges := BuyerEdges(orders, items);
    StrangerEdge(orders, items, customers, edges);
    if edges == map[] {
      return NoConnections;
    }
    var known := labels.value;
    if exists e :: e in edges && (e.0 !in known || e.1 !in known) {
      return UnlabelledNode;
    }
    out := Graph(known, edges);
  }

  /** What CustomerProducts computes: the buyers, and for each of them what they bought. */
  ghost predicate BuyerProducts(orders: seq<Record>, items: seq<Record>, ids: seq<string>, products: map<string, set<string>>)
    requires OfKind(orders, Orders)
  {
    && ids == Buyers(orders)
    && products.Keys == (set c | c in ids)
    && forall c :: c in products ==> products[c] == Bought(orders, items, c)
  }

  /** A settled pair of buyers is linked as the network says. */
  lemma SettledLinked(orders: seq<Record>, items: seq<Record>, ids: seq<string>, products: map<string, set<string>>,
                      edges: map<(string, string), nat>, a: nat, b: nat)
    requires OfKind(orders, Orders) && BuyerProducts(orders, items, ids, products)
    requires a < b < |ids| && Settled(ids, products, edges, a, b)
    ensures LinkedBuyers(orders, items, edges, a, b)
    ensures (ids[a], ids[b]) in edges <==> Bought(orders, items, ids[a]) * Bought(orders, items, ids[b]) != {}
  {
    assert ids[a] in products && ids[b] in products;
  }

  /** The edges computed from the products per customer are the network's edges, and there are some exactly when customers are connected. */
  lemma EdgesMeaning(orders: seq<Record>, items: seq<Record>, ids: seq<string>, products: map<string, set<string>>,
                     edges: map<(string, string), nat>)
    requires OfKind(orders, Orders) && BuyerProducts(orders, items, ids, products)
    requires forall a, b {:trigger Settled(ids, products, edges, a, b)} :: 0 <= a < b < |ids| ==> Settled(ids, products, edges, a, b)
    requires forall e :: e in edges ==> exists a, b :: 0 <= a < b < |ids| && e == (ids[a], ids[b])
    ensures NetworkEdges(orders, items, edges)
    ensures edges != map[] <==> Connected(orders, items)
  {
    forall a, b | 0 <= a < b < |ids|
      ensures LinkedBuyers(orders, items, edges, a, b)
    {
      SettledLinked(orders, items, ids, products, edges, a, b);
    }
    EdgesIffConnected(orders, items, ids, products, edges);
  }

  /** There are edges exactly when two buyers bought a product in common. */
  lemma EdgesIffConnected(orders: seq<Record>, items: seq<Record>, ids: seq<string>, products: map<string, set<string>>,
                          edges: map<(string, string), nat>)
    requires OfKind(orders, Orders) && BuyerProducts(orders, items, ids, products)
    requires forall a, b {:trigger Settled(ids, products, edges, a, b)} :: 0 <= a < b < |ids| ==> Settled(ids, products, edges, a, b)
    requires forall e :: e in edges ==> exists a, b :: 0 <= a < b < |ids| && e == (ids[a], ids[b])
    ensures edges != map[] <==> Connected(orders, items)
  {
    if edges != map[] {
      var e :| e in edges;
      var a, b :| 0 <= a < b < |ids| && e == (ids[a], ids[b]);
      SettledLinked(orders, items, ids, products, edges, a, b);
    }
    if Connected(orders, items) {
      var a, b :| 0 <= a < b < |ids| && Bought(orders, items, ids[a]) * Bought(orders, items, ids[b]) != {};
      SettledLinked(orders, items, ids, products, edges, a, b);
    }
  }

  /**
   * Every edge of the network joins two different customers and weighs at
   * least one and at most the number of products either of them bought.
   */
  lemma EdgeWeights(orders: seq<Record>, items: seq<Record>, edges: map<(string, string), nat>)
    requires OfKind(orders, Orders) && NetworkEdges(orders, items, edges)
    ensures forall e :: e in edges ==>
      && e.0 != e.1
      && 1 <= edges[e]
      && edges[e] <= |Bought(orders, items, e.0)|
      && edges[e] <= |Bought(orders, items, e.1)|
  {
    var buyers := Buyers(orders);
    BuyersDistinct(orders);
    forall e | e in edges
      ensures e.0 != e.1 && 1 <= edges[e]
      ensures edges[e] <= |Bought(orders, items, e.0)| && edges[e] <= |Bought(orders, items, e.1)|
    {
      var a, b :| 0 <= a < b < |buyers| && e == (buyers[a], buyers[b]);
      assert LinkedBuyers(orders, items, edges, a, b);
      var x, y := Bought(orders, items, e.0), Bought(orders, items, e.1);
      IntersectionSize(x, y);
      IntersectionSize(y, x);
      assert y * x == x * y;
    }
  }

  lemma IntersectionSize(x: set<string>, y: set<string>)
    ensures |x * y| <= |x|
  {
    assert x * y <= x;
    SubsetSize(x * y, x);
  }

  lemma {:induction false} SubsetSize(x: set<string>, y: set<string>)
    requires x <= y
    ensures |x| <= |y|
    decreases |y|
  {
    if x != {} {
      var v :| v in x;
      SubsetSize(x - {v}, y - {v});
    }
  }

  /** When customer ids are unique, as a store keeps them, each customer's node is labelled from that customer's own record. */
  lemma StoredLabels(customers: seq<Record>, k: nat)
    requires OfKind(customers, Customers) && UniqueIds(customers) && k < |customers|
    ensures var labels := NodeLabels(CustomerIndex(customers));
      labels.Some? ==> Label(customers[k]) == Some(labels.value[customers[k].id])
  {
    CustomerIndexLast(customers, k);
  }
}
