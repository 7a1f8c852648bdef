/**
 * The four kinds of record the stores hold. Every field is a string, as in
 * the CSV files the stores persist to; `id` is shared by all four kinds and
 * holds a decimal numeral once a store has assigned it.
 */
module Records {

  /** Which store a record belongs to. */
  datatype Kind = Customers | Products | Orders | OrderItems

  datatype Record =
    | Customer(id: string, lastName: string, firstName: string, middleName: string, phone: string, email: string)
    | Product(id: string, name: string, price: string, unit: string)
    | Order(id: string, customerId: string, totalAmount: string, orderDate: string, customerInfo: string)
    | OrderItem(id: string, orderId: string, productId: string, quantity: string, price: string, total: string)
  {
    function KindOf(): Kind {
      match this
      case Customer(_, _, _, _, _, _) => Customers
      case Product(_, _, _, _) => Products
      case Order(_, _, _, _, _) => Orders
      case OrderItem(_, _, _, _, _, _) => OrderItems
    }

    /** The same record under another id (`item['id'] = ...`): only the id changes. */
    function WithId(newId: string): (r: Record)
      ensures r.id == newId && r.KindOf() == KindOf()
      ensures r.(id := this.id) == this
    {
      match this
      case Customer(_, l, f, m, p, e) => Customer(newId, l, f, m, p, e)
      case Product(_, n, p, u) => Product(newId, n, p, u)
      case Order(_, c, t, d, i) => Order(newId, c, t, d, i)
      case OrderItem(_, o, p, q, pr, t) => OrderItem(newId, o, p, q, pr, t)
    }
  }
}
