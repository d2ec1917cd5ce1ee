/** The records the dashboard keeps and serves (the model package), by value.
    Every Java String or Instant field that may be null is an Option. */
module Entities {
  import opened Java
  import opened Time

  /** A customer; `name` is the trimmed "first last" the customer stream
      builds, `email` stays null unless the event carries one. */
  datatype Customer = Customer(id: Option<string>, name: string, email: Option<string>)

  /** An order; `totalAmount` is recomputed from the order's line items
      whenever it has some. */
  datatype Order = Order(
    id: Option<string>,
    customerId: Option<string>,
    totalAmount: real,
    createdAt: Option<Instant>)

  /** One line of an order. */
  datatype LineItem = LineItem(
    id: Option<string>,
    orderId: Option<string>,
    productName: Option<string>,
    quantity: int,
    unitPrice: real)

  /** A row of the recent-orders view. */
  datatype OrderView = OrderView(orderId: string, customerName: string, totalAmount: real, createdAt: Instant)

  /** A row of the loyalty ranking. */
  datatype LoyaltyView = LoyaltyView(customerId: string, customerName: string, totalSpend: real, loyaltyPoints: int)

  /** WarehouseView.LineItemView: a product name and a quantity, stored as
      given. */
  datatype LineItemView = LineItemView(productName: string, quantity: int)
}
