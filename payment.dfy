/** PaymentService.processPayment: a simulated payment that always succeeds. */
module Payment {
  import opened Wrappers
  import opened Entities
  import Orders

  /** The reply of processPayment. */
  datatype Receipt = Receipt(success: bool, orderId: Id)

  /**
   * processPayment: not-found (and nothing changed) for an unknown order;
   * otherwise the order is marked paid whatever its status was, and the
   * reply is a success for the same id.
   */
  method ProcessPayment(orders: Orders.OrderTable, orderId: Id) returns (r: Result<Receipt>)
    requires orders.Valid()
    modifies orders
    ensures orders.Valid() && orders.nextId == old(orders.nextId)
    ensures Orders.FindOne(old(orders.rows), orderId).Err? ==> r == Err(NotFound) && orders.rows == old(orders.rows)
    ensures Orders.FindOne(old(orders.rows), orderId).Ok? ==>
      && r == Ok(Receipt(true, orderId))
      && orders.rows == Orders.SetPaymentStatus(old(orders.rows), orderId, Paid)
  {
    var found := Orders.FindOne(orders.rows, orderId);
    if found.Err? {
      r := Err(NotFound);
      return;
    }
    var _ := orders.UpdatePaymentStatus(orderId, Paid);
    r := Ok(Receipt(true, orderId));
  }

  /** After a payment the order is paid and every other field of it is as before. */
  lemma PaidAfterPayment(rows: seq<Order>, orderId: Id)
    requires Orders.FindOne(rows, orderId).Ok?
    ensures var o := Orders.FindOne(Orders.SetPaymentStatus(rows, orderId, Paid), orderId);
      o.Ok? && o.value.paymentStatus == Paid && o.value == Orders.FindOne(rows, orderId).value.(paymentStatus := Paid)
  {
    Orders.StatusOverwritten(rows, orderId, Paid);
  }

  /** Paying twice leaves the table as paying once. */
  lemma PaymentIdempotent(rows: seq<Order>, orderId: Id)
    ensures Orders.SetPaymentStatus(Orders.SetPaymentStatus(rows, orderId, Paid), orderId, Paid) ==
            Orders.SetPaymentStatus(rows, orderId, Paid)
  {
    Orders.SetStatusIdempotent(rows, orderId, Paid);
  }

  /** The other orders are untouched by a payment. */
  lemma PaymentTouchesOneOrder(rows: seq<Order>, orderId: Id, i: nat)
    requires i < |rows| && rows[i].id != orderId
    ensures Orders.SetPaymentStatus(rows, orderId, Paid)[i] == rows[i]
  {
  }
}
