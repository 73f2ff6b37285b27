/** The order builder (`Order` of the model folder): checkout fields are
    stored one step at a time, completeness is recomputed from field presence
    with JavaScript truthiness, and `getData` refuses an incomplete order. */
module OrderModel {
  import opened Wrappers
  import opened Text
  import opened Products

  /** The builder's fields; an optional string is `undefined` until set. */
  datatype Order = Order(
    items: seq<string>,
    total: int,
    address: Option<string>,
    payment: Option<string>,
    email: Option<string>,
    phone: Option<string>)

  /** The frozen projection handed out by `getData`. */
  datatype CompletedOrder = CompletedOrder(
    items: seq<string>,
    total: int,
    address: string,
    payment: string,
    email: string,
    phone: string)

  /** The error `getData` throws on an incomplete order. */
  datatype OrderError = IncompleteOrder

  /** A new builder: no items, total 0, every optional field absent. */
  function New(): (o: Order)
    ensures !IsComplete(o)
    ensures GetData(o) == Failure(IncompleteOrder)
    ensures o.address.None? && o.payment.None? && o.email.None? && o.phone.None?
  {
    Order([], 0, None, None, None, None)
  }

  /** `setCart`: the products' ids in the same order (duplicates kept) and the
      total replace the earlier ones; nothing else changes. */
  function SetCart(o: Order, products: seq<Product>, total: int): (r: Order)
    ensures |r.items| == |products|
    ensures forall i | 0 <= i < |products| :: r.items[i] == products[i].id
    ensures r.total == total
    ensures r.address == o.address && r.payment == o.payment
    ensures r.email == o.email && r.phone == o.phone
  {
    o.(items := Ids(products), total := total)
  }

  /** `setAddress`: overwrites the address only. */
  function SetAddress(o: Order, address: string): (r: Order)
    ensures r.address == Some(address)
    ensures r == o.(address := r.address)
  {
    o.(address := Some(address))
  }

  /** `setPaymentMethod`: overwrites the payment method only. */
  function SetPaymentMethod(o: Order, payment: string): (r: Order)
    ensures r.payment == Some(payment)
    ensures r == o.(payment := r.payment)
  {
    o.(payment := Some(payment))
  }

  /** `setContacts`: overwrites e-mail and phone only. */
  function SetContacts(o: Order, email: string, phone: string): (r: Order)
    ensures r.email == Some(email) && r.phone == Some(phone)
    ensures r == o.(email := r.email, phone := r.phone)
  {
    o.(email := Some(email), phone := Some(phone))
  }

  /** A string field is truthy: present and non-empty. There is no trimming,
      so a field holding only spaces counts as filled. */
  predicate Filled(f: Option<string>) {
    f.Some? && Truthy(f.value)
  }

  /** `isComplete`: there are items, the total is positive, and each of the
      four strings is present with at least one character, blank or not. */
  function IsComplete(o: Order): (ok: bool)
    ensures ok <==> |o.items| > 0 && o.total > 0
                    && forall f | f in [o.address, o.payment, o.email, o.phone] :: f.Some? && |f.value| > 0
    ensures ok ==> FromCompleted(CompletedOrder(o.items, o.total, o.address.value, o.payment.value,
                                                o.email.value, o.phone.value)) == o
  {
    && |o.items| > 0
    && o.total > 0
    && Filled(o.address) && Filled(o.payment) && Filled(o.email) && Filled(o.phone)
  }

  /** `getData`: fails exactly when the order is incomplete, and otherwise
      returns exactly the stored fields. */
  function GetData(o: Order): (r: Result<CompletedOrder, OrderError>)
    ensures r.Failure? <==> !IsComplete(o)
    ensures r.Failure? ==> r.error == IncompleteOrder
    ensures r.Success? ==>
              && r.value.items == o.items && r.value.total == o.total
              && o.address == Some(r.value.address) && o.payment == Some(r.value.payment)
              && o.email == Some(r.value.email) && o.phone == Some(r.value.phone)
  {
    if !IsComplete(o) then Failure(IncompleteOrder)
    else Success(CompletedOrder(o.items, o.total, o.address.value, o.payment.value,
                                o.email.value, o.phone.value))
  }

  /** `reset`: back to the state of a new builder. */
  function Reset(o: Order): (r: Order)
    ensures r == New()
  {
    Order([], 0, None, None, None, None)
  }

  /** The builder that stores the fields of `d`. */
  function FromCompleted(d: CompletedOrder): Order {
    Order(d.items, d.total, Some(d.address), Some(d.payment), Some(d.email), Some(d.phone))
  }

  /** `getData` loses nothing: a complete order is rebuilt from its data, and
      data with every field filled comes back unchanged. */
  lemma GetDataRoundTrip(o: Order, d: CompletedOrder)
    ensures GetData(o).Success? ==> FromCompleted(GetData(o).value) == o
    ensures |d.items| > 0 && d.total > 0 && |d.address| > 0 && |d.payment| > 0
            && |d.email| > 0 && |d.phone| > 0
            ==> GetData(FromCompleted(d)) == Success(d)
  {
  }

  /** A new builder is incomplete, and so its data cannot be taken. */
  lemma NewIsIncomplete()
    ensures !IsComplete(New())
    ensures GetData(New()) == Failure(IncompleteOrder)
  {
  }

  /** Reset leaves an incomplete builder and is idempotent. */
  lemma ResetIsIdempotent(o: Order)
    ensures Reset(Reset(o)) == Reset(o)
    ensures !IsComplete(Reset(o))
  {
  }

  /** Last write wins for every setter, and setters of different fields
      commute. */
  lemma SettersOverwrite(o: Order, a: string, b: string, m: string, n: string, e: string, p: string)
    ensures SetAddress(SetAddress(o, a), b) == SetAddress(o, b)
    ensures SetPaymentMethod(SetPaymentMethod(o, m), n) == SetPaymentMethod(o, n)
    ensures SetContacts(SetContacts(o, e, p), a, b) == SetContacts(o, a, b)
    ensures SetAddress(SetPaymentMethod(o, m), a) == SetPaymentMethod(SetAddress(o, a), m)
    ensures SetContacts(SetAddress(o, a), e, p) == SetAddress(SetContacts(o, e, p), a)
  {
  }

  /** Filling every step completes the order iff the cart snapshot is
      non-empty with a positive total and every string is non-empty. */
  lemma FilledStepsComplete(o: Order, ps: seq<Product>, total: int,
                            address: string, payment: string, email: string, phone: string)
    ensures var r := SetContacts(SetPaymentMethod(SetAddress(SetCart(o, ps, total), address), payment), email, phone);
            IsComplete(r) <==>
              |ps| > 0 && total > 0 && |address| > 0 && |payment| > 0 && |email| > 0 && |phone| > 0
  {
  }

  /** An address of two spaces counts as filled: completeness does not trim. */
  lemma SpacesCountAsFilled(o: Order)
    requires |o.items| > 0 && o.total > 0
    requires Filled(o.payment) && Filled(o.email) && Filled(o.phone)
    ensures IsComplete(SetAddress(o, "  "))
  {
  }
}
