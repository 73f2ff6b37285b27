/** The state of the two checkout forms as the handlers see it, and the rule
    that enables the payment form's Next button (the payment presenter and
    the entry script use the same rule). */
module Forms {
  import opened Wrappers
  import opened Text
  import opened OrderModel

  /** The payment form: the raw address input, the name of the payment
      button carrying the active class (`None` when none does), and whether
      Next is enabled. */
  datatype PaymentForm = PaymentForm(address: string, active: Option<string>, nextEnabled: bool)

  /** The payment form after `resetFields`. */
  function BlankPayment(): PaymentForm {
    PaymentForm("", None, false)
  }

  /** `getSelectedPaymentMethod`: the active button's name, or `None` when no
      button is active or its name is empty (`selected?.name || null`). */
  function SelectedMethod(f: PaymentForm): (r: Option<string>)
    ensures r.Some? <==> f.active.Some? && f.active.value != ""
    ensures r.Some? ==> r == f.active
  {
    if f.active.Some? && f.active.value != "" then f.active else None
  }

  /** The Next rule: the trimmed address is non-empty and a payment method is
      selected. */
  predicate NextAllowed(f: PaymentForm) {
    Truthy(Trim(f.address)) && SelectedMethod(f).Some?
  }

  /** The form with the Next button set by the rule. */
  function RefreshNext(f: PaymentForm): (r: PaymentForm)
    ensures r.nextEnabled <==> NextAllowed(f)
    ensures r.address == f.address && r.active == f.active
  {
    f.(nextEnabled := NextAllowed(f))
  }

  /** The order holds what the payment form shows: a non-blank address input
      was stored trimmed, a selected method was stored, and Next is enabled
      only when the rule allows it. */
  predicate PaymentSynced(f: PaymentForm, o: Order) {
    && (f.nextEnabled ==> NextAllowed(f))
    && (Truthy(Trim(f.address)) ==> o.address == Some(Trim(f.address)))
    && (SelectedMethod(f).Some? ==> o.payment == SelectedMethod(f))
  }

  /** When the form and the order agree and Next is enabled, the order has a
      filled address and payment method. */
  lemma NextEnabledMeansFilled(f: PaymentForm, o: Order)
    requires PaymentSynced(f, o) && f.nextEnabled
    ensures Filled(o.address) && Filled(o.payment)
  {
  }

  /** A click on a payment button: the clicked button becomes the only active
      one, its name is stored when non-empty, and Next is refreshed. */
  function ClickPayment(f: PaymentForm, o: Order, name: string): (r: (PaymentForm, Order))
    ensures r.0.active == Some(name) && r.0.address == f.address
    ensures r.0.nextEnabled <==> NextAllowed(r.0)
    ensures name != "" ==> r.1 == SetPaymentMethod(o, name)
    ensures name == "" ==> r.1 == o
    ensures PaymentSynced(f, o) ==> PaymentSynced(r.0, r.1)
  {
    var f' := f.(active := Some(name));
    var o' := if name != "" then SetPaymentMethod(o, name) else o;
    (RefreshNext(f'), o')
  }

  /** An input event on the address field: the trimmed value is stored and
      Next is refreshed. */
  function TypeAddress(f: PaymentForm, o: Order, value: string): (r: (PaymentForm, Order))
    ensures r.0.address == value && r.0.active == f.active
    ensures r.0.nextEnabled <==> NextAllowed(r.0)
    ensures r.1 == SetAddress(o, Trim(value))
    ensures PaymentSynced(f, o) ==> PaymentSynced(r.0, r.1)
  {
    (RefreshNext(f.(address := value)), SetAddress(o, Trim(value)))
  }

  /** The contacts form: raw e-mail and phone inputs and whether submit is
      enabled. */
  datatype ContactsForm = ContactsForm(email: string, phone: string, submitEnabled: bool)

  /** The contacts form after `resetFields`. */
  function BlankContacts(): ContactsForm {
    ContactsForm("", "", false)
  }
}
