/** The payment presenter: first checkout step, choosing a payment method
    and typing the delivery address. */
module PaymentPresenter {
  import opened Wrappers
  import opened Text
  import opened OrderModel
  import opened Forms
  import opened Events

  /** The order being built, the form as displayed, and whether `init` has
      wired the form's listeners. */
  datatype Presenter = Presenter(order: Order, form: PaymentForm, mounted: bool)

  /** `init`: wires the listeners once; a second call returns at once. */
  function Init(s: Presenter): (r: Presenter)
    ensures r.mounted
    ensures r.order == s.order && r.form == s.form
    ensures s.mounted ==> r == s
  {
    if s.mounted then s else s.(mounted := true)
  }

  /** A click on the payment button named `name`. Before `init` no listener
      exists and the click does nothing. */
  function OnPaymentClick(s: Presenter, name: string): (r: Presenter)
    ensures !s.mounted ==> r == s
    ensures s.mounted ==> r.form.active == Some(name) && r.form.address == s.form.address
    ensures s.mounted ==> (r.form.nextEnabled <==> Truthy(Trim(r.form.address)) && name != "")
    ensures s.mounted && name != "" ==> r.order == SetPaymentMethod(s.order, name)
    ensures s.mounted && name == "" ==> r.order == s.order
    ensures r.mounted == s.mounted
  {
    if !s.mounted then s
    else
      var (f, o) := ClickPayment(s.form, s.order, name);
      s.(form := f, order := o)
  }

  /** An input event on the address field holding `value`. */
  function OnAddressInput(s: Presenter, value: string): (r: Presenter)
    ensures !s.mounted ==> r == s
    ensures s.mounted ==> r.order == SetAddress(s.order, Trim(value))
    ensures s.mounted ==> r.form.address == value && r.form.active == s.form.active
    ensures s.mounted ==> (r.form.nextEnabled <==> Truthy(Trim(value)) && SelectedMethod(s.form).Some?)
    ensures r.mounted == s.mounted
  {
    if !s.mounted then s
    else
      var (f, o) := TypeAddress(s.form, s.order, value);
      s.(form := f, order := o)
  }

  /** A click on Next: the completion callback runs when the listener exists
      and the button is enabled. The order is not consulted and nothing
      changes. */
  function OnNext(s: Presenter): (r: Step<Presenter>)
    ensures r.state == s
    ensures r.emitted == (if s.mounted && s.form.nextEnabled then [PaymentStepDone] else [])
  {
    if s.mounted && s.form.nextEnabled then Step(s, [PaymentStepDone]) else Step(s, [])
  }

  /** Whether Next proceeds depends on the button alone: two presenters that
      differ only in their orders (one complete, one not) behave the same. */
  lemma NextIgnoresOrder(s: Presenter, o: Order)
    ensures OnNext(s.(order := o)).emitted == OnNext(s).emitted
  {
  }

  /** The inputs the presenter reacts to. */
  datatype Input = Start | Click(name: string) | Type(value: string) | Next

  function Apply(s: Presenter, input: Input): Step<Presenter> {
    match input
    case Start => Step(Init(s), [])
    case Click(name) => Step(OnPaymentClick(s, name), [])
    case Type(value) => Step(OnAddressInput(s, value), [])
    case Next => OnNext(s)
  }

  function Run(s: Presenter, inputs: seq<Input>): Step<Presenter>
    decreases |inputs|
  {
    if |inputs| == 0 then Step(s, [])
    else
      var first := Apply(s, inputs[0]);
      var rest := Run(first.state, inputs[1..]);
      Step(rest.state, first.emitted + rest.emitted)
  }

  /** Every handler keeps the form and the order in step. */
  lemma ApplyKeepsSynced(s: Presenter, input: Input)
    requires PaymentSynced(s.form, s.order)
    ensures PaymentSynced(Apply(s, input).state.form, Apply(s, input).state.order)
  {
  }

  /** Under that agreement, a Next click that runs the completion callback
      happens only when the order has an address and a payment method. */
  lemma NextFiresOnlyWhenFilled(s: Presenter, input: Input)
    requires PaymentSynced(s.form, s.order)
    ensures PaymentStepDone in Apply(s, input).emitted ==>
              Filled(s.order.address) && Filled(s.order.payment)
  {
    if PaymentStepDone in Apply(s, input).emitted {
      NextEnabledMeansFilled(s.form, s.order);
    }
  }

  /** The agreement holds after any sequence of inputs, so every Next that
      proceeds (previous lemma) finds the address and payment method filled. */
  lemma {:induction false} RunKeepsSynced(s: Presenter, inputs: seq<Input>)
    requires PaymentSynced(s.form, s.order)
    ensures PaymentSynced(Run(s, inputs).state.form, Run(s, inputs).state.order)
    decreases |inputs|
  {
    if |inputs| > 0 {
      ApplyKeepsSynced(s, inputs[0]);
      RunKeepsSynced(Apply(s, inputs[0]).state, inputs[1..]);
    }
  }
}
