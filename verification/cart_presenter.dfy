/** The cart presenter: it applies cart:add and cart:remove to the cart,
    sets the list view's handlers on the first cart:open, renders the
    cart, and turns a checkout click into an order:open carrying the cart
    entries. */
module CartPresenter {
  import opened Products
  import opened CartModel
  import opened Events

  /** What the list view last displayed and whether the cart modal is shown. */
  datatype CartView = CartView(listed: seq<CartItem>, total: int, counter: int, shown: bool)

  /** `mounted` is the presenter's flag; `handlersSet` says whether the list
      view's two handler slots (remove and checkout) hold the presenter's
      handlers rather than their default no-ops. Setting a slot replaces its
      handler, so there is never more than one of each. */
  datatype Presenter = Presenter(cart: Cart, mounted: bool, handlersSet: bool, view: CartView)

  function Initial(): Presenter {
    Presenter(Empty(), false, false, CartView([], 0, 0, false))
  }

  /** The slots hold the presenter's handlers exactly when it is mounted. */
  predicate Wired(s: Presenter) {
    s.handlersSet == s.mounted
  }

  /** `render`: the list view shows the cart entries, the total price and the
      entry count. */
  function Render(s: Presenter): (r: Presenter)
    ensures r.view.listed == s.cart.items
    ensures r.view.total == TotalPrice(s.cart)
    ensures r.view.counter == TotalCount(s.cart)
    ensures r.view.shown == s.view.shown
    ensures r.cart == s.cart && r.mounted == s.mounted && r.handlersSet == s.handlersSet
  {
    s.(view := s.view.(listed := s.cart.items, total := TotalPrice(s.cart), counter := TotalCount(s.cart)))
  }

  /** 'cart:add': the cart becomes `AddItem(cart, product)`; nothing else
      changes and nothing is emitted. */
  function OnCartAdd(s: Presenter, product: Product): (r: Step<Presenter>)
    ensures r.state == s.(cart := AddItem(s.cart, product))
    ensures r.emitted == []
  {
    Step(s.(cart := AddItem(s.cart, product)), [])
  }

  /** 'cart:remove': the cart becomes `RemoveItem(cart, id)`. */
  function OnCartRemove(s: Presenter, id: string): (r: Step<Presenter>)
    ensures r.state == s.(cart := RemoveItem(s.cart, id))
    ensures r.emitted == []
  {
    Step(s.(cart := RemoveItem(s.cart, id)), [])
  }

  /** 'cart:open': on the first open set the handler slots, then render and
      show. */
  function OnCartOpen(s: Presenter): (r: Step<Presenter>)
    ensures r.state.mounted
    ensures r.state.handlersSet == (s.handlersSet || !s.mounted)
    ensures r.state.cart == s.cart
    ensures r.state.view == CartView(s.cart.items, TotalPrice(s.cart), TotalCount(s.cart), true)
    ensures r.emitted == []
  {
    var mounted := if s.mounted then s else s.(mounted := true, handlersSet := true);
    var rendered := Render(mounted);
    Step(rendered.(view := rendered.view.(shown := true)), [])
  }

  /** A click on an entry's remove button in the list view calls the remove
      slot: the presenter's handler removes the id and re-renders; the
      default no-op, before the first open, does nothing. */
  function OnUiRemove(s: Presenter, id: string): (r: Step<Presenter>)
    ensures !s.handlersSet ==> r.state == s
    ensures s.handlersSet ==> r.state == Render(s.(cart := RemoveItem(s.cart, id)))
    ensures s.handlersSet ==> !HasItem(r.state.cart, id) && r.state.view.counter == TotalCount(r.state.cart)
    ensures r.emitted == []
  {
    if !s.handlersSet then Step(s, [])
    else Step(Render(s.(cart := RemoveItem(s.cart, id))), [])
  }

  /** A checkout click calls the checkout slot: the presenter's handler
      emits one order:open with the current entries and total price; the
      default no-op emits nothing. The state is unchanged. */
  function OnCheckout(s: Presenter): (r: Step<Presenter>)
    ensures r.state == s
    ensures s.handlersSet ==> r.emitted == [OrderOpenEntries(s.cart.items, TotalPrice(s.cart))]
    ensures !s.handlersSet ==> r.emitted == []
  {
    if s.handlersSet then Step(s, [OrderOpenEntries(s.cart.items, TotalPrice(s.cart))])
    else Step(s, [])
  }

  /** The inputs the presenter reacts to. */
  datatype Input =
    | Add(product: Product)
    | Remove(id: string)
    | Open
    | UiRemove(id: string)
    | Checkout

  function Apply(s: Presenter, input: Input): Step<Presenter> {
    match input
    case Add(p) => OnCartAdd(s, p)
    case Remove(id) => OnCartRemove(s, id)
    case Open => OnCartOpen(s)
    case UiRemove(id) => OnUiRemove(s, id)
    case Checkout => OnCheckout(s)
  }

  /** The state after a sequence of inputs, and everything emitted on the
      way. */
  function Run(s: Presenter, inputs: seq<Input>): (r: Step<Presenter>)
    decreases |inputs|
  {
    if |inputs| == 0 then Step(s, [])
    else
      var first := Apply(s, inputs[0]);
      var rest := Run(first.state, inputs[1..]);
      Step(rest.state, first.emitted + rest.emitted)
  }

  /** Every handler keeps the slots set exactly when mounted and keeps the
      cart's ids distinct. */
  lemma ApplyPreservesWiring(s: Presenter, input: Input)
    requires Wired(s) && DistinctIds(s.cart.items)
    ensures Wired(Apply(s, input).state) && DistinctIds(Apply(s, input).state.cart.items)
  {
  }

  /** Whatever the presenter receives, the slots hold the presenter's
      handlers exactly once it is mounted, and the cart never holds an id
      twice. */
  lemma {:induction false} RunPreservesWiring(s: Presenter, inputs: seq<Input>)
    requires Wired(s) && DistinctIds(s.cart.items)
    ensures Wired(Run(s, inputs).state) && DistinctIds(Run(s, inputs).state.cart.items)
    decreases |inputs|
  {
    if |inputs| > 0 {
      ApplyPreservesWiring(s, inputs[0]);
      RunPreservesWiring(Apply(s, inputs[0]).state, inputs[1..]);
    }
  }

  /** After any history, a checkout click emits exactly one order:open when
      the cart has been opened at least once, and none before. */
  lemma CheckoutEmitsOnce(inputs: seq<Input>)
    ensures var s := Run(Initial(), inputs).state;
            var out := OnCheckout(s).emitted;
            (s.mounted ==> out == [OrderOpenEntries(s.cart.items, TotalPrice(s.cart))])
            && (!s.mounted ==> out == [])
  {
    RunPreservesWiring(Initial(), inputs);
  }
}
