/** The entry script: the handlers that tie catalog, cart, order and the
    checkout forms together. The modal shows one screen at a time; a control
    inside a screen can be used only while the modal is visible and shows
    that screen, and a disabled button's click never reaches its handler. */
module App {
  import opened Wrappers
  import opened Text
  import opened Products
  import opened CartModel
  import opened OrderModel
  import opened ProductValidation
  import opened Events
  import opened Forms
  import CatalogApi

  /** What the modal's content is. */
  datatype Screen =
    | NoContent
    | ProductScreen
    | CartScreen(items: seq<CartItem>, total: int)
    | PaymentScreen
    | ContactsScreen
    | SuccessScreen(total: int)

  /** The script's variables and models and what the page shows: the fetched
      products, the gallery cards, the header counter, the product view's
      card and the two checkout forms. */
  datatype App = App(
    products: seq<Product>,
    gallery: seq<Card>,
    cart: Cart,
    order: Order,
    current: Option<Product>,
    productCard: Option<Card>,
    modalVisible: bool,
    screen: Screen,
    counter: int,
    payment: PaymentForm,
    contacts: ContactsForm)

  /** A handler's effect: the new state, the events emitted, and the error
      thrown (the contacts submit is the only handler that can throw). */
  datatype Reaction = Reaction(state: App, emitted: seq<Event>, raised: Option<OrderError>)

  function Initial(): App {
    App([], [], Empty(), New(), None, None, false, NoContent, 0, BlankPayment(), BlankContacts())
  }

  function Quiet(s: App): Reaction {
    Reaction(s, [], None)
  }

  /** The modal is visible and shows a payment, contacts or success screen. */
  predicate ShowingPayment(s: App) { s.modalVisible && s.screen.PaymentScreen? }
  predicate ShowingContacts(s: App) { s.modalVisible && s.screen.ContactsScreen? }
  predicate ShowingSuccess(s: App) { s.modalVisible && s.screen.SuccessScreen? }
  predicate ShowingCart(s: App) { s.modalVisible && s.screen.CartScreen? }

  /** The title/price rule written inline in the 'product:select' handler. */
  predicate InlineRule(p: Product) {
    |Trim(p.title)| > 0 && (p.price.None? || p.price.value > 0)
  }

  /** The inline rule is the product validator. */
  lemma InlineRuleIsValidate(p: Product)
    ensures InlineRule(p) <==> Validate(p)
  {
  }

  /** The initial fetch resolved with `fetched`: it is stored and the gallery
      shows it with cart flags. */
  function OnCatalogLoaded(s: App, fetched: seq<Product>): (r: Reaction)
    ensures r.state == s.(products := fetched, gallery := r.state.gallery)
    ensures |r.state.gallery| == |fetched|
    ensures forall i | 0 <= i < |fetched| ::
              r.state.gallery[i].product == fetched[i] && (r.state.gallery[i].hasCart <==> HasItem(s.cart, fetched[i].id))
    ensures r.emitted == [] && r.raised == None
  {
    Quiet(s.(products := fetched, gallery := CardsFor(fetched, s.cart)))
  }

  /** 'cart:changed': with a current product and a visible modal, the product
      view's button follows the cart; otherwise nothing happens. */
  function OnCartChanged(s: App): (r: Reaction)
    ensures s.current.None? || !s.modalVisible ==> r.state == s
    ensures s.current.Some? && s.modalVisible ==>
              r.state == s.(productCard := Some(Card(s.current.value, HasItem(s.cart, s.current.value.id))))
    ensures r.emitted == [] && r.raised == None
  {
    if s.current.None? || !s.modalVisible then Quiet(s)
    else Quiet(s.(productCard := Some(Card(s.current.value, HasItem(s.cart, s.current.value.id)))))
  }

  /** 'product:select': the first fetched product with the id, if it passes
      the rule, becomes current and is shown in the modal; otherwise nothing
      changes. */
  function OnProductSelect(s: App, id: string): (r: Reaction)
    ensures FindById(s.products, id).None? ==> r.state == s
    ensures FindById(s.products, id).Some? && !Validate(FindById(s.products, id).value) ==> r.state == s
    ensures FindById(s.products, id).Some? && Validate(FindById(s.products, id).value) ==>
              var p := FindById(s.products, id).value;
              r.state == s.(current := Some(p), productCard := Some(Card(p, HasItem(s.cart, id))),
                            screen := ProductScreen, modalVisible := true)
    ensures r.emitted == [] && r.raised == None
  {
    match FindById(s.products, id)
    case None => Quiet(s)
    case Some(p) =>
      InlineRuleIsValidate(p);
      if !InlineRule(p) then Quiet(s)
      else Quiet(s.(current := Some(p), productCard := Some(Card(p, HasItem(s.cart, p.id))),
                    screen := ProductScreen, modalVisible := true))
  }

  /** 'cart:add': add, emit one cart:changed, refresh the counter. */
  function OnCartAdd(s: App, product: Product): (r: Reaction)
    ensures r.state == s.(cart := AddItem(s.cart, product), counter := TotalCount(AddItem(s.cart, product)))
    ensures r.emitted == [CartChanged] && r.raised == None
  {
    var c := AddItem(s.cart, product);
    Reaction(s.(cart := c, counter := TotalCount(c)), [CartChanged], None)
  }

  /** 'cart:remove': remove, emit one cart:changed, refresh the counter. */
  function OnCartRemove(s: App, id: string): (r: Reaction)
    ensures r.state == s.(cart := RemoveItem(s.cart, id), counter := TotalCount(RemoveItem(s.cart, id)))
    ensures r.emitted == [CartChanged] && r.raised == None
  {
    var c := RemoveItem(s.cart, id);
    Reaction(s.(cart := c, counter := TotalCount(c)), [CartChanged], None)
  }

  /** `renderCart`: the modal's content becomes the cart list and total. */
  function RenderCart(s: App): (r: App)
    ensures r == s.(screen := CartScreen(s.cart.items, TotalPrice(s.cart)))
  {
    s.(screen := CartScreen(s.cart.items, TotalPrice(s.cart)))
  }

  /** 'cart:open': render the cart and show the modal. */
  function OnCartOpen(s: App): (r: Reaction)
    ensures r.state == s.(screen := CartScreen(s.cart.items, TotalPrice(s.cart)), modalVisible := true)
    ensures r.emitted == [] && r.raised == None
  {
    Quiet(RenderCart(s).(modalVisible := true))
  }

  /** The delete button of a displayed cart entry with product id `id`. */
  predicate DeleteButtonShown(s: App, id: string) {
    ShowingCart(s) && exists i | 0 <= i < |s.screen.items| :: s.screen.items[i].product.id == id
  }

  /** A click on a displayed entry's delete button: remove, emit
      cart:changed, refresh the counter, re-render. */
  function OnCartDelete(s: App, id: string): (r: Reaction)
    ensures !DeleteButtonShown(s, id) ==> r == Quiet(s)
    ensures DeleteButtonShown(s, id) ==>
              var c := RemoveItem(s.cart, id);
              && r.state == s.(cart := c, counter := TotalCount(c), screen := CartScreen(c.items, TotalPrice(c)))
              && !HasItem(r.state.cart, id)
              && r.emitted == [CartChanged]
    ensures r.raised == None
  {
    if !DeleteButtonShown(s, id) then Quiet(s)
    else
      var c := RemoveItem(s.cart, id);
      Reaction(RenderCart(s.(cart := c, counter := TotalCount(c))), [CartChanged], None)
  }

  /** A checkout click in the cart view: emit order:open with the cart's
      products and total price. */
  function OnCheckout(s: App): (r: Reaction)
    ensures !ShowingCart(s) ==> r == Quiet(s)
    ensures ShowingCart(s) ==> r.state == s && r.emitted == [OrderOpen(ProductsOf(s.cart.items), TotalPrice(s.cart))]
    ensures r.raised == None
  {
    if !ShowingCart(s) then Quiet(s)
    else Reaction(s, [OrderOpen(ProductsOf(s.cart.items), TotalPrice(s.cart))], None)
  }

  /** 'order:open': store the snapshot in the order, show a blank payment
      form. */
  function OnOrderOpen(s: App, products: seq<Product>, total: int): (r: Reaction)
    ensures r.state == s.(order := SetCart(s.order, products, total), payment := BlankPayment(),
                          screen := PaymentScreen, modalVisible := true)
    ensures r.emitted == [] && r.raised == None
  {
    Quiet(s.(order := SetCart(s.order, products, total), payment := BlankPayment(),
             screen := PaymentScreen, modalVisible := true))
  }

  /** A click on a payment button of the shown payment form. */
  function OnPaymentClick(s: App, name: string): (r: Reaction)
    ensures !ShowingPayment(s) ==> r == Quiet(s)
    ensures ShowingPayment(s) ==>
              && r.state.payment.active == Some(name)
              && (r.state.payment.nextEnabled <==> NextAllowed(r.state.payment))
              && r.state.order == (if name != "" then SetPaymentMethod(s.order, name) else s.order)
              && r.state == s.(payment := r.state.payment, order := r.state.order)
    ensures r.emitted == [] && r.raised == None
  {
    if !ShowingPayment(s) then Quiet(s)
    else
      var (f, o) := Forms.ClickPayment(s.payment, s.order, name);
      Quiet(s.(payment := f, order := o))
  }

  /** An input event on the shown address field: store the trimmed value. */
  function OnAddressInput(s: App, value: string): (r: Reaction)
    ensures !ShowingPayment(s) ==> r == Quiet(s)
    ensures ShowingPayment(s) ==>
              && r.state.order == SetAddress(s.order, Trim(value))
              && r.state.payment.address == value
              && (r.state.payment.nextEnabled <==> NextAllowed(r.state.payment))
              && r.state == s.(payment := r.state.payment, order := r.state.order)
    ensures r.emitted == [] && r.raised == None
  {
    if !ShowingPayment(s) then Quiet(s)
    else
      var (f, o) := Forms.TypeAddress(s.payment, s.order, value);
      Quiet(s.(payment := f, order := o))
  }

  /** A click on the enabled Next button: show a blank contacts form. No
      validation beyond the button's state. */
  function OnPaymentNext(s: App): (r: Reaction)
    ensures !(ShowingPayment(s) && s.payment.nextEnabled) ==> r == Quiet(s)
    ensures ShowingPayment(s) && s.payment.nextEnabled ==>
              r.state == s.(contacts := BlankContacts(), screen := ContactsScreen, modalVisible := true)
    ensures r.emitted == [] && r.raised == None
  {
    if !(ShowingPayment(s) && s.payment.nextEnabled) then Quiet(s)
    else Quiet(s.(contacts := BlankContacts(), screen := ContactsScreen, modalVisible := true))
  }

  /** An input event on the shown contacts form, after which the fields hold
      `email` and `phone`: submit is enabled when both trimmed values are
      non-empty (the patterns are not checked here). */
  function OnContactsInput(s: App, email: string, phone: string): (r: Reaction)
    ensures !ShowingContacts(s) ==> r == Quiet(s)
    ensures ShowingContacts(s) ==>
              && r.state == s.(contacts := r.state.contacts)
              && r.state.contacts.email == email && r.state.contacts.phone == phone
              && (r.state.contacts.submitEnabled <==> !Blank(email) && !Blank(phone))
    ensures r.emitted == [] && r.raised == None
  {
    if !ShowingContacts(s) then Quiet(s)
    else Quiet(s.(contacts := ContactsForm(email, phone, Truthy(Trim(email)) && Truthy(Trim(phone)))))
  }

  /** A click on the enabled submit button: store the trimmed contacts, then
      `getData`; it throws on an incomplete order (the screen stays), and
      otherwise the success screen shows the order's total. */
  function OnContactsSubmit(s: App): (r: Reaction)
    ensures !(ShowingContacts(s) && s.contacts.submitEnabled) ==> r == Quiet(s)
    ensures ShowingContacts(s) && s.contacts.submitEnabled ==>
              var o := SetContacts(s.order, Trim(s.contacts.email), Trim(s.contacts.phone));
              && r.state.order == o
              && (r.raised.Some? <==> !IsComplete(o))
              && (r.raised.Some? ==> r.state == s.(order := o))
              && (r.raised.None? ==> r.state == s.(order := o, screen := SuccessScreen(o.total)))
    ensures r.emitted == []
  {
    if !(ShowingContacts(s) && s.contacts.submitEnabled) then Quiet(s)
    else
      var o := SetContacts(s.order, Trim(s.contacts.email), Trim(s.contacts.phone));
      match GetData(o)
      case Failure(e) => Reaction(s.(order := o), [], Some(e))
      case Success(d) => Quiet(s.(order := o, screen := SuccessScreen(d.total), modalVisible := true))
  }

  /** A click on the success screen's close button: hide the modal, reset the
      order, clear the cart and the counter, discard the forms, emit
      order:reset and cart:changed. */
  function OnSuccessClose(s: App): (r: Reaction)
    ensures !ShowingSuccess(s) ==> r == Quiet(s)
    ensures ShowingSuccess(s) ==>
              && r.state == s.(modalVisible := false, order := New(), cart := Empty(), counter := 0,
                               payment := BlankPayment(), contacts := BlankContacts())
              && r.emitted == [OrderReset, CartChanged]
    ensures r.raised == None
  {
    if !ShowingSuccess(s) then Quiet(s)
    else Reaction(s.(modalVisible := false, order := Reset(s.order), cart := Clear(s.cart), counter := 0,
                     payment := BlankPayment(), contacts := BlankContacts()),
                  [OrderReset, CartChanged], None)
  }

  /** The modal's own close control (its button, or a click on the backdrop):
      the modal is hidden and, the close callback being the default no-op,
      nothing else changes; the screen it showed stays behind it. */
  function OnModalClose(s: App): (r: Reaction)
    ensures !r.state.modalVisible
    ensures r.emitted == [] && r.raised == None
    ensures r.state.(modalVisible := s.modalVisible) == s
    ensures r.state.screen == s.screen && r.state.cart == s.cart && r.state.order == s.order
  {
    Quiet(s.(modalVisible := false))
  }

  /** What can happen to the page. */
  datatype Input =
    | CatalogLoaded(fetched: seq<Product>)
    | DeliverCartChanged
    | SelectProduct(id: string)
    | AddToCart(product: Product)
    | RemoveFromCart(id: string)
    | OpenCart
    | DeleteFromCart(id: string)
    | Checkout
    | DeliverOrderOpen(products: seq<Product>, total: int)
    | ClickPayment(name: string)
    | TypeAddress(value: string)
    | ClickNext
    | TypeContacts(email: string, phone: string)
    | Submit
    | CloseSuccess
    | CloseModal

  function Apply(s: App, input: Input): Reaction {
    match input
    case CatalogLoaded(fetched) => OnCatalogLoaded(s, fetched)
    case DeliverCartChanged => OnCartChanged(s)
    case SelectProduct(id) => OnProductSelect(s, id)
    case AddToCart(p) => OnCartAdd(s, p)
    case RemoveFromCart(id) => OnCartRemove(s, id)
    case OpenCart => OnCartOpen(s)
    case DeleteFromCart(id) => OnCartDelete(s, id)
    case Checkout => OnCheckout(s)
    case DeliverOrderOpen(ps, total) => OnOrderOpen(s, ps, total)
    case ClickPayment(name) => OnPaymentClick(s, name)
    case TypeAddress(value) => OnAddressInput(s, value)
    case ClickNext => OnPaymentNext(s)
    case TypeContacts(email, phone) => OnContactsInput(s, email, phone)
    case Submit => OnContactsSubmit(s)
    case CloseSuccess => OnSuccessClose(s)
    case CloseModal => OnModalClose(s)
  }

  /** The state after a sequence of inputs. */
  function Run(s: App, inputs: seq<Input>): App
    decreases |inputs|
  {
    if |inputs| == 0 then s else Run(Apply(s, inputs[0]).state, inputs[1..])
  }

  /** What every reachable page satisfies: the cart's ids are distinct, the
      counter shows the entry count, the payment form agrees with the order,
      the contacts screen is reached only with address and payment filled,
      and submit is enabled only with both trimmed contacts non-empty. */
  predicate Inv(s: App) {
    && DistinctIds(s.cart.items)
    && s.counter == TotalCount(s.cart)
    && PaymentSynced(s.payment, s.order)
    && (s.screen.ContactsScreen? ==> Filled(s.order.address) && Filled(s.order.payment))
    && (s.contacts.submitEnabled ==> !Blank(s.contacts.email) && !Blank(s.contacts.phone))
  }

  lemma InitialInv()
    ensures Inv(Initial())
  {
  }

  lemma PaymentNextKeepsInv(s: App)
    requires Inv(s)
    ensures Inv(OnPaymentNext(s).state)
  {
    if ShowingPayment(s) && s.payment.nextEnabled {
      NextEnabledMeansFilled(s.payment, s.order);
    }
  }

  lemma SubmitKeepsInv(s: App)
    requires Inv(s)
    ensures Inv(OnContactsSubmit(s).state)
  {
    var r := OnContactsSubmit(s);
    if ShowingContacts(s) && s.contacts.submitEnabled {
      assert r.state.payment == s.payment && r.state.cart == s.cart && r.state.contacts == s.contacts;
      assert r.state.order.address == s.order.address && r.state.order.payment == s.order.payment;
    }
  }

  lemma SuccessCloseKeepsInv(s: App)
    requires Inv(s)
    ensures Inv(OnSuccessClose(s).state)
  {
    if ShowingSuccess(s) {
      ClearResetsTotals(s.cart);
    }
  }

  lemma PaymentClickKeepsInv(s: App, name: string)
    requires Inv(s)
    ensures Inv(OnPaymentClick(s, name).state)
  {
  }

  lemma AddressInputKeepsInv(s: App, value: string)
    requires Inv(s)
    ensures Inv(OnAddressInput(s, value).state)
  {
  }

  lemma ContactsInputKeepsInv(s: App, email: string, phone: string)
    requires Inv(s)
    ensures Inv(OnContactsInput(s, email, phone).state)
  {
  }

  lemma CartHandlersKeepInv(s: App, input: Input)
    requires Inv(s)
    requires input.AddToCart? || input.RemoveFromCart? || input.DeleteFromCart? || input.OpenCart? || input.Checkout?
    ensures Inv(Apply(s, input).state)
  {
  }

  lemma CatalogLoadedKeepsInv(s: App, fetched: seq<Product>)
    requires Inv(s)
    ensures Inv(OnCatalogLoaded(s, fetched).state)
  {
  }

  lemma CartChangedKeepsInv(s: App)
    requires Inv(s)
    ensures Inv(OnCartChanged(s).state)
  {
  }

  lemma ProductSelectKeepsInv(s: App, id: string)
    requires Inv(s)
    ensures Inv(OnProductSelect(s, id).state)
  {
  }

  lemma OrderOpenKeepsInv(s: App, ps: seq<Product>, total: int)
    requires Inv(s)
    ensures Inv(OnOrderOpen(s, ps, total).state)
  {
  }

  lemma ModalCloseKeepsInv(s: App)
    requires Inv(s)
    ensures Inv(OnModalClose(s).state)
  {
  }

  /** Every handler keeps the invariant. */
  lemma ApplyKeepsInv(s: App, input: Input)
    requires Inv(s)
    ensures Inv(Apply(s, input).state)
  {
    match input
    case ClickPayment(name) => PaymentClickKeepsInv(s, name);
    case TypeAddress(value) => AddressInputKeepsInv(s, value);
    case ClickNext => PaymentNextKeepsInv(s);
    case TypeContacts(email, phone) => ContactsInputKeepsInv(s, email, phone);
    case Submit => SubmitKeepsInv(s);
    case CloseSuccess => SuccessCloseKeepsInv(s);
    case AddToCart(_) => CartHandlersKeepInv(s, input);
    case RemoveFromCart(_) => CartHandlersKeepInv(s, input);
    case DeleteFromCart(_) => CartHandlersKeepInv(s, input);
    case OpenCart => CartHandlersKeepInv(s, input);
    case Checkout => CartHandlersKeepInv(s, input);
    case CatalogLoaded(fetched) => CatalogLoadedKeepsInv(s, fetched);
    case DeliverCartChanged => CartChangedKeepsInv(s);
    case SelectProduct(id) => ProductSelectKeepsInv(s, id);
    case DeliverOrderOpen(ps, total) => OrderOpenKeepsInv(s, ps, total);
    case CloseModal => ModalCloseKeepsInv(s);
  }

  /** The invariant holds on every page reached from the initial one. */
  lemma {:induction false} RunKeepsInv(s: App, inputs: seq<Input>)
    requires Inv(s)
    ensures Inv(Run(s, inputs))
    decreases |inputs|
  {
    if |inputs| > 0 {
      ApplyKeepsInv(s, inputs[0]);
      RunKeepsInv(Apply(s, inputs[0]).state, inputs[1..]);
    }
  }

  /** The three calls of the script that name something their receiver does
      not provide, each of which throws a TypeError while the script is
      evaluated. `true` means the call is as written:
      - `cartViewArgs`: `new CartView()` at line 51 passes no event bus,
        and the constructor registers a listener on it;
      - `onCheckoutCall`: `cartView.onCheckout(...)` at line 108 calls a
        method the cart view does not define;
      - `fetchProductsCall`: `catalogApi.fetchProducts()` at line 300 calls a
        method the loader does not define. */
  datatype Defects = Defects(cartViewArgs: bool, onCheckoutCall: bool, fetchProductsCall: bool)

  /** The page once the script has been evaluated and the catalog request
      has settled, and the line of the script whose TypeError stopped the
      evaluation, if one did. */
  datatype Boot = Boot(page: App, stoppedAt: Option<nat>)

  /** The top-level line of the script whose evaluation installs the
      listener an input reaches: an `eventBus.on` line, the DOM listener of
      the header basket, the catalog request's `then`, the modal manager's
      construction, or the handler that installs the listener when it runs
      (the cart's delete buttons from 'cart:open', the checkout forms and the
      success screen from 'order:open'). */
  function ListenerLine(input: Input): (n: nat)
    ensures 56 <= n <= 317
  {
    match input
    case CatalogLoaded(_) => 300
    case DeliverCartChanged => 65
    case SelectProduct(_) => 71
    case AddToCart(_) => 91
    case RemoveFromCart(_) => 97
    case OpenCart => 317
    case DeleteFromCart(_) => 103
    case Checkout => 108
    case DeliverOrderOpen(_, _) => 115
    case ClickPayment(_) => 115
    case TypeAddress(_) => 115
    case ClickNext => 115
    case TypeContacts(_, _) => 115
    case Submit => 115
    case CloseSuccess => 115
    case CloseModal => 56
  }

  /** The input's listener exists: the evaluation ran past its line. */
  predicate Listens(b: Boot, input: Input) {
    b.stoppedAt.None? || ListenerLine(input) < b.stoppedAt.value
  }

  /** The page after the inputs, from the page the evaluation left: an input
      whose listener was never installed reaches no handler and changes
      nothing; every other input goes to its handler. */
  function RunFrom(b: Boot, inputs: seq<Input>): App
    decreases |inputs|
  {
    if |inputs| == 0 then b.page
    else if Listens(b, inputs[0]) then RunFrom(b.(page := Apply(b.page, inputs[0]).state), inputs[1..])
    else RunFrom(b, inputs[1..])
  }

  /** With every listener installed, running from the boot is running the
      handlers on every input. */
  lemma {:induction false} FullBootRunsEveryInput(b: Boot, inputs: seq<Input>)
    requires b.stoppedAt.None?
    ensures RunFrom(b, inputs) == Run(b.page, inputs)
    decreases |inputs|
  {
    if |inputs| > 0 {
      FullBootRunsEveryInput(b.(page := Apply(b.page, inputs[0]).state), inputs[1..]);
    }
  }

  /** With no listener installed, no input changes the page. */
  lemma {:induction false} DeafBootKeepsPage(b: Boot, inputs: seq<Input>)
    requires forall input :: !Listens(b, input)
    ensures RunFrom(b, inputs) == b.page
    decreases |inputs|
  {
    if |inputs| > 0 {
      DeafBootKeepsPage(b, inputs[1..]);
    }
  }

  /** Evaluating the script: it stops at the first defective call in line
      order, with the page as initialised; with none left, the loader's
      `getProducts` answers for the request's outcome `fetched` and the
      answer is stored and shown, with no cart flag set. */
  function StartupWith(d: Defects, api: CatalogApi.Api, fetched: Option<seq<CatalogApi.RawProduct>>): (r: Boot)
    ensures d.cartViewArgs ==> r == Boot(Initial(), Some(51))
    ensures !d.cartViewArgs && d.onCheckoutCall ==> r == Boot(Initial(), Some(108))
    ensures !d.cartViewArgs && !d.onCheckoutCall && d.fetchProductsCall ==> r == Boot(Initial(), Some(300))
    ensures !d.cartViewArgs && !d.onCheckoutCall && !d.fetchProductsCall ==>
              && r.stoppedAt == None
              && r.page == OnCatalogLoaded(Initial(), CatalogApi.GetProducts(api, fetched).1).state
  {
    if d.cartViewArgs then Boot(Initial(), Some(51))
    else if d.onCheckoutCall then Boot(Initial(), Some(108))
    else if d.fetchProductsCall then Boot(Initial(), Some(300))
    else Boot(OnCatalogLoaded(Initial(), CatalogApi.GetProducts(api, fetched).1).state, None)
  }

  /** The script as written: it stops at line 51, before any listener of the
      script is installed, so no input reaches a handler and the page stays
      as initialised, whatever the catalog request would have answered. */
  function StartupAsWritten(api: CatalogApi.Api, fetched: Option<seq<CatalogApi.RawProduct>>): (r: Boot)
    ensures r.stoppedAt == Some(51)
    ensures forall input :: !Listens(r, input)
    ensures r.page.products == [] && r.page.gallery == [] && r.page.cart == Empty()
  {
    StartupWith(Defects(true, true, true), api, fetched)
  }

  /** The script as intended: it runs to the end, every listener exists, the
      loader's valid products are stored and shown unflagged, and the page
      satisfies the invariant, so every later input keeps it
      (`RunKeepsInv`). */
  function Startup(api: CatalogApi.Api, fetched: Option<seq<CatalogApi.RawProduct>>): (r: Boot)
    ensures r.stoppedAt == None && forall input :: Listens(r, input)
    ensures fetched.Some? ==> r.page.products == CatalogApi.ValidProducts(fetched.value)
    ensures fetched.None? ==> r.page.products == []
    ensures |r.page.gallery| == |r.page.products|
    ensures forall i | 0 <= i < |r.page.gallery| :: r.page.gallery[i] == Card(r.page.products[i], false)
    ensures Inv(r.page)
  {
    var loaded := CatalogApi.GetProducts(api, fetched).1;
    InitialInv();
    CatalogLoadedKeepsInv(Initial(), loaded);
    StartupWith(Defects(false, false, false), api, fetched)
  }

  /** With the cart view given its arguments, the script stops at line 108:
      the modal manager and the event listeners of lines 65 to 103 exist, but
      neither the checkout hook nor the header basket does, so the cart cannot
      be opened from the page and no order can be started. */
  lemma OnCheckoutStopsScript(api: CatalogApi.Api, fetched: Option<seq<CatalogApi.RawProduct>>, input: Input)
    ensures var b := StartupWith(Defects(false, true, true), api, fetched);
            && b.stoppedAt == Some(108)
            && (Listens(b, input) <==>
                  input.DeliverCartChanged? || input.SelectProduct? || input.AddToCart? || input.RemoveFromCart?
                  || input.DeleteFromCart? || input.CloseModal?)
  {
  }

  /** With the cart view and the checkout hook corrected, the script stops at
      line 300: every listener but the catalog's and the header basket's
      exists, and the gallery is empty. Corrected too, a request returning a
      valid product shows it. */
  lemma FetchProductsStopsScript(api: CatalogApi.Api, raws: seq<CatalogApi.RawProduct>, input: Input)
    requires CatalogApi.ValidProducts(raws) != []
    ensures var b := StartupWith(Defects(false, false, true), api, Some(raws));
            && b.stoppedAt == Some(300) && b.page.gallery == []
            && (Listens(b, input) <==> !input.CatalogLoaded? && !input.OpenCart?)
    ensures |Startup(api, Some(raws)).page.gallery| == |CatalogApi.ValidProducts(raws)| > 0
  {
  }

  /** The script as written ignores the user: whatever the inputs, the page
      stays as initialised. */
  lemma {:induction false} AsWrittenIgnoresInputs(api: CatalogApi.Api, fetched: Option<seq<CatalogApi.RawProduct>>, inputs: seq<Input>)
    ensures RunFrom(StartupAsWritten(api, fetched), inputs) == Initial()
  {
    DeafBootKeepsPage(StartupAsWritten(api, fetched), inputs);
  }

  /** The page has not left the catalog: the modal shows nothing or a
      product, and the order is as new. */
  predicate CatalogOnly(s: App) {
    (s.screen.NoContent? || s.screen.ProductScreen?) && s.order == New()
  }

  /** A boot stopped at line 108 keeps the page on the catalog: without the
      checkout hook and the header basket, the cart screen never shows, so
      neither its delete buttons nor any checkout step is reached. */
  lemma {:induction false} CheckoutStopKeepsCatalogOnly(b: Boot, inputs: seq<Input>)
    requires b.stoppedAt == Some(108) && CatalogOnly(b.page)
    ensures CatalogOnly(RunFrom(b, inputs))
    decreases |inputs|
  {
    if |inputs| > 0 {
      if Listens(b, inputs[0]) {
        var next := b.(page := Apply(b.page, inputs[0]).state);
        assert CatalogOnly(next.page);
        CheckoutStopKeepsCatalogOnly(next, inputs[1..]);
      } else {
        CheckoutStopKeepsCatalogOnly(b, inputs[1..]);
      }
    }
  }

  /** With only the cart view corrected, no input sequence opens the cart or
      starts an order: the payment, contacts and success screens are never
      shown, and the order stays as new. */
  lemma {:induction false} NoOrderWithoutCheckoutHook(api: CatalogApi.Api, fetched: Option<seq<CatalogApi.RawProduct>>, inputs: seq<Input>)
    ensures var p := RunFrom(StartupWith(Defects(false, true, true), api, fetched), inputs);
            && !p.screen.CartScreen? && !p.screen.PaymentScreen? && !p.screen.ContactsScreen?
            && !p.screen.SuccessScreen? && p.order == New() && !IsComplete(p.order)
  {
    CheckoutStopKeepsCatalogOnly(StartupWith(Defects(false, true, true), api, fetched), inputs);
  }

  /** Only the catalog's handler writes the products and the gallery. */
  lemma OtherHandlersKeepCatalog(s: App, input: Input)
    requires !input.CatalogLoaded?
    ensures Apply(s, input).state.products == s.products
    ensures Apply(s, input).state.gallery == s.gallery
  {
    match input
    case DeliverCartChanged =>
    case SelectProduct(_) =>
    case AddToCart(_) =>
    case RemoveFromCart(_) =>
    case OpenCart =>
    case DeleteFromCart(_) =>
    case Checkout =>
    case DeliverOrderOpen(_, _) =>
    case ClickPayment(_) =>
    case TypeAddress(_) =>
    case ClickNext =>
    case TypeContacts(_, _) =>
    case Submit =>
    case CloseSuccess =>
    case CloseModal =>
  }

  /** A boot stopped at line 300 never fills the catalog: the catalog's
      listener is missing, and no other handler touches the products or the
      gallery. */
  lemma {:induction false} CatalogStopKeepsCatalogEmpty(b: Boot, inputs: seq<Input>)
    requires b.stoppedAt == Some(300) && b.page.products == [] && b.page.gallery == []
    ensures RunFrom(b, inputs).products == [] && RunFrom(b, inputs).gallery == []
    decreases |inputs|
  {
    if |inputs| > 0 {
      if Listens(b, inputs[0]) {
        OtherHandlersKeepCatalog(b.page, inputs[0]);
        var next := b.(page := Apply(b.page, inputs[0]).state);
        CatalogStopKeepsCatalogEmpty(next, inputs[1..]);
      } else {
        CatalogStopKeepsCatalogEmpty(b, inputs[1..]);
      }
    }
  }

  /** With the cart view and the checkout hook corrected, the gallery stays
      empty whatever the user does, even when the request returned valid
      products. */
  lemma {:induction false} EmptyGalleryWithoutFetch(api: CatalogApi.Api, raws: seq<CatalogApi.RawProduct>, inputs: seq<Input>)
    ensures var p := RunFrom(StartupWith(Defects(false, false, true), api, Some(raws)), inputs);
            p.products == [] && p.gallery == []
  {
    CatalogStopKeepsCatalogEmpty(StartupWith(Defects(false, false, true), api, Some(raws)), inputs);
  }

  /** On any reachable page, an enabled submit throws exactly when the order
      holds no items or a non-positive total; otherwise the success screen
      shows that total. Address, payment and contacts are always filled by
      then. */
  lemma SubmitThrowsIffNoPositiveTotal(s: App)
    requires Inv(s) && ShowingContacts(s) && s.contacts.submitEnabled
    ensures var r := OnContactsSubmit(s);
            && (r.raised.Some? <==> |s.order.items| == 0 || s.order.total <= 0)
            && (r.raised.None? ==> r.state.screen == SuccessScreen(s.order.total))
  {
  }

  /** Closing the success screen leaves an empty cart, a reset order and a
      zero counter. */
  lemma CloseLeavesEmptyCartAndResetOrder(s: App)
    requires ShowingSuccess(s)
    ensures var t := OnSuccessClose(s).state;
            TotalCount(t.cart) == 0 && TotalPrice(t.cart) == 0 && t.order == New() && t.counter == 0
            && !IsComplete(t.order)
  {
    ClearResetsTotals(s.cart);
  }

  /** A positive total needs at least one entry. */
  lemma PositiveTotalHasItems(items: seq<CartItem>)
    requires PriceSum(items) > 0
    ensures |items| > 0
  {
  }

  /** The payment step on a shown payment form: a button with a non-empty
      name, a non-blank address, then Next. The contacts screen follows, with
      the order's address and payment method stored and the items and total
      untouched. */
  lemma PaymentPhase(s: App, name: string, address: string)
    requires Inv(s) && ShowingPayment(s)
    requires name != "" && !Blank(address)
    ensures var s2 := OnPaymentClick(s, name).state;
            var s3 := OnAddressInput(s2, address).state;
            var s4 := OnPaymentNext(s3).state;
            && Inv(s4) && ShowingContacts(s4)
            && s4.order.items == s.order.items && s4.order.total == s.order.total
  {
    var s2 := OnPaymentClick(s, name).state;
    PaymentClickKeepsInv(s, name);
    var s3 := OnAddressInput(s2, address).state;
    AddressInputKeepsInv(s2, address);
    assert s3.payment.nextEnabled;
    PaymentNextKeepsInv(s3);
  }

  /** The contacts step on a shown contacts form: non-blank contacts, then
      submit. It succeeds exactly when the order has items and a positive
      total, and then shows that total. */
  lemma ContactsPhase(s: App, email: string, phone: string)
    requires Inv(s) && ShowingContacts(s)
    requires !Blank(email) && !Blank(phone)
    ensures var r := OnContactsSubmit(OnContactsInput(s, email, phone).state);
            && (r.raised.None? <==> |s.order.items| > 0 && s.order.total > 0)
            && (r.raised.None? ==> r.state.screen == SuccessScreen(s.order.total))
  {
    var s5 := OnContactsInput(s, email, phone).state;
    ContactsInputKeepsInv(s, email, phone);
    SubmitThrowsIffNoPositiveTotal(s5);
  }

  /** The whole checkout from an open cart: checkout, delivery of its
      order:open, a payment button with a non-empty name, a non-blank
      address, Next, non-blank contacts and submit. The order receives the
      cart's ids and total, and the submit succeeds exactly when the cart's
      total price is positive, showing that total. */
  lemma CheckoutFlow(s: App, name: string, address: string, email: string, phone: string)
    requires Inv(s) && ShowingCart(s)
    requires name != "" && !Blank(address) && !Blank(email) && !Blank(phone)
    ensures var out := OnCheckout(s).emitted;
            var s1 := OnOrderOpen(s, out[0].products, out[0].total).state;
            var s4 := OnPaymentNext(OnAddressInput(OnPaymentClick(s1, name).state, address).state).state;
            var r := OnContactsSubmit(OnContactsInput(s4, email, phone).state);
            && s1.order.items == ItemIds(s.cart.items)
            && s1.order.total == TotalPrice(s.cart)
            && s4.screen == ContactsScreen
            && (r.raised.None? <==> TotalPrice(s.cart) > 0)
            && (r.raised.None? ==> r.state.screen == SuccessScreen(TotalPrice(s.cart)))
  {
    var out := OnCheckout(s).emitted;
    var s1 := OnOrderOpen(s, out[0].products, out[0].total).state;
    assert s1.order.items == ItemIds(s.cart.items);
    ApplyKeepsInv(s, DeliverOrderOpen(out[0].products, out[0].total));
    PaymentPhase(s1, name, address);
    var s4 := OnPaymentNext(OnAddressInput(OnPaymentClick(s1, name).state, address).state).state;
    ContactsPhase(s4, email, phone);
    if TotalPrice(s.cart) > 0 {
      PositiveTotalHasItems(s.cart.items);
    }
  }
}
