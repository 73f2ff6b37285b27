/** The product modal presenter: opens the product modal for a valid product
    and keeps its "in cart" button in step with the cart. */
module ProductModalPresenter {
  import opened Wrappers
  import opened Products
  import opened CartModel
  import opened ProductValidation
  import opened Events

  /** The product last opened, the card the view last showed, and whether
      the modal is visible (opening shows it, the close control hides it).
      The cart is read, never held. */
  datatype Presenter = Presenter(current: Option<Card>, shown: Option<Card>, visible: bool)

  /** 'modal:open': a product failing validation changes nothing; a valid one
      becomes current and is shown. */
  function OnModalOpen(s: Presenter, card: Card): (r: Presenter)
    ensures !Validate(card.product) ==> r == s
    ensures Validate(card.product) ==> r == Presenter(Some(card), Some(card), true)
  {
    if !Validate(card.product) then s else Presenter(Some(card), Some(card), true)
  }

  /** 'cart:changed': with no current product or a hidden modal nothing
      happens; otherwise the view shows the current product with its
      presence in `cart`. */
  function OnCartChanged(s: Presenter, cart: Cart): (r: Presenter)
    ensures s.current.None? || !s.visible ==> r == s
    ensures s.current.Some? && s.visible ==>
              && r.shown.Some?
              && r.shown.value.product == s.current.value.product
              && (r.shown.value.hasCart <==> HasItem(cart, s.current.value.product.id))
    ensures r.current == s.current && r.visible == s.visible
  {
    if s.current.None? || !s.visible then s
    else s.(shown := Some(s.current.value.(hasCart := HasItem(cart, s.current.value.product.id))))
  }

  /** The user closes the modal with its close control: the view is no
      longer visible. The presenter keeps its current product (nothing
      clears it), so cart changes are ignored until a product is opened
      again. */
  function OnClose(s: Presenter): (r: Presenter)
    ensures !r.visible
    ensures r.current == s.current && r.shown == s.shown
    ensures forall cart :: OnCartChanged(r, cart) == r
  {
    s.(visible := false)
  }

  /** Closing and reopening: after the reopened product sees a cart change,
      its button shows its presence in that cart again. */
  lemma ReopenResyncs(s: Presenter, card: Card, cart: Cart)
    requires Validate(card.product)
    ensures var r := OnCartChanged(OnModalOpen(OnClose(s), card), cart);
            r.visible && r.shown == Some(card.(hasCart := HasItem(cart, card.product.id)))
  {
  }

  /** Only validated products are ever current: from a state where that
      holds, opening, cart changes and closing keep it. */
  lemma CurrentStaysValid(s: Presenter, card: Card, cart: Cart)
    requires s.current.Some? ==> Validate(s.current.value.product)
    ensures var r := OnModalOpen(s, card); r.current.Some? ==> Validate(r.current.value.product)
    ensures var r := OnCartChanged(s, cart); r.current.Some? ==> Validate(r.current.value.product)
    ensures var r := OnClose(s); r.current.Some? ==> Validate(r.current.value.product)
  {
  }

  /** A cart change followed by another one with the same cart is the same
      as one. */
  lemma CartChangedIdempotent(s: Presenter, cart: Cart)
    ensures OnCartChanged(OnCartChanged(s, cart), cart) == OnCartChanged(s, cart)
  {
  }
}
