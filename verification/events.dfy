/** What the handlers emit. The dispatcher is not modelled: emitting an
    event appends it to the handler's output trace, and so does invoking a
    presenter's completion callback. */
module Events {
  import opened Products
  import opened CartModel

  /** A product as the catalog and the product modal display it: the product
      plus whether it is in the cart (`{...product, hasCart}`). */
  datatype Card = Card(product: Product, hasCart: bool)

  /** The entries of an output trace, one payload shape per event name. */
  datatype Event =
    | CartChanged                                          // 'cart:changed'
    | OrderOpen(products: seq<Product>, total: int)        // 'order:open' from the entry script
    | OrderOpenEntries(entries: seq<CartItem>, total: int) // 'order:open' from the cart presenter
    | ModalOpen(card: Card)                                // 'modal:open'
    | OrderReset                                           // 'order:reset'
    | PaymentStepDone                                      // the payment presenter's onComplete()
    | ContactsStepDone(email: string, phone: string)       // the contacts presenter's onComplete(data)

  /** A handler's effect: the new state and the events it emitted, in order. */
  datatype Step<S> = Step(state: S, emitted: seq<Event>)

  /** An exception that escapes a handler: calling a method the receiver
      does not define. */
  datatype Thrown = TypeError

  /** `n` copies of `e`: one emission per bound handler. */
  function Repeat(e: Event, n: nat): (r: seq<Event>)
    ensures |r| == n
    ensures forall i | 0 <= i < n :: r[i] == e
  {
    if n == 0 then [] else [e] + Repeat(e, n - 1)
  }

  /** `products.map((product) => ({...product, hasCart: cart.hasItem(product.id)}))`:
      the list in the same order, each product flagged with its presence in
      the cart. */
  function CardsFor(products: seq<Product>, cart: Cart): (cards: seq<Card>)
    ensures |cards| == |products|
    ensures forall i | 0 <= i < |products| ::
              cards[i].product == products[i] && (cards[i].hasCart <==> HasItem(cart, products[i].id))
  {
    if |products| == 0 then []
    else [Card(products[0], HasItem(cart, products[0].id))] + CardsFor(products[1..], cart)
  }
}
