/** The catalog presenter: loads the product list into its own catalog,
    renders it with cart flags, and turns a product selection into a
    modal:open. */
module CatalogPresenter {
  import opened Wrappers
  import opened Products
  import opened CartModel
  import CatalogModel
  import opened Events

  /** The presenter's catalog, the cards last rendered, and how many times
      its event handlers were bound (each `init` binds them again). */
  datatype Presenter = Presenter(catalog: CatalogModel.Catalog, rendered: seq<Card>, bindings: nat)

  function Initial(): Presenter {
    Presenter(CatalogModel.Empty(), [], 0)
  }

  /** `renderCatalog`: the stored list, same order, each product flagged with
      its presence in the cart. */
  function RenderCatalog(s: Presenter, cart: Cart): (r: Presenter)
    ensures |r.rendered| == |CatalogModel.GetProducts(s.catalog)|
    ensures forall i | 0 <= i < |r.rendered| ::
              && r.rendered[i].product == CatalogModel.GetProducts(s.catalog)[i]
              && (r.rendered[i].hasCart <==> HasItem(cart, r.rendered[i].product.id))
    ensures r.catalog == s.catalog && r.bindings == s.bindings
  {
    s.(rendered := CardsFor(CatalogModel.GetProducts(s.catalog), cart))
  }

  /** `init`, with the loader's outcome as input (`None` when it threw): a
      loaded list is stored and rendered; a failure leaves catalog and view
      alone. Either way the handlers are bound. */
  function Init(s: Presenter, loaded: Option<seq<Product>>, cart: Cart): (r: Presenter)
    ensures r.bindings == s.bindings + 1
    ensures loaded.None? ==> r.catalog == s.catalog && r.rendered == s.rendered
    ensures loaded.Some? ==> CatalogModel.GetProducts(r.catalog) == loaded.value
    ensures loaded.Some? ==> r.rendered == CardsFor(loaded.value, cart)
  {
    var t := if loaded.Some? then RenderCatalog(s.(catalog := CatalogModel.SetProducts(s.catalog, loaded.value)), cart) else s;
    t.(bindings := t.bindings + 1)
  }

  /** 'product:select': an unknown id emits nothing; a known one emits one
      modal:open per binding with the catalog entry and its cart flag. The
      presenter's state does not change. */
  function OnProductSelect(s: Presenter, id: string, cart: Cart): (r: Step<Presenter>)
    ensures r.state == s
    ensures (forall i | 0 <= i < |s.catalog.products| :: s.catalog.products[i].id != id) ==> r.emitted == []
    ensures CatalogModel.GetProductById(s.catalog, id).Some? ==>
              var p := CatalogModel.GetProductById(s.catalog, id).value;
              r.emitted == Repeat(ModalOpen(Card(p, HasItem(cart, id))), s.bindings)
  {
    match CatalogModel.GetProductById(s.catalog, id)
    case None => Step(s, [])
    case Some(p) => Step(s, Repeat(ModalOpen(Card(p, HasItem(cart, p.id))), s.bindings))
  }

  /** 'catalog:open': re-render. */
  function OnCatalogOpen(s: Presenter, cart: Cart): (r: Step<Presenter>)
    ensures r.state.rendered == CardsFor(CatalogModel.GetProducts(s.catalog), cart)
    ensures r.state.catalog == s.catalog && r.emitted == []
  {
    Step(RenderCatalog(s, cart), [])
  }

  /** `init` as written: `renderCatalog` asks the presenter's catalog for
      `getAll()`, a method that catalog does not have. The TypeError is
      thrown after the store, and the `catch` swallows it, so the list is
      stored but nothing is rendered. The handlers are bound either way. */
  function InitAsWritten(s: Presenter, loaded: Option<seq<Product>>, cart: Cart): (r: Presenter)
    ensures r.bindings == s.bindings + 1
    ensures r.rendered == s.rendered
    ensures loaded.None? ==> r.catalog == s.catalog
    ensures loaded.Some? ==> CatalogModel.GetProducts(r.catalog) == loaded.value
  {
    var t := if loaded.Some? then s.(catalog := CatalogModel.SetProducts(s.catalog, loaded.value)) else s;
    t.(bindings := t.bindings + 1)
  }

  /** 'catalog:open' as written: the re-render throws the same TypeError,
      and nothing catches it inside the handler. */
  function OnCatalogOpenAsWritten(s: Presenter, cart: Cart): Result<Step<Presenter>, Thrown> {
    Failure(TypeError)
  }

  /** The two readings of `init` differ only in what is rendered: as written
      the view keeps its old cards, so a successful load of products whose
      cards differ from those is never shown; lookups, and so selections,
      behave the same. */
  lemma AsWrittenInitNeverRenders(s: Presenter, loaded: Option<seq<Product>>, cart: Cart, id: string)
    ensures InitAsWritten(s, loaded, cart) == Init(s, loaded, cart).(rendered := s.rendered)
    ensures loaded.Some? && CardsFor(loaded.value, cart) != s.rendered ==>
              InitAsWritten(s, loaded, cart).rendered != Init(s, loaded, cart).rendered
    ensures OnProductSelect(InitAsWritten(s, loaded, cart), id, cart).emitted
            == OnProductSelect(Init(s, loaded, cart), id, cart).emitted
  {
  }

  /** From the start with one product loaded: the intended `init` shows its
      card, the one as written shows nothing. */
  lemma AsWrittenInitExample(p: Product, cart: Cart)
    ensures Init(Initial(), Some([p]), cart).rendered == [Card(p, HasItem(cart, p.id))]
    ensures InitAsWritten(Initial(), Some([p]), cart).rendered == []
  {
  }

  /** After one `init`, whether or not loading succeeded, selecting a stored
      id emits exactly one modal:open carrying the first stored product with
      that id. */
  lemma SelectAfterInitEmitsOnce(loaded: Option<seq<Product>>, cart: Cart, id: string, i: nat)
    requires loaded.Some? && i < |loaded.value| && loaded.value[i].id == id
    requires forall j | 0 <= j < i :: loaded.value[j].id != id
    ensures OnProductSelect(Init(Initial(), loaded, cart), id, cart).emitted ==
              [ModalOpen(Card(loaded.value[i], HasItem(cart, id)))]
  {
  }

  /** A failed load still binds the handlers, and a selection then finds
      nothing. */
  lemma SelectAfterFailedInit(cart: Cart, id: string)
    ensures Init(Initial(), None, cart).bindings == 1
    ensures OnProductSelect(Init(Initial(), None, cart), id, cart).emitted == []
  {
  }
}
