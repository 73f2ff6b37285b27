# web-larek storefront: a Dafny model of its model layer and handlers

This project models the core of the "web-larek" storefront. It covers:

- **Cart store.** Entries stay in insertion order and product ids are unique. A product without a price counts as 0 in the total.
- **Legacy cart.** The older cart has no deduplication.
- **Order builder.** It collects the item ids, total, address, payment method, e-mail and phone. A completeness gate decides whether `getData` returns the order or throws.
- **Product and order validators.** There is one product rule, which exists in two copies. E-mail, phone and address each have a regular expression, stated here as predicates on characters.
- **Catalog stores and loaders.** There are three replace-and-lookup stores and two catalog loaders, which keep only the valid products, in order.
- **Checkout coordination.** This is the event handlers of the entry script and of the presenters.
- **String helpers.** `pascalToKebab`, `isSelector` and `bem`.

Everything is written as immutable datatypes and pure functions.

An event handler is a function from a state to a new state plus the trace of events it emits. Emitting an event only appends to that trace. A presenter's completion callback is recorded in the trace too (`PaymentStepDone`, `ContactsStepDone`).

The DOM enters the model in three ways:
- A disabled button's click never reaches its handler.
- A control inside the modal can be used only while the modal is visible and shows that control's screen.
- A listener exists only after the code that installs it has run.

Prices and totals are integers. JavaScript's `null` price is `None`. Strings are sequences of code points.

Points where the code's behaviour is easy to misread:
- **`isComplete` does not trim.** A field of spaces counts as filled (`OrderModel.SpacesCountAsFilled`).
- **`addItem` and `removeItem` return `void`.** A caller cannot tell whether anything changed. The model's functions return only the new cart.
- **The two `order:open` payloads have different shapes.** The entry script sends the cart's products (`OrderOpen`). The cart presenter sends the cart entries, i.e. `{product}` records (`OrderOpenEntries`). The model keeps the two shapes apart. `setCart` reads `.id` off each element, which is right only for the entry script's payload. The entry script does not instantiate the cart presenter, so the two never meet.
- **No order is ever submitted.** The order API is constructed but never called, so there is no submission or success event.

Several calls fail as written, each with a TypeError:
- `src/model/catalogApi.ts:47` calls `getAll()` on the catalog of `src/model/catalogModel.ts`, which has only `getProducts()`.
- `src/presenter/CatalogPresenter.ts:70` makes the same call.
- `src/index.ts:51` constructs the cart view with no arguments, so its constructor's `this.eventBus.on` (`src/view/cart/cartView.ts:51`) reads a property of `undefined`. The entry script stops there, before the modal manager (:56) exists and before any listener is installed.
- `src/index.ts:108` calls `cartView.onCheckout`, which the cart view does not define. With the cart view given its arguments, this is where the script stops.
- `src/index.ts:300` (and `:209`) calls `fetchProducts()`, which no loader defines. With the two earlier calls corrected as well, this is where the script stops, before the header basket is wired at :317.

The entry script is modelled in stages (`App.StartupWith`): each of the three script calls can be taken as written or corrected, and the listeners installed before the first failing line are exactly those that exist. The user's inputs after the evaluation go through `App.RunFrom`, which hands an input to its handler only when its listener exists and otherwise leaves the page as it is. "## Findings" records each call as written, next to the intended reading: "the stored list" for `getAll()`, the script's own event bus, modal manager and cart for the cart view, a registered checkout handler for `onCheckout`, and the loader's `getProducts()` for `fetchProducts()`. The rest of the model uses the intended reading.

## Model

| member | source | states |
|---|---|---|
| CartModel.HasItem | src/model/cartModel.ts:24-26 | true exactly when some entry's product id equals the id |
| CartModel.GetItems | src/model/cartModel.ts:15-17 | the ids of the returned entries are exactly the ids `hasItem` answers true for; stored with distinct ids, they come back distinct |
| CartModel.AddItem | src/model/cartModel.ts:32-36 | afterwards the id is present; a present id leaves the cart unchanged; a new id appends exactly one entry at the end; earlier entries keep their order; no other id changes membership; distinct ids stay distinct |
| CartModel.Without | src/model/cartModel.ts:42-44 | the filter keeps exactly the entries with another id (every kept entry was there, every entry with another id is kept); it is the identity when the id is absent; it keeps ids distinct |
| CartModel.RemoveItem | src/model/cartModel.ts:42-44 | afterwards the id is absent; no other id changes membership; an absent id leaves the cart unchanged; distinct ids stay distinct |
| CartModel.WithoutAppend | src/model/cartModel.ts:42-44 | removal distributes over concatenation, so the remaining entries keep their relative order |
| CartModel.RemoveDropsTheEntry | src/model/cartModel.ts:42-44 | in a cart with distinct ids, removing an entry's id leaves exactly the entries before it followed by the entries after it |
| CartModel.EmptyHoldsNothing | src/model/cartModel.ts:9 | a new cart counts no entries, totals 0, and `hasItem` is false for every id |
| CartModel.Clear | src/model/cartModel.ts:49-51 | the result is the empty cart |
| CartModel.ClearResetsTotals | src/model/cartModel.ts:49-51 | after clear the count and the total price are 0 and ids are trivially distinct |
| CartModel.TotalCount | src/model/cartModel.ts:57-59 | the count is the number of entries |
| CartModel.PriceSum | src/model/cartModel.ts:65-67 | the sum is non-negative when every price is, and 0 when every product is priceless |
| CartModel.TotalPrice | src/model/cartModel.ts:65-67 | an empty cart, or one whose entries are all priceless, totals 0; with no negative price among the entries the total is not negative |
| CartModel.PriceSumAppend | src/model/cartModel.ts:65-67 | the sum of a concatenation is the sum of the parts |
| CartModel.AddItemTotalPrice | src/model/cartModel.ts:65-67 | adding a new product raises the total by its price (0 if priceless); adding a present one leaves it |
| CartModel.AddPricelessKeepsTotal | src/model/cartModel.ts:65-67 | adding a priceless product never changes the total |
| CartModel.AddItemIdempotent | src/model/cartModel.ts:32-36 | adding the same product twice is the same as adding it once |
| CartModel.AddedIdOccursOnce | src/model/cartModel.ts:32-36 | in a cart with distinct ids, a product added twice occurs exactly once |
| CartModel.TwoProductScenario | src/model/cartModel.ts:32-67 | a product priced 100 and a priceless one added to an empty cart give a count of 2 and a total of 100 |
| LegacyCart.Empty | src/model/Cart.ts:8 | a new legacy cart returns no entries, and clearing it changes nothing |
| LegacyCart.GetItems | src/model/Cart.ts:10-12 | the entries returned are empty exactly when clearing would change nothing; their order is the insertion order (`InsertionOrder`) |
| LegacyCart.AddItem | src/model/Cart.ts:14-16 | always appends exactly one entry at the end, leaving the earlier entries unchanged |
| LegacyCart.Clear | src/model/Cart.ts:18-20 | the result has no entries |
| LegacyCart.InsertionOrder | src/model/Cart.ts:10-16 | `getItems` after adding a sequence of products returns the earlier entries followed by the products, in that order; from a new cart, entry i wraps the i-th product |
| LegacyCart.DuplicatesKept | src/model/Cart.ts:14-16 | adding the same product twice leaves two entries with its id at the end |
| LegacyCart.AgreesOnNewIds | src/model/Cart.ts:14-16 | for a product whose id is not yet present, the legacy cart and the deduplicating cart add the same entry |
| OrderModel.New | src/model/orderModel.ts:9-14 | a new builder is incomplete, its data request fails with the incomplete-order error, and no address, payment, e-mail or phone is set |
| OrderModel.SetCart | src/model/orderModel.ts:21-23 | the item ids are the products' ids in the same order with duplicates kept; the total is replaced; address, payment, e-mail and phone are untouched |
| OrderModel.SetAddress | src/model/orderModel.ts:34-37 | only the address changes, to the given value |
| OrderModel.SetPaymentMethod | src/model/orderModel.ts:43-46 | only the payment method changes, to the given value |
| OrderModel.SetContacts | src/model/orderModel.ts:53-57 | only e-mail and phone change, to the given values |
| OrderModel.GetData | src/model/orderModel.ts:79-94 | fails with the incomplete-order error exactly when the order is incomplete (no items, total not positive, or a field absent or empty); otherwise returns exactly the stored fields |
| OrderModel.GetDataRoundTrip | src/model/orderModel.ts:86-93 | the returned data rebuilds the order it came from; conversely, data with items, a positive total and non-empty fields comes back unchanged from the order built from it |
| OrderModel.Reset | src/model/orderModel.ts:99-107 | the result is the freshly constructed order |
| OrderModel.NewIsIncomplete | src/model/orderModel.ts:9-14 | a fresh order is incomplete and its data request fails |
| OrderModel.ResetIsIdempotent | src/model/orderModel.ts:99-107 | resetting twice equals resetting once, and a reset order is incomplete |
| OrderModel.SettersOverwrite | src/model/orderModel.ts:34-57 | the last write of a field wins, and setters of different fields commute |
| OrderModel.IsComplete | src/model/orderModel.ts:63-72 | true exactly when there are items, the total is positive, and address, payment, e-mail and phone are each present with at least one character (no trimming); a complete builder is rebuilt from its items, total and four strings |
| OrderModel.FilledStepsComplete | src/model/orderModel.ts:63-72 | after setCart and the address, payment and contacts setters, the order is complete exactly when there is a product, the total is positive and the four values are non-empty |
| OrderModel.SpacesCountAsFilled | src/model/orderModel.ts:63-72 | an address of two spaces counts as filled: completeness does not trim |
| ProductValidation.Validate | src/utils/productValidation.ts:15-25 | true exactly when the title is not all whitespace and the price is absent or positive; the warning it logs does not change the verdict |
| ProductValidation.ValidateQuiet | src/presenter/ProductValidation.ts:4-8 | the same rule on the title's characters and the price, and the same verdict as the logging copy on every product |
| ProductValidation.ValidateCharacterised | src/utils/productValidation.ts:15-19 | a product is valid exactly when its title has a non-whitespace character and its price is absent or positive |
| ProductValidation.NonPositivePriceRejected | src/utils/productValidation.ts:17 | a price of 0 or below is rejected whatever the title, by both copies |
| ProductValidation.PricelessAccepted | src/utils/productValidation.ts:17 | a priceless product with a non-blank title is accepted by both copies |
| ProductValidation.BlankTitleRejected | src/utils/productValidation.ts:16 | a whitespace-only title is rejected whatever the price, by both copies |
| ProductValidation.VerdictDependsOnTitleAndPrice | src/utils/productValidation.ts:15-25 | two products with the same title and price get the same verdict |
| ProductValidation.CopiesAgree | src/presenter/ProductValidation.ts:4-8 | the logging-free copy agrees with the logging one on every product |
| ProductValidation.CatalogExample | src/utils/productValidation.ts:15-19 | an empty title and a price of 0 are rejected; a titled product that is priceless or has a positive price is accepted |
| OrderValidation.ValidateEmail | src/utils/orderValidation.ts:4-7 | true exactly when the string matches the pattern: a non-empty part before a single '@', a part after it with a '.' that is neither its first nor its last character, no whitespace and no second '@' |
| OrderValidation.EmailChecksIffPattern | src/utils/orderValidation.ts:5 | the first-'@' check procedure accepts exactly the strings that have such a decomposition |
| OrderValidation.OnlyOneAt | src/utils/orderValidation.ts:5 | a string of the pattern has no white space and no '@' other than the one between its first two parts |
| OrderValidation.SoleAtIsFirst | src/utils/orderValidation.ts:5 | an '@' that is the only one is found first, and none follows it |
| OrderValidation.InnerDotAfterAt | src/utils/orderValidation.ts:5 | a '.' strictly between the character after the '@' and the last character is an inner dot of the part after the '@' |
| OrderValidation.ValidatePhone | src/utils/orderValidation.ts:12-15 | true exactly when every character is an ASCII digit, except an optional '+' at the start, and there are 10 to 15 digits; so no whitespace, and no '+' elsewhere |
| OrderValidation.ValidateAddress | src/utils/orderValidation.ts:20-23 | true exactly when the address has at least 5 characters, each a Latin letter, Cyrillic а–я, А–Я, ё or Ё, an ASCII digit, whitespace, ',', '.' or '-' |
| OrderValidation.EmailExamples | src/utils/orderValidation.ts:4-7 | "a@b.co" passes; "a@b.", with its '.' last, fails |
| OrderValidation.EmailRejections | src/utils/orderValidation.ts:4-7 | a space ("a b@c.de") and a second '@' ("a@b@c.de") each make it fail |
| OrderValidation.PhoneExamples | src/utils/orderValidation.ts:12-15 | '+' with eleven digits passes; nine digits, an inner space and an inner '+' fail |
| OrderValidation.AddressExamples | src/utils/orderValidation.ts:20-23 | a Latin and a Cyrillic address pass; a '/' and a four-character address fail |
| Products.FindById | src/model/catalogModel.ts:40-50 | nothing exactly when no product has the id; otherwise a stored product with that id, namely the first one |
| Products.FindByIdAppend | src/model/catalogModel.ts:41 | a lookup in a concatenation finds the first part's match if there is one, else the second part's |
| CatalogModel.Empty | src/model/catalogModel.ts:13 | a fresh catalog lists no products |
| CatalogModel.SetProducts | src/model/catalogModel.ts:27-33 | afterwards the catalog lists exactly the given products, in order, duplicates kept |
| CatalogModel.GetProducts | src/model/catalogModel.ts:19-21 | every product the id lookup answers is in the returned list, and every listed product is found by its id |
| CatalogModel.GetProductById | src/model/catalogModel.ts:40-50 | nothing exactly when no stored product has the id; otherwise the first stored product with it; the lookup cannot change the store |
| LegacyCatalog.Empty | src/model/Catalog.ts:13 | a fresh catalog lists no products |
| LegacyCatalog.SetProducts | src/model/Catalog.ts:15-17 | afterwards `getAll` returns exactly the given products |
| LegacyCatalog.GetAll | src/model/Catalog.ts:23-25 | every product the id lookup answers is in the returned list, and every listed product is found by its id |
| LegacyCatalog.GetProducts | src/model/Catalog.ts:23-29 | yields the same list as `getAll` |
| LegacyCatalog.GetProductById | src/model/Catalog.ts:19-21 | nothing exactly when absent; otherwise the first stored product with the id |
| ProductsModel.Empty | src/model/productsModel.ts:8-9 | no products and no current product |
| ProductsModel.SetProducts | src/model/productsModel.ts:15-17 | the list is replaced and the current product is untouched |
| ProductsModel.GetProducts | src/model/productsModel.ts:23-25 | every product the id lookup answers is in the returned list, and every listed product is found by its id |
| ProductsModel.GetProductById | src/model/productsModel.ts:32-34 | nothing exactly when absent; otherwise the first stored product with the id |
| ProductsModel.SetCurrent | src/model/productsModel.ts:40-42 | the current product becomes the given one and the list is untouched |
| ProductsModel.CurrentIsLastSet | src/model/productsModel.ts:40-50 | `getCurrent` (:48-50) answers nothing on a new store, and afterwards the last product set, whatever lists were stored in between; setting the current product as current again changes nothing |
| Seqs.Filter | src/model/catalogApi.ts:43 | the kept elements all pass, every kept element was in the input, and every passing input element is kept |
| Seqs.FilterAppend | src/model/catalogApi.ts:43 | filtering distributes over concatenation, so order is preserved |
| CatalogApi.ToProduct | src/model/catalogApi.ts:33-40 | each field of the product is the raw item's field of the same name |
| CatalogApi.ToProducts | src/model/catalogApi.ts:31-41 | one product per raw item, in order, each copied field for field |
| CatalogApi.ValidProducts | src/model/catalogApi.ts:43 | every returned product is valid, and a raw item's product is returned exactly when it is valid |
| CatalogApi.ValidProductsAppend | src/model/catalogApi.ts:31-43 | the kept products of a concatenation are the kept products of each part, in order |
| CatalogApi.AllValidKept | src/model/catalogApi.ts:43 | when every raw item is valid, nothing is dropped |
| CatalogApi.GetProducts | src/model/catalogApi.ts:26-52 | as intended (the stored list in place of `getAll()`): a successful fetch stores and returns the valid products in order; a failed fetch returns the empty list and leaves the catalog unchanged |
| CatalogApi.GetProductsAsWritten | src/model/catalogApi.ts:26-52 | as written: the answer is always the empty list; a successful fetch still stores the valid products; a failed one leaves the catalog unchanged |
| CatalogApi.AsWrittenLoadAnswersEmpty | src/model/catalogApi.ts:44-51 | both readings store the same catalog, and their answers agree exactly when no fetched item is valid |
| CatalogApi.AsWrittenLoadExample | src/model/catalogApi.ts:26-52 | one valid item: the intended answer is its product, the answer as written is empty |
| CatalogApi.GetProductById | src/model/catalogApi.ts:59-65 | the catalog's lookup result, with the loader unchanged |
| CatalogApi.LoadedLookupFindsValid | src/model/catalogApi.ts:44-65 | after a successful load, a lookup finds only products that passed validation |
| CatalogApi.GetProductsStrict | src/components/base/catalogApi.ts:12-22 | a successful fetch stores and returns the valid products in order; a failure propagates as an error and leaves the catalog unchanged |
| CatalogApi.GetProductByIdStrict | src/components/base/catalogApi.ts:24-26 | exactly the catalog lookup |
| CatalogApi.LoadersAgree | src/components/base/catalogApi.ts:12-22 | on a successful fetch both loaders return the same list |
| Utils.MatchStep | src/utils/utils.ts:2 | at a match the replacement emits the pair with a hyphen between, as the boundary reading does |
| Utils.CopyStep | src/utils/utils.ts:2 | where no match starts, the character is copied, as in the boundary reading |
| Utils.ReplaceIsHyphenate | src/utils/utils.ts:2 | the global left-to-right regular-expression replacement inserts a hyphen before exactly the capitals that follow a class character |
| Utils.HyphenateLength | src/utils/utils.ts:2 | each boundary adds exactly one character |
| Utils.PascalToKebab | src/utils/utils.ts:1-3 | the result has no ASCII capital; it is the boundary hyphenation of the input, lower-cased, with the class as written (a–z, '0', U+2013, '9'); its length is the input length plus the number of boundaries; an all-lower-case input comes back unchanged |
| Utils.KebabExamples | src/utils/utils.ts:2 | "aB" gives "a-b" and "a9B" gives "a9-b" |
| Utils.CapitalPairExample | src/utils/utils.ts:2 | "AB" gives "ab": a capital after a capital gets no hyphen |
| Utils.PascalToKebabIntended | src/utils/utils.ts:1-3 | the same properties with the class a–z, 0–9 |
| Utils.EnDashDropsDigitBoundary | src/utils/utils.ts:2 | on "a1B" the code as written gives "a1b": no hyphen after the digit 1 |
| Utils.IntendedKeepsDigitBoundary | src/utils/utils.ts:2 | with the class a–z, 0–9 the same input gives "a1-b" |
| Utils.ClassesAgreeOffDigits | src/utils/utils.ts:2 | the two classes give the same hyphenation on every input without a digit 1–8 or an en dash right before a capital |
| Utils.IsSelector | src/utils/utils.ts:5-7 | true exactly for a string longer than one character; false for anything that is not a string |
| Utils.Bem | src/utils/utils.ts:60-72 | the selector is '.' followed by the name; the name is the block, then "__element" when the element is non-empty, then "_modifier" when the modifier is non-empty |
| Utils.BemAbsentIsEmpty | src/utils/utils.ts:65-67 | an absent part and an empty part give the same result |
| Utils.BemExamples | src/utils/utils.ts:60-72 | concrete names and selectors for an element and a modifier |
| Events.CardsFor | src/presenter/CatalogPresenter.ts:69-76 | the products in the same order, each flagged exactly when its id is in the cart |
| Forms.SelectedMethod | src/view/order/paymentView.ts:100-105 | a method is selected exactly when a button is active and its name is non-empty, and it is that name |
| Forms.RefreshNext | src/presenter/paymentPresenter.ts:61-65 | Next is enabled exactly when the trimmed address is non-empty and a method is selected |
| Forms.NextEnabledMeansFilled | src/presenter/paymentPresenter.ts:61-65 | when the form and the order agree and Next is enabled, the order's address and payment method are filled |
| Forms.ClickPayment | src/presenter/paymentPresenter.ts:30-39 | the clicked button becomes the only active one; a non-empty name is stored as the payment method, an empty one stores nothing; Next follows the rule; form-order agreement is kept |
| Forms.TypeAddress | src/presenter/paymentPresenter.ts:43-48 | the trimmed input is stored as the address; Next follows the rule; form-order agreement is kept |
| CartPresenter.Render | src/presenter/CartPresenter.ts:69-75 | the list view shows the cart's entries and total price, and the counter equals the entry count |
| CartPresenter.OnCartAdd | src/presenter/CartPresenter.ts:28-31 | exactly the effect of the cart's addItem |
| CartPresenter.OnCartRemove | src/presenter/CartPresenter.ts:33-36 | exactly the effect of the cart's removeItem |
| CartPresenter.OnCartOpen | src/presenter/CartPresenter.ts:38-45 | on the first open the list view's handler slots are set, on later opens they stay as they are; then the cart is rendered and shown |
| CartPresenter.OnUiRemove | src/presenter/CartPresenter.ts:52-56 | once the remove slot holds the presenter's handler, removes the id and re-renders with the counter equal to the entry count; with the default no-op handler, nothing happens |
| CartPresenter.OnCheckout | src/presenter/CartPresenter.ts:58-63 | once the checkout slot holds the presenter's handler, exactly one order:open carrying the current entries and total price; with the default no-op, none; the state is unchanged |
| CartPresenter.RunPreservesWiring | src/presenter/CartPresenter.ts:38-45 | over any input sequence, the handler slots are set exactly when the presenter is mounted (once, on the first open), and cart ids stay distinct |
| CartPresenter.CheckoutEmitsOnce | src/presenter/CartPresenter.ts:38-63 | after any history, checkout emits exactly one order:open once the cart has been opened, and none before |
| PaymentPresenter.Init | src/presenter/paymentPresenter.ts:23-25 | wiring happens once; a second call changes nothing |
| PaymentPresenter.OnPaymentClick | src/presenter/paymentPresenter.ts:28-41 | before init nothing happens; afterwards only the clicked button is active, a non-empty name is stored, and Next is enabled exactly when the trimmed address is non-empty and the name is non-empty |
| PaymentPresenter.OnAddressInput | src/presenter/paymentPresenter.ts:43-49 | stores the trimmed input; Next is enabled exactly when that input is non-blank and a method is selected |
| PaymentPresenter.OnNext | src/presenter/paymentPresenter.ts:51-55 | the completion callback runs exactly when the listener exists and Next is enabled; nothing changes |
| PaymentPresenter.NextIgnoresOrder | src/presenter/paymentPresenter.ts:51-55 | the decision to proceed does not depend on the order, complete or not |
| PaymentPresenter.NextFiresOnlyWhenFilled | src/presenter/paymentPresenter.ts:51-65 | while the form agrees with the order, proceeding implies the order's address and payment method are filled |
| PaymentPresenter.RunKeepsSynced | src/presenter/paymentPresenter.ts:23-65 | the form-order agreement holds after any input sequence |
| ContactsPresenter.Init | src/presenter/contactsPresenter.ts:21-22 | wiring happens once; a second call changes nothing |
| ContactsPresenter.OnInput | src/presenter/contactsPresenter.ts:29-37 | once wired, submit is enabled exactly when the trimmed e-mail matches the e-mail pattern and the trimmed phone passes the phone check |
| ContactsPresenter.OnSubmit | src/presenter/contactsPresenter.ts:39-54 | before wiring, or from a disabled button, nothing happens; invalid contacts only disable submit; valid ones are stored trimmed, and the same trimmed pair is passed to the completion callback |
| ContactsPresenter.HandlersKeepConsistent | src/presenter/contactsPresenter.ts:29-49 | input events and submits keep the button's state equal to the validity of the inputs |
| ContactsPresenter.SubmitProceedsIffEnabled | src/presenter/contactsPresenter.ts:39-54 | a submit proceeds only from an enabled button; with the button in step it proceeds exactly when the button is enabled; the order holds what it passes on |
| ContactsPresenter.DisabledSubmitIgnored | src/presenter/contactsPresenter.ts:39 | valid contacts behind a disabled button: the click changes nothing and emits nothing |
| ProductModalPresenter.OnModalOpen | src/presenter/productModalPresenter.ts:28-44 | an invalid product changes nothing; a valid one becomes current and is shown |
| ProductModalPresenter.OnCartChanged | src/presenter/productModalPresenter.ts:54-64 | with no current product or a hidden modal nothing changes; otherwise the view shows the current product flagged by its presence in the cart |
| ProductModalPresenter.OnClose | src/presenter/productModalPresenter.ts:54-55 | closing hides the modal and keeps the current product, so every later cart change is ignored until a product is opened again |
| ProductModalPresenter.ReopenResyncs | src/presenter/productModalPresenter.ts:28-64 | after a close, opening a valid product and a cart change show that product flagged by its presence in the cart |
| ProductModalPresenter.CurrentStaysValid | src/presenter/productModalPresenter.ts:28-64 | only validated products ever become current; opening, cart changes and closing keep that |
| ProductModalPresenter.CartChangedIdempotent | src/presenter/productModalPresenter.ts:54-64 | repeating a cart change with the same cart has no further effect |
| CatalogPresenter.RenderCatalog | src/presenter/CatalogPresenter.ts:69-76 | as intended (the stored list in place of `getAll()`): the rendered cards are the stored list in order, each flagged exactly when its id is in the cart |
| CatalogPresenter.Init | src/presenter/CatalogPresenter.ts:25-36 | as intended (the stored list in place of `getAll()`): a loaded list is stored and rendered; a failure leaves catalog and view alone; the handlers are bound either way |
| CatalogPresenter.InitAsWritten | src/presenter/CatalogPresenter.ts:25-36 | as written: a loaded list is stored but the view keeps its cards, since the render throws inside the `try`; the handlers are bound either way |
| CatalogPresenter.AsWrittenInitNeverRenders | src/presenter/CatalogPresenter.ts:25-76 | the two readings of init differ only in the rendered cards; they differ whenever the loaded list's cards differ from those shown; selections behave the same |
| CatalogPresenter.AsWrittenInitExample | src/presenter/CatalogPresenter.ts:25-76 | one loaded product: the intended init shows its card, the one as written shows none |
| CatalogPresenter.OnProductSelect | src/presenter/CatalogPresenter.ts:42-58 | an unknown id emits nothing; a known one emits modal:open with the first stored product and its cart flag, once per binding; the presenter does not change |
| CatalogPresenter.OnCatalogOpen | src/presenter/CatalogPresenter.ts:60-63 | as intended: re-renders the stored list with cart flags |
| CatalogPresenter.SelectAfterInitEmitsOnce | src/presenter/CatalogPresenter.ts:25-58 | after one init, selecting a stored id emits exactly one modal:open with the first product bearing that id |
| CatalogPresenter.SelectAfterFailedInit | src/presenter/CatalogPresenter.ts:25-48 | after a failed load the handlers are bound once and a selection emits nothing |
| App.InlineRuleIsValidate | src/index.ts:75-76 | the rule written inline in the selection handler is the product validator |
| App.OnCatalogLoaded | src/index.ts:300-312 | the fetched list is stored, and the gallery shows it in order, flagged by cart membership |
| App.StartupWith | src/index.ts:51-319 | the script stops at its first failing call in line order (the cart view at :51, `onCheckout` at :108, `fetchProducts` at :300) with the page as initialised; with all three corrected it runs to the end and the page is the loader's answer delivered to the catalog handler |
| App.StartupAsWritten | src/index.ts:51-56 | as written: the script stops at :51, so no input has a listener; the page keeps no products, an empty gallery and an empty cart, whatever the request answers |
| App.Startup | src/index.ts:51-319 | as intended: the script runs to the end, every input has its listener, the loader's valid products are stored and shown unflagged, and the page satisfies the invariant |
| App.OnCheckoutStopsScript | src/index.ts:51-113 | with the cart view corrected, the script stops at :108; exactly the cart-change, selection, add, remove, delete and modal-close inputs have listeners |
| App.FetchProductsStopsScript | src/index.ts:300-319 | with :51 and :108 corrected, the script stops at :300: every input but the catalog's and the header basket's has a listener and the gallery is empty; corrected too, a request with a valid product shows it |
| App.FullBootRunsEveryInput | src/index.ts:51-319 | when the script ran to the end, running inputs from its page is running every input through its handler |
| App.DeafBootKeepsPage | src/index.ts:51-56 | when no listener was installed, no input sequence changes the page |
| App.AsWrittenIgnoresInputs | src/index.ts:51-56 | as written, whatever the user does afterwards, the page stays as initialised |
| App.CheckoutStopKeepsCatalogOnly | src/index.ts:65-113 | from a page that shows nothing or a product with a new order, a script stopped at :108 keeps it so under any inputs |
| App.NoOrderWithoutCheckoutHook | src/index.ts:51-113 | with only the cart view corrected, no input sequence shows the cart, payment, contacts or success screen, and the order stays new and incomplete |
| App.OtherHandlersKeepCatalog | src/index.ts:65-294 | every handler but the catalog's leaves the products and the gallery as they were |
| App.CatalogStopKeepsCatalogEmpty | src/index.ts:300-319 | a script stopped at :300 with an empty catalog keeps the products and the gallery empty under any inputs |
| App.EmptyGalleryWithoutFetch | src/index.ts:300-319 | with the cart view and the checkout hook corrected, the gallery stays empty whatever the user does, even when the request returned valid products |
| App.OnCartChanged | src/index.ts:65-69 | with no current product or a hidden modal nothing changes; otherwise the product view's button follows the cart |
| App.OnProductSelect | src/index.ts:71-89 | an unknown id or an invalid product changes nothing; a valid product becomes current and is shown with its cart flag |
| App.OnCartAdd | src/index.ts:91-95 | applies addItem, emits exactly one cart:changed, and the counter shows the entry count |
| App.OnCartRemove | src/index.ts:97-101 | applies removeItem, emits exactly one cart:changed, and the counter shows the entry count |
| App.RenderCart | src/index.ts:133-158 | the modal's content becomes the cart's entries and total price |
| App.OnCartOpen | src/index.ts:103-106 | renders the cart and shows the modal |
| App.OnCartDelete | src/index.ts:143-149 | clicking a displayed entry's delete removes its id, emits cart:changed, updates the counter and re-renders |
| App.OnCheckout | src/index.ts:108-113 | emits one order:open with the cart's products and total price |
| App.OnOrderOpen | src/index.ts:115-124 | stores the snapshot with setCart and shows a blank payment form |
| App.OnPaymentClick | src/index.ts:231-241 | only on the shown payment form: the clicked button is active, a non-empty name is stored, Next follows the rule |
| App.OnAddressInput | src/index.ts:243-248 | only on the shown payment form: the trimmed input is stored as the address, Next follows the rule |
| App.OnPaymentNext | src/index.ts:250-257 | only with Next enabled: shows a blank contacts form, with no other check |
| App.OnContactsInput | src/index.ts:276-283 | submit is enabled exactly when the trimmed e-mail and phone are both non-empty; the patterns are not consulted |
| App.OnContactsSubmit | src/index.ts:285-294 | stores the trimmed contacts; throws exactly when the resulting order is incomplete; otherwise shows the success screen with the order's total |
| App.OnSuccessClose | src/index.ts:197-208 | hides the modal, resets the order, clears the cart and the counter, blanks the forms, and emits order:reset then cart:changed |
| App.OnModalClose | src/view/base/modalManager.ts:36-39 | hides the modal and changes nothing else, no event and no error (the close callback is the default no-op; the script never sets one); the screen it showed is kept |
| App.InitialInv | src/index.ts:46-60 | the page as loaded satisfies the invariant |
| App.ApplyKeepsInv | src/index.ts:65-294 | every handler keeps the invariant: distinct cart ids, counter equal to the entry count, payment form agreeing with the order, contacts screen only with address and payment filled, submit enabled only with non-blank contacts |
| App.RunKeepsInv | src/index.ts:65-294 | the invariant holds after any input sequence |
| App.SubmitThrowsIffNoPositiveTotal | src/index.ts:288-293 | on any reachable page, an enabled submit throws exactly when the order has no items or a non-positive total; otherwise the success screen shows that total |
| App.CloseLeavesEmptyCartAndResetOrder | src/index.ts:197-201 | closing the success screen leaves an empty cart with totals 0, the counter at 0, and a fresh, incomplete order |
| App.PaymentPhase | src/index.ts:231-257 | on a shown payment form, a button with a non-empty name, a non-blank address and Next lead to the contacts form, keep the invariant and leave the order's items and total as they were |
| App.ContactsPhase | src/index.ts:276-294 | on a shown contacts form, non-blank contacts and submit succeed exactly when the order has items and a positive total, and then show that total |
| App.CheckoutFlow | src/index.ts:108-293 | from an open cart, checkout with a method, a non-blank address and non-blank contacts stores the cart's ids and total in the order, and the submit succeeds exactly when the cart's total price is positive, showing that total |

## Left out

- The event dispatcher is not part of this model. `emit` appends to a trace, and delivering an event is a separate input. Registration, wildcards and handler order are not modelled.
- DOM views, templates and modal mechanics are left out. The views enter only as the state they show and as the gates described above. The modal's own close control is an input (`App.OnModalClose`).
- The view module the product modal presenter imports (src/view/productModalView) is not part of this model. Its visibility is modelled after src/view/ProductModalView.ts: rendering a product shows the modal (:77), and the close control hides it (:25-27, :84-85), which is `ProductModalPresenter.OnClose`.
- The cart view's own DOM behaviour (its rendering and its checkout button's 'order:openPayment' emit, src/view/cart/cartView.ts:47-49) is left out. Its construction without arguments and the missing `onCheckout` enter only as the points where the script stops (see "## Findings"). Elsewhere the model takes the script's checkout handler as registered.
- `App.OnCheckout`: the cart view disables checkout when the total is 0 (src/view/cart/cartView.ts:91). The model does not gate on that, so the zero-total submit path stays reachable.
- `App.OnCatalogLoaded`: the fetch result is an input value. The refetch after the success screen closes (src/index.ts:209-217) is asynchronous network plumbing and is left out.
- App.OnSuccessClose: as written the close handler calls `fetchProducts()` at src/index.ts:209 after its resets and emits, and that call throws the TypeError of line 300. The model's contract says `r.raised == None`: the reaction's error field covers only the order error of the submit, so the thrown TypeError is not recorded. The resets and emits before it are modelled as they happen.
- `CatalogPresenter.OnCatalogOpenAsWritten` carries no contract: as written the handler always throws the TypeError of `getAll()`.
- `App.OnContactsSubmit`: the handler is `async`, so `getData` throwing is an unhandled rejection. The model records it as the reaction's raised error and leaves the page unchanged otherwise.
- Network access is left out. This covers the order API, the fetch-and-store catalog wrapper and the HTTP client. The loaders take the fetched payload as `Option<seq<RawProduct>>`.
- Logging is console output only and is a no-op here.
- Prices and totals are integers, not floating-point numbers. Price formatting and locale formatting are left out.
- String lengths count code points, while JavaScript counts UTF-16 units. The validators' length bounds agree on the characters they accept, which are all in the Basic Multilingual Plane.
- `Utils.IsSelector`: lengths count code points. JavaScript's `isSelector` counts UTF-16 units, so a single character outside the Basic Multilingual Plane (an emoji, say) is a selector there and not here.
- `Utils.PascalToKebab` and `Utils.PascalToKebabIntended`: lowercasing covers ASCII capitals only. `toLowerCase` also lowers non-ASCII letters. The hyphenation itself looks only at ASCII capitals, as the pattern does.
- The type-only files serve as the shape of `Product`, `CartItem`, `Order` and `CompletedOrder`. The base and full product interfaces are merged into one `Product`.
- The DOM helpers of src/utils/utils.ts are left out: element lookup, templates, element data, object inspection and the base view.

## Findings

| source | as written | input that shows it | evidently intended | confidence | as-written member | corrected member |
|---|---|---|---|---|---|---|
| src/utils/utils.ts:2 | the class `[a-z0–9]` uses an en dash (U+2013), so it holds a–z, '0', '–' and '9' only | "a1B" gives "a1b" | the class a–z, 0–9, giving "a1-b" | high; not executed | Utils.EnDashDropsDigitBoundary | Utils.PascalToKebabIntended, Utils.IntendedKeepsDigitBoundary |
| src/model/catalogApi.ts:47 | `this.catalog.getAll()` on a catalog that defines only `getProducts()`; the TypeError is caught at :48-51 after the store | a fetch returning one valid item answers `[]` | return the stored valid list | high; not executed | CatalogApi.GetProductsAsWritten, CatalogApi.AsWrittenLoadExample | CatalogApi.GetProducts |
| src/presenter/CatalogPresenter.ts:70 | `renderCatalog` calls `getAll()` on the same catalog; in `init` the catch at :31-33 swallows it, and in the 'catalog:open' handler it escapes | init with one loaded product renders no card | render the stored list | high; not executed | CatalogPresenter.InitAsWritten, CatalogPresenter.AsWrittenInitExample | CatalogPresenter.Init, CatalogPresenter.RenderCatalog |
| src/index.ts:51 | `new CartView()` with no arguments, while the constructor (src/view/cart/cartView.ts:25-29) takes the event bus, modal manager and cart and calls `this.eventBus.on` at :51; the script throws and stops before the modal manager (:56) and every listener exist | any page load | construct the modal manager (:56) before the cart view, then pass the script's `eventBus`, `modalManager` and `cart` (passing `modalManager` at :51 as the code stands reads a `const` before its declaration and throws a ReferenceError) | high; not executed | App.StartupAsWritten, App.AsWrittenIgnoresInputs | App.Startup, App.StartupWith, App.OnCartOpen, App.OnCheckout |
| src/index.ts:108 | `cartView.onCheckout(...)`, which the cart view does not define; with :51 corrected the script throws here, before 'order:open' is handled (:115) and the basket is wired (:317) | any page load with :51 corrected | register the checkout handler with the cart view | high; not executed | App.OnCheckoutStopsScript, App.NoOrderWithoutCheckoutHook | App.Startup, App.OnCheckout |
| src/index.ts:300 | `catalogApi.fetchProducts()`, which the loader does not define; with :51 and :108 corrected the script throws here and stops before wiring the basket at :317-319 | any page load with :51 and :108 corrected, e.g. a request returning one valid product | load through `getProducts()` | high; not executed | App.FetchProductsStopsScript, App.EmptyGalleryWithoutFetch | App.Startup, App.OnCatalogLoaded |
