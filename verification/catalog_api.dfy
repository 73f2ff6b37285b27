/** Catalog loading: the server's product list is copied into products,
    filtered by the product rule and stored. Two variants exist: the model
    folder's swallows a failed request and answers with an empty list, the
    components folder's lets the failure reach its caller. The HTTP request
    itself is an input: `None` stands for a request (or response decoding)
    that throws. */
module CatalogApi {
  import opened Wrappers
  import opened Products
  import opened ProductValidation
  import CatalogModel
  import LegacyCatalog
  import opened Seqs
  import opened Text

  /** An item of the server's product list. */
  datatype RawProduct = RawProduct(
    id: string,
    title: string,
    description: string,
    price: Option<int>,
    category: string,
    image: string)

  /** `new Product(p.id, p.title, p.description, p.price, p.category, p.image)`. */
  function ToProduct(raw: RawProduct): (p: Product)
    ensures p.id == raw.id && p.title == raw.title && p.description == raw.description
    ensures p.price == raw.price && p.category == raw.category && p.image == raw.image
  {
    Product(raw.id, raw.title, raw.description, raw.price, raw.category, raw.image)
  }

  /** The raw items copied into products, one for one. */
  function ToProducts(raws: seq<RawProduct>): (ps: seq<Product>)
    ensures |ps| == |raws|
    ensures forall i | 0 <= i < |raws| :: ps[i] == ToProduct(raws[i])
  {
    if |raws| == 0 then [] else [ToProduct(raws[0])] + ToProducts(raws[1..])
  }

  /** The products a load keeps: every raw item copied, then
      `filter(ProductValidation.validate)`. A product is kept iff it was
      copied from the list and passes the rule; the order is the list's. */
  function ValidProducts(raws: seq<RawProduct>): (ps: seq<Product>)
    ensures |ps| <= |raws|
    ensures forall i | 0 <= i < |ps| :: ValidateQuiet(ps[i])
    ensures forall x :: x in ps <==> x in ToProducts(raws) && ValidateQuiet(x)
  {
    Filter(ValidateQuiet, ToProducts(raws))
  }

  lemma ToProductsAppend(a: seq<RawProduct>, b: seq<RawProduct>)
    ensures ToProducts(a + b) == ToProducts(a) + ToProducts(b)
  {
    var l, r := ToProducts(a + b), ToProducts(a) + ToProducts(b);
    assert |l| == |r|;
    forall i | 0 <= i < |l| ensures l[i] == r[i] {
      if i < |a| {
        assert (a + b)[i] == a[i];
      } else {
        assert (a + b)[i] == b[i - |a|];
      }
    }
  }

  /** Loading two lists one after the other keeps what loading each keeps,
      in the same order. */
  lemma ValidProductsAppend(a: seq<RawProduct>, b: seq<RawProduct>)
    ensures ValidProducts(a + b) == ValidProducts(a) + ValidProducts(b)
  {
    ToProductsAppend(a, b);
    FilterAppend(ValidateQuiet, ToProducts(a), ToProducts(b));
  }

  /** When every raw item passes the rule, the load returns all of them, in
      order. */
  lemma AllValidKept(raws: seq<RawProduct>)
    requires forall i | 0 <= i < |raws| :: ValidateQuiet(ToProduct(raws[i]))
    ensures ValidProducts(raws) == ToProducts(raws)
  {
    FilterKeepsAll(ValidateQuiet, ToProducts(raws));
  }

  /** `CatalogApi` of the model folder, holding its own catalog. */
  datatype Api = Api(catalog: CatalogModel.Catalog)

  /** `getProducts` of the model folder: on a successful request the valid
      products replace the catalog and are returned; on a failed one the
      catalog is untouched and the answer is the empty list. */
  function GetProducts(api: Api, fetched: Option<seq<RawProduct>>): (r: (Api, seq<Product>))
    ensures fetched.None? ==> r.0 == api && r.1 == []
    ensures fetched.Some? ==> r.1 == ValidProducts(fetched.value)
    ensures fetched.Some? ==> CatalogModel.GetProducts(r.0.catalog) == r.1
  {
    match fetched
    case None => (api, [])
    case Some(raws) =>
      var catalog := CatalogModel.SetProducts(api.catalog, ValidProducts(raws));
      (Api(catalog), CatalogModel.GetProducts(catalog))
  }

  /** `getProducts` of the model folder as written: after the store it asks
      its catalog for `getAll()`, a method that catalog does not have. The
      TypeError lands in the same `catch` as a failed request, so a
      successful load stores the valid products and still answers with the
      empty list. */
  function GetProductsAsWritten(api: Api, fetched: Option<seq<RawProduct>>): (r: (Api, seq<Product>))
    ensures r.1 == []
    ensures fetched.None? ==> r.0 == api
    ensures fetched.Some? ==> CatalogModel.GetProducts(r.0.catalog) == ValidProducts(fetched.value)
  {
    match fetched
    case None => (api, [])
    case Some(raws) =>
      var catalog := CatalogModel.SetProducts(api.catalog, ValidProducts(raws));
      (Api(catalog), [])
  }

  /** The two readings store the same catalog; they differ exactly in the
      answer, which as written is empty whenever some fetched item is valid. */
  lemma AsWrittenLoadAnswersEmpty(api: Api, raws: seq<RawProduct>)
    ensures GetProductsAsWritten(api, Some(raws)).0 == GetProducts(api, Some(raws)).0
    ensures GetProductsAsWritten(api, Some(raws)).1 == GetProducts(api, Some(raws)).1
            <==> ValidProducts(raws) == []
  {
  }

  /** A list of one valid product: the intended answer is that product, the
      answer as written is empty. */
  lemma AsWrittenLoadExample()
    ensures var raws := [RawProduct("p1", "Pen", "", Some(100), "other", "pen.svg")];
            && GetProducts(Api(CatalogModel.Empty()), Some(raws)).1 == [Product("p1", "Pen", "", Some(100), "other", "pen.svg")]
            && GetProductsAsWritten(Api(CatalogModel.Empty()), Some(raws)).1 == []
  {
    var raws := [RawProduct("p1", "Pen", "", Some(100), "other", "pen.svg")];
    var p := Product("p1", "Pen", "", Some(100), "other", "pen.svg");
    assert ToProducts(raws) == [p];
    assert ValidateQuiet(p) by {
      assert Trim("Pen") == "Pen" by { TrimUntouched("Pen"); }
    }
    assert ValidProducts(raws) == [p];
  }

  /** `getProductById` of the model folder: the catalog's lookup. */
  function GetProductById(api: Api, id: string): (r: Option<Product>)
    ensures r == CatalogModel.GetProductById(api.catalog, id)
  {
    CatalogModel.GetProductById(api.catalog, id)
  }

  /** After a successful load, a lookup only ever finds a product that passed
      the rule and came from the server's list. */
  lemma LoadedLookupFindsValid(api: Api, raws: seq<RawProduct>, id: string)
    ensures var r := GetProductById(GetProducts(api, Some(raws)).0, id);
            r.Some? ==> ValidateQuiet(r.value) && r.value in ToProducts(raws)
  {
  }

  /** The error the components folder's loader lets through. */
  datatype LoadError = RequestFailed

  /** `CatalogApi` of the components folder, holding an older catalog. */
  datatype StrictApi = StrictApi(catalog: LegacyCatalog.Catalog)

  /** `getProducts` of the components folder: the same filter, but a failed
      request propagates and leaves the catalog untouched. */
  function GetProductsStrict(api: StrictApi, fetched: Option<seq<RawProduct>>)
    : (r: (StrictApi, Result<seq<Product>, LoadError>))
    ensures fetched.None? ==> r.0 == api && r.1 == Failure(RequestFailed)
    ensures fetched.Some? ==> r.1 == Success(ValidProducts(fetched.value))
    ensures fetched.Some? ==> LegacyCatalog.GetAll(r.0.catalog) == ValidProducts(fetched.value)
  {
    match fetched
    case None => (api, Failure(RequestFailed))
    case Some(raws) =>
      var catalog := LegacyCatalog.SetProducts(api.catalog, ValidProducts(raws));
      (StrictApi(catalog), Success(LegacyCatalog.GetAll(catalog)))
  }

  /** `getProductById` of the components folder: exactly the catalog's
      lookup. */
  function GetProductByIdStrict(api: StrictApi, id: string): (r: Option<Product>)
    ensures r == LegacyCatalog.GetProductById(api.catalog, id)
  {
    LegacyCatalog.GetProductById(api.catalog, id)
  }

  /** On a successful request both loaders return the same products. */
  lemma LoadersAgree(api: Api, strict: StrictApi, raws: seq<RawProduct>)
    ensures GetProductsStrict(strict, Some(raws)).1 == Success(GetProducts(api, Some(raws)).1)
  {
  }
}
