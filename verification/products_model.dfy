/** The product store of `model/productsModel.ts`: the product list plus the
    product currently selected for display. */
module ProductsModel {
  import opened Wrappers
  import opened Products

  datatype ProductModel = ProductModel(products: seq<Product>, current: Option<Product>)

  /** A new store: no products and no current product. */
  function Empty(): (m: ProductModel)
    ensures |GetProducts(m)| == 0 && GetCurrent(m).None?
  {
    ProductModel([], None)
  }

  /** `setProducts`: replaces the list; the current product stays. */
  function SetProducts(m: ProductModel, products: seq<Product>): (r: ProductModel)
    ensures GetProducts(r) == products
    ensures GetCurrent(r) == GetCurrent(m)
  {
    m.(products := products)
  }

  /** `getProducts`: the last list set. */
  function GetProducts(m: ProductModel): (r: seq<Product>)
    ensures forall id | GetProductById(m, id).Some? :: GetProductById(m, id).value in r
    ensures forall i | 0 <= i < |r| :: GetProductById(m, r[i].id).Some?
  {
    m.products
  }

  /** `getProductById`: the first product with the id, or nothing iff none
      carries it. */
  function GetProductById(m: ProductModel, id: string): (r: Option<Product>)
    ensures r.None? <==> forall i | 0 <= i < |m.products| :: m.products[i].id != id
    ensures r.Some? ==> r.value in m.products && r.value.id == id
    ensures forall i | 0 <= i < |m.products| && m.products[i].id == id ::
              (forall j | 0 <= j < i :: m.products[j].id != id) ==> r == Some(m.products[i])
  {
    FindById(m.products, id)
  }

  /** `setCurrent`: the product becomes the current one; the list stays. */
  function SetCurrent(m: ProductModel, p: Product): (r: ProductModel)
    ensures GetCurrent(r) == Some(p)
    ensures GetProducts(r) == GetProducts(m)
  {
    m.(current := Some(p))
  }

  /** `getCurrent`. */
  function GetCurrent(m: ProductModel): Option<Product> {
    m.current
  }

  /** The current product is whatever was set last, whatever lists were
      stored in between. */
  lemma CurrentIsLastSet(m: ProductModel, p: Product, ps: seq<Product>, q: Product)
    ensures GetCurrent(SetProducts(SetCurrent(m, p), ps)) == Some(p)
    ensures GetCurrent(SetCurrent(SetCurrent(m, p), q)) == Some(q)
    ensures GetCurrent(Empty()).None?
    ensures GetCurrent(m).Some? ==> SetCurrent(m, GetCurrent(m).value) == m
  {
  }
}
