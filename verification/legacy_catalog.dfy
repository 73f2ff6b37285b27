/** The older catalog store of `model/Catalog.ts`: the same replaceable list,
    readable both directly (`getAll`) and through a promise (`getProducts`). */
module LegacyCatalog {
  import opened Wrappers
  import opened Products

  datatype Catalog = Catalog(products: seq<Product>)

  /** A new catalog holds no products. */
  function Empty(): (c: Catalog)
    ensures |GetAll(c)| == 0
  {
    Catalog([])
  }

  /** `setProducts`: replaces the stored list. */
  function SetProducts(c: Catalog, products: seq<Product>): (r: Catalog)
    ensures GetAll(r) == products
  {
    Catalog(products)
  }

  /** `getAll`: the stored list. */
  function GetAll(c: Catalog): (r: seq<Product>)
    ensures forall id | GetProductById(c, id).Some? :: GetProductById(c, id).value in r
    ensures forall i | 0 <= i < |r| :: GetProductById(c, r[i].id).Some?
  {
    c.products
  }

  /** `getProducts`: the stored list, delivered by an already resolved
      promise (the promise itself is not modelled). */
  function GetProducts(c: Catalog): (r: seq<Product>)
    ensures r == GetAll(c)
  {
    c.products
  }

  /** `getProductById`: the first stored product with the id, or nothing iff
      no stored product carries it. */
  function GetProductById(c: Catalog, id: string): (r: Option<Product>)
    ensures r.None? <==> forall i | 0 <= i < |c.products| :: c.products[i].id != id
    ensures r.Some? ==> r.value in c.products && r.value.id == id
    ensures forall i | 0 <= i < |c.products| && c.products[i].id == id ::
              (forall j | 0 <= j < i :: c.products[j].id != id) ==> r == Some(c.products[i])
  {
    FindById(c.products, id)
  }
}
