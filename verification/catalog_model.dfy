/** The catalog store of `model/catalogModel.ts`: a replaceable list of
    products with a first-match lookup by id. */
module CatalogModel {
  import opened Wrappers
  import opened Products

  datatype Catalog = Catalog(products: seq<Product>)

  /** A new catalog holds no products. */
  function Empty(): (c: Catalog)
    ensures |GetProducts(c)| == 0
  {
    Catalog([])
  }

  /** `getProducts`: the stored list. */
  function GetProducts(c: Catalog): (r: seq<Product>)
    ensures forall id | GetProductById(c, id).Some? :: GetProductById(c, id).value in r
    ensures forall i | 0 <= i < |r| :: GetProductById(c, r[i].id).Some?
  {
    c.products
  }

  /** `setProducts`: replaces the stored list. */
  function SetProducts(c: Catalog, products: seq<Product>): (r: Catalog)
    ensures GetProducts(r) == products
  {
    Catalog(products)
  }

  /** `getProductById`: the first stored product with the id, or nothing when
      no stored product carries it. The lookup leaves the catalog as it is. */
  function GetProductById(c: Catalog, id: string): (r: Option<Product>)
    ensures r.None? <==> forall i | 0 <= i < |c.products| :: c.products[i].id != id
    ensures r.Some? ==> r.value in c.products && r.value.id == id
    ensures forall i | 0 <= i < |c.products| && c.products[i].id == id ::
              (forall j | 0 <= j < i :: c.products[j].id != id) ==> r == Some(c.products[i])
  {
    FindById(c.products, id)
  }
}
