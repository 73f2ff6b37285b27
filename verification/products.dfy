/** The product record shared by the catalog, the cart and the order
    (`IBaseProduct`/`IFullProduct` and the `Product` class), and the
    first-match lookup by id that every catalog store performs with
    `Array.prototype.find`. */
module Products {
  import opened Wrappers

  /** A catalog product. `price == None` is the "priceless" product whose
      price is JavaScript `null`; prices are whole numbers here. */
  datatype Product = Product(
    id: string,
    title: string,
    description: string,
    price: Option<int>,
    category: string,
    image: string)

  /** The price a product contributes to a sum: `price ?? 0`. */
  function PriceOrZero(p: Product): (v: int)
    ensures p.price.None? ==> v == 0
    ensures p.price.Some? ==> v == p.price.value
  {
    match p.price
    case None => 0
    case Some(v) => v
  }

  /** The ids of `ps`, position by position (`products.map((p) => p.id)`). */
  function Ids(ps: seq<Product>): (ids: seq<string>)
    ensures |ids| == |ps|
    ensures forall i | 0 <= i < |ps| :: ids[i] == ps[i].id
  {
    if |ps| == 0 then [] else [ps[0].id] + Ids(ps[1..])
  }

  /** `ps.find((p) => p.id === id)`: the first product carrying `id`, or
      `None` when no product carries it. */
  function FindById(ps: seq<Product>, id: string): (r: Option<Product>)
    ensures r.None? <==> forall i | 0 <= i < |ps| :: ps[i].id != id
    ensures r.Some? ==> r.value in ps && r.value.id == id
    ensures forall i | 0 <= i < |ps| && ps[i].id == id ::
              (forall j | 0 <= j < i :: ps[j].id != id) ==> r == Some(ps[i])
  {
    if |ps| == 0 then None
    else if ps[0].id == id then Some(ps[0])
    else
      var r := FindById(ps[1..], id);
      assert forall i | 1 <= i < |ps| :: ps[i] == ps[1..][i - 1];
      r
  }

  /** The lookup on a concatenation answers from the first part when it can,
      and from the second part otherwise. */
  lemma {:induction false} FindByIdAppend(ps: seq<Product>, qs: seq<Product>, id: string)
    ensures FindById(ps + qs, id)
            == if FindById(ps, id).Some? then FindById(ps, id) else FindById(qs, id)
    decreases |ps|
  {
    if |ps| == 0 {
      assert ps + qs == qs;
    } else if ps[0].id != id {
      assert (ps + qs)[1..] == ps[1..] + qs;
      FindByIdAppend(ps[1..], qs, id);
    }
  }
}
