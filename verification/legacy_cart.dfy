/** The older cart of `model/Cart.ts`: the same `{product}` entries, but
    `addItem` always appends, so one product may occur several times. */
module LegacyCart {
  import opened Products
  import CartModel

  datatype LegacyCart = LegacyCart(items: seq<CartModel.CartItem>)

  /** A new legacy cart holds no entries. */
  function Empty(): (r: LegacyCart)
    ensures GetItems(r) == []
    ensures Clear(r) == r
  {
    LegacyCart([])
  }

  /** `getItems`: the entries in insertion order (`InsertionOrder`); there
      are none exactly when clearing would change nothing. */
  function GetItems(c: LegacyCart): (r: seq<CartModel.CartItem>)
    ensures r == [] <==> Clear(c) == c
  {
    c.items
  }

  /** `addItem`: one more entry at the end, whatever is already there. */
  function AddItem(c: LegacyCart, p: Product): (r: LegacyCart)
    ensures |r.items| == |c.items| + 1
    ensures r.items[..|c.items|] == c.items
    ensures r.items[|c.items|] == CartModel.CartItem(p)
  {
    LegacyCart(c.items + [CartModel.CartItem(p)])
  }

  /** `clear`. */
  function Clear(c: LegacyCart): (r: LegacyCart)
    ensures |r.items| == 0
  {
    LegacyCart([])
  }

  /** The cart after adding `ps` one by one. */
  function AddAll(c: LegacyCart, ps: seq<Product>): LegacyCart
    decreases |ps|
  {
    if |ps| == 0 then c else AddAll(AddItem(c, ps[0]), ps[1..])
  }

  /** Entries come back in insertion order: after adding `ps` to an empty
      cart, entry `i` wraps `ps[i]`. */
  lemma {:induction false} InsertionOrder(c: LegacyCart, ps: seq<Product>)
    ensures |GetItems(AddAll(c, ps))| == |GetItems(c)| + |ps|
    ensures GetItems(AddAll(c, ps))[..|c.items|] == GetItems(c)
    ensures forall i | 0 <= i < |ps| :: GetItems(AddAll(c, ps))[|c.items| + i] == CartModel.CartItem(ps[i])
    ensures c == Empty() ==> forall i | 0 <= i < |ps| :: GetItems(AddAll(c, ps))[i] == CartModel.CartItem(ps[i])
    decreases |ps|
  {
    if |ps| > 0 {
      var c1 := AddItem(c, ps[0]);
      InsertionOrder(c1, ps[1..]);
      var r := AddAll(c1, ps[1..]);
      assert r.items[..|c.items|] == r.items[..|c1.items|][..|c.items|];
      forall i | 0 <= i < |ps| ensures r.items[|c.items| + i] == CartModel.CartItem(ps[i]) {
        if i == 0 {
          assert r.items[|c.items|] == r.items[..|c1.items|][|c.items|];
        } else {
          assert ps[i] == ps[1..][i - 1];
        }
      }
    }
  }

  /** Adding the same product twice leaves two entries carrying its id. */
  lemma DuplicatesKept(c: LegacyCart, p: Product)
    ensures var r := AddItem(AddItem(c, p), p);
            r.items[|c.items|].product.id == p.id && r.items[|c.items| + 1].product.id == p.id
  {
  }

  /** For a product whose id is not in the cart yet, the legacy `addItem` and
      the deduplicating one do the same thing. */
  lemma AgreesOnNewIds(c: LegacyCart, p: Product)
    requires !CartModel.HasItem(CartModel.Cart(c.items), p.id)
    ensures AddItem(c, p).items == CartModel.AddItem(CartModel.Cart(c.items), p).items
  {
  }
}
