/** The shopping cart (`Cart` of the model folder): an insertion-ordered list
    of `{product}` entries in which a product id occurs at most once. Every
    operation is a function from the old cart to the new one. */
module CartModel {
  import opened Wrappers
  import opened Products

  datatype CartItem = CartItem(product: Product)

  datatype Cart = Cart(items: seq<CartItem>)

  /** A new cart holds no entries. */
  function Empty(): Cart {
    Cart([])
  }

  /** The product ids of the entries, in order. */
  function ItemIds(items: seq<CartItem>): (ids: seq<string>)
    ensures |ids| == |items|
    ensures forall i | 0 <= i < |items| :: ids[i] == items[i].product.id
  {
    if |items| == 0 then [] else [items[0].product.id] + ItemIds(items[1..])
  }

  /** The products of the entries, in order. */
  function ProductsOf(items: seq<CartItem>): (ps: seq<Product>)
    ensures |ps| == |items|
    ensures forall i | 0 <= i < |items| :: ps[i] == items[i].product
  {
    if |items| == 0 then [] else [items[0].product] + ProductsOf(items[1..])
  }

  /** The cart invariant: no two entries share a product id. */
  predicate DistinctIds(items: seq<CartItem>) {
    forall i, j | 0 <= i < j < |items| :: items[i].product.id != items[j].product.id
  }

  /** `getItems`. */
  function GetItems(c: Cart): (r: seq<CartItem>)
    ensures forall id :: HasItem(c, id) <==> id in ItemIds(r)
    ensures DistinctIds(c.items) ==> DistinctIds(r)
  {
    c.items
  }

  /** `hasItem`: some entry carries the id. */
  function HasItem(c: Cart, id: string): (b: bool)
    ensures b <==> exists i | 0 <= i < |c.items| :: c.items[i].product.id == id
  {
    id in ItemIds(c.items)
  }

  /** `addItem`: appends `{product}` unless an entry with the same id is
      already present, in which case the cart is left as it was. */
  function AddItem(c: Cart, p: Product): (r: Cart)
    ensures HasItem(r, p.id)
    ensures HasItem(c, p.id) ==> r == c
    ensures !HasItem(c, p.id) ==> |r.items| == |c.items| + 1 && r.items[|c.items|] == CartItem(p)
    ensures r.items[..|c.items|] == c.items
    ensures forall q | q != p.id :: HasItem(r, q) == HasItem(c, q)
    ensures DistinctIds(c.items) ==> DistinctIds(r.items)
  {
    if HasItem(c, p.id) then c
    else
      var r := Cart(c.items + [CartItem(p)]);
      assert r.items[|c.items|].product.id == p.id;
      r
  }

  /** In a cart with distinct ids, no entry drawn from the tail shares the
      head's id. */
  lemma TailIdsDiffer(items: seq<CartItem>, rest: seq<CartItem>)
    requires |items| > 0 && DistinctIds(items)
    requires forall x | x in rest :: x in items[1..]
    ensures forall j | 0 <= j < |rest| :: rest[j].product.id != items[0].product.id
  {
    forall j | 0 <= j < |rest| ensures rest[j].product.id != items[0].product.id {
      assert rest[j] in items[1..];
      var k :| 0 <= k < |items[1..]| && items[1..][k] == rest[j];
      assert items[k + 1] == rest[j];
    }
  }

  /** An entry whose id is new to a distinct-id sequence keeps it distinct. */
  lemma ConsDistinct(x: CartItem, rest: seq<CartItem>)
    requires DistinctIds(rest)
    requires forall j | 0 <= j < |rest| :: rest[j].product.id != x.product.id
    ensures DistinctIds([x] + rest)
  {
    var r := [x] + rest;
    forall i, j | 0 <= i < j < |r| ensures r[i].product.id != r[j].product.id {
      assert r[j] == rest[j - 1];
      if i > 0 {
        assert r[i] == rest[i - 1];
      }
    }
  }

  /** A distinct-id sequence has a distinct-id tail. */
  lemma TailDistinct(items: seq<CartItem>)
    requires |items| > 0 && DistinctIds(items)
    ensures DistinctIds(items[1..])
  {
    var t := items[1..];
    forall i, j | 0 <= i < j < |t| ensures t[i].product.id != t[j].product.id {
      assert t[i] == items[i + 1] && t[j] == items[j + 1];
    }
  }

  /** The distinctness step of the filter: keeping the head in front of a
      filtered tail keeps ids distinct. */
  lemma DistinctStep(items: seq<CartItem>, rest: seq<CartItem>)
    requires |items| > 0
    requires forall x | x in rest :: x in items[1..]
    requires DistinctIds(items[1..]) ==> DistinctIds(rest)
    ensures DistinctIds(items) ==> DistinctIds([items[0]] + rest)
  {
    if DistinctIds(items) {
      TailDistinct(items);
      TailIdsDiffer(items, rest);
      ConsDistinct(items[0], rest);
    }
  }

  /** The entries whose id is not `id`, in their original order
      (`items.filter((item) => item.product.id !== id)`). */
  function Without(items: seq<CartItem>, id: string): (r: seq<CartItem>)
    ensures |r| <= |items|
    ensures forall i | 0 <= i < |r| :: r[i].product.id != id
    ensures forall x | x in r :: x in items
    ensures forall x | x in items && x.product.id != id :: x in r
    ensures (forall i | 0 <= i < |items| :: items[i].product.id != id) ==> r == items
    ensures DistinctIds(items) ==> DistinctIds(r)
  {
    if |items| == 0 then []
    else
      var rest := Without(items[1..], id);
      assert forall x | x in items && x != items[0] :: x in items[1..];
      if items[0].product.id == id then
        TailDistinctWhen(items);
        rest
      else
        DistinctStep(items, rest);
        [items[0]] + rest
  }

  /** `TailDistinct` as an implication. */
  lemma TailDistinctWhen(items: seq<CartItem>)
    requires |items| > 0
    ensures DistinctIds(items) ==> DistinctIds(items[1..])
  {
    if DistinctIds(items) {
      TailDistinct(items);
    }
  }

  /** An entry with another id survives the removal. */
  lemma WithoutKeepsOthers(c: Cart, id: string, q: string)
    requires q != id && HasItem(c, q)
    ensures HasItem(Cart(Without(c.items, id)), q)
  {
    var i :| 0 <= i < |c.items| && c.items[i].product.id == q;
    assert c.items[i] in Without(c.items, id);
  }

  /** Every entry left by the removal was in the cart. */
  lemma WithoutAddsNothing(c: Cart, id: string, q: string)
    requires HasItem(Cart(Without(c.items, id)), q)
    ensures HasItem(c, q)
  {
    var r := Without(c.items, id);
    var i :| 0 <= i < |r| && r[i].product.id == q;
    assert r[i] in c.items;
  }

  /** `removeItem`: drops every entry carrying `id` and keeps the others. */
  function RemoveItem(c: Cart, id: string): (r: Cart)
    ensures !HasItem(r, id)
    ensures forall q | q != id :: HasItem(r, q) == HasItem(c, q)
    ensures !HasItem(c, id) ==> r == c
    ensures DistinctIds(c.items) ==> DistinctIds(r.items)
  {
    var r := Cart(Without(c.items, id));
    assert forall q | q != id && HasItem(c, q) :: HasItem(r, q) by {
      forall q | q != id && HasItem(c, q) ensures HasItem(r, q) {
        WithoutKeepsOthers(c, id, q);
      }
    }
    assert forall q | HasItem(r, q) :: HasItem(c, q) by {
      forall q | HasItem(r, q) ensures HasItem(c, q) {
        WithoutAddsNothing(c, id, q);
      }
    }
    r
  }

  /** A new cart counts no entries, totals 0 and holds no product. (Stated
      as a lemma: the postcondition of a constant function would join every
      proof of this module.) */
  lemma EmptyHoldsNothing()
    ensures TotalCount(Empty()) == 0 && TotalPrice(Empty()) == 0
    ensures forall id :: !HasItem(Empty(), id)
  {
  }

  /** `clear`. */
  function Clear(c: Cart): (r: Cart)
    ensures r == Empty()
  {
    Cart([])
  }

  /** `getTotalCount`: the number of entries. */
  function TotalCount(c: Cart): (n: nat)
    ensures n == |c.items|
  {
    |c.items|
  }

  /** The sum of `price ?? 0` over the entries. */
  function PriceSum(items: seq<CartItem>): (s: int)
    ensures (forall i | 0 <= i < |items| :: PriceOrZero(items[i].product) >= 0) ==> s >= 0
    ensures (forall i | 0 <= i < |items| :: items[i].product.price.None?) ==> s == 0
  {
    if |items| == 0 then 0
    else
      assert forall i | 1 <= i < |items| :: items[1..][i - 1] == items[i];
      PriceOrZero(items[0].product) + PriceSum(items[1..])
  }

  /** `getTotalPrice`: the sum of the entries' prices, a priceless entry
      counting as zero. */
  function TotalPrice(c: Cart): (t: int)
    ensures |c.items| == 0 ==> t == 0
    ensures (forall i | 0 <= i < |c.items| :: PriceOrZero(c.items[i].product) >= 0) ==> t >= 0
    ensures (forall i | 0 <= i < |c.items| :: c.items[i].product.price.None?) ==> t == 0
  {
    PriceSum(c.items)
  }

  /** The price sum of two runs of entries is the sum of their sums. */
  lemma {:induction false} PriceSumAppend(a: seq<CartItem>, b: seq<CartItem>)
    ensures PriceSum(a + b) == PriceSum(a) + PriceSum(b)
    decreases |a|
  {
    if |a| > 0 {
      assert (a + b)[1..] == a[1..] + b;
      PriceSumAppend(a[1..], b);
    } else {
      assert a + b == b;
    }
  }

  /** Adding a new product raises the total by its price (zero if priceless);
      adding one already present changes nothing. */
  lemma AddItemTotalPrice(c: Cart, p: Product)
    ensures TotalPrice(AddItem(c, p))
            == TotalPrice(c) + (if HasItem(c, p.id) then 0 else PriceOrZero(p))
  {
    if !HasItem(c, p.id) {
      PriceSumAppend(c.items, [CartItem(p)]);
    }
  }

  /** Adding a priceless product never changes the total. */
  lemma AddPricelessKeepsTotal(c: Cart, p: Product)
    requires p.price.None?
    ensures TotalPrice(AddItem(c, p)) == TotalPrice(c)
  {
    AddItemTotalPrice(c, p);
  }

  /** Removal works entry by entry: on a concatenation it is the
      concatenation of the removals, so the kept entries keep their order. */
  lemma {:induction false} WithoutAppend(a: seq<CartItem>, b: seq<CartItem>, id: string)
    ensures Without(a + b, id) == Without(a, id) + Without(b, id)
    decreases |a|
  {
    if |a| == 0 {
      assert a + b == b;
    } else {
      assert (a + b)[1..] == a[1..] + b;
      WithoutAppend(a[1..], b, id);
    }
  }

  /** In a cart that keeps its invariant, removing the id of the entry `x`
      yields exactly the entries before `x` followed by those after it. */
  lemma RemoveDropsTheEntry(pre: seq<CartItem>, x: CartItem, post: seq<CartItem>)
    requires DistinctIds(pre + [x] + post)
    ensures RemoveItem(Cart(pre + [x] + post), x.product.id) == Cart(pre + post)
  {
    OthersLackTheId(pre, x, post);
    WithoutDropsTheEntry(pre, x, post);
  }

  /** Filtering out `x`'s id when only `x` carries it leaves the entries
      around `x`. */
  lemma WithoutDropsTheEntry(pre: seq<CartItem>, x: CartItem, post: seq<CartItem>)
    requires forall i | 0 <= i < |pre| :: pre[i].product.id != x.product.id
    requires forall i | 0 <= i < |post| :: post[i].product.id != x.product.id
    ensures Without(pre + [x] + post, x.product.id) == pre + post
  {
    var id := x.product.id;
    WithoutAppend(pre + [x], post, id);
    WithoutAppend(pre, [x], id);
    WithoutOfDropped(x);
    assert Without(pre, id) == pre;
    assert Without(post, id) == post;
    assert pre + [] == pre;
  }

  /** Filtering a single entry out by its own id leaves nothing. */
  lemma WithoutOfDropped(x: CartItem)
    ensures Without([x], x.product.id) == []
  {
  }

  /** In a distinct-id sequence, the entries around `x` carry other ids. */
  lemma OthersLackTheId(pre: seq<CartItem>, x: CartItem, post: seq<CartItem>)
    requires DistinctIds(pre + [x] + post)
    ensures forall i | 0 <= i < |pre| :: pre[i].product.id != x.product.id
    ensures forall i | 0 <= i < |post| :: post[i].product.id != x.product.id
  {
    var items := pre + [x] + post;
    forall i | 0 <= i < |pre| ensures pre[i].product.id != x.product.id {
      assert items[i] == pre[i] && items[|pre|] == x;
    }
    forall i | 0 <= i < |post| ensures post[i].product.id != x.product.id {
      assert items[|pre| + 1 + i] == post[i] && items[|pre|] == x;
    }
  }

  /** Adding the same product twice is the same as adding it once. */
  lemma AddItemIdempotent(c: Cart, p: Product)
    ensures AddItem(AddItem(c, p), p) == AddItem(c, p)
  {
  }

  /** In a cart that keeps its invariant, after adding `p` (once or more)
      exactly one entry carries `p.id`. */
  lemma AddedIdOccursOnce(c: Cart, p: Product)
    requires DistinctIds(c.items)
    ensures var r := AddItem(AddItem(c, p), p);
            && (exists i | 0 <= i < |r.items| :: r.items[i].product.id == p.id)
            && forall i, j | 0 <= i < |r.items| && 0 <= j < |r.items|
                 && r.items[i].product.id == p.id && r.items[j].product.id == p.id :: i == j
  {
    assert HasItem(AddItem(AddItem(c, p), p), p.id);
  }

  /** Clearing leaves nothing to count and nothing to pay. */
  lemma ClearResetsTotals(c: Cart)
    ensures TotalCount(Clear(c)) == 0 && TotalPrice(Clear(c)) == 0
    ensures DistinctIds(Clear(c).items)
  {
  }

  /** Two products, one priced 100 and one priceless: the count is two and the
      total is 100. */
  lemma TwoProductScenario(a: Product, b: Product)
    requires a.id == "a" && a.price == Some(100)
    requires b.id == "b" && b.price.None?
    ensures var c := AddItem(AddItem(Empty(), a), b);
            TotalCount(c) == 2 && TotalPrice(c) == 100
  {
    var c1 := AddItem(Empty(), a);
    assert c1.items == [CartItem(a)];
    assert !HasItem(c1, b.id);
    AddItemTotalPrice(c1, b);
  }
}
