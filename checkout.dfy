/**
 * checkout (routes.py:213-269): validate every cart line against the live
 * product rows, then create one order, one order item per line with the
 * price of that moment, lower each product's stock, and empty the cart.
 * A refused checkout changes nothing.
 *
 * Each line is checked against its product's stock on its own, before any
 * stock is lowered. Two keys that name the same product ("1" and "01") are
 * two lines, so together they can take more than the stock: PlaceOrder is
 * the handler as written, Oversell shows the stock going negative, and
 * PlaceOrderCovered is the check that adds up each product's lines first.
 */
module Checkout {
  import opened Wrappers
  import opened OrderedMap
  import opened Store
  import opened Cart

  /** One entry of `order_items`: product, quantity and the price at checkout time. */
  datatype Pending = Pending(productId: Id, quantity: int, price: int)

  /** What the validation loop ends with. */
  datatype Validation =
    | Priced(total: int, pending: seq<Pending>)
    | MissingLine(key: Key)   // `int(key)` raises, or `product` is None and `product.name` raises (routes.py:237)
    | ShortLine(key: Key)     // 'Stock insuffisant pour ...'

  /** `product and product.stock >= quantity`. */
  predicate LineOk(products: map<Id, Product>, e: Entry<Key, int>) {
    Resolves(products, e.key) && ProductOf(products, e.key).stock >= e.val
  }

  /** Position of the first line that fails the check, or `|c|`. */
  function FirstBad(c: seq<Entry<Key, int>>, products: map<Id, Product>): (i: nat)
    ensures i <= |c|
    ensures i < |c| ==> !LineOk(products, c[i])
    ensures forall j :: 0 <= j < i ==> LineOk(products, c[j])
  {
    if c == [] then 0
    else if !LineOk(products, c[0]) then 0
    else 1 + FirstBad(c[1..], products)
  }

  /** The pending item of a line whose key names a product. */
  function PendingLine(products: map<Id, Product>, e: Entry<Key, int>): Pending
    requires Resolves(products, e.key)
  {
    Pending(ParseId(e.key).value, e.val, ProductOf(products, e.key).price)
  }

  /** `order_items` for a cart whose keys all name products. */
  function PendingOf(c: seq<Entry<Key, int>>, products: map<Id, Product>): seq<Pending>
    requires forall e :: e in c ==> Resolves(products, e.key)
  {
    seq(|c|, j requires 0 <= j < |c| => PendingLine(products, c[j]))
  }

  /**
   * The validation loop. It stops at the first line whose product is missing
   * or short of stock; when every line passes it yields the order total and
   * one pending item per line, in cart order.
   */
  function Validate(c: seq<Entry<Key, int>>, products: map<Id, Product>): (r: Validation)
    ensures r.Priced? <==> forall e :: e in c ==> LineOk(products, e)
    ensures r.Priced? ==> r.total == CartValue(c, products)
    ensures r.Priced? ==> |r.pending| == |c|
    ensures r.Priced? ==> forall j :: 0 <= j < |c| ==>
      Resolves(products, c[j].key) && r.pending[j] == PendingLine(products, c[j])
    ensures !r.Priced? ==> FirstBad(c, products) < |c| && r.key == c[FirstBad(c, products)].key
    ensures r.MissingLine? <==> !r.Priced? && !Resolves(products, r.key)
    ensures r.ShortLine? ==> Resolves(products, r.key) && ProductOf(products, r.key).stock < c[FirstBad(c, products)].val
  {
    var i := FirstBad(c, products);
    if i < |c| then
      if !Resolves(products, c[i].key) then MissingLine(c[i].key) else ShortLine(c[i].key)
    else
      assert forall e :: e in c ==> LineOk(products, e);
      Priced(CartValue(c, products), PendingOf(c, products))
  }

  /** routes.py:223-238, the loop that accumulates `total` and `order_items` and returns on the first bad line. */
  method ValidateCart(c: Cart, products: map<Id, Product>) returns (r: Validation)
    ensures r == Validate(c, products)
  {
    var total := 0;
    var pending: seq<Pending> := [];
    var i := 0;
    while i < |c|
      invariant i <= |c|
      invariant forall j :: 0 <= j < i ==> LineOk(products, c[j])
      invariant total == CartValue(c[..i], products)
      invariant pending == PendingOf(c[..i], products)
    {
      var e := c[i];
      var id := ParseId(e.key);
      if id.Some? && id.value in products && products[id.value].stock >= e.val {
        var product := products[id.value];
        assert c[..i + 1][..i] == c[..i];
        total := total + product.price * e.val;
        pending := pending + [Pending(id.value, e.val, product.price)];
        i := i + 1;
      } else {
        FirstBadIs(c, products, i);
        if id.None? || id.value !in products {
          return MissingLine(e.key);
        }
        return ShortLine(e.key);
      }
    }
    assert c[..i] == c;
    return Priced(total, pending);
  }

  /** The first failing line is the one that FirstBad finds. */
  lemma FirstBadIs(c: seq<Entry<Key, int>>, products: map<Id, Product>, i: nat)
    requires i < |c| && !LineOk(products, c[i])
    requires forall j :: 0 <= j < i ==> LineOk(products, c[j])
    ensures FirstBad(c, products) == i
  {
  }

  // ---------------------------------------------------------------- stock

  /** No line of the cart names product `id`. */
  predicate Unnamed(c: seq<Entry<Key, int>>, id: Id) {
    forall j :: 0 <= j < |c| ==> ParseId(c[j].key) != Some(id)
  }

  /** What the cart takes from product `id`: the quantities on all the lines whose key names it; nothing when no line names it. */
  function Demand(c: seq<Entry<Key, int>>, id: Id): int {
    if c == [] then 0
    else Demand(c[..|c| - 1], id) + if ParseId(c[|c| - 1].key) == Some(id) then c[|c| - 1].val else 0
  }

  /** A product that no line names loses nothing, and a cart of non-negative quantities takes a non-negative amount. */
  lemma {:induction false} DemandBounds(c: seq<Entry<Key, int>>, id: Id)
    ensures Unnamed(c, id) ==> Demand(c, id) == 0
    ensures AllAtLeast(c, 0) ==> Demand(c, id) >= 0
    decreases |c|
  {
    if c != [] {
      DemandBounds(c[..|c| - 1], id);
    }
  }

  /**
   * The product rows once `product.stock -= quantity` has run for every line
   * of the cart: each product loses what all of its lines take.
   */
  function Lowered(products: map<Id, Product>, c: seq<Entry<Key, int>>): (r: map<Id, Product>)
    ensures r.Keys == products.Keys
    ensures forall id :: id in r ==> r[id].(stock := products[id].stock) == products[id]
    ensures forall id :: id in r && Unnamed(c, id) ==> r[id] == products[id]
  {
    assert forall id :: Unnamed(c, id) ==> Demand(c, id) == 0 by {
      forall id {
        DemandBounds(c, id);
      }
    }
    map id | id in products :: products[id].(stock := products[id].stock - Demand(c, id))
  }

  /** `product.stock -= quantity` for one cart line. */
  function LowerLine(p: map<Id, Product>, id: Id, q: int): (r: map<Id, Product>)
    requires id in p
    ensures r.Keys == p.Keys
    ensures r[id].stock == p[id].stock - q
    ensures forall other :: other in p && other != id ==> r[other] == p[other]
  {
    p[id := p[id].(stock := p[id].stock - q)]
  }

  /** Reading one more line adds its quantity to the demand for its own product only. */
  lemma DemandStep(c: seq<Entry<Key, int>>, i: nat, id: Id)
    requires i < |c|
    ensures Demand(c[..i + 1], id) == Demand(c[..i], id) + if ParseId(c[i].key) == Some(id) then c[i].val else 0
  {
    assert c[..i + 1][..i] == c[..i];
  }

  /** One more line of the loop lowers that line's product on top of the earlier lines. */
  lemma LoweredStep(products: map<Id, Product>, c: seq<Entry<Key, int>>, i: nat)
    requires i < |c| && Resolves(products, c[i].key)
    ensures ParseId(c[i].key).value in Lowered(products, c[..i])
    ensures Lowered(products, c[..i + 1]) == LowerLine(Lowered(products, c[..i]), ParseId(c[i].key).value, c[i].val)
  {
    var k := ParseId(c[i].key).value;
    var q := Lowered(products, c[..i + 1]);
    var p := Lowered(products, c[..i]);
    var r := LowerLine(p, k, c[i].val);
    forall id | id in products
      ensures q[id] == r[id]
    {
      DemandStep(c, i, id);
    }
    SameRows(q, r);
  }

  /** Two tables with the same ids and the same row under each id are equal. */
  lemma SameRows(a: map<Id, Product>, b: map<Id, Product>)
    requires a.Keys == b.Keys
    requires forall id :: id in a ==> a[id] == b[id]
    ensures a == b
  {
  }

  // ---------------------------------------------------------------- placing the order

  /** The rows `OrderItem(order_id=oid, ...)` built from `order_items`. */
  function NewItems(oid: Id, pending: seq<Pending>): (r: seq<OrderItem>)
    ensures |r| == |pending|
    ensures forall j :: 0 <= j < |r| ==>
      r[j] == OrderItem(oid, pending[j].productId, pending[j].quantity, pending[j].price)
  {
    seq(|pending|, j requires 0 <= j < |pending| =>
      OrderItem(oid, pending[j].productId, pending[j].quantity, pending[j].price))
  }

  /** Σ price × quantity over order items. */
  function ItemsValue(items: seq<OrderItem>): int {
    if items == [] then 0 else ItemsValue(items[..|items| - 1]) + items[|items| - 1].price * items[|items| - 1].quantity
  }

  datatype CheckoutReply =
    | EmptyCart               // 'Votre panier est vide'
    | MissingProduct(key: Key)  // the handler raises on `int(key)` or on `product.name`
    | OutOfStock(key: Key)      // 'Stock insuffisant pour ...'
    | Placed(orderId: Id)

  datatype CheckoutStep = CheckoutStep(reply: CheckoutReply, store: Store, cart: Cart)

  /** The POST branch of checkout, as one atomic step. */
  function PlaceOrder(s: Store, c: Cart, user: Id, address: string, phone: string): (r: CheckoutStep)
    ensures r.reply == EmptyCart <==> |c| == 0
    ensures r.reply.Placed? <==> |c| > 0 && forall e :: e in c ==> LineOk(s.products, e)
    ensures !r.reply.Placed? ==> r.store == s && r.cart == c
    ensures r.reply.MissingProduct? ==> Lookup(c, r.reply.key).Some? && !Resolves(s.products, r.reply.key)
    ensures r.reply.OutOfStock? ==>
      Resolves(s.products, r.reply.key) && ProductOf(s.products, r.reply.key).stock < Quantity(c, r.reply.key)
    ensures r.reply.Placed? ==> r.cart == [] && r.reply.orderId == s.nextOrderId
  {
    if |c| == 0 then CheckoutStep(EmptyCart, s, c)
    else
      match Validate(c, s.products)
      case MissingLine(key) =>
        LookupAt(c, FirstBad(c, s.products));
        CheckoutStep(MissingProduct(key), s, c)
      case ShortLine(key) =>
        LookupAt(c, FirstBad(c, s.products));
        CheckoutStep(OutOfStock(key), s, c)
      case Priced(total, pending) =>
        var oid := s.nextOrderId;
        var order := Order(user, total, InitialStatus, address, phone);
        var s' := s.(
          orders := Put(s.orders, oid, order),
          items := s.items + NewItems(oid, pending),
          products := Lowered(s.products, c),
          nextOrderId := oid + 1);
        CheckoutStep(Placed(oid), s', [])
  }

  lemma {:induction false} ItemsValueConcat(a: seq<OrderItem>, b: seq<OrderItem>)
    ensures ItemsValue(a + b) == ItemsValue(a) + ItemsValue(b)
    decreases |b|
  {
    if b == [] {
      assert a + b == a;
    } else {
      var b' := b[..|b| - 1];
      assert (a + b)[..|a + b| - 1] == a + b';
      assert (a + b)[|a + b| - 1] == b[|b| - 1];
      ItemsValueConcat(a, b');
    }
  }

  /** The new items are worth exactly the cart's value at the current prices. */
  lemma {:induction false} NewItemsValue(oid: Id, c: seq<Entry<Key, int>>, products: map<Id, Product>)
    requires forall e :: e in c ==> Resolves(products, e.key)
    ensures ItemsValue(NewItems(oid, PendingOf(c, products))) == CartValue(c, products)
    decreases |c|
  {
    if c != [] {
      var init := c[..|c| - 1];
      assert forall e :: e in init ==> e in c;
      NewItemsValue(oid, init, products);
      var items := NewItems(oid, PendingOf(c, products));
      assert items[..|items| - 1] == NewItems(oid, PendingOf(init, products));
    }
  }

  /**
   * A placed order: exactly one order row is added, with the order total and
   * status 'pending'; one item per cart line follows the existing items, in
   * cart order, with the product's price at that moment; and the order total
   * equals Σ price × quantity over those items.
   */
  lemma PlacedOrderAndItems(s: Store, c: Cart, user: Id, address: string, phone: string)
    requires Consistent(s)
    requires PlaceOrder(s, c, user, address, phone).reply.Placed?
    ensures var r := PlaceOrder(s, c, user, address, phone);
      var oid := r.reply.orderId;
      var total := CartValue(c, s.products);
      var added := r.store.items[|s.items|..];
      && r.store.orders == s.orders + [Entry(oid, Order(user, total, InitialStatus, address, phone))]
      && r.store.items[..|s.items|] == s.items
      && |added| == |c|
      && (forall j :: 0 <= j < |c| ==>
            Resolves(s.products, c[j].key) &&
            added[j] == OrderItem(oid, ParseId(c[j].key).value, c[j].val, ProductOf(s.products, c[j].key).price))
      && ItemsValue(added) == total
  {
    var r := PlaceOrder(s, c, user, address, phone);
    var oid := s.nextOrderId;
    var v := Validate(c, s.products);
    assert Lookup(s.orders, oid).None?;
    PutFresh(s.orders, oid, Order(user, v.total, InitialStatus, address, phone));
    assert r.store.items == s.items + NewItems(oid, v.pending);
    assert r.store.items[|s.items|..] == NewItems(oid, v.pending);
    assert v.pending == PendingOf(c, s.products);
    NewItemsValue(oid, c, s.products);
  }

  /** No two lines of the cart name the same product. */
  ghost predicate OneKeyPerProduct(c: seq<Entry<Key, int>>) {
    forall i, j :: 0 <= i < j < |c| && ParseId(c[i].key).Some? ==> ParseId(c[i].key) != ParseId(c[j].key)
  }

  /** When a product has a single line, the cart takes exactly that line's quantity from it. */
  lemma {:induction false} DemandOneLine(c: seq<Entry<Key, int>>, id: Id, j: nat)
    requires OneKeyPerProduct(c)
    requires j < |c| && ParseId(c[j].key) == Some(id)
    ensures Demand(c, id) == c[j].val
    decreases |c|
  {
    var init := c[..|c| - 1];
    if j == |c| - 1 {
      assert Unnamed(init, id);
      DemandBounds(init, id);
    } else {
      assert ParseId(c[|c| - 1].key) != Some(id);
      DemandOneLine(init, id, j);
    }
  }

  /** Some line of the cart names every product the cart takes stock from. */
  lemma NamedIfDemanded(c: seq<Entry<Key, int>>, id: Id)
    requires Demand(c, id) != 0
    ensures exists j :: 0 <= j < |c| && ParseId(c[j].key) == Some(id)
  {
    DemandBounds(c, id);
  }

  /**
   * A placed order lowers each product's stock by what all of its lines
   * take, and changes no other field. When no two lines name the same
   * product, every stock stays non-negative.
   */
  lemma PlacedStock(s: Store, c: Cart, user: Id, address: string, phone: string)
    requires PlaceOrder(s, c, user, address, phone).reply.Placed?
    ensures var r := PlaceOrder(s, c, user, address, phone);
      && r.store.products.Keys == s.products.Keys
      && (forall id :: id in s.products ==>
            r.store.products[id] == s.products[id].(stock := s.products[id].stock - Demand(c, id)))
      && (StockNonNegative(s.products) && OneKeyPerProduct(c) ==> StockNonNegative(r.store.products))
  {
    var r := PlaceOrder(s, c, user, address, phone);
    if StockNonNegative(s.products) && OneKeyPerProduct(c) {
      forall id | id in s.products && Demand(c, id) != 0
        ensures s.products[id].stock - Demand(c, id) >= 0
      {
        NamedIfDemanded(c, id);
        var j :| 0 <= j < |c| && ParseId(c[j].key) == Some(id);
        DemandOneLine(c, id, j);
        assert LineOk(s.products, c[j]);
      }
    }
  }

  /**
   * The cart {"1": 3, "01": 3} against a stock of 5: each line passes on its
   * own, the order is placed, and the stock ends at -1.
   */
  lemma Oversell(s: Store)
    requires 1 in s.products && s.products[1].stock == 5
    ensures var c: Cart := [Entry("1", 3), Entry("01", 3)];
      var r := PlaceOrder(s, c, 0, "", "");
      r.reply.Placed? && 1 in r.store.products && r.store.products[1].stock == -1
  {
    var c: Cart := [Entry("1", 3), Entry("01", 3)];
    OneReadsAsOne();
    assert LineOk(s.products, c[0]) && LineOk(s.products, c[1]);
    PlacedStock(s, c, 0, "", "");
    assert c[..1][..0] == [] && c[..|c| - 1] == c[..1];
    assert Demand(c, 1) == 6;
  }

  /** Each line of the oversell cart passes on its own, so the handler places the order. */
  lemma OversellPlaced(s: Store)
    requires 1 in s.products && s.products[1].stock == 5
    ensures PlaceOrder(s, [Entry("1", 3), Entry("01", 3)], 0, "", "").reply.Placed?
  {
    var c: Cart := [Entry("1", 3), Entry("01", 3)];
    OneReadsAsOne();
    assert LineOk(s.products, c[0]) && LineOk(s.products, c[1]);
  }

  /** The first line of the oversell cart is not covered: product 1 has 5 and the cart takes 6. */
  lemma OversellUncovered(s: Store)
    requires 1 in s.products && s.products[1].stock == 5
    ensures !LineCovered(s.products, [Entry("1", 3), Entry("01", 3)], Entry("1", 3))
  {
    OneReadsAsOne();
    OversellDemand();
  }

  /** Both lines of the oversell cart name product 1, which the cart takes 6 of. */
  lemma OversellDemand()
    ensures Demand([Entry("1", 3), Entry("01", 3)], 1) == 6
  {
    var c: Cart := [Entry("1", 3), Entry("01", 3)];
    OneReadsAsOne();
    assert c[..1][..0] == [] && c[..|c| - 1] == c[..1];
  }

  // ---------------------------------------------------------------- corrected check

  /** A line whose product has stock for everything the cart takes from it, over all the keys that name it. */
  predicate LineCovered(products: map<Id, Product>, c: seq<Entry<Key, int>>, e: Entry<Key, int>) {
    Resolves(products, e.key) && ProductOf(products, e.key).stock >= Demand(c, ParseId(e.key).value)
  }

  /** Position of the first line of `lines` that `c` does not cover, or `|lines|`. */
  function FirstUncovered(lines: seq<Entry<Key, int>>, c: seq<Entry<Key, int>>, products: map<Id, Product>): (i: nat)
    ensures i <= |lines|
    ensures i < |lines| ==> !LineCovered(products, c, lines[i])
    ensures forall j :: 0 <= j < i ==> LineCovered(products, c, lines[j])
  {
    if lines == [] then 0
    else if !LineCovered(products, c, lines[0]) then 0
    else 1 + FirstUncovered(lines[1..], c, products)
  }

  /**
   * Checkout with the check the handler evidently intends: after the lines
   * pass one by one, a line whose product's total demand exceeds the stock
   * refuses the order. Nothing else differs from PlaceOrder.
   */
  function PlaceOrderCovered(s: Store, c: Cart, user: Id, address: string, phone: string): (r: CheckoutStep)
    ensures r.reply.Placed? <==>
      |c| > 0 && forall e :: e in c ==> LineOk(s.products, e) && LineCovered(s.products, c, e)
    ensures r.reply.Placed? ==> r == PlaceOrder(s, c, user, address, phone)
    ensures !r.reply.Placed? ==> r.store == s && r.cart == c
    ensures r.reply.OutOfStock? ==>
      && Resolves(s.products, r.reply.key)
      && (|| ProductOf(s.products, r.reply.key).stock < Quantity(c, r.reply.key)
          || ProductOf(s.products, r.reply.key).stock < Demand(c, ParseId(r.reply.key).value))
  {
    var placed := PlaceOrder(s, c, user, address, phone);
    var i := FirstUncovered(c, c, s.products);
    if placed.reply.Placed? && i < |c| then
      assert LineOk(s.products, c[i]);
      CheckoutStep(OutOfStock(c[i].key), s, c)
    else
      placed
  }

  /** The corrected checkout never drives a stock below zero, whatever keys the cart holds. */
  lemma CoveredKeepsStock(s: Store, c: Cart, user: Id, address: string, phone: string)
    requires StockNonNegative(s.products)
    ensures StockNonNegative(PlaceOrderCovered(s, c, user, address, phone).store.products)
  {
    var r := PlaceOrderCovered(s, c, user, address, phone);
    if r.reply.Placed? {
      PlacedStock(s, c, user, address, phone);
      forall id | id in s.products && Demand(c, id) != 0
        ensures s.products[id].stock - Demand(c, id) >= 0
      {
        NamedIfDemanded(c, id);
        var j :| 0 <= j < |c| && ParseId(c[j].key) == Some(id);
        assert LineCovered(s.products, c, c[j]);
      }
    }
  }

  /** For a cart with one line per product, the corrected checkout is the handler's. */
  lemma CoveredAgrees(s: Store, c: Cart, user: Id, address: string, phone: string)
    requires OneKeyPerProduct(c)
    ensures PlaceOrderCovered(s, c, user, address, phone) == PlaceOrder(s, c, user, address, phone)
  {
    if PlaceOrder(s, c, user, address, phone).reply.Placed? {
      var i := FirstUncovered(c, c, s.products);
      if i < |c| {
        assert LineOk(s.products, c[i]);
        DemandOneLine(c, ParseId(c[i].key).value, i);
      }
    }
  }

  /** The corrected checkout refuses the cart that oversells, and changes nothing. */
  lemma CoveredRefusesOversell(s: Store)
    requires 1 in s.products && s.products[1].stock == 5
    ensures var c: Cart := [Entry("1", 3), Entry("01", 3)];
      var r := PlaceOrderCovered(s, c, 0, "", "");
      r.reply == OutOfStock("1") && r.store == s
  {
    var c: Cart := [Entry("1", 3), Entry("01", 3)];
    OversellUncovered(s);
    OversellPlaced(s);
    RefusesFirstUncovered(s, c, 0, "", "");
  }

  /** When the handler would place the order but the first line is not covered, the corrected checkout names that line. */
  lemma RefusesFirstUncovered(s: Store, c: Cart, user: Id, address: string, phone: string)
    requires PlaceOrder(s, c, user, address, phone).reply.Placed?
    requires |c| > 0 && !LineCovered(s.products, c, c[0])
    ensures PlaceOrderCovered(s, c, user, address, phone) == CheckoutStep(OutOfStock(c[0].key), s, c)
  {
    assert FirstUncovered(c, c, s.products) == 0;
  }

  // ---------------------------------------------------------------- references

  /** Checkout by a user who exists keeps every reference between rows intact. */
  lemma PlaceOrderConsistent(s: Store, c: Cart, user: Id, address: string, phone: string)
    requires Consistent(s) && user in s.users
    ensures Consistent(PlaceOrder(s, c, user, address, phone).store)
  {
    var r := PlaceOrder(s, c, user, address, phone);
    if r.reply.Placed? {
      PlacedOrderAndItems(s, c, user, address, phone);
      PlacedStock(s, c, user, address, phone);
      assert r.store.products.Keys == s.products.Keys;
      ItemRefsAfterPlace(s, c, user, address, phone);
    }
  }

  /** After checkout every item, old or new, points to an order and to a product that existed before. */
  lemma ItemRefsAfterPlace(s: Store, c: Cart, user: Id, address: string, phone: string)
    requires Consistent(s)
    requires PlaceOrder(s, c, user, address, phone).reply.Placed?
    ensures var r := PlaceOrder(s, c, user, address, phone);
      forall it :: it in r.store.items ==> Lookup(r.store.orders, it.orderId).Some? && it.productId in s.products
  {
    var r := PlaceOrder(s, c, user, address, phone);
    PlacedOrderAndItems(s, c, user, address, phone);
    var added := r.store.items[|s.items|..];
    assert r.store.items == s.items + added;
    forall it | it in r.store.items
      ensures Lookup(r.store.orders, it.orderId).Some? && it.productId in s.products
    {
      if it in added {
        AddedItemRefs(s, c, user, address, phone, it);
      }
    }
  }

  /** An item the checkout adds points to the new order and to a product of the cart. */
  lemma AddedItemRefs(s: Store, c: Cart, user: Id, address: string, phone: string, it: OrderItem)
    requires Consistent(s)
    requires PlaceOrder(s, c, user, address, phone).reply.Placed?
    requires it in PlaceOrder(s, c, user, address, phone).store.items[|s.items|..]
    ensures Lookup(PlaceOrder(s, c, user, address, phone).store.orders, it.orderId).Some? && it.productId in s.products
  {
    PlacedOrderAndItems(s, c, user, address, phone);
    var added := PlaceOrder(s, c, user, address, phone).store.items[|s.items|..];
    var j :| 0 <= j < |added| && added[j] == it;
    assert Resolves(s.products, c[j].key);
  }

  /** What the checkout page showed is what the placed order charges. */
  lemma ShownTotalIsCharged(s: Store, c: Cart, user: Id, address: string, phone: string)
    requires Consistent(s)
    requires PlaceOrder(s, c, user, address, phone).reply.Placed?
    ensures KeysParse(c)
    ensures var r := PlaceOrder(s, c, user, address, phone);
      Lookup(r.store.orders, r.reply.orderId).Some? &&
      Lookup(r.store.orders, r.reply.orderId).value.totalAmount == LinesTotal(PricedLines(c, s.products))
  {
    PlacedOrderAndItems(s, c, user, address, phone);
    ViewShowsWholeCart(c, s.products);
  }

  /** Cart {"A": 2} with A's stock at 1: the checkout is refused and nothing changes. */
  lemma ShortStockScenario(s: Store, a: Id)
    requires a in s.products && s.products[a].stock == 1
    ensures var c: Cart := [Entry(Show(a), 2)];
      var r := PlaceOrder(s, c, 0, "", "");
      r.reply == OutOfStock(Show(a)) && r.store == s && r.store.products[a].stock == 1 && r.store.orders == s.orders
  {
    var c: Cart := [Entry(Show(a), 2)];
    ParseShow(a);
    assert !LineOk(s.products, c[0]);
    assert FirstBad(c, s.products) == 0;
  }
}
