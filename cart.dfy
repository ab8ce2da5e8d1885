/**
 * The session cart handlers of routes.py: add, update, remove, count and the
 * priced view. The cart is the dictionary the session stores: each key is
 * `str(product_id)` as the client sent it, each value the requested
 * quantity, in the order in which keys were first added. The handlers turn a
 * key back into a product id with `int(...)`, so two different keys, such as
 * "1" and "01", can name the same product. Quantities are integers: the
 * handlers accept whatever `int(...)` yields from the request, zero and
 * negative numbers included.
 */
module Cart {
  import opened Wrappers
  import opened OrderedMap
  import opened Store

  /** A cart key: the product id as text, as the client sent it. */
  type Key = string

  type Cart = Dict<Key, int>

  // ---------------------------------------------------------------- keys

  predicate IsDigit(ch: char) {
    '0' <= ch <= '9'
  }

  /** A non-empty run of ASCII digits. */
  predicate IsDigits(s: string) {
    |s| > 0 && forall i :: 0 <= i < |s| ==> IsDigit(s[i])
  }

  /** The number a run of digits spells, most significant digit first. */
  function DigitsValue(s: string): nat
    requires forall i :: 0 <= i < |s| ==> IsDigit(s[i])
  {
    if s == [] then 0
    else
      assert IsDigit(s[|s| - 1]);
      10 * DigitsValue(s[..|s| - 1]) + (s[|s| - 1] as int - '0' as int)
  }

  /** `int(key)`: the id that a key of decimal digits spells, leading zeros allowed; None where `int` raises. */
  function ParseId(key: Key): (r: Option<Id>)
    ensures r.Some? <==> IsDigits(key)
  {
    if IsDigits(key) then Some(DigitsValue(key)) else None
  }

  /** `str(id)`: the decimal digits of an id, as a client sends a number it got from the pages. */
  function Show(n: nat): (r: Key)
    ensures IsDigits(r)
  {
    if n < 10 then [('0' as int + n) as char]
    else Show(n / 10) + [('0' as int + n % 10) as char]
  }

  /** Reading back the text of an id gives that id. */
  lemma {:induction false} ParseShow(n: nat)
    ensures ParseId(Show(n)) == Some(n)
  {
    var s := Show(n);
    if n < 10 {
      assert s[..|s| - 1] == [];
      assert s[|s| - 1] as int - '0' as int == n;
      assert DigitsValue(s) == n;
    } else {
      ParseShow(n / 10);
      assert s[..|s| - 1] == Show(n / 10);
      assert s[|s| - 1] as int - '0' as int == n % 10;
    }
  }

  /** A leading zero does not change the id: "01" names the product that "1" names. */
  lemma LeadingZero(key: Key)
    requires IsDigits(key)
    ensures ParseId("0" + key) == ParseId(key)
  {
    ZeroValue(key);
  }

  lemma {:induction false} ZeroValue(s: string)
    requires forall i :: 0 <= i < |s| ==> IsDigit(s[i])
    ensures DigitsValue("0" + s) == DigitsValue(s)
    decreases |s|
  {
    var z := "0" + s;
    if s == [] {
      assert z[..|z| - 1] == [];
    } else {
      assert z[..|z| - 1] == "0" + s[..|s| - 1];
      ZeroValue(s[..|s| - 1]);
    }
  }

  /** The key names a product: `int(key)` succeeds and `Product.query.get` finds the row. */
  predicate Resolves(products: map<Id, Product>, key: Key) {
    ParseId(key).Some? && ParseId(key).value in products
  }

  /** The product row a resolving key names. */
  function ProductOf(products: map<Id, Product>, key: Key): Product
    requires Resolves(products, key)
  {
    products[ParseId(key).value]
  }

  /** Every key of the cart is one that `int` accepts. */
  predicate KeysParse(c: seq<Entry<Key, int>>) {
    forall e :: e in c ==> ParseId(e.key).Some?
  }

  // ---------------------------------------------------------------- handlers

  /** The JSON reply: `success` true, or false with one of three messages, or a failed request. */
  datatype CartReply =
    | Ok
    | BadId                  // `int(product_id)` raises: the request fails and the session is not saved
    | NotFound               // 'Produit non trouvé'
    | InsufficientStock      // 'Stock insuffisant'
    | Adjusted(available: int)  // 'Quantité ajustée au stock disponible (...)'

  /** The reply and the cart that the session holds afterwards. */
  datatype CartStep = CartStep(reply: CartReply, cart: Cart)

  /** `cart.get(key, 0)`. */
  function Quantity(c: seq<Entry<Key, int>>, key: Key): int {
    Lookup(c, key).GetOr(0)
  }

  /**
   * add_to_cart. A key that is not a number fails the request; a missing or
   * inactive product, or a request above the stock, is refused. Otherwise
   * the line under that key becomes old quantity + requested quantity; when
   * that sum exceeds the stock the handler reports the stock and returns
   * before `session['cart'] = cart`, so the stored cart stays as it was. The
   * sum only looks at the line under the same key, not at other keys that
   * name the same product.
   */
  function AddToCart(c: Cart, products: map<Id, Product>, key: Key, qty: int): (r: CartStep)
    ensures r.reply == BadId <==> ParseId(key).None?
    ensures r.reply == NotFound <==>
      ParseId(key).Some? && (!Resolves(products, key) || !ProductOf(products, key).isActive)
    ensures r.reply == InsufficientStock <==>
      Resolves(products, key) && ProductOf(products, key).isActive && ProductOf(products, key).stock < qty
    ensures r.reply.Adjusted? <==>
      Resolves(products, key) && ProductOf(products, key).isActive &&
      qty <= ProductOf(products, key).stock < Quantity(c, key) + qty
    ensures r.reply.Adjusted? ==> r.reply.available == ProductOf(products, key).stock
    ensures r.reply != Ok ==> r.cart == c
    ensures r.reply == Ok ==>
      Lookup(r.cart, key) == Some(Quantity(c, key) + qty) && Quantity(c, key) + qty <= ProductOf(products, key).stock
    ensures forall k :: k != key ==> Lookup(r.cart, k) == Lookup(c, k)
  {
    match ParseId(key)
    case None => CartStep(BadId, c)
    case Some(id) =>
      if id !in products || !products[id].isActive then CartStep(NotFound, c)
      else if products[id].stock < qty then CartStep(InsufficientStock, c)
      else
        var total := Quantity(c, key) + qty;
        if total > products[id].stock then CartStep(Adjusted(products[id].stock), c)
        else CartStep(Ok, Put(c, key, total))
  }

  /**
   * update_cart. A quantity of zero or less removes the line without reading
   * the key. A positive quantity needs a numeric key, and is stored as it is
   * when the product exists and has that much stock; whether the product is
   * active is not checked.
   */
  function UpdateCart(c: Cart, products: map<Id, Product>, key: Key, qty: int): (r: CartStep)
    ensures r.reply == Ok || r.reply == BadId || r.reply == InsufficientStock
    ensures qty <= 0 ==> r.reply == Ok && Lookup(r.cart, key) == None
    ensures qty > 0 ==> (r.reply == BadId <==> ParseId(key).None?)
    ensures qty > 0 ==> (r.reply == Ok <==> Resolves(products, key) && qty <= ProductOf(products, key).stock)
    ensures qty > 0 && r.reply == Ok ==> Lookup(r.cart, key) == Some(qty)
    ensures r.reply != Ok ==> r.cart == c
    ensures forall k :: k != key ==> Lookup(r.cart, k) == Lookup(c, k)
  {
    if qty <= 0 then CartStep(Ok, Pop(c, key))
    else if ParseId(key).None? then CartStep(BadId, c)
    else if Resolves(products, key) && qty <= ProductOf(products, key).stock then CartStep(Ok, Put(c, key, qty))
    else CartStep(InsufficientStock, c)
  }

  /** remove_from_cart: always succeeds and drops the line under that key, if any. */
  function RemoveFromCart(c: Cart, key: Key): (r: Cart)
    ensures Lookup(r, key) == None
    ensures forall k :: k != key ==> Lookup(r, k) == Lookup(c, k)
    ensures forall e :: e in r <==> e in c && e.key != key
  {
    Pop(c, key)
  }

  lemma RemoveIdempotent(c: Cart, key: Key)
    ensures RemoveFromCart(RemoveFromCart(c, key), key) == RemoveFromCart(c, key)
  {
  }

  /**
   * A cart only ever holds numeric keys: add and update store a key only
   * after `int(key)` succeeded, and remove only drops lines.
   */
  lemma KeysStayNumeric(c: Cart, products: map<Id, Product>, key: Key, qty: int)
    requires KeysParse(c)
    ensures KeysParse(AddToCart(c, products, key, qty).cart)
    ensures KeysParse(UpdateCart(c, products, key, qty).cart)
    ensures KeysParse(RemoveFromCart(c, key))
  {
    PutEntries(c, key, Quantity(c, key) + qty);
    PutEntries(c, key, qty);
  }

  /**
   * update_cart never looks at `is_active`: a deactivated product that cannot
   * be added can still have its line set by an update.
   */
  lemma UpdateIgnoresActive(c: Cart, products: map<Id, Product>, key: Key, qty: int)
    requires Resolves(products, key) && !ProductOf(products, key).isActive && 0 < qty <= ProductOf(products, key).stock
    ensures AddToCart(c, products, key, qty).reply == NotFound
    ensures UpdateCart(c, products, key, qty).reply == Ok
    ensures Lookup(UpdateCart(c, products, key, qty).cart, key) == Some(qty)
  {
  }

  /**
   * Two keys, one product: with a stock of 5, adding 3 under "1" and then 3
   * under "01" both succeed, and the cart holds 6 of that product.
   */
  lemma TwoKeysOneProduct(products: map<Id, Product>)
    requires 1 in products && products[1].isActive && products[1].stock == 5
    ensures var first := AddToCart([], products, "1", 3);
      var second := AddToCart(first.cart, products, "01", 3);
      && first.reply == Ok && second.reply == Ok
      && second.cart == [Entry("1", 3), Entry("01", 3)]
      && ParseId("1") == ParseId("01") == Some(1)
  {
    OneReadsAsOne();
    FirstAdd(products);
    SecondAdd(products);
  }

  /** "1" and "01" both read as id 1. */
  lemma OneReadsAsOne()
    ensures ParseId("1") == Some(1) && ParseId("01") == Some(1)
  {
    assert ParseId("1") == Some(1);
    LeadingZero("1");
    assert "0" + "1" == "01";
  }

  lemma FirstAdd(products: map<Id, Product>)
    requires 1 in products && products[1].isActive && products[1].stock == 5
    ensures AddToCart([], products, "1", 3) == CartStep(Ok, [Entry("1", 3)])
  {
    assert ParseId("1") == Some(1);
    assert Quantity([], "1") == 0;
    PutFresh([], "1", 3);
  }

  lemma SecondAdd(products: map<Id, Product>)
    requires 1 in products && products[1].isActive && products[1].stock == 5
    ensures AddToCart([Entry("1", 3)], products, "01", 3) == CartStep(Ok, [Entry("1", 3), Entry("01", 3)])
  {
    var c1: Cart := [Entry("1", 3)];
    OneReadsAsOne();
    assert "1"[0] != "01"[0];
    assert Lookup(c1, "01").None?;
    assert Quantity(c1, "01") == 0;
    PutFresh(c1, "01", 3);
  }

  // ---------------------------------------------------------------- count

  /** Every line of the cart holds at least `lo`. */
  predicate AllAtLeast(c: seq<Entry<Key, int>>, lo: int) {
    forall j :: 0 <= j < |c| ==> c[j].val >= lo
  }

  /** `sum(cart.values())`. */
  function Count(c: seq<Entry<Key, int>>): int {
    if c == [] then 0 else Count(c[..|c| - 1]) + c[|c| - 1].val
  }

  /**
   * A request may send a negative quantity (routes.py:150), so only a cart
   * of non-negative quantities is sure to count at least zero, and one of
   * positive quantities at least one per line.
   */
  lemma {:induction false} CountBounds(c: seq<Entry<Key, int>>)
    ensures AllAtLeast(c, 0) ==> Count(c) >= 0
    ensures AllAtLeast(c, 1) ==> Count(c) >= |c|
    decreases |c|
  {
    if c != [] {
      CountBounds(c[..|c| - 1]);
    }
  }

  lemma {:induction false} CountConcat(a: seq<Entry<Key, int>>, b: seq<Entry<Key, int>>)
    ensures Count(a + b) == Count(a) + Count(b)
    decreases |b|
  {
    if b != [] {
      var b' := b[..|b| - 1];
      assert (a + b)[..|a + b| - 1] == a + b';
      assert (a + b)[|a + b| - 1] == b[|b| - 1];
      CountConcat(a, b');
      assert Count(a + b) == Count(a + b') + b[|b| - 1].val;
    } else {
      assert a + b == a;
    }
  }

  /** Setting one line changes the count by the difference on that line. */
  lemma CountPut(c: Cart, key: Key, q: int)
    ensures Count(Put(c, key, q)) == Count(c) - Quantity(c, key) + q
  {
    var i := IndexOf(c, key);
    if i < |c| {
      var r := Put(c, key, q);
      assert c == c[..i] + [c[i]] + c[i + 1..];
      assert r == c[..i] + [Entry(key, q)] + c[i + 1..];
      CountConcat(c[..i] + [c[i]], c[i + 1..]);
      CountConcat(c[..i], [c[i]]);
      CountConcat(c[..i] + [Entry(key, q)], c[i + 1..]);
      CountConcat(c[..i], [Entry(key, q)]);
    } else {
      assert Put(c, key, q)[..|c|] == c;
    }
  }

  /** Removing one line lowers the count by that line's quantity. */
  lemma CountPop(c: Cart, key: Key)
    ensures Count(Pop(c, key)) == Count(c) - Quantity(c, key)
  {
    var i := IndexOf(c, key);
    if i < |c| {
      assert c == c[..i] + [c[i]] + c[i + 1..];
      CountConcat(c[..i] + [c[i]], c[i + 1..]);
      CountConcat(c[..i], [c[i]]);
      CountConcat(c[..i], c[i + 1..]);
    }
  }

  /** cart_count after add: a successful add raises the count by exactly the requested quantity; a refused one leaves it. */
  lemma AddCount(c: Cart, products: map<Id, Product>, key: Key, qty: int)
    ensures var r := AddToCart(c, products, key, qty);
      Count(r.cart) == if r.reply == Ok then Count(c) + qty else Count(c)
  {
    if AddToCart(c, products, key, qty).reply == Ok {
      CountPut(c, key, Quantity(c, key) + qty);
    }
  }

  /** cart_count after update: the line's old quantity is replaced by the new one (by 0 when removed). */
  lemma UpdateCount(c: Cart, products: map<Id, Product>, key: Key, qty: int)
    ensures var r := UpdateCart(c, products, key, qty);
      Count(r.cart) == if r.reply == Ok then Count(c) - Quantity(c, key) + (if qty <= 0 then 0 else qty) else Count(c)
  {
    if qty <= 0 {
      CountPop(c, key);
    } else if UpdateCart(c, products, key, qty).reply == Ok {
      CountPut(c, key, qty);
    }
  }

  // ---------------------------------------------------------------- priced view

  /** One row of the cart page: the key, its product, the quantity and price × quantity. */
  datatype ViewLine = ViewLine(key: Key, product: Id, quantity: int, subtotal: int)

  /** The row shown for a cart line whose key names a product. */
  function RowOf(products: map<Id, Product>, e: Entry<Key, int>): ViewLine
    requires Resolves(products, e.key)
  {
    ViewLine(e.key, ParseId(e.key).value, e.val, ProductOf(products, e.key).price * e.val)
  }

  /**
   * The rows of the cart page (and of the checkout page): one per cart line
   * whose product still exists, priced at the current price; lines whose
   * product was deleted are skipped. RowsInCartOrder shows the rows follow
   * the cart's order. The page reads every key with `int(...)`, which only
   * numeric keys survive.
   */
  function PricedLines(c: Cart, products: map<Id, Product>): (r: seq<ViewLine>)
    requires KeysParse(c)
    ensures |r| <= |c|
    ensures forall l :: l in r ==>
      && Entry(l.key, l.quantity) in c && Resolves(products, l.key)
      && l.product == ParseId(l.key).value && l.subtotal == ProductOf(products, l.key).price * l.quantity
    ensures forall e :: e in c && Resolves(products, e.key) ==> RowOf(products, e) in r
    decreases |c|
  {
    if c == [] then []
    else
      var init: Cart := c[..|c| - 1];
      var e := c[|c| - 1];
      assert forall x :: x in c <==> x in init || x == e;
      PricedLines(init, products) + if Resolves(products, e.key) then [RowOf(products, e)] else []
  }

  /** The rows' keys appear in the cart in the same order as the rows. */
  ghost predicate InCartOrder(c: Cart, rows: seq<ViewLine>) {
    forall i, j :: 0 <= i < j < |rows| ==> IndexOf(c, rows[i].key) < IndexOf(c, rows[j].key)
  }

  /** The rows come in the order of their keys in the cart, so each cart line is shown at most once. */
  lemma {:induction false} RowsInCartOrder(c: Cart, products: map<Id, Product>)
    requires KeysParse(c)
    ensures InCartOrder(c, PricedLines(c, products))
    decreases |c|
  {
    if c != [] {
      var init: Cart := c[..|c| - 1];
      var e := c[|c| - 1];
      assert forall x :: x in init ==> x in c;
      var rows := PricedLines(init, products);
      RowsInCartOrder(init, products);
      var r := PricedLines(c, products);
      assert r[..|rows|] == rows;
      forall i, j | 0 <= i < j < |r| ensures IndexOf(c, r[i].key) < IndexOf(c, r[j].key) {
        assert r[i] == rows[i] && rows[i] in rows;
        RowsAfter(c, rows, i);
        if j < |rows| {
          assert r[j] == rows[j] && rows[j] in rows;
          RowsAfter(c, rows, j);
          assert InCartOrder(init, rows);
        } else {
          assert r[j].key == e.key;
          IndexOfSnoc(c, e.key);
        }
      }
    }
  }

  /** A row built from the cart without its last line keeps its key's position in the whole cart. */
  lemma RowsAfter(c: Cart, rows: seq<ViewLine>, i: nat)
    requires c != [] && i < |rows|
    requires Entry(rows[i].key, rows[i].quantity) in c[..|c| - 1]
    ensures IndexOf(c, rows[i].key) == IndexOf(c[..|c| - 1], rows[i].key) < |c| - 1
  {
    var init := c[..|c| - 1];
    var j :| 0 <= j < |init| && init[j] == Entry(rows[i].key, rows[i].quantity);
    assert IndexOf(init, rows[i].key) <= j;
    IndexOfSnoc(c, rows[i].key);
  }

  /** The sum of the subtotals: the `total` the page displays. */
  function LinesTotal(lines: seq<ViewLine>): int {
    if lines == [] then 0 else LinesTotal(lines[..|lines| - 1]) + lines[|lines| - 1].subtotal
  }

  /** Σ price × quantity over all lines, for a cart whose keys all name products. */
  function CartValue(c: seq<Entry<Key, int>>, products: map<Id, Product>): int
    requires forall e :: e in c ==> Resolves(products, e.key)
  {
    if c == [] then 0
    else
      var e := c[|c| - 1];
      CartValue(c[..|c| - 1], products) + ProductOf(products, e.key).price * e.val
  }

  /**
   * The page total is the value of the cart without the lines whose product
   * is gone: `gone` is any set of keys holding exactly those lines' keys.
   */
  lemma {:induction false} ViewTotal(c: Cart, products: map<Id, Product>, gone: set<Key>)
    requires KeysParse(c)
    requires forall e :: e in c ==> (e.key in gone <==> !Resolves(products, e.key))
    ensures forall e :: e in Without(c, gone) ==> Resolves(products, e.key)
    ensures LinesTotal(PricedLines(c, products)) == CartValue(Without(c, gone), products)
    decreases |c|
  {
    if c != [] {
      var init: Cart := c[..|c| - 1];
      var e := c[|c| - 1];
      assert forall x :: x in init ==> x in c;
      ViewTotal(init, products, gone);
      var kept := Without(init, gone);
      WithoutSnoc(c, gone);
      PricedLast(c, products);
      var rows := PricedLines(init, products);
      assert e in c;
      if Resolves(products, e.key) {
        var row := RowOf(products, e);
        assert PricedLines(c, products) == rows + [row];
        LinesTotalSnoc(rows, row);
        assert Without(c, gone) == kept + [e];
        CartValueSnoc(kept, e, products);
        calc {
          LinesTotal(PricedLines(c, products));
          LinesTotal(rows) + row.subtotal;
          CartValue(kept, products) + ProductOf(products, e.key).price * e.val;
          CartValue(Without(c, gone), products);
        }
      } else {
        assert PricedLines(c, products) == rows;
        assert Without(c, gone) == kept;
      }
    }
  }

  lemma CartValueSnoc(c: seq<Entry<Key, int>>, e: Entry<Key, int>, products: map<Id, Product>)
    requires forall x :: x in c ==> Resolves(products, x.key)
    requires Resolves(products, e.key)
    ensures forall x :: x in c + [e] ==> Resolves(products, x.key)
    ensures CartValue(c + [e], products) == CartValue(c, products) + ProductOf(products, e.key).price * e.val
  {
    assert (c + [e])[..|c|] == c;
  }

  /** The rows of a cart are those of all but its last line, then the last line's row if its product exists. */
  lemma PricedLast(c: Cart, products: map<Id, Product>)
    requires KeysParse(c) && c != []
    ensures var init: Cart := c[..|c| - 1];
      && KeysParse(init)
      && PricedLines(c, products) ==
        PricedLines(init, products) + if Resolves(products, c[|c| - 1].key) then [RowOf(products, c[|c| - 1])] else []
  {
    var init: Cart := c[..|c| - 1];
    assert forall x :: x in init ==> x in c;
  }

  /** When no product of the cart was deleted, every line is shown and the total is the cart's full value. */
  lemma {:induction false} ViewShowsWholeCart(c: Cart, products: map<Id, Product>)
    requires forall e :: e in c ==> Resolves(products, e.key)
    ensures KeysParse(c)
    ensures |PricedLines(c, products)| == |c|
    ensures LinesTotal(PricedLines(c, products)) == CartValue(c, products)
    decreases |c|
  {
    if c != [] {
      var init: Cart := c[..|c| - 1];
      assert forall e :: e in init ==> e in c;
      ViewShowsWholeCart(init, products);
      var lines := PricedLines(c, products);
      assert lines[..|lines| - 1] == PricedLines(init, products);
    }
  }

  lemma LinesTotalSnoc(lines: seq<ViewLine>, row: ViewLine)
    ensures LinesTotal(lines + [row]) == LinesTotal(lines) + row.subtotal
  {
    assert (lines + [row])[..|lines|] == lines;
  }

  /** One more line of the cart adds its row when its product exists. */
  lemma PricedStep(c: Cart, products: map<Id, Product>, i: nat)
    requires KeysParse(c) && i < |c|
    ensures ParseId(c[i].key).Some? && KeysParse(c[..i + 1])
    ensures PricedLines(c[..i + 1], products) ==
      PricedLines(c[..i], products) + if Resolves(products, c[i].key) then [RowOf(products, c[i])] else []
  {
    var prefix: Cart := c[..i + 1];
    assert prefix[..i] == c[..i];
    assert c[i] in c;
  }

  /** cart(): the loop of routes.py:131-140 over the stored cart, with live product lookups. */
  method PricedView(c: Cart, products: map<Id, Product>) returns (lines: seq<ViewLine>, total: int)
    requires KeysParse(c)
    ensures lines == PricedLines(c, products)
    ensures total == LinesTotal(lines)
  {
    lines, total := [], 0;
    var i := 0;
    while i < |c|
      invariant i <= |c|
      invariant KeysParse(c[..i])
      invariant lines == PricedLines(c[..i], products)
      invariant total == LinesTotal(lines)
    {
      var e := c[i];
      PricedStep(c, products, i);
      var id := ParseId(e.key).value;
      if id in products {
        var row := ViewLine(e.key, id, e.val, products[id].price * e.val);
        LinesTotalSnoc(lines, row);
        lines := lines + [row];
        total := total + row.subtotal;
      }
      i := i + 1;
    }
    assert c[..i] == c;
  }
}
