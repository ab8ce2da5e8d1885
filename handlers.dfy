/**
 * The request handlers as the source writes them: state that changes in
 * place. A `Session` is the signed-cookie session of one visitor (its cart
 * and its language); a `Database` holds the rows, which the handlers edit
 * field by field and then commit. Each method is proved to leave exactly
 * the state that the matching one-step function of the model describes, so
 * every property proved about those functions holds of the handlers too.
 */
module Handlers {
  import opened Wrappers
  import opened OrderedMap
  import opened Store
  import Cart
  import Checkout
  import Admin
  import Accounts
  import App

  /** Flask's `session` for one visitor. An absent 'cart' key reads as the empty cart. */
  class Session {
    var cart: Cart.Cart
    var language: Option<string>

    /** A new visitor: no cart, no language. */
    constructor ()
      ensures cart == [] && language == None
    {
      cart := [];
      language := None;
    }

    /**
     * add_to_cart. The handler reads the key with `int`, edits the dictionary
     * it read and stores it back with `session['cart'] = cart` only on
     * success; the clamp to the stock is made on the working copy and then
     * dropped.
     */
    method AddToCart(products: map<Id, Product>, key: Cart.Key, qty: int) returns (reply: Cart.CartReply)
      modifies this
      ensures var r := Cart.AddToCart(old(cart), products, key, qty);
        reply == r.reply && cart == r.cart
      ensures language == old(language)
    {
      var id := Cart.ParseId(key);
      if id.None? {
        return Cart.BadId;
      }
      if id.value !in products || !products[id.value].isActive {
        return Cart.NotFound;
      }
      var product := products[id.value];
      if product.stock < qty {
        return Cart.InsufficientStock;
      }
      var working := cart;
      match Lookup(working, key) {
        case Some(q) =>
          working := Put(working, key, q + qty);
        case None =>
          working := Put(working, key, qty);
      }
      if Lookup(working, key).value > product.stock {
        working := Put(working, key, product.stock);
        return Cart.Adjusted(product.stock);
      }
      cart := working;
      return Cart.Ok;
    }

    /** update_cart: `cart.pop` for a quantity of zero or less, else an assignment when the stock allows it. */
    method UpdateCart(products: map<Id, Product>, key: Cart.Key, qty: int) returns (reply: Cart.CartReply)
      modifies this
      ensures var r := Cart.UpdateCart(old(cart), products, key, qty);
        reply == r.reply && cart == r.cart
      ensures language == old(language)
    {
      var working := cart;
      if qty <= 0 {
        working := Pop(working, key);
      } else {
        var id := Cart.ParseId(key);
        if id.None? {
          return Cart.BadId;
        }
        if id.value in products && qty <= products[id.value].stock {
          working := Put(working, key, qty);
        } else {
          return Cart.InsufficientStock;
        }
      }
      cart := working;
      return Cart.Ok;
    }

    /** remove_from_cart. */
    method RemoveFromCart(key: Cart.Key)
      modifies this
      ensures cart == Cart.RemoveFromCart(old(cart), key)
      ensures language == old(language)
    {
      cart := Pop(cart, key);
    }

    /** set_language. */
    method SetLanguage(code: string)
      modifies this
      ensures language == App.SetLanguage(old(language), code)
      ensures cart == old(cart)
    {
      if code in App.Languages {
        language := Some(code);
      }
    }

    /** get_locale: a non-empty `lang` argument is written to the session before the locale is chosen. */
    method GetLocale(lang: Option<string>, bestMatch: Option<string>) returns (locale: string)
      modifies this
      ensures var r := App.GetLocale(old(language), lang, bestMatch);
        locale == r.locale && language == r.session
      ensures cart == old(cart)
    {
      if lang.Some? && lang.value != "" {
        language := lang;
      }
      if language.Some? {
        return language.value;
      }
      return bestMatch.GetOr(App.DefaultLocale);
    }
  }

  /** The keys of some entries of the orders table. */
  ghost function KeysOf(es: seq<Entry<Id, Order>>): set<Id> {
    set e | e in es :: e.key
  }

  /** Deleting the items of `a`, then those of `b`, deletes the items of `a + b`. */
  lemma {:induction false} OutsideTwice(items: seq<OrderItem>, a: set<Id>, b: set<Id>)
    ensures Admin.ItemsOutside(Admin.ItemsOutside(items, a), b) == Admin.ItemsOutside(items, a + b)
    decreases |items|
  {
    if items != [] {
      var init := items[..|items| - 1];
      var last := items[|items| - 1];
      OutsideTwice(init, a, b);
      var once := Admin.ItemsOutside(init, a);
      if last.orderId !in a {
        var y := once + [last];
        assert y[..|y| - 1] == once;
      }
    }
  }

  lemma KeysSnoc(es: seq<Entry<Id, Order>>, i: nat)
    requires i < |es|
    ensures KeysOf(es[..i + 1]) == KeysOf(es[..i]) + {es[i].key}
  {
    assert es[..i + 1] == es[..i] + [es[i]];
  }

  /** The keys of `user.orders` are the ids of the orders whose user is `uid`. */
  lemma OrderKeys(orders: seq<Entry<Id, Order>>, uid: Id)
    ensures KeysOf(Admin.OrdersOf(orders, uid)) == Admin.OrderIdsOf(orders, uid)
  {
    var mine := Admin.OrdersOf(orders, uid);
    forall k | k in Admin.OrderIdsOf(orders, uid) ensures k in KeysOf(mine) {
      var e :| e in orders && e.val.userId == uid && e.key == k;
      assert e in mine;
    }
  }

  /** The store after a successful checkout, spelled out field by field. */
  lemma PlacedStore(s: Store, c: Cart.Cart, user: Id, address: string, phone: string, total: int, pending: seq<Checkout.Pending>)
    requires |c| > 0 && Checkout.Validate(c, s.products) == Checkout.Priced(total, pending)
    ensures Checkout.PlaceOrder(s, c, user, address, phone) == Checkout.CheckoutStep(
      Checkout.Placed(s.nextOrderId),
      s.(orders := Put(s.orders, s.nextOrderId, Order(user, total, InitialStatus, address, phone)),
         items := s.items + Checkout.NewItems(s.nextOrderId, pending),
         products := Checkout.Lowered(s.products, c),
         nextOrderId := s.nextOrderId + 1),
      [])
  {
  }

  /** The reply and store after a permitted admin_delete_user, spelled out. */
  lemma DeletedUserStore(s: Store, actor: Id, id: Id)
    requires Admin.IsAdmin(s, actor) && id in s.users && id != actor
    ensures var ids := Admin.OrderIdsOf(s.orders, id);
      var mine := Admin.OrdersOf(s.orders, id);
      Admin.DeleteUser(s, actor, id) == Admin.AdminStep(
        Admin.UserDeleted(|mine|, |Admin.ItemsOfOrders(s.items, ids)|, Admin.Spent(mine)),
        s.(users := s.users - {id}, orders := Without(s.orders, ids), items := Admin.ItemsOutside(s.items, ids)))
  {
  }

  /** One more name looked at: the count of removed files grows by one exactly when that file was there. */
  lemma RemovedCount(images0: set<string>, done: set<string>, name: string)
    requires name !in done
    ensures |(done + {name}) * images0| == |done * images0| + if name in images0 then 1 else 0
  {
    if name in images0 {
      assert (done + {name}) * images0 == done * images0 + {name};
    } else {
      assert (done + {name}) * images0 == done * images0;
    }
  }

  /** The item rows written so far, then one more. */
  lemma ItemsStep(items0: seq<OrderItem>, oid: Id, pending: seq<Checkout.Pending>, i: nat)
    requires i < |pending|
    ensures items0 + Checkout.NewItems(oid, pending[..i]) + [OrderItem(oid, pending[i].productId, pending[i].quantity, pending[i].price)]
      == items0 + Checkout.NewItems(oid, pending[..i + 1])
  {
    NewItemsSnoc(oid, pending, i);
  }

  /** One more pending line adds its order item at the end. */
  lemma NewItemsSnoc(oid: Id, pending: seq<Checkout.Pending>, i: nat)
    requires i < |pending|
    ensures Checkout.NewItems(oid, pending[..i + 1]) ==
      Checkout.NewItems(oid, pending[..i]) + [OrderItem(oid, pending[i].productId, pending[i].quantity, pending[i].price)]
  {
  }

  /** Deleting the items of no order keeps every item. */
  lemma {:induction false} OutsideNone(items: seq<OrderItem>)
    ensures Admin.ItemsOutside(items, {}) == items
    decreases |items|
  {
    if items != [] {
      OutsideNone(items[..|items| - 1]);
    }
  }

  /** The rows of the shop, edited in place by the handlers and committed at the end of each. */
  class Database {
    var users: map<Id, User>
    var categories: map<Id, Category>
    var products: map<Id, Product>
    var orders: Dict<Id, Order>
    var items: seq<OrderItem>
    var images: set<string>
    var nextUserId: Id
    var nextOrderId: Id

    /** The rows as one value. */
    function Snapshot(): Store
      reads this
    {
      Store(users, categories, products, orders, items, images, nextUserId, nextOrderId)
    }

    constructor (s: Store)
      ensures Snapshot() == s
    {
      users, categories, products := s.users, s.categories, s.products;
      orders, items, images := s.orders, s.items, s.images;
      nextUserId, nextOrderId := s.nextUserId, s.nextOrderId;
    }

    /**
     * checkout, POST branch: the pricing loop, then the order row, then one
     * item row and one `stock -= quantity` per line, then the cart goes.
     */
    method PlaceOrder(session: Session, user: Id, address: string, phone: string) returns (reply: Checkout.CheckoutReply)
      modifies this, session
      ensures var r := Checkout.PlaceOrder(old(Snapshot()), old(session.cart), user, address, phone);
        reply == r.reply && Snapshot() == r.store && session.cart == r.cart
      ensures session.language == old(session.language)
    {
      var c := session.cart;
      if |c| == 0 {
        return Checkout.EmptyCart;
      }
      var v := Checkout.ValidateCart(c, products);
      match v
      case MissingLine(key) =>
        return Checkout.MissingProduct(key);
      case ShortLine(key) =>
        return Checkout.OutOfStock(key);
      case Priced(total, pending) =>
        var oid := SaveOrder(user, address, phone, c, total, pending);
        PlacedStore(old(Snapshot()), c, user, address, phone, total, pending);
        session.cart := [];
        return Checkout.Placed(oid);
    }

    /** The order row, flushed to get its id, then its lines. */
    method SaveOrder(user: Id, address: string, phone: string, c: Cart.Cart, total: int, pending: seq<Checkout.Pending>)
      returns (oid: Id)
      requires |pending| == |c|
      requires forall j :: 0 <= j < |c| ==>
        Cart.Resolves(products, c[j].key) && pending[j].productId == Cart.ParseId(c[j].key).value &&
        pending[j].quantity == c[j].val
      modifies this
      ensures oid == old(nextOrderId)
      ensures Snapshot() == old(Snapshot()).(
        orders := Put(old(orders), oid, Order(user, total, InitialStatus, address, phone)),
        items := old(items) + Checkout.NewItems(oid, pending),
        products := Checkout.Lowered(old(products), c),
        nextOrderId := oid + 1)
    {
      oid := nextOrderId;
      orders := Put(orders, oid, Order(user, total, InitialStatus, address, phone));
      nextOrderId := oid + 1;
      RecordLines(oid, c, pending);
    }

    /**
     * The second loop of checkout: one order item per priced line, and the
     * line's quantity taken off its product's stock.
     */
    method RecordLines(oid: Id, c: Cart.Cart, pending: seq<Checkout.Pending>)
      requires |pending| == |c|
      requires forall j :: 0 <= j < |c| ==>
        Cart.Resolves(products, c[j].key) && pending[j].productId == Cart.ParseId(c[j].key).value &&
        pending[j].quantity == c[j].val
      modifies this`items, this`products
      ensures items == old(items) + Checkout.NewItems(oid, pending)
      ensures products == Checkout.Lowered(old(products), c)
    {
      ghost var items0, products0 := items, products;
      var i := 0;
      while i < |pending|
        invariant i <= |pending|
        invariant items == items0 + Checkout.NewItems(oid, pending[..i])
        invariant products == Checkout.Lowered(products0, c[..i])
      {
        var item := pending[i];
        var row := OrderItem(oid, item.productId, item.quantity, item.price);
        ItemsStep(items0, oid, pending, i);
        items := items + [row];
        Checkout.LoweredStep(products0, c, i);
        products := Checkout.LowerLine(products, item.productId, item.quantity);
        i := i + 1;
      }
      assert pending[..i] == pending && c[..i] == c;
    }

    /** admin_delete_product. */
    method DeleteProduct(actor: Id, id: Id) returns (reply: Admin.AdminReply)
      modifies this
      ensures var r := Admin.DeleteProduct(old(Snapshot()), actor, id);
        reply == r.reply && Snapshot() == r.store
    {
      if !Admin.IsAdmin(Snapshot(), actor) {
        return Admin.Unauthorized;
      }
      if id !in products {
        return Admin.NotFound;
      }
      var product := products[id];
      var refs := |Admin.ItemsOfProduct(items, id)|;
      if refs > 0 {
        return Admin.InUse(refs);
      }
      if product.image.Some? && product.image.value in images {
        images := images - {product.image.value};
      }
      products := products - {id};
      return Admin.Done;
    }

    /** admin_toggle_product: `product.is_active = not product.is_active`. */
    method ToggleProduct(actor: Id, id: Id) returns (reply: Admin.AdminReply)
      modifies this
      ensures var r := Admin.ToggleProduct(old(Snapshot()), actor, id);
        reply == r.reply && Snapshot() == r.store
    {
      if !Admin.IsAdmin(Snapshot(), actor) {
        return Admin.Unauthorized;
      }
      if id !in products {
        return Admin.NotFound;
      }
      var product := products[id];
      products := products[id := product.(isActive := !product.isActive)];
      return Admin.Toggled(products[id].isActive);
    }

    /**
     * admin_delete_all_products: the rows go, then the loop over the image
     * names removes each file that is still there and counts the removals.
     */
    method DeleteAllProducts(actor: Id) returns (reply: Admin.AdminReply)
      modifies this
      ensures var r := Admin.DeleteAllProducts(old(Snapshot()), actor);
        reply == r.reply && Snapshot() == r.store
    {
      if !Admin.IsAdmin(Snapshot(), actor) {
        return Admin.Unauthorized;
      }
      var totalProducts := |products|;
      if totalProducts == 0 {
        return Admin.NothingToDelete;
      }
      var names := Admin.ImageNames(products);
      var deletedItems := |items|;
      items := [];
      var deletedOrders := |orders|;
      orders := [];
      products := map[];
      var deletedImages := RemoveImages(names);
      return Admin.Purged(totalProducts, deletedOrders, deletedItems, deletedImages);
    }

    /** admin_update_order_status: `order.status = new_status` for a whitelisted status. */
    method UpdateOrderStatus(actor: Id, id: Id, status: string) returns (reply: Admin.AdminReply)
      modifies this
      ensures var r := Admin.UpdateOrderStatus(old(Snapshot()), actor, id, status);
        reply == r.reply && Snapshot() == r.store
    {
      if !Admin.IsAdmin(Snapshot(), actor) {
        return Admin.Unauthorized;
      }
      match Lookup(orders, id)
      case None =>
        return Admin.NotFound;
      case Some(order) =>
        if status in OrderStatuses {
          orders := Put(orders, id, order.(status := status));
          return Admin.Done;
        }
        return Admin.InvalidStatus;
    }

    /** admin_add_category: `db.session.add(category)` under the id the database picks. */
    method AddCategory(actor: Id, id: Id, name: string, description: string) returns (reply: Admin.AdminReply)
      requires id !in categories
      modifies this
      ensures var r := Admin.AddCategory(old(Snapshot()), actor, id, name, description);
        reply == r.reply && Snapshot() == r.store
    {
      if !Admin.IsAdmin(Snapshot(), actor) {
        return Admin.Unauthorized;
      }
      categories := categories[id := Category(name, description)];
      return Admin.Done;
    }

    /** admin_edit_category: the two form fields are assigned to the row. */
    method EditCategory(actor: Id, id: Id, name: string, description: string) returns (reply: Admin.AdminReply)
      modifies this
      ensures var r := Admin.EditCategory(old(Snapshot()), actor, id, name, description);
        reply == r.reply && Snapshot() == r.store
    {
      if !Admin.IsAdmin(Snapshot(), actor) {
        return Admin.Unauthorized;
      }
      if id !in categories {
        return Admin.NotFound;
      }
      var category := categories[id];
      category := category.(name := name);
      category := category.(description := description);
      categories := categories[id := category];
      return Admin.Done;
    }

    /** admin_delete_category: refused while `category.products` is not empty. */
    method DeleteCategory(actor: Id, id: Id) returns (reply: Admin.AdminReply)
      modifies this
      ensures var r := Admin.DeleteCategory(old(Snapshot()), actor, id);
        reply == r.reply && Snapshot() == r.store
    {
      if !Admin.IsAdmin(Snapshot(), actor) {
        return Admin.Unauthorized;
      }
      if id !in categories {
        return Admin.NotFound;
      }
      if exists p :: p in products && products[p].categoryId == Some(id) {
        return Admin.HasProducts;
      }
      categories := categories - {id};
      return Admin.Done;
    }

    /** admin_toggle_user_admin: `user.is_admin = not user.is_admin` for another user. */
    method ToggleUserAdmin(actor: Id, id: Id) returns (reply: Admin.AdminReply)
      modifies this
      ensures var r := Admin.ToggleUserAdmin(old(Snapshot()), actor, id);
        reply == r.reply && Snapshot() == r.store
    {
      if !Admin.IsAdmin(Snapshot(), actor) {
        return Admin.Unauthorized;
      }
      if id !in users {
        return Admin.NotFound;
      }
      if id == actor {
        return Admin.OwnAccount;
      }
      var user := users[id];
      users := users[id := user.(isAdmin := !user.isAdmin)];
      return Admin.Toggled(users[id].isAdmin);
    }

    /**
     * admin_delete_user: the statistics are taken first; the loop over the
     * user's orders deletes each order's items and adds up how many went;
     * then the orders and the user are deleted.
     */
    method DeleteUser(actor: Id, id: Id) returns (reply: Admin.AdminReply)
      modifies this
      ensures var r := Admin.DeleteUser(old(Snapshot()), actor, id);
        reply == r.reply && Snapshot() == r.store
    {
      if !Admin.IsAdmin(Snapshot(), actor) {
        return Admin.Unauthorized;
      }
      if id !in users {
        return Admin.NotFound;
      }
      if id == actor {
        return Admin.OwnAccount;
      }
      DeletedUserStore(old(Snapshot()), actor, id);
      var ordersCount, deletedItems, totalSpent := RemoveUser(id);
      return Admin.UserDeleted(ordersCount, deletedItems, totalSpent);
    }

    /**
     * The body of admin_delete_user's `try`: the statistics, the loop over
     * the user's orders, then the orders and the user row.
     */
    method RemoveUser(id: Id) returns (ordersCount: nat, deletedItems: nat, totalSpent: int)
      modifies this
      ensures var ids := Admin.OrderIdsOf(old(orders), id);
        var mine := Admin.OrdersOf(old(orders), id);
        && ordersCount == |mine|
        && deletedItems == |Admin.ItemsOfOrders(old(items), ids)|
        && totalSpent == Admin.Spent(mine)
        && Snapshot() == old(Snapshot()).(
          users := old(users) - {id},
          orders := Without(old(orders), ids),
          items := Admin.ItemsOutside(old(items), ids))
    {
      var mine := Admin.OrdersOf(orders, id);
      ordersCount := |mine|;
      totalSpent := Admin.Spent(mine);
      deletedItems := DropOrderItems(mine);
      var ids := Admin.OrderIdsOf(orders, id);
      OrderKeys(orders, id);
      orders := Without(orders, ids);
      users := users - {id};
    }

    /**
     * The image loop of admin_delete_all_products: each named file that is
     * present is removed and counted; a name already gone is skipped.
     */
    method RemoveImages(names: set<string>) returns (deleted: nat)
      modifies this`images
      ensures images == old(images) - names
      ensures deleted == |names * old(images)|
    {
      var todo := names;
      ghost var images0 := images;
      ghost var done: set<string> := {};
      deleted := 0;
      while todo != {}
        invariant done + todo == names && done !! todo
        invariant images == images0 - done
        invariant deleted == |done * images0|
        decreases |todo|
      {
        var name :| name in todo;
        RemovedCount(images0, done, name);
        if name in images {
          images := images - {name};
          deleted := deleted + 1;
        }
        done := done + {name};
        todo := todo - {name};
      }
    }

    /**
     * The order loop of admin_delete_user: for each order, count its items
     * (`len(order.items)`) and delete them.
     */
    method DropOrderItems(mine: seq<Entry<Id, Order>>) returns (deleted: nat)
      modifies this`items
      ensures items == Admin.ItemsOutside(old(items), KeysOf(mine))
      ensures deleted == |Admin.ItemsOfOrders(old(items), KeysOf(mine))|
    {
      deleted := 0;
      var i := 0;
      OutsideNone(items);
      assert KeysOf(mine[..0]) == {};
      while i < |mine|
        invariant i <= |mine|
        invariant items == Admin.ItemsOutside(old(items), KeysOf(mine[..i]))
        invariant deleted == |old(items)| - |items|
      {
        var k := mine[i].key;
        var gone := Admin.ItemsOfOrders(items, {k});
        Admin.ItemsSplit(items, {k});
        OutsideTwice(old(items), KeysOf(mine[..i]), {k});
        KeysSnoc(mine, i);
        deleted := deleted + |gone|;
        items := Admin.ItemsOutside(items, {k});
        i := i + 1;
      }
      assert mine[..i] == mine;
      Admin.ItemsSplit(old(items), KeysOf(mine));
    }

    /** register, once the form fields are read: the email check, then the username check, then the insert. */
    method Register(username: string, email: string, passwordHash: string) returns (reply: Accounts.RegisterReply)
      modifies this
      ensures var r := Accounts.Register(old(Snapshot()), username, email, passwordHash);
        reply == r.reply && Snapshot() == r.store
    {
      if EmailInUse(users, email) {
        return Accounts.EmailTaken;
      }
      if UsernameInUse(users, username) {
        return Accounts.UsernameTaken;
      }
      var uid := nextUserId;
      users := users[uid := User(username, email, passwordHash, false)];
      nextUserId := uid + 1;
      return Accounts.Registered(uid);
    }

    /** init_db's default administrator: inserted only when no user has its email; `started` is false when the name "admin" is taken and the insert fails. */
    method EnsureAdmin(passwordHash: string) returns (started: bool)
      modifies this
      ensures var r := App.EnsureAdmin(old(Snapshot()), passwordHash);
        && started == r.Started?
        && (r.Started? ==> Snapshot() == r.store)
        && (!r.Started? ==> Snapshot() == old(Snapshot()))
    {
      if !EmailInUse(users, App.AdminEmail) {
        if UsernameInUse(users, App.AdminUsername) {
          return false;
        }
        var uid := nextUserId;
        users := users[uid := User(App.AdminUsername, App.AdminEmail, passwordHash, true)];
        nextUserId := uid + 1;
      }
      return true;
    }
  }
}
