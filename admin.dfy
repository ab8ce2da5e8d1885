/**
 * The administration handlers of routes.py that change rows: delete or
 * toggle a product, delete every product, set an order's status, delete a
 * category, toggle a user's admin flag and delete a user with everything
 * they ordered. Each one first checks that the logged-in user is an
 * administrator, then looks the row up (`get_or_404`), then applies its own
 * guard; a refused request changes nothing.
 */
module Admin {
  import opened Wrappers
  import opened OrderedMap
  import opened Store

  /** `current_user.is_admin`, the gate at the top of every admin handler. */
  predicate IsAdmin(s: Store, actor: Id) {
    actor in s.users && s.users[actor].isAdmin
  }

  datatype AdminReply =
    | Unauthorized                 // 'Accès non autorisé'
    | NotFound                     // get_or_404
    | InUse(count: nat)            // the product is referenced by `count` order items
    | HasProducts                  // the category still owns products
    | InvalidStatus                // 'Statut invalide'
    | OwnAccount                   // the administrator acting on their own account
    | NothingToDelete              // 'Aucun produit à supprimer.'
    | Done
    | Toggled(now: bool)           // the flag's new value
    | Purged(products: nat, orders: nat, items: nat, images: nat)
    | UserDeleted(orders: nat, items: nat, spent: int)

  datatype AdminStep = AdminStep(reply: AdminReply, store: Store)

  // ---------------------------------------------------------------- filters

  /** `OrderItem.query.filter_by(product_id=pid)`, in table order. */
  function ItemsOfProduct(items: seq<OrderItem>, pid: Id): (r: seq<OrderItem>)
    ensures forall it :: it in r <==> it in items && it.productId == pid
    ensures |r| <= |items|
  {
    if items == [] then []
    else
      var last := items[|items| - 1];
      var rest := ItemsOfProduct(items[..|items| - 1], pid);
      assert forall it :: it in items <==> it in items[..|items| - 1] || it == last;
      if last.productId == pid then rest + [last] else rest
  }

  /** The items that belong to one of the orders `ids`, in table order. */
  function ItemsOfOrders(items: seq<OrderItem>, ids: set<Id>): (r: seq<OrderItem>)
    ensures forall it :: it in r <==> it in items && it.orderId in ids
    ensures |r| <= |items|
  {
    if items == [] then []
    else
      var last := items[|items| - 1];
      var rest := ItemsOfOrders(items[..|items| - 1], ids);
      assert forall it :: it in items <==> it in items[..|items| - 1] || it == last;
      if last.orderId in ids then rest + [last] else rest
  }

  /** The items that belong to none of the orders `ids`, in table order. */
  function ItemsOutside(items: seq<OrderItem>, ids: set<Id>): (r: seq<OrderItem>)
    ensures forall it :: it in r <==> it in items && it.orderId !in ids
    ensures |r| <= |items|
  {
    if items == [] then []
    else
      var last := items[|items| - 1];
      var rest := ItemsOutside(items[..|items| - 1], ids);
      assert forall it :: it in items <==> it in items[..|items| - 1] || it == last;
      if last.orderId !in ids then rest + [last] else rest
  }

  /** Each item is counted as often as the table holds it when it references the product, and not at all otherwise. */
  lemma {:induction false} ItemsOfProductCounts(items: seq<OrderItem>, pid: Id)
    ensures forall it :: multiset(ItemsOfProduct(items, pid))[it] == if it.productId == pid then multiset(items)[it] else 0
    decreases |items|
  {
    if items != [] {
      var init := items[..|items| - 1];
      ItemsOfProductCounts(init, pid);
      assert items == init + [items[|items| - 1]];
    }
  }

  /** The surviving items keep the table's order: filtering a table in two parts is filtering each part. */
  lemma {:induction false} ItemsOutsideConcat(a: seq<OrderItem>, b: seq<OrderItem>, ids: set<Id>)
    ensures ItemsOutside(a + b, ids) == ItemsOutside(a, ids) + ItemsOutside(b, ids)
    decreases |b|
  {
    if b == [] {
      assert a + b == a;
    } else {
      var b' := b[..|b| - 1];
      assert (a + b)[..|a + b| - 1] == a + b';
      assert (a + b)[|a + b| - 1] == b[|b| - 1];
      ItemsOutsideConcat(a, b', ids);
    }
  }

  /** Deleting the items of `ids` and keeping the others splits the table: no item is lost or duplicated. */
  lemma {:induction false} ItemsSplit(items: seq<OrderItem>, ids: set<Id>)
    ensures multiset(ItemsOfOrders(items, ids)) + multiset(ItemsOutside(items, ids)) == multiset(items)
    ensures |ItemsOfOrders(items, ids)| + |ItemsOutside(items, ids)| == |items|
  {
    if items != [] {
      var init := items[..|items| - 1];
      ItemsSplit(init, ids);
      assert items == init + [items[|items| - 1]];
    }
  }

  /** `user.orders`: the orders placed by `uid`, in id order. */
  function OrdersOf(orders: seq<Entry<Id, Order>>, uid: Id): (r: seq<Entry<Id, Order>>)
    ensures forall e :: e in r <==> e in orders && e.val.userId == uid
    ensures |r| <= |orders|
  {
    if orders == [] then []
    else
      var last := orders[|orders| - 1];
      var rest := OrdersOf(orders[..|orders| - 1], uid);
      assert forall e :: e in orders <==> e in orders[..|orders| - 1] || e == last;
      if last.val.userId == uid then rest + [last] else rest
  }

  /** `user.orders` keeps the table's order: filtering a table in two parts is filtering each part. */
  lemma {:induction false} OrdersOfConcat(a: seq<Entry<Id, Order>>, b: seq<Entry<Id, Order>>, uid: Id)
    ensures OrdersOf(a + b, uid) == OrdersOf(a, uid) + OrdersOf(b, uid)
    decreases |b|
  {
    if b == [] {
      assert a + b == a;
    } else {
      var b' := b[..|b| - 1];
      assert (a + b)[..|a + b| - 1] == a + b';
      assert (a + b)[|a + b| - 1] == b[|b| - 1];
      OrdersOfConcat(a, b', uid);
    }
  }

  /** Each order of `uid` appears as often as in the table, and no other order appears. */
  lemma {:induction false} OrdersOfCounts(orders: seq<Entry<Id, Order>>, uid: Id)
    ensures forall e :: multiset(OrdersOf(orders, uid))[e] == if e.val.userId == uid then multiset(orders)[e] else 0
    decreases |orders|
  {
    if orders != [] {
      var init := orders[..|orders| - 1];
      OrdersOfCounts(init, uid);
      assert orders == init + [orders[|orders| - 1]];
    }
  }

  /** The ids of the orders placed by `uid`. */
  function OrderIdsOf(orders: seq<Entry<Id, Order>>, uid: Id): set<Id> {
    set e | e in orders && e.val.userId == uid :: e.key
  }

  /** No order of the table has a negative total. */
  predicate NoNegativeTotal(orders: seq<Entry<Id, Order>>) {
    forall j :: 0 <= j < |orders| ==> orders[j].val.totalAmount >= 0
  }

  /** `sum(order.total_amount for order in ...)`, left to right. */
  function Spent(orders: seq<Entry<Id, Order>>): (r: int)
    ensures NoNegativeTotal(orders) ==> r >= 0
  {
    if orders == [] then 0 else Spent(orders[..|orders| - 1]) + orders[|orders| - 1].val.totalAmount
  }

  /** The spending of a table split in two is the sum of the parts' spending. */
  lemma {:induction false} SpentConcat(a: seq<Entry<Id, Order>>, b: seq<Entry<Id, Order>>)
    ensures Spent(a + b) == Spent(a) + Spent(b)
    decreases |b|
  {
    if b == [] {
      assert a + b == a;
    } else {
      var b' := b[..|b| - 1];
      assert (a + b)[..|a + b| - 1] == a + b';
      SpentConcat(a, b');
    }
  }

  /** The file names of the products that have an image. */
  function ImageNames(products: map<Id, Product>): set<string> {
    set id | id in products && products[id].image.Some? :: products[id].image.value
  }

  /** `os.remove` of a product's image, when it has one. */
  function DropImage(images: set<string>, image: Option<string>): (r: set<string>)
    ensures image.None? ==> r == images
    ensures image.Some? ==> image.value !in r && r + {image.value} >= images
    ensures r <= images
  {
    if image.Some? then images - {image.value} else images
  }

  // ---------------------------------------------------------------- handlers

  /**
   * admin_delete_product. A product that any order item references is kept
   * and the reply carries the number of such items; otherwise the row and
   * its image file go.
   */
  function DeleteProduct(s: Store, actor: Id, id: Id): (r: AdminStep)
    ensures !IsAdmin(s, actor) ==> r == AdminStep(Unauthorized, s)
    ensures IsAdmin(s, actor) ==> (r.reply == NotFound <==> id !in s.products)
    ensures r.reply.InUse? <==>
      IsAdmin(s, actor) && id in s.products && exists it :: it in s.items && it.productId == id
    ensures r.reply.InUse? ==> r.reply.count == |ItemsOfProduct(s.items, id)| > 0
    ensures r.reply == Done <==>
      IsAdmin(s, actor) && id in s.products && forall it :: it in s.items ==> it.productId != id
    ensures r.reply != Done ==> r.store == s
    ensures r.reply == Done ==>
      && r.store.products == s.products - {id}
      && r.store.images == DropImage(s.images, s.products[id].image)
      && r.store.(products := s.products, images := s.images) == s
  {
    if !IsAdmin(s, actor) then AdminStep(Unauthorized, s)
    else if id !in s.products then AdminStep(NotFound, s)
    else
      var refs := ItemsOfProduct(s.items, id);
      if |refs| > 0 then
        assert refs[0] in refs;
        AdminStep(InUse(|refs|), s)
      else
        AdminStep(Done, s.(products := s.products - {id}, images := DropImage(s.images, s.products[id].image)))
  }

  /** admin_toggle_product: `is_active` flips and nothing else changes. */
  function ToggleProduct(s: Store, actor: Id, id: Id): (r: AdminStep)
    ensures !IsAdmin(s, actor) ==> r == AdminStep(Unauthorized, s)
    ensures IsAdmin(s, actor) ==> (r.reply == NotFound <==> id !in s.products)
    ensures !r.reply.Toggled? ==> r.store == s
    ensures r.reply.Toggled? ==>
      && IsAdmin(s, actor) && id in s.products
      && r.store.products.Keys == s.products.Keys
      && r.store.products[id].isActive == r.reply.now == !s.products[id].isActive
      && r.store.products[id].(isActive := s.products[id].isActive) == s.products[id]
      && (forall p :: p in s.products && p != id ==> r.store.products[p] == s.products[p])
      && r.store.(products := s.products) == s
  {
    if !IsAdmin(s, actor) then AdminStep(Unauthorized, s)
    else if id !in s.products then AdminStep(NotFound, s)
    else
      var p := s.products[id];
      AdminStep(Toggled(!p.isActive), s.(products := s.products[id := p.(isActive := !p.isActive)]))
  }

  /**
   * admin_delete_all_products. With no product there is nothing to do.
   * Otherwise every order item, every order and every product is deleted
   * together with the products' image files; users and categories stay.
   * The reply counts what went.
   */
  function DeleteAllProducts(s: Store, actor: Id): (r: AdminStep)
    ensures !IsAdmin(s, actor) ==> r == AdminStep(Unauthorized, s)
    ensures IsAdmin(s, actor) ==> (r.reply == NothingToDelete <==> |s.products| == 0)
    ensures !r.reply.Purged? ==> r.store == s
    ensures r.reply.Purged? ==>
      && IsAdmin(s, actor) && |s.products| > 0
      && r.store.products == map[] && r.store.orders == [] && r.store.items == []
      && r.store.users == s.users && r.store.categories == s.categories
      && r.store.nextUserId == s.nextUserId && r.store.nextOrderId == s.nextOrderId
      && r.reply == Purged(|s.products|, |s.orders|, |s.items|, |ImageNames(s.products) * s.images|)
      && (forall name :: name in r.store.images <==> name in s.images && name !in ImageNames(s.products))
  {
    if !IsAdmin(s, actor) then AdminStep(Unauthorized, s)
    else if |s.products| == 0 then AdminStep(NothingToDelete, s)
    else
      var names := ImageNames(s.products);
      AdminStep(
        Purged(|s.products|, |s.orders|, |s.items|, |names * s.images|),
        s.(products := map[], orders := [], items := [], images := s.images - names))
  }

  /** admin_update_order_status: only a whitelisted status is written. */
  function UpdateOrderStatus(s: Store, actor: Id, id: Id, status: string): (r: AdminStep)
    ensures !IsAdmin(s, actor) ==> r == AdminStep(Unauthorized, s)
    ensures IsAdmin(s, actor) ==> (r.reply == NotFound <==> Lookup(s.orders, id).None?)
    ensures r.reply == InvalidStatus <==>
      IsAdmin(s, actor) && Lookup(s.orders, id).Some? && status !in OrderStatuses
    ensures r.reply == Done <==>
      IsAdmin(s, actor) && Lookup(s.orders, id).Some? && status in OrderStatuses
    ensures r.reply != Done ==> r.store == s
    ensures r.reply == Done ==>
      && Lookup(r.store.orders, id) == Some(Lookup(s.orders, id).value.(status := status))
      && (forall k :: k != id ==> Lookup(r.store.orders, k) == Lookup(s.orders, k))
      && |r.store.orders| == |s.orders|
      && r.store.(orders := s.orders) == s
  {
    if !IsAdmin(s, actor) then AdminStep(Unauthorized, s)
    else
      match Lookup(s.orders, id)
      case None => AdminStep(NotFound, s)
      case Some(o) =>
        if status in OrderStatuses then AdminStep(Done, s.(orders := Put(s.orders, id, o.(status := status))))
        else AdminStep(InvalidStatus, s)
  }

  /**
   * admin_add_category, POST branch: one category with the submitted name
   * and description, under the id the database assigns (`id`, unused).
   */
  function AddCategory(s: Store, actor: Id, id: Id, name: string, description: string): (r: AdminStep)
    requires id !in s.categories
    ensures !IsAdmin(s, actor) ==> r == AdminStep(Unauthorized, s)
    ensures IsAdmin(s, actor) ==> r.reply == Done
    ensures r.reply == Done ==>
      && r.store.categories.Keys == s.categories.Keys + {id}
      && r.store.categories[id] == Category(name, description)
      && (forall c :: c in s.categories ==> r.store.categories[c] == s.categories[c])
      && r.store.(categories := s.categories) == s
  {
    if !IsAdmin(s, actor) then AdminStep(Unauthorized, s)
    else AdminStep(Done, s.(categories := s.categories[id := Category(name, description)]))
  }

  /** admin_edit_category, POST branch: the category's name and description are overwritten. */
  function EditCategory(s: Store, actor: Id, id: Id, name: string, description: string): (r: AdminStep)
    ensures !IsAdmin(s, actor) ==> r == AdminStep(Unauthorized, s)
    ensures IsAdmin(s, actor) ==> (r.reply == NotFound <==> id !in s.categories)
    ensures r.reply == Done <==> IsAdmin(s, actor) && id in s.categories
    ensures r.reply != Done ==> r.store == s
    ensures r.reply == Done ==>
      && r.store.categories.Keys == s.categories.Keys
      && r.store.categories[id] == Category(name, description)
      && (forall c :: c in s.categories && c != id ==> r.store.categories[c] == s.categories[c])
      && r.store.(categories := s.categories) == s
  {
    if !IsAdmin(s, actor) then AdminStep(Unauthorized, s)
    else if id !in s.categories then AdminStep(NotFound, s)
    else AdminStep(Done, s.(categories := s.categories[id := Category(name, description)]))
  }

  /** Adding or editing a category keeps every reference valid, and products keep their category. */
  lemma CategoryFormsConsistent(s: Store, actor: Id, id: Id, name: string, description: string)
    requires Consistent(s)
    ensures id !in s.categories ==> Consistent(AddCategory(s, actor, id, name, description).store)
    ensures Consistent(EditCategory(s, actor, id, name, description).store)
    ensures EditCategory(s, actor, id, name, description).store.products == s.products
  {
  }

  /** admin_delete_category: a category that still owns a product is kept. */
  function DeleteCategory(s: Store, actor: Id, id: Id): (r: AdminStep)
    ensures !IsAdmin(s, actor) ==> r == AdminStep(Unauthorized, s)
    ensures IsAdmin(s, actor) ==> (r.reply == NotFound <==> id !in s.categories)
    ensures r.reply == HasProducts <==>
      IsAdmin(s, actor) && id in s.categories &&
      exists p :: p in s.products && s.products[p].categoryId == Some(id)
    ensures r.reply == Done <==>
      IsAdmin(s, actor) && id in s.categories &&
      forall p :: p in s.products ==> s.products[p].categoryId != Some(id)
    ensures r.reply != Done ==> r.store == s
    ensures r.reply == Done ==> r.store == s.(categories := s.categories - {id})
  {
    if !IsAdmin(s, actor) then AdminStep(Unauthorized, s)
    else if id !in s.categories then AdminStep(NotFound, s)
    else if exists p :: p in s.products && s.products[p].categoryId == Some(id) then AdminStep(HasProducts, s)
    else AdminStep(Done, s.(categories := s.categories - {id}))
  }

  /** admin_toggle_user_admin: flips another user's admin flag; an administrator cannot toggle their own. */
  function ToggleUserAdmin(s: Store, actor: Id, id: Id): (r: AdminStep)
    ensures !IsAdmin(s, actor) ==> r == AdminStep(Unauthorized, s)
    ensures IsAdmin(s, actor) ==> (r.reply == NotFound <==> id !in s.users)
    ensures r.reply == OwnAccount <==> IsAdmin(s, actor) && id in s.users && id == actor
    ensures !r.reply.Toggled? ==> r.store == s
    ensures r.reply.Toggled? ==>
      && IsAdmin(s, actor) && id in s.users && id != actor
      && r.store.users.Keys == s.users.Keys
      && r.store.users[id].isAdmin == r.reply.now == !s.users[id].isAdmin
      && r.store.users[id].(isAdmin := s.users[id].isAdmin) == s.users[id]
      && (forall u :: u in s.users && u != id ==> r.store.users[u] == s.users[u])
      && r.store.(users := s.users) == s
  {
    if !IsAdmin(s, actor) then AdminStep(Unauthorized, s)
    else if id !in s.users then AdminStep(NotFound, s)
    else if id == actor then AdminStep(OwnAccount, s)
    else
      var u := s.users[id];
      AdminStep(Toggled(!u.isAdmin), s.(users := s.users[id := u.(isAdmin := !u.isAdmin)]))
  }

  /**
   * admin_delete_user: deletes another user, their orders and those orders'
   * items. The reply counts the orders and items and sums the order totals.
   * The target may itself be an administrator; only the acting account is
   * protected.
   */
  function DeleteUser(s: Store, actor: Id, id: Id): (r: AdminStep)
    ensures !IsAdmin(s, actor) ==> r == AdminStep(Unauthorized, s)
    ensures IsAdmin(s, actor) ==> (r.reply == NotFound <==> id !in s.users)
    ensures r.reply == OwnAccount <==> IsAdmin(s, actor) && id in s.users && id == actor
    ensures r.reply.UserDeleted? <==> IsAdmin(s, actor) && id in s.users && id != actor
    ensures !r.reply.UserDeleted? ==> r.store == s
    ensures r.reply.UserDeleted? ==>
      var ids := OrderIdsOf(s.orders, id);
      && r.store.users == s.users - {id}
      && (forall e :: e in r.store.orders <==> e in s.orders && e.val.userId != id)
      && (forall k :: Lookup(r.store.orders, k) == if k in ids then None else Lookup(s.orders, k))
      && (forall it :: it in r.store.items <==> it in s.items && it.orderId !in ids)
      && r.store.(users := s.users, orders := s.orders, items := s.items) == s
      && r.reply.orders == |OrdersOf(s.orders, id)|
      && r.reply.items == |s.items| - |r.store.items|
      && r.reply.spent == Spent(OrdersOf(s.orders, id))
  {
    if !IsAdmin(s, actor) then AdminStep(Unauthorized, s)
    else if id !in s.users then AdminStep(NotFound, s)
    else if id == actor then AdminStep(OwnAccount, s)
    else
      var mine := OrdersOf(s.orders, id);
      var ids := OrderIdsOf(s.orders, id);
      var gone := ItemsOfOrders(s.items, ids);
      var kept := ItemsOutside(s.items, ids);
      ItemsSplit(s.items, ids);
      var orders := Without(s.orders, ids);
      forall e ensures e in orders <==> e in s.orders && e.val.userId != id {
        if e in s.orders && e.key in ids {
          var e' :| e' in s.orders && e'.val.userId == id && e'.key == e.key;
          LookupIn(s.orders, e);
          LookupIn(s.orders, e');
        }
      }
      AdminStep(UserDeleted(|mine|, |gone|, Spent(mine)),
        s.(users := s.users - {id}, orders := orders, items := kept))
  }

  // ---------------------------------------------------------------- all handlers

  /** The admin requests that change rows. */
  datatype AdminAction =
    | DeleteProductOp(product: Id)
    | ToggleProductOp(product: Id)
    | DeleteAllProductsOp
    | UpdateOrderStatusOp(order: Id, status: string)
    | DeleteCategoryOp(category: Id)
    | ToggleUserAdminOp(user: Id)
    | DeleteUserOp(user: Id)

  function Apply(s: Store, actor: Id, a: AdminAction): AdminStep {
    match a
    case DeleteProductOp(id) => DeleteProduct(s, actor, id)
    case ToggleProductOp(id) => ToggleProduct(s, actor, id)
    case DeleteAllProductsOp => DeleteAllProducts(s, actor)
    case UpdateOrderStatusOp(id, status) => UpdateOrderStatus(s, actor, id, status)
    case DeleteCategoryOp(id) => DeleteCategory(s, actor, id)
    case ToggleUserAdminOp(id) => ToggleUserAdmin(s, actor, id)
    case DeleteUserOp(id) => DeleteUser(s, actor, id)
  }

  /** A caller who is not an administrator is turned away and nothing changes. */
  lemma NonAdminChangesNothing(s: Store, actor: Id, a: AdminAction)
    requires !IsAdmin(s, actor)
    ensures Apply(s, actor, a) == AdminStep(Unauthorized, s)
  {
  }

  /** No admin request can take the acting administrator's rights away: toggling and deleting one's own account are refused. */
  lemma ActorStaysAdmin(s: Store, actor: Id, a: AdminAction)
    requires IsAdmin(s, actor)
    ensures IsAdmin(Apply(s, actor, a).store, actor)
  {
  }

  /** Every admin request keeps each reference between rows pointing at a row that exists. */
  lemma ApplyConsistent(s: Store, actor: Id, a: AdminAction)
    requires Consistent(s)
    ensures Consistent(Apply(s, actor, a).store)
  {
    var r := Apply(s, actor, a);
    match a
    case UpdateOrderStatusOp(id, status) =>
      if r.reply == Done {
        var o := Lookup(s.orders, id).value;
        PutEntries(s.orders, id, o.(status := status));
        LookupIn(s.orders, Entry(id, o));
      }
    case DeleteUserOp(id) =>
      if r.reply.UserDeleted? {
        DeleteUserConsistent(s, actor, id);
      }
    case _ =>
  }

  lemma DeleteUserConsistent(s: Store, actor: Id, id: Id)
    requires Consistent(s)
    requires DeleteUser(s, actor, id).reply.UserDeleted?
    ensures Consistent(DeleteUser(s, actor, id).store)
  {
    var r := DeleteUser(s, actor, id).store;
    var ids := OrderIdsOf(s.orders, id);
    forall it | it in r.items ensures Lookup(r.orders, it.orderId).Some? {
      assert it.orderId !in ids;
    }
  }

  /** Setting a status keeps every order's status on the whitelist. */
  lemma UpdateOrderStatusValid(s: Store, actor: Id, id: Id, status: string)
    requires StatusesValid(s)
    ensures StatusesValid(UpdateOrderStatus(s, actor, id, status).store)
  {
    var r := UpdateOrderStatus(s, actor, id, status);
    if r.reply == Done {
      PutEntries(s.orders, id, Lookup(s.orders, id).value.(status := status));
    }
  }

  /** Toggling a product twice gives the store back. */
  lemma ToggleProductTwice(s: Store, actor: Id, id: Id)
    requires IsAdmin(s, actor) && id in s.products
    ensures var once := ToggleProduct(s, actor, id).store;
      ToggleProduct(once, actor, id).store == s
  {
    var p := s.products[id];
    assert s.products[id := p.(isActive := !p.isActive)][id := p] == s.products;
  }

  /** The items deleted with a user are exactly the items of that user's orders, and all other items stay in order. */
  lemma DeleteUserItems(s: Store, actor: Id, id: Id)
    requires DeleteUser(s, actor, id).reply.UserDeleted?
    ensures var r := DeleteUser(s, actor, id);
      var ids := OrderIdsOf(s.orders, id);
      && r.store.items == ItemsOutside(s.items, ids)
      && r.reply.items == |ItemsOfOrders(s.items, ids)|
      && multiset(r.store.items) + multiset(ItemsOfOrders(s.items, ids)) == multiset(s.items)
  {
    ItemsSplit(s.items, OrderIdsOf(s.orders, id));
  }
}
