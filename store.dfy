/**
 * The shop's persistent rows (users, categories, products, orders, order
 * items) and the uploaded-image directory, as one value. Every request
 * handler of the model maps a Store to a Store in one atomic step.
 *
 * Money is in integer cents; the source stores prices as floats.
 */
module Store {
  import opened Wrappers
  import opened OrderedMap

  type Id = nat

  datatype User = User(username: string, email: string, passwordHash: string, isAdmin: bool)

  datatype Category = Category(name: string, description: string)

  datatype Product = Product(
    name: string,
    description: string,
    price: int,
    stock: int,
    categoryId: Option<Id>,
    isActive: bool,
    image: Option<string>)

  datatype Order = Order(userId: Id, totalAmount: int, status: string, shippingAddress: string, phone: string)

  datatype OrderItem = OrderItem(orderId: Id, productId: Id, quantity: int, price: int)

  /**
   * The orders table keeps its rows in id order, so that sums over a user's
   * orders are taken in a definite order; the other tables are keyed maps.
   * `images` is the set of file names present in the upload directory.
   * New rows take the next unused id from `nextUserId` / `nextOrderId`.
   */
  datatype Store = Store(
    users: map<Id, User>,
    categories: map<Id, Category>,
    products: map<Id, Product>,
    orders: Dict<Id, Order>,
    items: seq<OrderItem>,
    images: set<string>,
    nextUserId: Id,
    nextOrderId: Id)

  /** The order statuses an administrator may set. */
  const OrderStatuses: set<string> := {"pending", "confirmed", "shipped", "delivered", "cancelled"}

  /** The status a new order starts in. */
  const InitialStatus: string := "pending"

  /** Every reference between rows points at a row that exists, and the id counters are ahead of every id. */
  ghost predicate Consistent(s: Store) {
    && (forall it :: it in s.items ==> Lookup(s.orders, it.orderId).Some? && it.productId in s.products)
    && (forall e :: e in s.orders ==> e.val.userId in s.users && e.key < s.nextOrderId)
    && (forall id :: id in s.products && s.products[id].categoryId.Some? ==> s.products[id].categoryId.value in s.categories)
    && (forall id :: id in s.users ==> id < s.nextUserId)
  }

  /** No product's stock is negative. */
  ghost predicate StockNonNegative(products: map<Id, Product>) {
    forall id :: id in products ==> products[id].stock >= 0
  }

  /** Every order carries one of the whitelisted statuses. */
  ghost predicate StatusesValid(s: Store) {
    forall e :: e in s.orders ==> e.val.status in OrderStatuses
  }

  /** No two users share an email address or a username. */
  ghost predicate UniqueCredentials(users: map<Id, User>) {
    forall a, b :: a in users && b in users && a != b ==>
      users[a].email != users[b].email && users[a].username != users[b].username
  }

  /** `User.query.filter_by(email=email).first()` finds a row. */
  predicate EmailInUse(users: map<Id, User>, email: string) {
    exists id :: id in users && users[id].email == email
  }

  /** `User.query.filter_by(username=username).first()` finds a row. */
  predicate UsernameInUse(users: map<Id, User>, username: string) {
    exists id :: id in users && users[id].username == username
  }
}
