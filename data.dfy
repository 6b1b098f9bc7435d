/**
 * The store behind `DataContext` (Data/DataContext.cs): the tables of the
 * core entities, the keys and foreign keys that `OnModelCreating`
 * configures, and the unit of work that stages changes and saves them.
 */
module Data {
  import opened Wrappers
  import opened Dates

  // ---------------------------------------------------------------------
  // Rows. Primary-key columns are plain integers (a stored row always has
  // its key); every other nullable column is an Option. Money is in cents.
  // ---------------------------------------------------------------------

  datatype User = User(id: int, userName: Option<string>, cartId: Option<int>)

  datatype Category = Category(id: int, name: Option<string>)

  datatype MenuItem = MenuItem(id: int, name: Option<string>, price: Option<int>, categoryId: Option<int>)

  datatype Cart = Cart(id: int, userId: Option<int>)

  /** A cart line, keyed by (CartId, MenuItemId). */
  datatype CartItem = CartItem(cartId: int, menuItemId: int, quantity: Option<int>, price: Option<int>)

  datatype Order = Order(
    id: int,
    orderDate: Option<DateTime>,
    paymentId: Option<int>,
    userId: Option<int>,
    cartId: Option<int>,
    totalPrice: int)

  /** An order line, keyed by (OrderId, MenuItemId). */
  datatype OrderedItem = OrderedItem(orderId: int, menuItemId: int, quantity: Option<int>, price: Option<int>)

  /** The committed content of the database, one sequence per table, in table order. */
  datatype Tables = Tables(
    users: seq<User>,
    categories: seq<Category>,
    menuItems: seq<MenuItem>,
    carts: seq<Cart>,
    cartItems: seq<CartItem>,
    orders: seq<Order>,
    orderedItems: seq<OrderedItem>)

  // ---------------------------------------------------------------------
  // Keys
  // ---------------------------------------------------------------------

  function UserKey(u: User): int { u.id }
  function CategoryKey(c: Category): int { c.id }
  function MenuItemKey(m: MenuItem): int { m.id }
  function CartKey(c: Cart): int { c.id }
  function OrderKey(o: Order): int { o.id }
  function CartItemKey(x: CartItem): (int, int) { (x.cartId, x.menuItemId) }
  function OrderedItemKey(x: OrderedItem): (int, int) { (x.orderId, x.menuItemId) }
  function CartOfItem(x: CartItem): int { x.cartId }
  function OrderOfItem(x: OrderedItem): int { x.orderId }

  /** No two rows share a key. */
  predicate UniqueBy<T, K(==)>(s: seq<T>, key: T -> K)
  {
    forall i, j | 0 <= i < j < |s| :: key(s[i]) != key(s[j])
  }

  /** Some row has key `k` (LINQ `Any(r => key(r) == k)`). */
  predicate HasKey<T, K(==)>(s: seq<T>, key: T -> K, k: K)
  {
    exists i | 0 <= i < |s| :: key(s[i]) == k
  }

  /** LINQ `Where(r => key(r) == k).FirstOrDefault()`. */
  function FindFirst<T(==), K(==)>(s: seq<T>, key: T -> K, k: K): (r: Option<T>)
    ensures r.None? <==> !HasKey(s, key, k)
    ensures r.Some? ==> key(r.value) == k && r.value in s
    ensures r.Some? ==> exists i | 0 <= i < |s| :: s[i] == r.value && forall j | 0 <= j < i :: key(s[j]) != k
  {
    if s == [] then None
    else if key(s[0]) == k then Some(s[0])
    else
      var r := FindFirst(s[1..], key, k);
      assert HasKey(s, key, k) ==> HasKey(s[1..], key, k) by {
        if HasKey(s, key, k) {
          var i :| 0 <= i < |s| && key(s[i]) == k;
          assert key(s[1..][i - 1]) == k;
        }
      }
      if r.Some? then
        var i :| 0 <= i < |s| - 1 && s[1..][i] == r.value && forall j | 0 <= j < i :: key(s[1..][j]) != k;
        assert s[i + 1] == r.value;
        r
      else r
  }

  /** Every row whose key is not `k`, in table order (a `DELETE ... WHERE key = k`). */
  function Without<T(!new), K(==)>(s: seq<T>, key: T -> K, k: K): (r: seq<T>)
    ensures forall x :: x in r <==> x in s && key(x) != k
    ensures |r| <= |s|
  {
    if s == [] then [] else (if key(s[0]) == k then [] else [s[0]]) + Without(s[1..], key, k)
  }

  /** The row with the key of `x` overwritten by `x` (an `UPDATE ... WHERE key = key(x)`). */
  function Replace<T, K(==)>(s: seq<T>, key: T -> K, x: T): (r: seq<T>)
    ensures |r| == |s|
  {
    seq(|s|, i requires 0 <= i < |s| => if key(s[i]) == key(x) then x else s[i])
  }

  // ---------------------------------------------------------------------
  // Navigations
  // ---------------------------------------------------------------------

  /** `Cart.CartItems`: the rows whose CartId is `cartId`, in table order (Data/DataContext.cs:115-118). */
  function ItemsOfCart(rows: seq<CartItem>, cartId: int): (r: seq<CartItem>)
    ensures forall x :: x in r <==> x in rows && x.cartId == cartId
    ensures |r| <= |rows|
  {
    if rows == [] then []
    else (if rows[0].cartId == cartId then [rows[0]] else []) + ItemsOfCart(rows[1..], cartId)
  }

  /** `Order.OrderedItems`: the rows whose OrderId is `orderId`, in table order (Data/DataContext.cs:143-146). */
  function ItemsOfOrder(rows: seq<OrderedItem>, orderId: int): (r: seq<OrderedItem>)
    ensures forall x :: x in r <==> x in rows && x.orderId == orderId
    ensures |r| <= |rows|
  {
    if rows == [] then []
    else (if rows[0].orderId == orderId then [rows[0]] else []) + ItemsOfOrder(rows[1..], orderId)
  }

  // ---------------------------------------------------------------------
  // The database constraints
  // ---------------------------------------------------------------------

  /** Primary keys: `Id` by convention, the two composite keys of Data/DataContext.cs:107-108 and 135-136. */
  predicate KeysUnique(t: Tables)
  {
    && UniqueBy(t.users, UserKey)
    && UniqueBy(t.categories, CategoryKey)
    && UniqueBy(t.menuItems, MenuItemKey)
    && UniqueBy(t.carts, CartKey)
    && UniqueBy(t.orders, OrderKey)
    && UniqueBy(t.cartItems, CartItemKey)
    && UniqueBy(t.orderedItems, OrderedItemKey)
  }

  /** CartItem -> Cart and CartItem -> MenuItem (Data/DataContext.cs:115-128). */
  predicate CartItemRefsHold(t: Tables)
  {
    forall x | x in t.cartItems ::
      HasKey(t.carts, CartKey, x.cartId) && HasKey(t.menuItems, MenuItemKey, x.menuItemId)
  }

  /** OrderedItems -> Order and OrderedItems -> MenuItem (Data/DataContext.cs:143-156). */
  predicate OrderedItemRefsHold(t: Tables)
  {
    forall x | x in t.orderedItems ::
      HasKey(t.orders, OrderKey, x.orderId) && HasKey(t.menuItems, MenuItemKey, x.menuItemId)
  }

  /** Every state the database accepts. */
  predicate Consistent(t: Tables)
  {
    KeysUnique(t) && CartItemRefsHold(t) && OrderedItemRefsHold(t)
  }

  // ---------------------------------------------------------------------
  // Staged changes and SaveChanges
  // ---------------------------------------------------------------------

  /** An entry of the change tracker: an entity in state Added, Modified or Deleted. */
  datatype Change =
    | UserAdded(user: User) | UserModified(user: User) | UserDeleted(user: User)
    | CartAdded(cart: Cart) | CartModified(cart: Cart) | CartDeleted(cart: Cart)
    | CartItemAdded(cartItem: CartItem) | CartItemDeleted(cartItem: CartItem)
    | OrderAdded(order: Order) | OrderModified(order: Order) | OrderDeleted(order: Order)
    | OrderedItemAdded(orderedItem: OrderedItem)

  /**
   * One statement of the batch. An UPDATE or DELETE that matches no row
   * fails (EF reports the missing row as a concurrency failure). Deleting a
   * cart or an order cascades to its lines: both relationships are
   * required, because the foreign key is part of the line's primary key.
   */
  function Apply(t: Tables, c: Change): Option<Tables>
  {
    match c
    case UserAdded(u) => Some(t.(users := t.users + [u]))
    case UserModified(u) =>
      if HasKey(t.users, UserKey, u.id) then Some(t.(users := Replace(t.users, UserKey, u))) else None
    case UserDeleted(u) =>
      if HasKey(t.users, UserKey, u.id) then Some(t.(users := Without(t.users, UserKey, u.id))) else None
    case CartAdded(k) => Some(t.(carts := t.carts + [k]))
    case CartModified(k) =>
      if HasKey(t.carts, CartKey, k.id) then Some(t.(carts := Replace(t.carts, CartKey, k))) else None
    case CartDeleted(k) =>
      if HasKey(t.carts, CartKey, k.id)
      then Some(t.(carts := Without(t.carts, CartKey, k.id), cartItems := Without(t.cartItems, CartOfItem, k.id)))
      else None
    case CartItemAdded(x) => Some(t.(cartItems := t.cartItems + [x]))
    case CartItemDeleted(x) =>
      if HasKey(t.cartItems, CartItemKey, CartItemKey(x))
      then Some(t.(cartItems := Without(t.cartItems, CartItemKey, CartItemKey(x))))
      else None
    case OrderAdded(o) => Some(t.(orders := t.orders + [o]))
    case OrderModified(o) =>
      if HasKey(t.orders, OrderKey, o.id) then Some(t.(orders := Replace(t.orders, OrderKey, o))) else None
    case OrderDeleted(o) =>
      if HasKey(t.orders, OrderKey, o.id)
      then Some(t.(orders := Without(t.orders, OrderKey, o.id), orderedItems := Without(t.orderedItems, OrderOfItem, o.id)))
      else None
    case OrderedItemAdded(x) => Some(t.(orderedItems := t.orderedItems + [x]))
  }

  function ApplyAll(t: Tables, cs: seq<Change>): Option<Tables>
    decreases |cs|
  {
    if cs == [] then Some(t)
    else
      match Apply(t, cs[0])
      case None => None
      case Some(t') => ApplyAll(t', cs[1..])
  }

  /** The state the database ends in when it accepts the whole batch; None when it rejects it. */
  function Commit(t: Tables, cs: seq<Change>): (r: Option<Tables>)
    ensures r.Some? ==> Consistent(r.value)
  {
    match ApplyAll(t, cs)
    case None => None
    case Some(t') => if Consistent(t') then Some(t') else None
  }

  /**
   * What a repository's `Save()` does: `SaveChanges` writes the batch and
   * `Save` answers whether it wrote anything; a rejected batch throws and
   * leaves every change tracked.
   */
  predicate Saved(t0: Tables, cs: seq<Change>, t1: Tables, cs1: seq<Change>, r: Result<bool>)
  {
    match Commit(t0, cs)
    case Some(t') => t1 == t' && cs1 == [] && r == Ok(|cs| > 0)
    case None => t1 == t0 && cs1 == cs && r == Err(DbUpdate)
  }

  function MaxOrderId(orders: seq<Order>): (r: int)
    ensures r >= 0
    ensures forall o | o in orders :: o.id <= r
  {
    if orders == [] then 0
    else
      var m := MaxOrderId(orders[1..]);
      if orders[0].id > m then orders[0].id else m
  }

  function MaxStagedOrderId(cs: seq<Change>): (r: int)
    ensures r >= 0
    ensures forall c | c in cs && c.OrderAdded? :: c.order.id <= r
  {
    if cs == [] then 0
    else
      var m := MaxStagedOrderId(cs[1..]);
      if cs[0].OrderAdded? && cs[0].order.id > m then cs[0].order.id else m
  }

  /** The value the identity column gives the next order: larger than every order id stored or staged. */
  function NewOrderId(t: Tables, cs: seq<Change>): (r: int)
    ensures forall o | o in t.orders :: o.id < r
    ensures forall c | c in cs && c.OrderAdded? :: c.order.id < r
  {
    1 + (if MaxOrderId(t.orders) > MaxStagedOrderId(cs) then MaxOrderId(t.orders) else MaxStagedOrderId(cs))
  }

  /** The request-scoped `DataContext`: committed tables plus the change tracker. */
  class DataContext {
    var tables: Tables
    var pending: seq<Change>

    ghost predicate Valid()
      reads this
    {
      Consistent(tables)
    }

    constructor (initial: Tables)
      requires Consistent(initial)
      ensures Valid() && tables == initial && pending == []
    {
      tables := initial;
      pending := [];
    }

    /** `_context.Add` / `Update` / `Remove`: track one change. */
    method Stage(c: Change)
      requires Valid()
      modifies this
      ensures Valid()
      ensures tables == old(tables) && pending == old(pending) + [c]
    {
      pending := pending + [c];
    }

    /** `Save()`: `SaveChanges()` and report whether more than zero rows were written. */
    method Save() returns (r: Result<bool>)
      requires Valid()
      modifies this
      ensures Valid()
      ensures Saved(old(tables), old(pending), tables, pending, r)
    {
      var committed := Commit(tables, pending);
      if committed.Some? {
        r := Ok(|pending| > 0);
        tables, pending := committed.value, [];
      } else {
        r := Err(DbUpdate);
      }
    }
  }

  // ---------------------------------------------------------------------
  // Lemmas about keys
  // ---------------------------------------------------------------------

  lemma UniqueCons<T, K>(x: T, w: seq<T>, key: T -> K)
    requires UniqueBy(w, key)
    requires forall y | y in w :: key(y) != key(x)
    ensures UniqueBy([x] + w, key)
  {
    var s := [x] + w;
    forall i, j | 0 <= i < j < |s| ensures key(s[i]) != key(s[j]) {
      assert s[j] == w[j - 1];
      if i > 0 { assert s[i] == w[i - 1]; }
    }
  }

  /** Removing rows keeps the remaining keys distinct. */
  lemma {:induction false} WithoutKeepsUnique<T(!new), K>(s: seq<T>, key: T -> K, k: K)
    requires UniqueBy(s, key)
    ensures UniqueBy(Without(s, key, k), key)
  {
    if s != [] {
      assert UniqueBy(s[1..], key) by {
        forall i, j | 0 <= i < j < |s| - 1 ensures key(s[1..][i]) != key(s[1..][j]) {
          assert s[1..][i] == s[i + 1] && s[1..][j] == s[j + 1];
        }
      }
      WithoutKeepsUnique(s[1..], key, k);
      var w := Without(s[1..], key, k);
      if key(s[0]) != k {
        forall y | y in w ensures key(y) != key(s[0]) {
          var j :| 0 <= j < |s| - 1 && s[1..][j] == y;
          assert s[j + 1] == y;
        }
        UniqueCons(s[0], w, key);
      }
    }
  }

  /** Appending a row keeps keys distinct exactly when its key is new. */
  lemma UniqueSnoc<T, K>(s: seq<T>, x: T, key: T -> K)
    ensures UniqueBy(s + [x], key) <==> UniqueBy(s, key) && !HasKey(s, key, key(x))
  {
    var s' := s + [x];
    if UniqueBy(s', key) {
      forall i, j | 0 <= i < j < |s| ensures key(s[i]) != key(s[j]) {
        assert s'[i] == s[i] && s'[j] == s[j];
      }
      forall i | 0 <= i < |s| ensures key(s[i]) != key(x) {
        assert s'[i] == s[i] && s'[|s|] == x;
      }
    }
  }

  /** Two tables of distinct keys, sharing no key, concatenate into one. */
  lemma UniqueAppend<T, K>(a: seq<T>, b: seq<T>, key: T -> K)
    requires UniqueBy(a, key) && UniqueBy(b, key)
    requires forall x, y | x in a && y in b :: key(x) != key(y)
    ensures UniqueBy(a + b, key)
  {
    var s := a + b;
    forall i, j | 0 <= i < j < |s| ensures key(s[i]) != key(s[j]) {
      if j < |a| {
        assert s[i] == a[i] && s[j] == a[j];
      } else if i >= |a| {
        assert s[i] == b[i - |a|] && s[j] == b[j - |a|];
      } else {
        assert s[i] == a[i] && s[j] == b[j - |a|];
      }
    }
  }

  /** With distinct keys, deleting by the key of row `i` removes exactly that row. */
  lemma {:induction false} WithoutRemovesOne<T(!new), K>(s: seq<T>, key: T -> K, i: nat)
    requires i < |s| && UniqueBy(s, key)
    ensures Without(s, key, key(s[i])) == s[..i] + s[i + 1..]
  {
    if i == 0 {
      WithoutAbsent(s[1..], key, key(s[0]));
      assert s[..0] + s[1..] == s[1..];
    } else {
      assert UniqueBy(s[1..], key) by {
        forall a, b | 0 <= a < b < |s| - 1 ensures key(s[1..][a]) != key(s[1..][b]) {
          assert s[1..][a] == s[a + 1] && s[1..][b] == s[b + 1];
        }
      }
      assert s[1..][i - 1] == s[i];
      WithoutRemovesOne(s[1..], key, i - 1);
      assert key(s[0]) != key(s[i]);
      assert [s[0]] + (s[1..][..i - 1] + s[1..][i..]) == s[..i] + s[i + 1..];
    }
  }

  /** Deleting a key that no row has changes nothing. */
  lemma {:induction false} WithoutAbsent<T(!new), K>(s: seq<T>, key: T -> K, k: K)
    requires !HasKey(s, key, k)
    ensures Without(s, key, k) == s
  {
    if s != [] {
      assert !HasKey(s[1..], key, k) by {
        forall j | 0 <= j < |s| - 1 ensures key(s[1..][j]) != k {
          assert s[1..][j] == s[j + 1];
        }
      }
      WithoutAbsent(s[1..], key, k);
      assert key(s[0]) != k;
      assert [s[0]] + s[1..] == s;
    }
  }

  /** The keys present in a table. */
  ghost function KeySet<T, K>(s: seq<T>, key: T -> K): set<K>
  {
    set i | 0 <= i < |s| :: key(s[i])
  }

  /** With unique keys, a table has as many rows as distinct keys. */
  lemma {:induction false} UniqueKeysCount<T, K>(s: seq<T>, key: T -> K)
    requires UniqueBy(s, key)
    ensures |KeySet(s, key)| == |s|
  {
    if s != [] {
      var init := s[..|s| - 1];
      var last := s[|s| - 1];
      assert UniqueBy(init, key) by {
        forall i, j | 0 <= i < j < |init| ensures key(init[i]) != key(init[j]) {
          assert init[i] == s[i] && init[j] == s[j];
        }
      }
      UniqueKeysCount(init, key);
      assert KeySet(s, key) == KeySet(init, key) + {key(last)} by {
        forall k | k in KeySet(s, key) ensures k in KeySet(init, key) + {key(last)} {
          var i :| 0 <= i < |s| && key(s[i]) == k;
          if i < |init| {
            assert init[i] == s[i];
          }
        }
        forall k | k in KeySet(init, key) ensures k in KeySet(s, key) {
          var i :| 0 <= i < |init| && key(init[i]) == k;
          assert s[i] == init[i];
        }
      }
      forall k | k in KeySet(init, key) ensures k != key(last) {
        var i :| 0 <= i < |init| && key(init[i]) == k;
        assert init[i] == s[i];
      }
    }
  }
}
