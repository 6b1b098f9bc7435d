/** `OrderRepository` (Repository/OrderRepository.cs): checkout of a cart into an order, and order queries. */
module Orders {
  import opened Wrappers
  import opened Data
  import opened Money
  import Users
  import Carts

  // ---------------------------------------------------------------------
  // Queries
  // ---------------------------------------------------------------------

  /** `OrderExists`: `Orders.Any(o => o.Id == id)`. */
  function OrderExists(t: Tables, id: int): (r: bool)
    ensures r <==> exists o | o in t.orders :: o.id == id
  {
    assert forall o | o in t.orders :: exists i | 0 <= i < |t.orders| :: t.orders[i] == o;
    HasKey(t.orders, OrderKey, id)
  }

  /** `GetOrder`: the first order with that id, or null. */
  function GetOrder(t: Tables, id: int): (r: Option<Order>)
    ensures r.Some? <==> OrderExists(t, id)
    ensures r.Some? ==> r.value in t.orders && r.value.id == id
  {
    FindFirst(t.orders, OrderKey, id)
  }

  /**
   * `GetAllOrders`: every ordered-item row exactly once; on a consistent
   * store each of them belongs to a stored order.
   */
  function GetAllOrders(t: Tables): (r: seq<OrderedItem>)
    ensures multiset(r) == multiset(t.orderedItems)
    ensures Consistent(t) ==> forall x | x in r :: OrderExists(t, x.orderId)
  {
    t.orderedItems
  }

  /**
   * `GetTotalPrice`: the stored total of the order with that id; reading
   * the total of the null that `FirstOrDefault` gives for a missing order throws.
   */
  function GetTotalPrice(t: Tables, orderId: int): (r: Result<int>)
    ensures r.Ok? <==> OrderExists(t, orderId)
    ensures r.Ok? ==> exists o | o in t.orders :: o.id == orderId && o.totalPrice == r.value
    ensures r.Err? ==> r.error == NullReference
  {
    match GetOrder(t, orderId)
    case None => Err(NullReference)
    case Some(o) => Ok(o.totalPrice)
  }

  /** The orders placed by the user, in table order (`Orders.Where(o => o.User.Id == userId)`). */
  function OrdersOfUser(orders: seq<Order>, userId: int): (r: seq<Order>)
    ensures forall o :: o in r <==> o in orders && o.userId == Some(userId)
  {
    if orders == [] then []
    else
      var last := orders[|orders| - 1];
      assert forall o | o in orders :: o in orders[..|orders| - 1] || o == last;
      OrdersOfUser(orders[..|orders| - 1], userId) + (if last.userId == Some(userId) then [last] else [])
  }

  /** The ordered items of each order in turn, concatenated. */
  function ItemsOfOrders(orders: seq<Order>, items: seq<OrderedItem>): seq<OrderedItem>
  {
    if orders == [] then []
    else ItemsOfOrders(orders[..|orders| - 1], items) + ItemsOfOrder(items, orders[|orders| - 1].id)
  }

  /** The flattened ordered items of every order of the user. */
  function OrderedItemsOfUser(t: Tables, userId: int): seq<OrderedItem>
  {
    ItemsOfOrders(OrdersOfUser(t.orders, userId), t.orderedItems)
  }

  /** `GetOrdersById`: gather, order by order, the ordered items of the user's orders. */
  method GetOrdersById(t: Tables, userId: int) returns (r: seq<OrderedItem>)
    ensures r == OrderedItemsOfUser(t, userId)
  {
    var orders := OrdersOfUser(t.orders, userId);
    r := [];
    for i := 0 to |orders|
      invariant r == ItemsOfOrders(orders[..i], t.orderedItems)
    {
      assert orders[..i + 1][..i] == orders[..i];
      r := r + ItemsOfOrder(t.orderedItems, orders[i].id);
    }
    assert orders[..|orders|] == orders;
  }

  /** The number of ordered items of each order. */
  function ItemCounts(orders: seq<Order>, items: seq<OrderedItem>): (r: seq<int>)
    ensures |r| == |orders|
  {
    seq(|orders|, i requires 0 <= i < |orders| => |ItemsOfOrder(items, orders[i].id)|)
  }

  /** The flattened list is as long as the listed orders' line counts together. */
  lemma {:induction false} ItemsOfOrdersLength(orders: seq<Order>, items: seq<OrderedItem>)
    ensures |ItemsOfOrders(orders, items)| == Sum(ItemCounts(orders, items))
  {
    if orders != [] {
      var init := orders[..|orders| - 1];
      ItemsOfOrdersLength(init, items);
      assert ItemCounts(orders, items)[..|orders| - 1] == ItemCounts(init, items);
    }
  }

  /** The flattened list holds exactly the rows of the listed orders. */
  lemma {:induction false} ItemsOfOrdersMembers(orders: seq<Order>, items: seq<OrderedItem>)
    ensures forall x :: x in ItemsOfOrders(orders, items) <==>
      x in items && exists o | o in orders :: o.id == x.orderId
  {
    if orders != [] {
      var init := orders[..|orders| - 1];
      var last := orders[|orders| - 1];
      ItemsOfOrdersMembers(init, items);
      assert ItemsOfOrders(orders, items) == ItemsOfOrders(init, items) + ItemsOfOrder(items, last.id);
      forall x | x in items && exists o | o in orders :: o.id == x.orderId
        ensures x in ItemsOfOrders(orders, items)
      {
        var o :| o in orders && o.id == x.orderId;
        if o != last {
          assert o in init;
        }
      }
      forall x | x in ItemsOfOrders(orders, items)
        ensures exists o | o in orders :: o.id == x.orderId
      {
        if x in ItemsOfOrders(init, items) {
          var o :| o in init && o.id == x.orderId;
          assert o in orders;
        } else {
          assert last in orders;
        }
      }
    }
  }

  /**
   * `GetOrdersById` returns exactly the stored ordered items whose order
   * belongs to the user, its length the sum of those orders' line counts.
   */
  lemma UserOrderedItems(t: Tables, userId: int)
    ensures var r := OrderedItemsOfUser(t, userId);
      && |r| == Sum(ItemCounts(OrdersOfUser(t.orders, userId), t.orderedItems))
      && forall x :: x in r <==>
           x in GetAllOrders(t) && exists o | o in t.orders :: o.userId == Some(userId) && o.id == x.orderId
  {
    var mine := OrdersOfUser(t.orders, userId);
    ItemsOfOrdersLength(mine, t.orderedItems);
    ItemsOfOrdersMembers(mine, t.orderedItems);
    forall x ensures x in OrderedItemsOfUser(t, userId) <==>
      x in GetAllOrders(t) && exists o | o in t.orders :: o.userId == Some(userId) && o.id == x.orderId
    {
      if exists o | o in t.orders :: o.userId == Some(userId) && o.id == x.orderId {
        var o :| o in t.orders && o.userId == Some(userId) && o.id == x.orderId;
        assert o in mine;
      }
    }
  }

  // ---------------------------------------------------------------------
  // Checkout
  // ---------------------------------------------------------------------

  function LinePrices(lines: seq<CartItem>): (r: seq<Option<int>>)
    ensures |r| == |lines|
  {
    seq(|lines|, i requires 0 <= i < |lines| => lines[i].price)
  }

  function ItemPrices(items: seq<OrderedItem>): (r: seq<Option<int>>)
    ensures |r| == |items|
  {
    seq(|items|, i requires 0 <= i < |items| => items[i].price)
  }

  /** The ordered items that copy the cart lines into order `orderId`, one per line, in line order. */
  function Snapshot(lines: seq<CartItem>, orderId: int): (r: seq<OrderedItem>)
    ensures |r| == |lines|
  {
    seq(|lines|, i requires 0 <= i < |lines| =>
      OrderedItem(orderId, lines[i].menuItemId, lines[i].quantity, lines[i].price))
  }

  /** One `OrderedItems.Add` per item. */
  function Staged(items: seq<OrderedItem>): (r: seq<Change>)
    ensures |r| == |items|
  {
    seq(|items|, i requires 0 <= i < |items| => OrderedItemAdded(items[i]))
  }

  /** What `CreateOrder` reads before its first write: the user's cart, its lines and their total. */
  datatype CheckoutPlan = CheckoutPlan(cartId: int, lines: seq<CartItem>, total: int)

  function PrepareOrder(t: Tables, order: Order): (r: Result<CheckoutPlan>)
    ensures r.Err? ==> r.error == InvalidOperation
    ensures r.Ok? ==> order.userId.Some? && Users.GetCartIdByUserId(t, order.userId.value) == Some(r.value.cartId)
    ensures r.Ok? ==> forall x :: x in r.value.lines <==> x in t.cartItems && x.cartId == r.value.cartId
  {
    match order.userId
    case None => Err(InvalidOperation)
    case Some(userId) =>
      match Users.GetCartIdByUserId(t, userId)
      case None => Err(InvalidOperation)
      case Some(cartId) =>
        var lines := ItemsOfCart(t.cartItems, cartId);
        match Total(LinePrices(lines))
        case None => Err(InvalidOperation)
        case Some(total) => Ok(CheckoutPlan(cartId, lines, total))
  }

  /**
   * The checkout reads succeed exactly when the order names a user, that
   * user has a CartId, and every line of that cart has a price; the total
   * is then the sum of the prices of exactly that cart's lines (0 for an
   * empty cart).
   */
  lemma PrepareOrderOutcome(t: Tables, order: Order)
    ensures PrepareOrder(t, order).Ok? <==>
      && order.userId.Some?
      && Users.GetCartIdByUserId(t, order.userId.value).Some?
      && forall x | x in ItemsOfCart(t.cartItems, Users.GetCartIdByUserId(t, order.userId.value).value) :: x.price.Some?
    ensures PrepareOrder(t, order).Ok? ==>
      var plan := PrepareOrder(t, order).value;
      && Some(plan.cartId) == Users.GetCartIdByUserId(t, order.userId.value)
      && plan.lines == ItemsOfCart(t.cartItems, plan.cartId)
      && (forall x :: x in plan.lines <==> x in t.cartItems && x.cartId == plan.cartId)
      && Some(plan.total) == Total(LinePrices(plan.lines))
      && (plan.lines == [] ==> plan.total == 0)
  {
    if order.userId.Some? && Users.GetCartIdByUserId(t, order.userId.value).Some? {
      var lines := ItemsOfCart(t.cartItems, Users.GetCartIdByUserId(t, order.userId.value).value);
      TotalDefinedIff(LinePrices(lines));
      if !forall x | x in lines :: x.price.Some? {
        var x :| x in lines && x.price.None?;
        var i :| 0 <= i < |lines| && lines[i] == x;
        assert LinePrices(lines)[i].None?;
      }
    }
  }

  /** The price-summing loop of `CreateOrder`: None as soon as a line has a null price. */
  method LinesTotal(lines: seq<CartItem>) returns (r: Option<int>)
    ensures r == Total(LinePrices(lines))
  {
    var total := 0;
    for i := 0 to |lines|
      invariant Total(LinePrices(lines)[..i]) == Some(total)
    {
      if lines[i].price.None? {
        TotalDefinedIff(LinePrices(lines));
        assert LinePrices(lines)[i].None?;
        return None;
      }
      assert LinePrices(lines)[..i + 1][..i] == LinePrices(lines)[..i];
      total := total + lines[i].price.value;
    }
    assert LinePrices(lines)[..|lines|] == LinePrices(lines);
    return Some(total);
  }

  // ---------------------------------------------------------------------
  // What a committed checkout leaves in the tables
  // ---------------------------------------------------------------------

  /** Saving the staged order on a clean unit of work succeeds exactly when its id is new, and appends it. */
  lemma SaveOrderCommit(t: Tables, placed: Order)
    requires Consistent(t)
    ensures Commit(t, [OrderAdded(placed)]).Some? <==> !OrderExists(t, placed.id)
    ensures Commit(t, [OrderAdded(placed)]).Some? ==>
      Commit(t, [OrderAdded(placed)]).value == t.(orders := t.orders + [placed])
  {
    var t' := t.(orders := t.orders + [placed]);
    assert ApplyAll(t, [OrderAdded(placed)]) == Some(t') by {
      assert [OrderAdded(placed)][1..] == [];
    }
    UniqueSnoc(t.orders, placed, OrderKey);
    forall x | x in t'.orderedItems ensures HasKey(t'.orders, OrderKey, x.orderId) {
      var i :| 0 <= i < |t.orders| && OrderKey(t.orders[i]) == x.orderId;
      assert t'.orders[i] == t.orders[i];
    }
  }

  /** Applying one insert per item appends the items, in order. */
  lemma {:induction false} StagedInsertsApply(t: Tables, items: seq<OrderedItem>)
    ensures ApplyAll(t, Staged(items)) == Some(t.(orderedItems := t.orderedItems + items))
    decreases |items|
  {
    if items != [] {
      var t1 := t.(orderedItems := t.orderedItems + [items[0]]);
      assert Staged(items)[0] == OrderedItemAdded(items[0]);
      assert Staged(items)[1..] == Staged(items[1..]);
      assert Apply(t, Staged(items)[0]) == Some(t1);
      StagedInsertsApply(t1, items[1..]);
      assert ApplyAll(t, Staged(items)) == ApplyAll(t1, Staged(items[1..]));
      assert t1.orderedItems + items[1..] == t.orderedItems + items;
      assert t1.(orderedItems := t1.orderedItems + items[1..]) == t.(orderedItems := t.orderedItems + items);
    } else {
      assert Staged(items) == [];
      assert t.orderedItems + items == t.orderedItems;
    }
  }

  /** A snapshot of lines with distinct menu items has distinct (OrderId, MenuItemId) keys. */
  lemma SnapshotKeysUnique(lines: seq<CartItem>, orderId: int)
    requires Carts.DistinctMenuItems(lines)
    ensures UniqueBy(Snapshot(lines, orderId), OrderedItemKey)
  {
  }

  /** The snapshot carries the lines' prices unchanged, so it totals what the cart totals. */
  lemma SnapshotTotal(lines: seq<CartItem>, orderId: int)
    ensures ItemPrices(Snapshot(lines, orderId)) == LinePrices(lines)
    ensures Total(ItemPrices(Snapshot(lines, orderId))) == Total(LinePrices(lines))
  {
    assert ItemPrices(Snapshot(lines, orderId)) == LinePrices(lines);
  }

  /**
   * Committing a snapshot for an order that exists and has no lines yet,
   * taken from stored cart lines with distinct menu items, succeeds and
   * appends exactly the snapshot.
   */
  lemma SnapshotCommit(t: Tables, lines: seq<CartItem>, orderId: int)
    requires Consistent(t)
    requires OrderExists(t, orderId)
    requires forall x | x in t.orderedItems :: x.orderId != orderId
    requires forall x | x in lines :: x in t.cartItems
    requires Carts.DistinctMenuItems(lines)
    ensures Commit(t, Staged(Snapshot(lines, orderId))) ==
      Some(t.(orderedItems := t.orderedItems + Snapshot(lines, orderId)))
  {
    var items := Snapshot(lines, orderId);
    var t' := t.(orderedItems := t.orderedItems + items);
    StagedInsertsApply(t, items);
    SnapshotKeysUnique(lines, orderId);
    forall x, y | x in t.orderedItems && y in items ensures OrderedItemKey(x) != OrderedItemKey(y) {
      var i :| 0 <= i < |items| && items[i] == y;
    }
    UniqueAppend(t.orderedItems, items, OrderedItemKey);
    forall x | x in t'.orderedItems
      ensures HasKey(t'.orders, OrderKey, x.orderId) && HasKey(t'.menuItems, MenuItemKey, x.menuItemId)
    {
      if x !in t.orderedItems {
        var i :| 0 <= i < |items| && items[i] == x;
        assert lines[i] in t.cartItems;
      }
    }
    assert Consistent(t');
  }

  lemma {:induction false} ItemsOfOrderConcat(a: seq<OrderedItem>, b: seq<OrderedItem>, orderId: int)
    ensures ItemsOfOrder(a + b, orderId) == ItemsOfOrder(a, orderId) + ItemsOfOrder(b, orderId)
  {
    if a == [] {
      assert a + b == b;
    } else {
      assert (a + b)[0] == a[0] && (a + b)[1..] == a[1..] + b;
      ItemsOfOrderConcat(a[1..], b, orderId);
    }
  }

  /** Selecting an order from rows that all belong to it keeps them all. */
  lemma {:induction false} ItemsOfOrderAll(items: seq<OrderedItem>, orderId: int)
    requires forall x | x in items :: x.orderId == orderId
    ensures ItemsOfOrder(items, orderId) == items
  {
    if items != [] {
      assert items[0] in items;
      assert forall x | x in items[1..] :: x in items;
      ItemsOfOrderAll(items[1..], orderId);
    }
  }

  /** Selecting an order from rows none of which belongs to it keeps none. */
  lemma {:induction false} ItemsOfOrderNone(items: seq<OrderedItem>, orderId: int)
    requires forall x | x in items :: x.orderId != orderId
    ensures ItemsOfOrder(items, orderId) == []
  {
    if items != [] {
      assert items[0] in items;
      assert forall x | x in items[1..] :: x in items;
      ItemsOfOrderNone(items[1..], orderId);
    }
  }

  /** Appending rows of one order leaves the flattened lines of every other order unchanged. */
  lemma {:induction false} ItemsOfOrdersIgnoresOther(orders: seq<Order>, before: seq<OrderedItem>, added: seq<OrderedItem>, orderId: int)
    requires forall x | x in added :: x.orderId == orderId
    requires forall o | o in orders :: o.id != orderId
    ensures ItemsOfOrders(orders, before + added) == ItemsOfOrders(orders, before)
  {
    if orders != [] {
      var last := orders[|orders| - 1];
      assert forall o | o in orders[..|orders| - 1] :: o in orders;
      ItemsOfOrdersIgnoresOther(orders[..|orders| - 1], before, added, orderId);
      ItemsOfOrderConcat(before, added, last.id);
      ItemsOfOrderNone(added, last.id);
    }
  }

  /** Every committed ordered item belongs to an order older than a fresh order id. */
  lemma NoItemsForFreshOrder(t: Tables, orderId: int)
    requires OrderedItemRefsHold(t)
    requires forall o | o in t.orders :: o.id < orderId
    ensures forall x | x in t.orderedItems :: x.orderId != orderId
  {
    forall x | x in t.orderedItems ensures x.orderId != orderId {
      var i :| 0 <= i < |t.orders| && OrderKey(t.orders[i]) == x.orderId;
      assert t.orders[i] in t.orders;
    }
  }

  /** The two saves of a checkout, for an order under a fresh id and the lines of one stored cart. */
  lemma CheckoutCommits(t: Tables, placed: Order, cartId: int)
    requires Consistent(t)
    requires forall o | o in t.orders :: o.id < placed.id
    ensures var t1 := t.(orders := t.orders + [placed]);
      var items := Snapshot(ItemsOfCart(t.cartItems, cartId), placed.id);
      && Commit(t, [OrderAdded(placed)]) == Some(t1)
      && Commit(t1, Staged(items)) == Some(t1.(orderedItems := t.orderedItems + items))
  {
    var lines := ItemsOfCart(t.cartItems, cartId);
    var t1 := t.(orders := t.orders + [placed]);
    SaveOrderCommit(t, placed);
    assert t1.orders[|t.orders|] == placed;
    NoItemsForFreshOrder(t, placed.id);
    Carts.CartLinesHaveDistinctMenuItems(t.cartItems, cartId);
    SnapshotCommit(t1, lines, placed.id);
  }

  /** After the snapshot is committed, the lines of the new order are exactly the snapshot. */
  lemma LinesOfNewOrder(before: seq<OrderedItem>, items: seq<OrderedItem>, orderId: int)
    requires forall x | x in before :: x.orderId != orderId
    requires forall x | x in items :: x.orderId == orderId
    ensures ItemsOfOrder(before + items, orderId) == items
  {
    ItemsOfOrderConcat(before, items, orderId);
    ItemsOfOrderNone(before, orderId);
    ItemsOfOrderAll(items, orderId);
  }

  /** `GetTotalPrice` of an order just appended under a fresh id reads that order's total. */
  lemma TotalOfNewOrder(t: Tables, placed: Order)
    requires forall o | o in t.orders :: o.id < placed.id
    ensures GetTotalPrice(t.(orders := t.orders + [placed]), placed.id) == Ok(placed.totalPrice)
  {
    var t1 := t.(orders := t.orders + [placed]);
    assert t1.orders[|t.orders|] == placed;
    var found := GetOrder(t1, placed.id);
    assert found.Some?;
    assert found.value in t.orders || found.value == placed;
  }

  /**
   * The checkout end to end on a clean unit of work, assuming that the
   * ordered items `CreateOrder` leaves staged are committed by a later save:
   * the order is saved under a new id with the cart's total, the snapshot
   * then commits, the order's lines are exactly the snapshot of the cart,
   * their prices add up to the stored total, and `GetTotalPrice` returns it.
   */
  lemma CheckoutCommitted(t: Tables, order: Order)
    requires Consistent(t)
    requires PrepareOrder(t, order).Ok?
    ensures var plan := PrepareOrder(t, order).value;
      var placed := order.(id := NewOrderId(t, []), totalPrice := plan.total);
      var t1 := t.(orders := t.orders + [placed]);
      var items := Snapshot(plan.lines, placed.id);
      && Commit(t, [OrderAdded(placed)]) == Some(t1)
      && Commit(t1, Staged(items)) == Some(t1.(orderedItems := t.orderedItems + items))
      && ItemsOfOrder(t.orderedItems + items, placed.id) == items
      && Total(ItemPrices(items)) == Some(placed.totalPrice)
      && GetTotalPrice(t1, placed.id) == Ok(plan.total)
  {
    var plan := PrepareOrder(t, order).value;
    var placed := order.(id := NewOrderId(t, []), totalPrice := plan.total);
    var items := Snapshot(plan.lines, placed.id);
    CheckoutCommits(t, placed, plan.cartId);
    NoItemsForFreshOrder(t, placed.id);
    LinesOfNewOrder(t.orderedItems, items, placed.id);
    SnapshotTotal(plan.lines, placed.id);
    TotalOfNewOrder(t, placed);
  }

  /**
   * Under the same assumption, the user's order history afterwards is the
   * history before followed by the new order's lines.
   */
  lemma CheckoutExtendsHistory(t: Tables, order: Order)
    requires Consistent(t)
    requires PrepareOrder(t, order).Ok?
    ensures var plan := PrepareOrder(t, order).value;
      var placed := order.(id := NewOrderId(t, []), totalPrice := plan.total);
      var items := Snapshot(plan.lines, placed.id);
      var t2 := t.(orders := t.orders + [placed], orderedItems := t.orderedItems + items);
      OrderedItemsOfUser(t2, order.userId.value) == OrderedItemsOfUser(t, order.userId.value) + items
  {
    var plan := PrepareOrder(t, order).value;
    var placed := order.(id := NewOrderId(t, []), totalPrice := plan.total);
    var items := Snapshot(plan.lines, placed.id);
    NoItemsForFreshOrder(t, placed.id);
    HistoryAfterNewOrder(t.orders, t.orderedItems, placed, items, order.userId.value);
  }

  lemma HistoryAfterNewOrder(orders: seq<Order>, before: seq<OrderedItem>, placed: Order, items: seq<OrderedItem>, userId: int)
    requires placed.userId == Some(userId)
    requires forall o | o in orders :: o.id < placed.id
    requires forall x | x in before :: x.orderId != placed.id
    requires forall x | x in items :: x.orderId == placed.id
    ensures ItemsOfOrders(OrdersOfUser(orders + [placed], userId), before + items) ==
      ItemsOfOrders(OrdersOfUser(orders, userId), before) + items
  {
    var mine := OrdersOfUser(orders, userId);
    assert (orders + [placed])[..|orders|] == orders;
    assert OrdersOfUser(orders + [placed], userId) == mine + [placed];
    assert (mine + [placed])[..|mine|] == mine;
    ItemsOfOrdersIgnoresOther(mine, before, items, placed.id);
    LinesOfNewOrder(before, items, placed.id);
  }

  class OrderRepository {
    const context: DataContext

    constructor (context: DataContext)
      ensures this.context == context
    {
      this.context := context;
    }

    /**
     * `CreateOrder`. The casts of the null UserId, of a null CartId and of a
     * null line price throw before anything is written. Otherwise the order
     * is staged with the sum of the lines' prices and saved on its own; then
     * one ordered item per line is staged and left unsaved, and the answer is
     * that of `ClearCart`, which is declared nowhere and is therefore a
     * parameter here that changes nothing. No step is undone on failure.
     *
     * `Order.Id` is a nullable identity column: `requestedId` is the
     * caller's `order.Id` (the row's `id` field is not read). A null Id lets
     * the database generate a fresh one; an explicit Id is refused by the
     * database, so the save of the staged order throws.
     */
    method CreateOrder(order: Order, requestedId: Option<int>, clearCartResult: bool) returns (r: Result<bool>)
      requires context.Valid()
      modifies context
      ensures context.Valid()
      ensures PrepareOrder(old(context.tables), order).Err? ==>
        && r == Err(PrepareOrder(old(context.tables), order).error)
        && context.tables == old(context.tables) && context.pending == old(context.pending)
      ensures PrepareOrder(old(context.tables), order).Ok? && requestedId.Some? ==>
        var plan := PrepareOrder(old(context.tables), order).value;
        && r == Err(DbUpdate)
        && context.tables == old(context.tables)
        && context.pending == old(context.pending) + [OrderAdded(order.(id := requestedId.value, totalPrice := plan.total))]
      ensures PrepareOrder(old(context.tables), order).Ok? && requestedId.None? ==>
        var plan := PrepareOrder(old(context.tables), order).value;
        var placed := order.(id := NewOrderId(old(context.tables), old(context.pending)), totalPrice := plan.total);
        var batch := old(context.pending) + [OrderAdded(placed)];
        match Commit(old(context.tables), batch)
        case None => r == Err(DbUpdate) && context.tables == old(context.tables) && context.pending == batch
        case Some(saved) =>
          && r == Ok(clearCartResult)
          && context.tables == saved
          && context.pending == Staged(Snapshot(plan.lines, placed.id))
    {
      if order.userId.None? {
        return Err(InvalidOperation);
      }
      var cartId := Users.GetCartIdByUserId(context.tables, order.userId.value);
      if cartId.None? {
        return Err(InvalidOperation);
      }
      var lines := ItemsOfCart(context.tables.cartItems, cartId.value);
      var total := LinesTotal(lines);
      if total.None? {
        return Err(InvalidOperation);
      }

      if requestedId.Some? {
        context.Stage(OrderAdded(order.(id := requestedId.value, totalPrice := total.value)));
        // The database refuses an explicit value for the identity column.
        return Err(DbUpdate);
      }
      var placed := order.(id := NewOrderId(context.tables, context.pending), totalPrice := total.value);
      context.Stage(OrderAdded(placed));
      var saved := context.Save();
      if saved.Err? {
        return Err(saved.error);
      }
      if !saved.value {
        return Ok(false);
      }
      StageSnapshot(lines, placed.id);
      // The cart looked up at this point only feeds `ClearCart`.
      return Ok(clearCartResult);
    }

    /** The loop of `CreateOrder` that adds one ordered item per cart line, without saving. */
    method StageSnapshot(lines: seq<CartItem>, orderId: int)
      requires context.Valid()
      modifies context
      ensures context.Valid()
      ensures context.tables == old(context.tables)
      ensures context.pending == old(context.pending) + Staged(Snapshot(lines, orderId))
    {
      for i := 0 to |lines|
        invariant context.Valid() && context.tables == old(context.tables)
        invariant context.pending == old(context.pending) + Staged(Snapshot(lines[..i], orderId))
      {
        assert Staged(Snapshot(lines[..i + 1], orderId)) == Staged(Snapshot(lines[..i], orderId)) + [OrderedItemAdded(Snapshot(lines, orderId)[i])];
        context.Stage(OrderedItemAdded(OrderedItem(orderId, lines[i].menuItemId, lines[i].quantity, lines[i].price)));
      }
      assert lines[..|lines|] == lines;
    }

    /** `DeleteOrder`: stage the removal of the order (and, by cascade, its ordered items) and save. */
    method DeleteOrder(order: Order) returns (r: Result<bool>)
      requires context.Valid()
      modifies context
      ensures context.Valid()
      ensures Saved(old(context.tables), old(context.pending) + [OrderDeleted(order)], context.tables, context.pending, r)
    {
      context.Stage(OrderDeleted(order));
      r := context.Save();
    }

    /** `UpdateOrder`: stage the overwrite of the order row with the same id and save. */
    method UpdateOrder(order: Order) returns (r: Result<bool>)
      requires context.Valid()
      modifies context
      ensures context.Valid()
      ensures Saved(old(context.tables), old(context.pending) + [OrderModified(order)], context.tables, context.pending, r)
    {
      context.Stage(OrderModified(order));
      r := context.Save();
    }
  }
}
