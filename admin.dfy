/** The dashboard figures of `AdminRepository` (Repository/AdminRepository.cs). */
module Admin {
  import opened Wrappers
  import opened Data
  import opened Money
  import opened Dates
  import Users
  import Orders

  // ---------------------------------------------------------------------
  // Counts
  // ---------------------------------------------------------------------

  /** `TotalCategory`: one per category row; on a consistent store, the number of distinct categories. */
  function TotalCategory(t: Tables): (r: int)
    ensures r == |t.categories|
    ensures Consistent(t) ==> r == |KeySet(t.categories, CategoryKey)|
  {
    var n := |t.categories|;
    assert Consistent(t) ==> n == |KeySet(t.categories, CategoryKey)| by {
      if Consistent(t) { UniqueKeysCount(t.categories, CategoryKey); }
    }
    n
  }

  /** `TotalProducts`: one per menu-item row; on a consistent store, the number of distinct menu items. */
  function TotalProducts(t: Tables): (r: int)
    ensures r == |t.menuItems|
    ensures Consistent(t) ==> r == |KeySet(t.menuItems, MenuItemKey)|
  {
    var n := |t.menuItems|;
    assert Consistent(t) ==> n == |KeySet(t.menuItems, MenuItemKey)| by {
      if Consistent(t) { UniqueKeysCount(t.menuItems, MenuItemKey); }
    }
    n
  }

  /** `TotalUser`: one per user row; on a consistent store, the number of distinct users. */
  function TotalUser(t: Tables): (r: int)
    ensures r == |t.users|
    ensures Consistent(t) ==> r == |KeySet(t.users, UserKey)|
  {
    var n := |t.users|;
    assert Consistent(t) ==> n == |KeySet(t.users, UserKey)| by {
      if Consistent(t) { UniqueKeysCount(t.users, UserKey); }
    }
    n
  }

  /** `CategoriesNames`: the name of every category, nulls included, in table order. */
  method CategoriesNames(t: Tables) returns (r: seq<Option<string>>)
    ensures |r| == TotalCategory(t)
    ensures forall i | 0 <= i < |r| :: r[i] == t.categories[i].name
  {
    r := [];
    for i := 0 to |t.categories|
      invariant |r| == i
      invariant forall k | 0 <= k < i :: r[k] == t.categories[k].name
    {
      r := r + [t.categories[i].name];
    }
  }

  // ---------------------------------------------------------------------
  // Sales by category
  // ---------------------------------------------------------------------

  /** The menu item an ordered item refers to, or null. */
  function MenuItemOf(t: Tables, x: OrderedItem): (r: Option<MenuItem>)
    ensures r.Some? <==> HasKey(t.menuItems, MenuItemKey, x.menuItemId)
    ensures r.Some? ==> r.value in t.menuItems && r.value.id == x.menuItemId
  {
    FindFirst(t.menuItems, MenuItemKey, x.menuItemId)
  }

  predicate InCategory(t: Tables, x: OrderedItem, categoryId: int)
  {
    MenuItemOf(t, x).Some? && MenuItemOf(t, x).value.categoryId == Some(categoryId)
  }

  /** The ordered items sold under the category, in table order. */
  function SalesRows(t: Tables, rows: seq<OrderedItem>, categoryId: int): (r: seq<OrderedItem>)
    ensures forall x :: x in r <==> x in rows && InCategory(t, x, categoryId)
  {
    if rows == [] then []
    else
      var last := rows[|rows| - 1];
      assert forall x | x in rows :: x in rows[..|rows| - 1] || x == last;
      SalesRows(t, rows[..|rows| - 1], categoryId) + (if InCategory(t, last, categoryId) then [last] else [])
  }

  /**
   * The loop of `TotalSalesByCategory` over `rows`: None when it throws,
   * on the null menu item of a dangling reference or on the null price of
   * an item of the category.
   */
  function CategorySales(t: Tables, rows: seq<OrderedItem>, categoryId: int): Option<int>
  {
    if rows == [] then Some(0)
    else
      match CategorySales(t, rows[..|rows| - 1], categoryId)
      case None => None
      case Some(s) =>
        match SaleOf(t, rows[|rows| - 1], categoryId)
        case None => None
        case Some(v) => Some(s + v)
  }

  /** What one iteration adds: nothing for another category, the price for this one; None when it throws. */
  function SaleOf(t: Tables, x: OrderedItem, categoryId: int): Option<int>
  {
    match MenuItemOf(t, x)
    case None => None
    case Some(m) => if m.categoryId != Some(categoryId) then Some(0) else x.price
  }

  /** A dangling ordered item anywhere makes the loop throw. */
  lemma {:induction false} CategorySalesDangling(t: Tables, rows: seq<OrderedItem>, categoryId: int, x: OrderedItem)
    requires x in rows && MenuItemOf(t, x).None?
    ensures CategorySales(t, rows, categoryId).None?
  {
    var init := rows[..|rows| - 1];
    if x != rows[|rows| - 1] {
      assert x in init;
      CategorySalesDangling(t, init, categoryId, x);
    }
  }

  /** One more price at the end of the accumulation. */
  lemma PricesSnoc(items: seq<OrderedItem>, x: OrderedItem)
    ensures Total(Orders.ItemPrices(items + [x])) ==
      match Total(Orders.ItemPrices(items))
      case None => None
      case Some(s) => if x.price.None? then None else Some(s + x.price.value)
  {
    assert Orders.ItemPrices(items + [x]) == Orders.ItemPrices(items) + [x.price];
    assert (Orders.ItemPrices(items) + [x.price])[..|items|] == Orders.ItemPrices(items);
  }

  /** With every menu item resolved, the loop is the total of the prices of the category's items. */
  lemma {:induction false} CategorySalesResolved(t: Tables, rows: seq<OrderedItem>, categoryId: int)
    requires forall i | 0 <= i < |rows| :: MenuItemOf(t, rows[i]).Some?
    ensures CategorySales(t, rows, categoryId) == Total(Orders.ItemPrices(SalesRows(t, rows, categoryId)))
  {
    if rows != [] {
      var init := rows[..|rows| - 1];
      var x := rows[|rows| - 1];
      assert forall i | 0 <= i < |init| :: init[i] == rows[i];
      CategorySalesResolved(t, init, categoryId);
      var sold := SalesRows(t, init, categoryId);
      assert MenuItemOf(t, x).Some?;
      if InCategory(t, x, categoryId) {
        assert SaleOf(t, x, categoryId) == x.price;
        assert SalesRows(t, rows, categoryId) == sold + [x];
        PricesSnoc(sold, x);
      } else {
        assert SaleOf(t, x, categoryId) == Some(0);
        assert SalesRows(t, rows, categoryId) == sold;
      }
    }
  }

  /**
   * What the loop computes: when every ordered item's menu item exists,
   * the total of the prices of the items of the category (None if one of
   * them has no price), and None otherwise.
   */
  lemma CategorySalesMeaning(t: Tables, rows: seq<OrderedItem>, categoryId: int)
    ensures CategorySales(t, rows, categoryId) ==
      if forall x | x in rows :: MenuItemOf(t, x).Some?
      then Total(Orders.ItemPrices(SalesRows(t, rows, categoryId)))
      else None
  {
    if forall x | x in rows :: MenuItemOf(t, x).Some? {
      assert forall i | 0 <= i < |rows| :: rows[i] in rows;
      CategorySalesResolved(t, rows, categoryId);
    } else {
      var x :| x in rows && MenuItemOf(t, x).None?;
      CategorySalesDangling(t, rows, categoryId, x);
    }
  }

  /** Once the loop has thrown on a prefix, the whole report fails. */
  lemma {:induction false} FailedPrefix(t: Tables, rows: seq<OrderedItem>, categoryId: int, i: nat)
    requires i <= |rows| && CategorySales(t, rows[..i], categoryId).None?
    ensures CategorySales(t, rows, categoryId).None?
    decreases |rows| - i
  {
    if i == |rows| {
      assert rows[..i] == rows;
    } else {
      var init := rows[..|rows| - 1];
      assert init[..i] == rows[..i];
      FailedPrefix(t, init, categoryId, i);
    }
  }

  /** `TotalSalesByCategory`: the sum of the prices of the items sold under the category; 0 when the loop throws. */
  method TotalSalesByCategory(t: Tables, categoryId: int) returns (r: int)
    ensures r == match CategorySales(t, t.orderedItems, categoryId) case Some(v) => v case None => 0
  {
    var rows := t.orderedItems;
    var total := 0;
    for i := 0 to |rows|
      invariant CategorySales(t, rows[..i], categoryId) == Some(total)
    {
      var x := rows[i];
      assert rows[..i + 1][..i] == rows[..i];
      var menuItem := FindFirst(t.menuItems, MenuItemKey, x.menuItemId);
      if menuItem.None? {
        FailedPrefix(t, rows, categoryId, i + 1);
        return 0;
      }
      if menuItem.value.categoryId == Some(categoryId) {
        if x.price.None? {
          FailedPrefix(t, rows, categoryId, i + 1);
          return 0;
        }
        total := total + x.price.value;
      }
    }
    assert rows[..|rows|] == rows;
    return total;
  }

  /**
   * On a consistent database no ordered item dangles, so the report is the
   * total of the prices sold under the category, or 0 when one of those
   * prices is null.
   */
  lemma CategorySalesOnConsistent(t: Tables, categoryId: int)
    requires Consistent(t)
    ensures CategorySales(t, t.orderedItems, categoryId) == Total(Orders.ItemPrices(SalesRows(t, t.orderedItems, categoryId)))
  {
    CategorySalesMeaning(t, t.orderedItems, categoryId);
  }

  // ---------------------------------------------------------------------
  // Sales by month
  // ---------------------------------------------------------------------

  predicate PlacedIn(o: Order, first: Date, last: Date)
  {
    o.orderDate.Some? && InReportWindow(o.orderDate.value, first, last)
  }

  /** The orders the report's `Where` keeps, in table order. */
  function OrdersInWindow(orders: seq<Order>, first: Date, last: Date): (r: seq<Order>)
    ensures forall o :: o in r <==> o in orders && PlacedIn(o, first, last)
  {
    if orders == [] then []
    else
      var o := orders[|orders| - 1];
      assert forall x | x in orders :: x in orders[..|orders| - 1] || x == o;
      OrdersInWindow(orders[..|orders| - 1], first, last) + (if PlacedIn(o, first, last) then [o] else [])
  }

  function Totals(orders: seq<Order>): (r: seq<int>)
    ensures |r| == |orders|
  {
    seq(|orders|, i requires 0 <= i < |orders| => orders[i].totalPrice)
  }

  /**
   * `TotalSalesByMonth`: the sum of the totals of the orders dated from
   * midnight of the 1st to midnight of the last day of the month; 0 when
   * computing the last day throws (December 9999).
   */
  function TotalSalesByMonth(t: Tables, date: Date): (r: int)
    ensures date.year == 9999 && date.month == 12 ==> r == 0
  {
    LastDayOfMonthIsMonthEnd(date);
    match LastDayOfMonth(date)
    case Err(_) => 0
    case Ok(last) => Sum(Totals(OrdersInWindow(t.orders, FirstDayOfMonth(date), last)))
  }

  /**
   * The orders the report counts: those dated in the month of `date`,
   * except that on the month's last day only an order stamped exactly at
   * midnight is counted.
   */
  lemma SalesByMonthCounts(t: Tables, date: Date)
    requires !(date.year == 9999 && date.month == 12)
    ensures LastDayOfMonth(date).Ok?
    ensures TotalSalesByMonth(t, date) ==
      Sum(Totals(OrdersInWindow(t.orders, FirstDayOfMonth(date), LastDayOfMonth(date).value)))
    ensures forall o :: o in OrdersInWindow(t.orders, FirstDayOfMonth(date), LastDayOfMonth(date).value) <==>
      && o in t.orders && o.orderDate.Some?
      && o.orderDate.value.year == date.year && o.orderDate.value.month == date.month
      && (o.orderDate.value.day < DaysInMonth(date.year, date.month) || o.orderDate.value.ticks == 0)
  {
    LastDayOfMonthIsMonthEnd(date);
    forall o | o in t.orders && o.orderDate.Some? {
      ReportWindowOfMonth(o.orderDate.value, date);
    }
  }

  /** The orders dated anywhere in the calendar month of `date`, in table order. */
  function OrdersInMonth(orders: seq<Order>, date: Date): (r: seq<Order>)
    ensures forall o :: o in r <==>
      o in orders && o.orderDate.Some? && o.orderDate.value.year == date.year && o.orderDate.value.month == date.month
  {
    if orders == [] then []
    else
      var o := orders[|orders| - 1];
      assert forall x | x in orders :: x in orders[..|orders| - 1] || x == o;
      OrdersInMonth(orders[..|orders| - 1], date)
        + (if o.orderDate.Some? && o.orderDate.value.year == date.year && o.orderDate.value.month == date.month then [o] else [])
  }

  /** The month's sales as the report evidently means them: every order dated in that calendar month. */
  function CalendarMonthSales(t: Tables, date: Date): int
  {
    Sum(Totals(OrdersInMonth(t.orders, date)))
  }

  /**
   * The two agree whenever no order of the month is stamped after midnight
   * on the month's last day.
   */
  lemma {:induction false} CalendarMonthAgrees(orders: seq<Order>, date: Date)
    requires !(date.year == 9999 && date.month == 12)
    requires forall o | o in orders && o.orderDate.Some? && o.orderDate.value.year == date.year
      && o.orderDate.value.month == date.month :: o.orderDate.value.day < DaysInMonth(date.year, date.month) || o.orderDate.value.ticks == 0
    ensures LastDayOfMonth(date).Ok?
    ensures OrdersInWindow(orders, FirstDayOfMonth(date), LastDayOfMonth(date).value) == OrdersInMonth(orders, date)
  {
    LastDayOfMonthIsMonthEnd(date);
    if orders != [] {
      var o := orders[|orders| - 1];
      assert forall x | x in orders[..|orders| - 1] :: x in orders;
      CalendarMonthAgrees(orders[..|orders| - 1], date);
      if o.orderDate.Some? {
        ReportWindowOfMonth(o.orderDate.value, date);
      }
    }
  }

  /**
   * An order placed at noon on 31 January 2024 is part of January's sales,
   * yet the report for January leaves it out.
   */
  lemma LastDayAfternoonMissed()
    ensures var noon := DateTime(2024, 1, 31, 12 * 36_000_000_000);
      var t := Tables([], [], [], [], [], [Order(1, Some(noon), None, None, None, 500)], []);
      && TotalSalesByMonth(t, DateOnly(2024, 1, 15)) == 0
      && CalendarMonthSales(t, DateOnly(2024, 1, 15)) == 500
  {
    var noon := DateTime(2024, 1, 31, 12 * 36_000_000_000);
    var o := Order(1, Some(noon), None, None, None, 500);
    var t := Tables([], [], [], [], [], [o], []);
    SalesByMonthCounts(t, DateOnly(2024, 1, 15));
    assert OrdersInWindow(t.orders, FirstDayOfMonth(DateOnly(2024, 1, 15)), LastDayOfMonth(DateOnly(2024, 1, 15)).value) == [];
    assert OrdersInMonth(t.orders, DateOnly(2024, 1, 15)) == [o];
  }
}
