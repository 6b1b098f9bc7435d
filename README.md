# Food ordering API: carts, orders and reports

This project models the core of a food-ordering web API built on Entity
Framework Core. A user fills a cart with menu items. Checkout turns the
cart into an order, with one ordered-item row per cart line copying its
menu item, quantity and price. An administrator reads counts and sales
figures from the same tables.

The model has three layers:

- **The store** (`Data`). Seven tables are sequences of records: users,
  categories, menu items, carts, cart items, orders and ordered items.
  Nullable columns are `Option`. Money is exact integer cents. `Consistent`
  holds the keys and foreign keys that `OnModelCreating` configures:
  - cart items keyed by (CartId, MenuItemId);
  - ordered items keyed by (OrderId, MenuItemId);
  - both kinds of line referring to their cart or order and to their menu item.
- **The unit of work** (`Data.DataContext`). The class holds the committed
  tables and a list of staged changes, which stands for EF's change tracker.
  `Save` commits the batch:
  - on success the tables become the committed state, the staged list is
    emptied, and the answer is whether anything was written;
  - a batch that breaks a key or a foreign key throws, and nothing changes.
- **The repositories.** `UserRepository`, `CartRepository` and
  `OrderRepository` are classes over a shared `DataContext`. Their writes
  stage changes and save. Their LINQ queries are functions of the
  committed tables. `AdminRepository` and the checkout controller's price
  sum are functions and loop methods over the tables.

Exceptions are values. `Result.Err` carries the exception the source
would throw, for example a cast of a null `int?` (InvalidOperation), a
dereference of null (NullReference) or a rejected `SaveChanges` (DbUpdate).

## Model

| member | source | states |
|---|---|---|
| Data.FindFirst | Repository/UserRepository.cs:32 | `Where(key == k).FirstOrDefault()`: null exactly when no row has the key; otherwise a row with that key, and no earlier row has it |
| Data.ItemsOfCart | Data/DataContext.cs:115-118 | a cart's `CartItems` are exactly the rows whose CartId is that cart's id |
| Data.ItemsOfOrder | Data/DataContext.cs:143-146 | an order's `OrderedItems` are exactly the rows whose OrderId is that order's id |
| Data.Commit | Data/DataContext.cs:100-157 | every state the database accepts satisfies the configured keys and foreign keys |
| Data.NewOrderId | Repository/OrderRepository.cs:53 | the identity value given to an added order is larger than every stored or staged order id |
| Data.DataContext.Stage | Repository/OrderRepository.cs:53 | `DbSet.Add` only adds a change to the tracker; the tables are untouched |
| Data.DataContext.Save | Repository/OrderRepository.cs:232-236 | `SaveChanges` commits the staged batch and answers whether it wrote anything; a rejected batch throws and changes nothing |
| Data.UniqueSnoc | Data/DataContext.cs:107-108 | appending a row keeps keys unique exactly when its key is new |
| Data.WithoutRemovesOne | Data/DataContext.cs:107-108 | under unique keys, deleting by the key of row i removes that row only and keeps the order of the rest |
| Data.WithoutKeepsUnique | Data/DataContext.cs:135-136 | deleting rows keeps keys unique |
| Data.WithoutAbsent | Data/DataContext.cs:143-146 | a cascade that matches no row changes nothing |
| Users.UserExists | Repository/UserRepository.cs:45-48 | true iff some user has that id |
| Users.GetUser | Repository/UserRepository.cs:30-33 | the first user with that id; null iff there is none |
| Users.GetUserByName | Repository/UserRepository.cs:78-81 | the first user whose UserName equals the name; null iff there is none |
| Users.GetUserCount | Repository/UserRepository.cs:35-38 | one per user row; on a consistent store, the number of distinct user ids |
| Users.GetCartIdByUserId | Repository/UserRepository.cs:55-58 | the CartId of the first user with that id; null when that user is missing or has no CartId |
| Users.UserRepository.CreateUser | Repository/UserRepository.cs:60-64 | stages the added user and saves |
| Users.UserRepository.UpdateUser | Repository/UserRepository.cs:66-70 | stages the modified user and saves |
| Users.UserRepository.DeleteUser | Repository/UserRepository.cs:72-76 | stages the deleted user and saves |
| Users.CreateUserCommit | Repository/UserRepository.cs:60-64 | on a clean unit of work, creating a user succeeds iff its id is new; the user is then appended, `GetUser` finds it and the count grows by one |
| Users.DeleteUserUndoesCreate | Repository/UserRepository.cs:72-76 | deleting the user just created restores the tables exactly |
| Carts.CartExists | Repository/CartRepository.cs:42-45 | true iff some cart has that id |
| Carts.GetCart | Repository/CartRepository.cs:59-62 | a cart with that id; null iff there is none |
| Carts.GetCartByUserId | Repository/CartRepository.cs:64-67 | the cart named by the user's CartId; null when the user, the CartId or that cart is missing |
| Carts.MenuItemsOf | Repository/CartRepository.cs:71 | joining lines to menu items yields only stored menu items; when every line's menu item exists, one per line with that line's MenuItemId |
| Carts.GetMenuItemsInCart | Repository/CartRepository.cs:69-72 | on a consistent store, the menu items of exactly that cart's lines, one per line, in table order |
| Carts.CartRepository.AddMenuItemById | Repository/CartRepository.cs:18-29 | a missing menu item throws before anything is staged; otherwise exactly one new line (cart, menu item) with null Quantity and Price is staged and saved |
| Carts.CartRepository.AddMenuItemByName | Repository/CartRepository.cs:30-41 | as AddMenuItemById, for the first menu item whose Name equals the name |
| Carts.CartRepository.RemoveMenuItem | Repository/CartRepository.cs:85-96 | with no line (cart, menu item): false and nothing changes; otherwise that line's deletion is staged and saved |
| Carts.CartRepository.CreateCart | Repository/CartRepository.cs:47-51 | stages the added cart and saves |
| Carts.CartRepository.DeleteCart | Repository/CartRepository.cs:53-57 | stages the deleted cart, whose lines go by cascade, and saves |
| Carts.CartRepository.UpdateCart | Repository/CartRepository.cs:80-84 | stages the modified cart and saves |
| Carts.AddCartItemCommit | Repository/CartRepository.cs:18-29 | adding a line commits iff its (cart, menu item) key is new and both the cart and the menu item exist; a duplicate is a failure, never a merge |
| Carts.RemoveCartItemCommit | Repository/CartRepository.cs:85-96 | removing a stored line deletes that line only; every other line, of any cart, stays in order |
| Carts.CartLinesHaveDistinctMenuItems | Data/DataContext.cs:107-108 | the lines of one cart have pairwise distinct menu items |
| Orders.OrderExists | Repository/OrderRepository.cs:215-218 | true iff some order has that id |
| Orders.GetOrder | Repository/OrderRepository.cs:141-144 | an order with that id; null iff there is none |
| Orders.GetTotalPrice | Repository/OrderRepository.cs:193-196 | the stored total of an order with that id; a NullReference when there is none |
| Orders.OrdersOfUser | Repository/OrderRepository.cs:166 | exactly the orders whose UserId is the user |
| Orders.GetOrdersById | Repository/OrderRepository.cs:164-175 | the loop returns the ordered items of each of the user's orders in turn, concatenated |
| Orders.ItemsOfOrdersLength | Repository/OrderRepository.cs:167-172 | the concatenation is as long as the per-order line counts added up |
| Orders.ItemsOfOrdersMembers | Repository/OrderRepository.cs:167-172 | the concatenation holds exactly the rows whose order is one of those listed |
| Orders.GetAllOrders | Repository/OrderRepository.cs:117-121 | every ordered-item row exactly once; on a consistent store each belongs to a stored order |
| Orders.UserOrderedItems | Repository/OrderRepository.cs:117-121 | a user's ordered items are exactly the rows of `GetAllOrders` whose order belongs to the user, as many as the per-order counts add up to |
| Orders.PrepareOrder | Repository/OrderRepository.cs:45-52 | the reads before the first write fail only with InvalidOperation; on success the order has a UserId whose user has that CartId, and the lines are exactly the rows of that cart |
| Orders.PrepareOrderOutcome | Repository/OrderRepository.cs:45-52 | the reads before the first write succeed iff the order has a UserId, that user has a CartId and every line of that cart has a price; the lines are exactly that cart's, and the total is their sum, 0 for an empty cart |
| Orders.LinesTotal | Repository/OrderRepository.cs:47-51 | the accumulation loop returns the total of the lines' prices, or fails on the first null price |
| Orders.OrderRepository.CreateOrder | Repository/OrderRepository.cs:43-79 | a failed read throws with nothing staged; an order that carries an explicit Id is staged and its save throws, with nothing written; otherwise the order is staged under a new id with the cart total and saved on its own; a rejected save throws and leaves it staged; after a successful save, one ordered item per cart line is staged, unsaved, and the answer is ClearCart's |
| Orders.OrderRepository.StageSnapshot | Repository/OrderRepository.cs:60-71 | one staged ordered item per cart line, in line order, copying the new order id, MenuItemId, Quantity and Price |
| Orders.OrderRepository.DeleteOrder | Repository/OrderRepository.cs:98-102 | stages the deleted order, whose ordered items go by cascade, and saves |
| Orders.OrderRepository.UpdateOrder | Repository/OrderRepository.cs:254-258 | stages the modified order and saves |
| Orders.SaveOrderCommit | Repository/OrderRepository.cs:53-58 | saving the order on a clean unit of work succeeds iff its id is new, and appends it |
| Orders.StagedInsertsApply | Repository/OrderRepository.cs:70 | applying the staged ordered items appends them in order |
| Orders.SnapshotKeysUnique | Data/DataContext.cs:135-136 | a snapshot of lines with distinct menu items has distinct (OrderId, MenuItemId) keys |
| Orders.SnapshotTotal | Repository/OrderRepository.cs:64-68 | the snapshot copies every price unchanged, so it totals what the cart totals |
| Orders.SnapshotCommit | Data/DataContext.cs:135-156 | a snapshot of stored cart lines, for an existing order with no lines yet, commits without breaking a key or a foreign key |
| Orders.ItemsOfOrderConcat | Data/DataContext.cs:143-146 | an order's lines in two concatenated tables are its lines in each, in order |
| Orders.ItemsOfOrderAll | Data/DataContext.cs:143-146 | rows that all belong to the order are all its lines |
| Orders.ItemsOfOrderNone | Data/DataContext.cs:143-146 | rows none of which belongs to the order give it no lines |
| Orders.ItemsOfOrdersIgnoresOther | Repository/OrderRepository.cs:167-172 | adding one order's lines leaves every other order's lines unchanged |
| Orders.NoItemsForFreshOrder | Data/DataContext.cs:143-146 | no stored ordered item belongs to an order id larger than every stored one |
| Orders.CheckoutCommits | Repository/OrderRepository.cs:53-70 | for a fresh order id, both the order save and a commit of the staged snapshot succeed and append exactly those rows |
| Orders.LinesOfNewOrder | Repository/OrderRepository.cs:60-71 | after the snapshot is committed, the new order's lines are exactly the snapshot |
| Orders.TotalOfNewOrder | Repository/OrderRepository.cs:193-196 | `GetTotalPrice` of the order just saved reads its total |
| Orders.CheckoutCommitted | Repository/OrderRepository.cs:43-79 | assuming a later save commits the staged snapshot: the order commits, so does the snapshot, the order's lines equal the snapshot, their prices add up to the stored total, and `GetTotalPrice` returns the cart's sum |
| Orders.CheckoutExtendsHistory | Repository/OrderRepository.cs:164-175 | under the same assumption, the user's ordered items afterwards are those before followed by the new order's lines |
| Orders.HistoryAfterNewOrder | Repository/OrderRepository.cs:164-175 | appending one order of the user, and its lines, appends exactly those lines to the user's flattened history |
| Data.UniqueKeysCount | Data/DataContext.cs:100-108 | with unique keys a table has as many rows as distinct keys |
| Admin.TotalCategory | Repository/AdminRepository.cs:49-62 | one per category row; on a consistent store, the number of distinct category ids |
| Admin.TotalProducts | Repository/AdminRepository.cs:77-91 | one per menu-item row; on a consistent store, the number of distinct menu-item ids |
| Admin.TotalUser | Repository/AdminRepository.cs:195-209 | one per user row; on a consistent store, the number of distinct user ids |
| Admin.CategoriesNames | Repository/AdminRepository.cs:224-242 | one name per category, nulls included, in table order; as many as `TotalCategory` |
| Admin.MenuItemOf | Repository/AdminRepository.cs:125 | the menu item of an ordered item: a stored menu item with that id; null iff there is none |
| Admin.SalesRows | Repository/AdminRepository.cs:126 | exactly the ordered items whose menu item has the category |
| Admin.CategorySalesMeaning | Repository/AdminRepository.cs:118-139 | the category loop fails iff some ordered item's menu item is missing or an item of the category has a null price; otherwise it is the sum of the prices of the items of the category |
| Admin.CategorySalesDangling | Repository/AdminRepository.cs:124-126 | an ordered item whose menu item is missing makes the category loop throw, wherever it is |
| Admin.CategorySalesResolved | Repository/AdminRepository.cs:118-132 | when every menu item resolves, the loop equals the total of the prices of exactly the category's items; the others add nothing |
| Admin.FailedPrefix | Repository/AdminRepository.cs:134-139 | once the loop has thrown, no partial sum survives |
| Admin.TotalSalesByCategory | Repository/AdminRepository.cs:113-140 | the loop returns that sum, and 0 when it throws |
| Admin.CategorySalesOnConsistent | Repository/AdminRepository.cs:113-140 | on a consistent store no ordered item dangles; the result is the total of the category's prices, and fails only on a null price |
| Admin.OrdersInWindow | Repository/AdminRepository.cs:168 | exactly the orders with an OrderDate inside the window |
| Admin.TotalSalesByMonth | Repository/AdminRepository.cs:159-179 | 0 for December 9999, where computing the last day throws |
| Admin.SalesByMonthCounts | Repository/AdminRepository.cs:163-171 | the report sums the totals of the orders dated in the month, except that on its last day only an order at exactly midnight counts; null dates never count |
| Admin.OrdersInMonth | Repository/AdminRepository.cs:163-168 | exactly the orders dated in the calendar month |
| Admin.CalendarMonthAgrees | Repository/AdminRepository.cs:163-168 | the report and the calendar-month sum select the same orders when none is stamped after midnight on the last day |
| Admin.LastDayAfternoonMissed | Repository/AdminRepository.cs:168 | an order at noon on 31 January 2024 is in January's calendar sales but not in the report |
| Dates.DaysInMonth | Repository/AdminRepository.cs:165 | 28 to 31 days; February has 29 exactly in leap years |
| Dates.AddOneMonth | Repository/AdminRepository.cs:165 | `AddMonths(1)` throws only in December 9999 |
| Dates.PreviousDay | Repository/AdminRepository.cs:165 | `AddDays(-1)` throws only on 1 January 0001 |
| Dates.LastDayOfMonthIsMonthEnd | Repository/AdminRepository.cs:163-165 | the first of the month plus one month minus one day is the month's last day; it throws only in December 9999 |
| Dates.ReportWindowOfMonth | Repository/AdminRepository.cs:168 | the window from midnight on day 1 to midnight on the last day admits exactly the month's instants before its last day, plus midnight of the last day |
| Money.TotalDefinedIff | Repository/OrderRepository.cs:47-51 | accumulating nullable prices throws iff one price is null, and otherwise is their plain sum |
| Checkout.CalculateOrderAmount | Controllers/CheckoutController.cs:96-105 | the sum of the products' prices, 0 for none; an InvalidOperation iff a price is null |
| Checkout.CheckoutOrder | Controllers/CheckoutController.cs:48-73 | a client secret iff every price is set, the amount fits a `long` and the payment provider accepts; the amount passed is the sum in cents with no tax or shipping; a null price answers BadRequest without any payment call |

## Left out

- Reading and writing the real database, HTTP routing, AutoMapper, logging to the console and the payment provider's network call are left out. The payment provider is the parameter `createIntent` of `Checkout.CheckoutOrder`.
- Money is exact integer cents. The source keeps `Order.TotalPrice` and the admin sums as `double` and the controller's amounts as `decimal`. Double rounding, sub-cent prices and the decimal range are not modelled. The controller's `* 100` from dollars to cents is therefore the identity.
- `Orders.OrderRepository.CreateOrder`: `ClearCart` (Repository/OrderRepository.cs:73) is declared nowhere in the repository. Its answer is the parameter `clearCartResult`, and it changes no state. The model does not remove the cart's lines, and no lemma states anything about them after a checkout. That a successful clearing commits the ordered items `CreateOrder` left staged appears only as the stated assumption of `Orders.CheckoutCommitted` and `Orders.CheckoutExtendsHistory`.
- `Orders.OrderRepository.CreateOrder`: the branch `if (!Save()) return false` (Repository/OrderRepository.cs:54) cannot be taken in the model. An order was just staged, so a successful save always wrote a row. The only failure is the exception, which propagates.
- `Orders.OrderRepository.CreateOrder`: the cart looked up at Repository/OrderRepository.cs:72 only feeds `ClearCart`, so it is not computed.
- The database generates order ids when the order's Id is null. The model gives such an order one more than every stored or staged order id (`Data.NewOrderId`), and assigns it when the order is staged. The order row's `id` field cannot be null, so `Orders.OrderRepository.CreateOrder` takes the caller's nullable Id as the separate parameter `requestedId`.
- Query results are listed "in table order", meaning the order the rows were stored in. The queries have no `ORDER BY`, so the database's order is unspecified; the stored order is one possible answer.
- Only the keys and foreign keys configured in `OnModelCreating` are enforced. The convention relationships (User.CartId, Order.UserId, Order.CartId, Order.PaymentId, MenuItem.CategoryId, Cart.UserId) are not, so a commit never fails because of them. Primary keys other than the two composite keys are `int` ids; a stored row never has a null key.
- Navigation `o.User.Id` in `GetOrdersById` (Repository/OrderRepository.cs:166) is read as the foreign key `o.UserId`, which is how EF translates it.
- EF change-tracking details are not modelled: identity resolution of attached entities, navigation fix-up, and the effect of `SaveChanges` on the caller's `order` object (its generated Id and TotalPrice are given to the staged row). A missing row in an UPDATE or DELETE is a rejected batch.
- `UserRepository.GetOrdersById` and `GetPaymentsById` (Repository/UserRepository.cs:19-28) are left out. Their casts of a list of lists to a collection of rows are invalid and always throw. `GetUsers` and each repository's `Save` are plain reads and wrappers; `Save` is `Data.DataContext.Save`.
- Users.CreateUserCommit: user and cart ids are taken as given, not generated. In the database they are identity columns, so a new user or cart always gets a fresh id there, and an insert that names an explicit id is refused. The same holds for `Users.UserRepository.CreateUser` and `Carts.CartRepository.CreateCart`: the model appends the row with its own id and rejects the save only when that id is already stored.
- Users.UserRepository.CreateUser: the user's id is taken as given, not generated by the identity column (see `Users.CreateUserCommit`).
- Carts.CartRepository.CreateCart: the cart's id is taken as given, not generated by the identity column (see `Users.CreateUserCommit`).
- Users.GetUserByName: name equality is exact; the database collation (case, trailing blanks) is not modelled.
- Carts.CartRepository.AddMenuItemByName: name equality is exact; the database collation (case, trailing blanks) is not modelled.
- `Admin.TotalCategory`, `Admin.TotalProducts` and `Admin.TotalUser` return 0 in the source when reading the table throws. In the model reading a table cannot fail, so that path is absent.
- `Admin.CategoriesNames`: the source returns null when reading the categories throws. In the model reading a table cannot fail, so that path is absent.
- The other repositories (menu items, categories, reviews, payments, contact messages), the other controllers, the migrations, the seed data and the photo service are not part of this model.
- A null `products` array posted to `CheckoutOrder` is not modelled. The products are a sequence.
- `GetTotalPrice`: the conversion of the stored `double` total to `decimal` cannot overflow in the model.

## Findings

| source | as written | input that shows it | evidently intended | confidence | as-written member | corrected member |
|---|---|---|---|---|---|---|
| Repository/AdminRepository.cs:168 | the month's window ends at 00:00 on the last day of the month | an order at 12:00 on 31 January 2024 with total 500: the January report gives 0 | every order dated in the month counts, so 500 | not executed; high, the report is documented as the sales of the month | Admin.TotalSalesByMonth (shown by Admin.LastDayAfternoonMissed) | Admin.CalendarMonthSales (Admin.OrdersInMonth, Admin.CalendarMonthAgrees) |
