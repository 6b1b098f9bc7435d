/** `CartRepository` (Repository/CartRepository.cs): cart lookups and cart-line writes. */
module Carts {
  import opened Wrappers
  import opened Data
  import Users

  function MenuItemNameOf(m: MenuItem): Option<string> { m.name }

  /** `CartExists`: `Carts.Any(c => c.Id == id)`. */
  function CartExists(t: Tables, id: int): (r: bool)
    ensures r <==> exists c | c in t.carts :: c.id == id
  {
    assert forall c | c in t.carts :: exists i | 0 <= i < |t.carts| :: t.carts[i] == c;
    HasKey(t.carts, CartKey, id)
  }

  /** `GetCart`: the first cart with that id, or null. */
  function GetCart(t: Tables, id: int): (r: Option<Cart>)
    ensures r.Some? <==> CartExists(t, id)
    ensures r.Some? ==> r.value in t.carts && r.value.id == id
  {
    FindFirst(t.carts, CartKey, id)
  }

  /**
   * `GetCartByUserId`: the `Cart` navigation of the first user with that
   * id, that is the cart whose id is that user's CartId; null when there is
   * no such user, the user has no CartId, or no cart has that id.
   */
  function GetCartByUserId(t: Tables, userId: int): (r: Option<Cart>)
    ensures r.Some? <==>
      Users.GetCartIdByUserId(t, userId).Some? && CartExists(t, Users.GetCartIdByUserId(t, userId).value)
    ensures r.Some? ==> r.value in t.carts && Some(r.value.id) == Users.GetCartIdByUserId(t, userId)
  {
    match Users.GetUser(t, userId)
    case None => None
    case Some(u) =>
      match u.cartId
      case None => None
      case Some(cartId) => GetCart(t, cartId)
  }

  /** The `MenuItem` navigation of each line (an inner join on MenuItemId), in line order. */
  function MenuItemsOf(rows: seq<CartItem>, menuItems: seq<MenuItem>): (r: seq<MenuItem>)
    ensures |r| <= |rows|
    ensures forall m | m in r :: m in menuItems
    ensures (forall x | x in rows :: HasKey(menuItems, MenuItemKey, x.menuItemId)) ==>
      |r| == |rows| && forall i | 0 <= i < |rows| :: r[i].id == rows[i].menuItemId
  {
    if rows == [] then []
    else
      var head := match FindFirst(menuItems, MenuItemKey, rows[0].menuItemId)
        case None => []
        case Some(m) => [m];
      var r := head + MenuItemsOf(rows[1..], menuItems);
      assert forall x | x in rows[1..] :: x in rows;
      r
  }

  /**
   * `GetMenuItemsInCart`: the menu items of exactly the lines of that cart,
   * in table order, one per line once the foreign keys hold.
   */
  function GetMenuItemsInCart(t: Tables, cartId: int): (r: seq<MenuItem>)
    ensures forall m | m in r :: m in t.menuItems
    ensures Consistent(t) ==>
      var lines := ItemsOfCart(t.cartItems, cartId);
      |r| == |lines| && forall i | 0 <= i < |lines| :: r[i].id == lines[i].menuItemId
  {
    MenuItemsOf(ItemsOfCart(t.cartItems, cartId), t.menuItems)
  }

  class CartRepository {
    const context: DataContext

    constructor (context: DataContext)
      ensures this.context == context
    {
      this.context := context;
    }

    /**
     * `AddMenuItemById`: stage a new line linking the cart to the first menu
     * item with that id, Quantity and Price left null, and save. A missing
     * menu item leaves a null key part, which the change tracker refuses.
     */
    method AddMenuItemById(menuItemId: int, cart: Cart) returns (r: Result<bool>)
      requires context.Valid()
      modifies context
      ensures context.Valid()
      ensures !HasKey(old(context.tables).menuItems, MenuItemKey, menuItemId) ==>
        r == Err(InvalidOperation) && context.tables == old(context.tables) && context.pending == old(context.pending)
      ensures HasKey(old(context.tables).menuItems, MenuItemKey, menuItemId) ==>
        Saved(old(context.tables), old(context.pending) + [CartItemAdded(CartItem(cart.id, menuItemId, None, None))],
              context.tables, context.pending, r)
    {
      var menuItem := FindFirst(context.tables.menuItems, MenuItemKey, menuItemId);
      if menuItem.None? {
        return Err(InvalidOperation);
      }
      context.Stage(CartItemAdded(CartItem(cart.id, menuItem.value.id, None, None)));
      r := context.Save();
    }

    /** `AddMenuItemByName`: as `AddMenuItemById`, for the first menu item whose Name equals `name`. */
    method AddMenuItemByName(name: string, cart: Cart) returns (r: Result<bool>)
      requires context.Valid()
      modifies context
      ensures context.Valid()
      ensures var found := FindFirst(old(context.tables).menuItems, MenuItemNameOf, Some(name));
        && (found.None? ==>
              r == Err(InvalidOperation) && context.tables == old(context.tables) && context.pending == old(context.pending))
        && (found.Some? ==>
              found.value in old(context.tables).menuItems && found.value.name == Some(name)
              && Saved(old(context.tables), old(context.pending) + [CartItemAdded(CartItem(cart.id, found.value.id, None, None))],
                       context.tables, context.pending, r))
    {
      var menuItem := FindFirst(context.tables.menuItems, MenuItemNameOf, Some(name));
      if menuItem.None? {
        return Err(InvalidOperation);
      }
      context.Stage(CartItemAdded(CartItem(cart.id, menuItem.value.id, None, None)));
      r := context.Save();
    }

    /**
     * `RemoveMenuItem`: delete the line (cart.Id, menuItemId) and save; when
     * there is no such line, answer false and change nothing.
     */
    method RemoveMenuItem(menuItemId: int, cart: Cart) returns (r: Result<bool>)
      requires context.Valid()
      modifies context
      ensures context.Valid()
      ensures var line := FindFirst(old(context.tables).cartItems, CartItemKey, (cart.id, menuItemId));
        && (line.None? ==>
              r == Ok(false) && context.tables == old(context.tables) && context.pending == old(context.pending))
        && (line.Some? ==>
              Saved(old(context.tables), old(context.pending) + [CartItemDeleted(line.value)],
                    context.tables, context.pending, r))
    {
      var line := FindFirst(context.tables.cartItems, CartItemKey, (cart.id, menuItemId));
      if line.Some? {
        context.Stage(CartItemDeleted(line.value));
        r := context.Save();
        return;
      }
      return Ok(false);
    }

    /** `CreateCart`: stage the new cart and save. */
    method CreateCart(cart: Cart) returns (r: Result<bool>)
      requires context.Valid()
      modifies context
      ensures context.Valid()
      ensures Saved(old(context.tables), old(context.pending) + [CartAdded(cart)], context.tables, context.pending, r)
    {
      context.Stage(CartAdded(cart));
      r := context.Save();
    }

    /** `DeleteCart`: stage the removal of the cart (and, by cascade, its lines) and save. */
    method DeleteCart(cart: Cart) returns (r: Result<bool>)
      requires context.Valid()
      modifies context
      ensures context.Valid()
      ensures Saved(old(context.tables), old(context.pending) + [CartDeleted(cart)], context.tables, context.pending, r)
    {
      context.Stage(CartDeleted(cart));
      r := context.Save();
    }

    /** `UpdateCart`: stage the overwrite of the cart with the same id and save. */
    method UpdateCart(cart: Cart) returns (r: Result<bool>)
      requires context.Valid()
      modifies context
      ensures context.Valid()
      ensures Saved(old(context.tables), old(context.pending) + [CartModified(cart)], context.tables, context.pending, r)
    {
      context.Stage(CartModified(cart));
      r := context.Save();
    }
  }

  /**
   * Adding a line on a clean unit of work is accepted exactly when the
   * (cart, menu item) pair is new and both ends exist; it then appends the
   * line. An existing pair is a key conflict: a failure, never a merge.
   */
  lemma AddCartItemCommit(t: Tables, line: CartItem)
    requires Consistent(t)
    ensures Commit(t, [CartItemAdded(line)]).Some? <==>
      && !HasKey(t.cartItems, CartItemKey, CartItemKey(line))
      && HasKey(t.carts, CartKey, line.cartId)
      && HasKey(t.menuItems, MenuItemKey, line.menuItemId)
    ensures Commit(t, [CartItemAdded(line)]).Some? ==>
      Commit(t, [CartItemAdded(line)]).value == t.(cartItems := t.cartItems + [line])
  {
    var t' := t.(cartItems := t.cartItems + [line]);
    assert ApplyAll(t, [CartItemAdded(line)]) == Some(t') by {
      assert [CartItemAdded(line)][1..] == [];
    }
    UniqueSnoc(t.cartItems, line, CartItemKey);
    assert line in t'.cartItems;
    assert forall x | x in t'.cartItems :: x in t.cartItems || x == line;
  }

  /**
   * Removing an existing line on a clean unit of work always succeeds and
   * deletes that line only: every other line, of this cart or another,
   * stays, in the same order.
   */
  lemma RemoveCartItemCommit(t: Tables, i: nat)
    requires Consistent(t) && i < |t.cartItems|
    ensures Commit(t, [CartItemDeleted(t.cartItems[i])]) ==
      Some(t.(cartItems := t.cartItems[..i] + t.cartItems[i + 1..]))
  {
    var line := t.cartItems[i];
    var t' := t.(cartItems := Without(t.cartItems, CartItemKey, CartItemKey(line)));
    assert HasKey(t.cartItems, CartItemKey, CartItemKey(line));
    assert ApplyAll(t, [CartItemDeleted(line)]) == Some(t') by {
      assert [CartItemDeleted(line)][1..] == [];
    }
    WithoutRemovesOne(t.cartItems, CartItemKey, i);
    WithoutKeepsUnique(t.cartItems, CartItemKey, CartItemKey(line));
    assert Consistent(t');
  }

  predicate DistinctMenuItems(lines: seq<CartItem>)
  {
    forall i, j | 0 <= i < j < |lines| :: lines[i].menuItemId != lines[j].menuItemId
  }

  /** The lines of one cart have pairwise distinct menu items (the composite key, restricted to one cart). */
  lemma {:induction false} CartLinesHaveDistinctMenuItems(rows: seq<CartItem>, cartId: int)
    requires UniqueBy(rows, CartItemKey)
    ensures DistinctMenuItems(ItemsOfCart(rows, cartId))
  {
    if rows != [] {
      assert UniqueBy(rows[1..], CartItemKey) by {
        forall a, b | 0 <= a < b < |rows| - 1 ensures CartItemKey(rows[1..][a]) != CartItemKey(rows[1..][b]) {
          assert rows[1..][a] == rows[a + 1] && rows[1..][b] == rows[b + 1];
        }
      }
      CartLinesHaveDistinctMenuItems(rows[1..], cartId);
      var rest := ItemsOfCart(rows[1..], cartId);
      var lines := ItemsOfCart(rows, cartId);
      if rows[0].cartId == cartId {
        assert lines == [rows[0]] + rest;
        forall i, j | 0 <= i < j < |lines| ensures lines[i].menuItemId != lines[j].menuItemId {
          if i == 0 {
            var y := rest[j - 1];
            assert lines[j] == y && lines[0] == rows[0];
            assert y in rest;
            assert y in rows[1..] && y.cartId == cartId;
            var k :| 0 <= k < |rows| - 1 && rows[1..][k] == y;
            assert rows[k + 1] == y;
            assert CartItemKey(rows[0]) != CartItemKey(rows[k + 1]);
          } else {
            assert lines[i] == rest[i - 1] && lines[j] == rest[j - 1];
          }
        }
      } else {
        assert lines == rest;
      }
    }
  }
}
