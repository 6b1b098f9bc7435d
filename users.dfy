/** `UserRepository` (Repository/UserRepository.cs): user lookups and user-table writes. */
module Users {
  import opened Wrappers
  import opened Data

  function UserNameOf(u: User): Option<string> { u.userName }

  /** `UserExists`: `Users.Any(u => u.Id == userId)`. */
  function UserExists(t: Tables, userId: int): (r: bool)
    ensures r <==> exists u | u in t.users :: u.id == userId
  {
    assert forall u | u in t.users :: exists i | 0 <= i < |t.users| :: t.users[i] == u;
    HasKey(t.users, UserKey, userId)
  }

  /** `GetUser`: the first user with that id, or null. */
  function GetUser(t: Tables, userId: int): (r: Option<User>)
    ensures r.None? <==> !UserExists(t, userId)
    ensures r.Some? ==> r.value in t.users && r.value.id == userId
    ensures r.Some? ==> exists i | 0 <= i < |t.users| ::
      t.users[i] == r.value && forall j | 0 <= j < i :: t.users[j].id != userId
  {
    FindFirst(t.users, UserKey, userId)
  }

  /** `GetUserByName`: the first user whose UserName equals `userName`, or null. */
  function GetUserByName(t: Tables, userName: string): (r: Option<User>)
    ensures r.None? <==> forall u | u in t.users :: u.userName != Some(userName)
    ensures r.Some? ==> r.value in t.users && r.value.userName == Some(userName)
    ensures r.Some? ==> exists i | 0 <= i < |t.users| ::
      t.users[i] == r.value && forall j | 0 <= j < i :: t.users[j].userName != Some(userName)
  {
    var r := FindFirst(t.users, UserNameOf, Some(userName));
    assert r.None? ==> forall u | u in t.users :: u.userName != Some(userName) by {
      if r.None? {
        forall u | u in t.users ensures u.userName != Some(userName) {
          var i :| 0 <= i < |t.users| && t.users[i] == u;
          assert UserNameOf(t.users[i]) != Some(userName);
        }
      }
    }
    r
  }

  /** `GetUserCount`: one per user row; on a consistent store, the number of distinct users. */
  function GetUserCount(t: Tables): (r: int)
    ensures r == |t.users|
    ensures Consistent(t) ==> r == |KeySet(t.users, UserKey)|
  {
    var n := |t.users|;
    assert Consistent(t) ==> n == |KeySet(t.users, UserKey)| by {
      if Consistent(t) { UniqueKeysCount(t.users, UserKey); }
    }
    n
  }

  /** `GetCartIdByUserId`: the CartId of the first user with that id; null when there is no such user. */
  function GetCartIdByUserId(t: Tables, userId: int): (r: Option<int>)
    ensures r.Some? <==> GetUser(t, userId).Some? && GetUser(t, userId).value.cartId.Some?
    ensures r.Some? ==> r == GetUser(t, userId).value.cartId
  {
    match GetUser(t, userId)
    case None => None
    case Some(u) => u.cartId
  }

  class UserRepository {
    const context: DataContext

    constructor (context: DataContext)
      ensures this.context == context
    {
      this.context := context;
    }

    /** `CreateUser`: stage the new row and save. */
    method CreateUser(user: User) returns (r: Result<bool>)
      requires context.Valid()
      modifies context
      ensures context.Valid()
      ensures Saved(old(context.tables), old(context.pending) + [UserAdded(user)], context.tables, context.pending, r)
    {
      context.Stage(UserAdded(user));
      r := context.Save();
    }

    /** `UpdateUser`: stage the overwrite of the row with the same id and save. */
    method UpdateUser(user: User) returns (r: Result<bool>)
      requires context.Valid()
      modifies context
      ensures context.Valid()
      ensures Saved(old(context.tables), old(context.pending) + [UserModified(user)], context.tables, context.pending, r)
    {
      context.Stage(UserModified(user));
      r := context.Save();
    }

    /** `DeleteUser`: stage the removal of the row with the same id and save. */
    method DeleteUser(user: User) returns (r: Result<bool>)
      requires context.Valid()
      modifies context
      ensures context.Valid()
      ensures Saved(old(context.tables), old(context.pending) + [UserDeleted(user)], context.tables, context.pending, r)
    {
      context.Stage(UserDeleted(user));
      r := context.Save();
    }
  }

  /**
   * On a clean unit of work, `CreateUser` is accepted exactly when the id is
   * new; it then appends the row, which `GetUser` finds, and the count grows by one.
   */
  lemma CreateUserCommit(t: Tables, user: User)
    requires Consistent(t)
    ensures Commit(t, [UserAdded(user)]).Some? <==> !UserExists(t, user.id)
    ensures Commit(t, [UserAdded(user)]).Some? ==>
      var t' := Commit(t, [UserAdded(user)]).value;
      && t'.users == t.users + [user]
      && GetUser(t', user.id) == Some(user)
      && GetUserCount(t') == GetUserCount(t) + 1
  {
    var t' := t.(users := t.users + [user]);
    assert ApplyAll(t, [UserAdded(user)]) == Some(t') by {
      assert [UserAdded(user)][1..] == [];
    }
    UniqueSnoc(t.users, user, UserKey);
    if !UserExists(t, user.id) {
      assert forall x | x in t'.cartItems :: HasKey(t'.carts, CartKey, x.cartId);
      assert Consistent(t');
      assert t'.users[|t.users|] == user;
    }
  }

  /** `DeleteUser` of the row `CreateUser` just added restores the table as it was. */
  lemma DeleteUserUndoesCreate(t: Tables, user: User)
    requires Consistent(t) && !UserExists(t, user.id)
    ensures Commit(t.(users := t.users + [user]), [UserDeleted(user)]) == Some(t)
  {
    var t1 := t.(users := t.users + [user]);
    var s := t1.users;
    assert s[|t.users|] == user;
    assert HasKey(s, UserKey, user.id);
    UniqueSnoc(t.users, user, UserKey);
    WithoutRemovesOne(s, UserKey, |t.users|);
    assert s[..|t.users|] + s[|t.users| + 1..] == t.users;
    assert [UserDeleted(user)][1..] == [];
    assert ApplyAll(t1, [UserDeleted(user)]) == Some(t);
  }
}
