/** The `user_has_roles` grant table and its three fetches (src/repository/dao/user_role.rs). */
module GrantTable {
  import opened Wrappers
  import opened Query

  /** A grant of role `role_id` to user `user_id`, valid until `expire`. */
  datatype UserRole = UserRole(user_id: string, role_id: int, expire: int, created_at: int)

  /** `find_by_id`: a grant of `roleId` to `userId` (the first in table order), or RowNotFound. */
  function FindById(grants: seq<UserRole>, userId: string, roleId: int): (r: Result<UserRole>)
    ensures r.Ok? ==> r.value in grants && r.value.user_id == userId && r.value.role_id == roleId
    ensures r.Err? <==> forall g :: g in grants ==> !(g.user_id == userId && g.role_id == roleId)
    ensures r.Err? ==> r.error == Db(RowNotFound)
  {
    if grants == [] then Err(Db(RowNotFound))
    else if grants[0].user_id == userId && grants[0].role_id == roleId then Ok(grants[0])
    else
      assert forall g :: g in grants <==> g == grants[0] || g in grants[1..];
      FindById(grants[1..], userId, roleId)
  }

  /** `find_by_user`: exactly the grants held by `userId`, in table order. */
  function FindByUser(grants: seq<UserRole>, userId: string): (r: seq<UserRole>)
    ensures forall g :: g in r <==> g in grants && g.user_id == userId
    ensures forall g: UserRole :: g.user_id == userId ==> multiset(r)[g] == multiset(grants)[g]
  {
    Filter(grants, (g: UserRole) => g.user_id == userId)
  }

  /** `find_by_role`: exactly the grants of `roleId`, in table order. */
  function FindByRole(grants: seq<UserRole>, roleId: int): (r: seq<UserRole>)
    ensures forall g :: g in r <==> g in grants && g.role_id == roleId
    ensures forall g: UserRole :: g.role_id == roleId ==> multiset(r)[g] == multiset(grants)[g]
  {
    Filter(grants, (g: UserRole) => g.role_id == roleId)
  }

  /** The same grants with every expiry replaced by `expire`. */
  function WithExpire(grants: seq<UserRole>, expire: int): (r: seq<UserRole>)
    ensures |r| == |grants|
    ensures forall i :: 0 <= i < |grants| ==> r[i] == grants[i].(expire := expire)
  {
    if grants == [] then [] else [grants[0].(expire := expire)] + WithExpire(grants[1..], expire)
  }

  /**
   * No fetch looks at `expire`: moving every expiry (into the past, say)
   * moves it in the answer and changes nothing else.
   */
  lemma {:induction false} FindByUserIgnoresExpire(grants: seq<UserRole>, userId: string, expire: int)
    ensures FindByUser(WithExpire(grants, expire), userId) == WithExpire(FindByUser(grants, userId), expire)
  {
    if grants != [] {
      FindByUserIgnoresExpire(grants[1..], userId, expire);
      var moved := WithExpire(grants, expire);
      assert moved[1..] == WithExpire(grants[1..], expire);
      WithExpireAppend(if grants[0].user_id == userId then [grants[0]] else [], FindByUser(grants[1..], userId), expire);
    }
  }

  lemma {:induction false} FindByRoleIgnoresExpire(grants: seq<UserRole>, roleId: int, expire: int)
    ensures FindByRole(WithExpire(grants, expire), roleId) == WithExpire(FindByRole(grants, roleId), expire)
  {
    if grants != [] {
      FindByRoleIgnoresExpire(grants[1..], roleId, expire);
      var moved := WithExpire(grants, expire);
      assert moved[1..] == WithExpire(grants[1..], expire);
      WithExpireAppend(if grants[0].role_id == roleId then [grants[0]] else [], FindByRole(grants[1..], roleId), expire);
    }
  }

  lemma {:induction false} FindByIdIgnoresExpire(grants: seq<UserRole>, userId: string, roleId: int, expire: int)
    ensures FindById(WithExpire(grants, expire), userId, roleId).Ok? == FindById(grants, userId, roleId).Ok?
    ensures FindById(grants, userId, roleId).Ok? ==>
      FindById(WithExpire(grants, expire), userId, roleId).value == FindById(grants, userId, roleId).value.(expire := expire)
  {
    if grants != [] {
      FindByIdIgnoresExpire(grants[1..], userId, roleId, expire);
      var moved := WithExpire(grants, expire);
      assert moved[1..] == WithExpire(grants[1..], expire);
    }
  }

  lemma WithExpireAppend(a: seq<UserRole>, b: seq<UserRole>, expire: int)
    ensures WithExpire(a + b, expire) == WithExpire(a, expire) + WithExpire(b, expire)
  {
  }
}
