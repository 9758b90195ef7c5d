/** The `users` table row and the two fetches over it (src/repository/dao/user.rs). */
module UserDaoTable {
  import opened Wrappers
  import opened Query

  /** A row of `users`; timestamps are plain numbers. */
  datatype UserDao = UserDao(
    id: string,
    username: string,
    password: string,
    email: Option<string>,
    avatar: Option<string>,
    memo: Option<string>,
    sys_role: Option<string>,
    is_actived: Option<int>,
    last_logined_at: int,
    created_at: int)

  /** The filter `eq("username", name)` that the login and register bodies use. */
  function UsernameIs(name: string): UserDao -> bool
  {
    (u: UserDao) => u.username == name
  }

  /**
   * `find_one`: the query ordered by ascending id and limited to one row, so
   * the matching row with the smallest id; RowNotFound when nothing matches.
   */
  function FindOne(users: seq<UserDao>, keep: UserDao -> bool): (r: Result<UserDao>)
    ensures r.Ok? ==> r.value in users && keep(r.value)
    ensures r.Ok? ==> forall u :: u in users && keep(u) ==> IdLe(r.value.id, u.id)
    ensures r.Err? <==> forall u :: u in users ==> !keep(u)
    ensures r.Err? ==> r.error == Db(RowNotFound)
  {
    if users == [] then Err(Db(RowNotFound))
    else
      var rest := FindOne(users[1..], keep);
      assert forall u :: u in users <==> u == users[0] || u in users[1..];
      if !keep(users[0]) then rest
      else if rest.Err? then
        IdLeReflexive(users[0].id);
        Ok(users[0])
      else if IdLe(users[0].id, rest.value.id) then
        MinStep(users[0].id, rest.value.id, users[1..], keep);
        IdLeReflexive(users[0].id);
        Ok(users[0])
      else
        IdLeTotal(users[0].id, rest.value.id);
        rest
  }

  /** If `a` is below `b` and `b` is below every match of `keep`, so is `a`. */
  lemma MinStep(a: string, b: string, users: seq<UserDao>, keep: UserDao -> bool)
    requires IdLe(a, b)
    requires forall u :: u in users && keep(u) ==> IdLe(b, u.id)
    ensures forall u :: u in users && keep(u) ==> IdLe(a, u.id)
  {
    forall u | u in users && keep(u)
      ensures IdLe(a, u.id)
    {
      IdLeTransitive(a, b, u.id);
    }
  }

  /** `find_list`: every matching row, in table order. */
  function FindList(users: seq<UserDao>, keep: UserDao -> bool): (r: seq<UserDao>)
    ensures forall u :: u in r <==> u in users && keep(u)
    ensures forall u :: multiset(r)[u] == if keep(u) then multiset(users)[u] else 0
  {
    Filter(users, keep)
  }

  /** `find_one` fails exactly when `find_list` is empty, and otherwise picks one of its rows. */
  lemma FindOneIsInFindList(users: seq<UserDao>, keep: UserDao -> bool)
    ensures FindOne(users, keep).Err? <==> FindList(users, keep) == []
    ensures FindOne(users, keep).Ok? ==> FindOne(users, keep).value in FindList(users, keep)
  {
    var list := FindList(users, keep);
    if list != [] {
      assert list[0] in list;
    }
  }

  /** No two rows share an id (the primary key). */
  predicate UniqueIds(users: seq<UserDao>)
  {
    forall i, j :: 0 <= i < j < |users| ==> users[i].id != users[j].id
  }

  /** With unique ids, the smallest matching id picks one row, whichever order the table is in. */
  lemma {:induction false} FindOneIsOrderIndependent(users: seq<UserDao>, other: seq<UserDao>, keep: UserDao -> bool)
    requires multiset(users) == multiset(other)
    requires UniqueIds(users)
    ensures FindOne(users, keep) == FindOne(other, keep)
  {
    var a, b := FindOne(users, keep), FindOne(other, keep);
    assert forall u :: u in users <==> u in other by {
      forall u ensures u in users <==> u in other {
        assert u in users <==> u in multiset(users);
        assert u in other <==> u in multiset(other);
      }
    }
    if a.Ok? && b.Ok? {
      IdLeAntisymmetric(a.value.id, b.value.id);
      var i :| 0 <= i < |users| && users[i] == a.value;
      var j :| 0 <= j < |users| && users[j] == b.value;
      assert i == j;
    }
  }

  /**
   * Recording a login at `now` (the store write of the login flow): every row
   * with id `id` gets the new timestamp, every other row is kept.
   */
  function WithLoginAt(users: seq<UserDao>, id: string, now: int): (r: seq<UserDao>)
    ensures |r| == |users|
    ensures forall i :: 0 <= i < |users| && users[i].id != id ==> r[i] == users[i]
    ensures forall i :: 0 <= i < |users| && users[i].id == id ==> r[i] == users[i].(last_logined_at := now)
  {
    seq(|users|, i requires 0 <= i < |users| =>
      if users[i].id == id then users[i].(last_logined_at := now) else users[i])
  }
}
