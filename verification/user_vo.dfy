/** The user value handed to handlers and its JSON view (src/repository/vo/user.rs). */
module UserView {
  import opened Wrappers
  import opened UserDaoTable

  /** The value built from a `users` row; the stored flag becomes a boolean. */
  datatype User = User(
    id: string,
    username: string,
    password: string,
    email: Option<string>,
    avatar: Option<string>,
    memo: Option<string>,
    sys_role: Option<string>,
    is_actived: bool,
    last_logined_at: int,
    created_at: int)

  /** The fields the JSON view of a user carries: everything but the password. */
  datatype UserJson = UserJson(
    id: string,
    username: string,
    email: Option<string>,
    avatar: Option<string>,
    memo: Option<string>,
    sys_role: Option<string>,
    is_actived: bool,
    last_logined_at: int,
    created_at: int)

  /**
   * `From<UserDao> for User`: every column copied; the account is active
   * exactly when the stored flag is 1. An absent flag makes `unwrap` panic.
   */
  function FromDao(dao: UserDao): (u: User)
    requires dao.is_actived.Some?
    ensures u.id == dao.id && u.username == dao.username && u.password == dao.password
    ensures u.email == dao.email && u.avatar == dao.avatar && u.memo == dao.memo
    ensures u.sys_role == dao.sys_role
    ensures u.last_logined_at == dao.last_logined_at && u.created_at == dao.created_at
    ensures u.is_actived <==> dao.is_actived == Some(1)
    ensures ToDao(u).is_actived == if u.is_actived then Some(1) else Some(0)
  {
    User(dao.id, dao.username, dao.password, dao.email, dao.avatar, dao.memo,
         dao.sys_role, dao.is_actived.value == 1, dao.last_logined_at, dao.created_at)
  }

  /** The row that stores `u`, with the flag written as 1 or 0. */
  function ToDao(u: User): (dao: UserDao)
    ensures dao.is_actived.Some?
  {
    UserDao(u.id, u.username, u.password, u.email, u.avatar, u.memo,
            u.sys_role, Some(if u.is_actived then 1 else 0), u.last_logined_at, u.created_at)
  }

  /** Converting loses nothing but the exact flag value: a row whose flag is 0 or 1 is recovered. */
  lemma FromDaoRoundTrip(dao: UserDao)
    requires dao.is_actived == Some(0) || dao.is_actived == Some(1)
    ensures ToDao(FromDao(dao)) == dao
  {
  }

  /** Every user value is the conversion of the row that stores it. */
  lemma ToDaoRoundTrip(u: User)
    ensures FromDao(ToDao(u)) == u
  {
  }

  /** Any stored flag other than 1 (0, 2, -1, ...) reads as a disabled account. */
  lemma OnlyOneMeansActive(dao: UserDao, flag: int)
    requires dao.is_actived == Some(flag)
    ensures FromDao(dao).is_actived <==> flag == 1
  {
  }

  /** The JSON view: `#[serde(skip_serializing)]` leaves the password out. */
  function Serialize(u: User): (j: UserJson)
    ensures j.id == u.id && j.username == u.username && j.is_actived == u.is_actived
    ensures j.email == u.email && j.avatar == u.avatar && j.memo == u.memo && j.sys_role == u.sys_role
    ensures j.last_logined_at == u.last_logined_at && j.created_at == u.created_at
  {
    UserJson(u.id, u.username, u.email, u.avatar, u.memo, u.sys_role,
             u.is_actived, u.last_logined_at, u.created_at)
  }

  /** Two users that differ only in their password serialize identically. */
  lemma SerializeHidesPassword(u: User, password: string)
    ensures Serialize(u.(password := password)) == Serialize(u)
  {
  }
}
