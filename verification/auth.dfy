/**
 * The register and login handlers (src/api/v1/auth.rs) over the account
 * store: fail-fast checks, the store writes, tenant resolution and the
 * context the token would carry.
 */
module AuthApi {
  import opened Wrappers
  import opened UserDaoTable
  import opened UserView
  import opened DomainTable
  import opened RoleDaoTable
  import opened GrantTable
  import OrgTable
  import opened Jwt
  import opened Resolver
  import opened AccountStore

  /** The register body; its validation rules and password hashing live in the user dto. */
  datatype NewUser = NewUser(username: string, password: string, email: Option<string>, avatar: Option<string>, memo: Option<string>)

  /** The login body. */
  datatype LoginUser = LoginUser(username: string, password: string)

  /** What both handlers reply with. */
  datatype Session = Session(
    token: Token,
    user: User,
    domain: Option<Domain>,
    roles: seq<RoleDao>,
    orgs: seq<OrgTable.OrgDao>)

  const AdminRole := "admin"

  /** `body.exists()`: some account already has the username. */
  predicate UsernameTaken(users: seq<UserDao>, username: string): (taken: bool)
    ensures taken <==> exists u :: u in users && u.username == username
  {
    FindOne(users, UsernameIs(username)).Ok?
  }

  /**
   * The read-only part of register, lines 20-45: validation, duplicate
   * username, the `from` domain, its default role, and that role's row.
   * Success names the tenant and the role to grant.
   */
  function RegisterChecks(users: seq<UserDao>, domains: seq<Domain>, roles: seq<RoleDao>,
                          from: Option<string>, username: string, bodyValid: bool): (r: Result<(Domain, RoleDao)>)
    ensures !bodyValid ==> r == Err(Validation)
    ensures bodyValid && (exists u :: u in users && u.username == username) ==> r == Err(UserExists)
    ensures bodyValid && (forall u :: u in users ==> u.username != username) && from.None? ==> r == Err(DomainRequired)
    ensures (bodyValid && (forall u :: u in users ==> u.username != username) && from.Some? &&
             forall d :: d in domains ==> d.id != from.value) ==> r == Err(DomainNotFound(from.value))
    ensures r.Err? && r.error.DomainNotFound? ==>
      from == Some(r.error.domainId) && forall d :: d in domains ==> d.id != from.value
    ensures r.Err? && r.error.NoDefaultRole? ==>
      from == Some(r.error.domainId) && exists d :: d in domains && d.id == from.value && d.default_role_id.None?
    ensures r.Err? && r.error.Db? ==>
      && r.error == Db(RowNotFound)
      && exists d :: d in domains && d.id == from.value && d.default_role_id.Some? &&
           forall x :: x in roles ==> x.id != d.default_role_id
    ensures (bodyValid && (forall u :: u in users ==> u.username != username) && from.Some? &&
             DomainTable.FindById(domains, from.value).Ok?) ==>
      var d := DomainTable.FindById(domains, from.value).value;
      && (d.default_role_id.None? ==> r == Err(NoDefaultRole(d.id)))
      && (d.default_role_id.Some? && (forall x :: x in roles ==> x.id != d.default_role_id) ==> r == Err(Db(RowNotFound)))
      && (d.default_role_id.Some? && (exists x :: x in roles && x.id == d.default_role_id) ==>
            r == Ok((d, RoleDaoTable.FindById(roles, d.default_role_id.value).value)))
    ensures r.Ok? ==>
      && bodyValid
      && (forall u :: u in users ==> u.username != username)
      && from == Some(r.value.0.id) && r.value.0 in domains
      && r.value.1 in roles && r.value.0.default_role_id.Some? && r.value.1.id == r.value.0.default_role_id
  {
    if !bodyValid then Err(Validation)
    else if UsernameTaken(users, username) then Err(UserExists)
    else if from.None? then Err(DomainRequired)
    else match DomainTable.FindById(domains, from.value)
      case Err(_) => Err(DomainNotFound(from.value))
      case Ok(domain) =>
        if domain.default_role_id.None? then Err(NoDefaultRole(domain.id))
        else match RoleDaoTable.FindById(roles, domain.default_role_id.value)
          case Err(e) => Err(e)
          case Ok(role) => Ok((domain, role))
  }

  /**
   * `register`: the checks, then the user insert and the grant insert, then
   * the context of a fresh account in the `from` tenant. `row` is the record
   * the user dto builds (new id, hashed password, defaults). Every failure
   * before the user insert leaves the store as it was.
   */
  method Register(db: Store, from: Option<string>, body: NewUser, bodyValid: bool,
                  row: UserDao, expire: int, now: int) returns (r: Result<Session>)
    requires db.Valid()
    requires row.username == body.username && row.is_actived.Some?
    modifies db
    ensures db.Valid()
    ensures db.domains == old(db.domains) && db.roles == old(db.roles)
    ensures db.orgs == old(db.orgs) && db.memberships == old(db.memberships)
    ensures var checks := RegisterChecks(old(db.users), old(db.domains), old(db.roles), from, body.username, bodyValid);
      && (checks.Err? ==> r == Err(checks.error))
      && (checks.Ok? && (exists u :: u in old(db.users) && u.id == row.id) ==> r == Err(Db(DuplicateKey)))
      && (checks.Ok? && (forall u :: u in old(db.users) ==> u.id != row.id) ==> r.Ok?)
    ensures r.Err? ==> db.users == old(db.users) && db.grants == old(db.grants)
    ensures r.Ok? ==>
      var checks := RegisterChecks(old(db.users), old(db.domains), old(db.roles), from, body.username, bodyValid);
      var domain, role := checks.value.0, checks.value.1;
      && checks.Ok?
      && db.users == old(db.users) + [row]
      && db.grants == old(db.grants) + [UserRole(row.id, role.id.value, expire, now)]
      && r.value.token.claims == Auth(row.id, row.username, Some(domain.id), [], [role.id.value], role.level, false)
      && r.value.user == FromDao(row)
      && r.value.domain == Some(domain) && r.value.roles == [role] && r.value.orgs == []
  {
    var checks := RegisterChecks(db.users, db.domains, db.roles, from, body.username, bodyValid);
    if checks.Err? {
      return Err(checks.error);
    }
    var (domain, role) := checks.value;
    var created := db.CreateUser(row);
    if created.Fail? {
      return Err(created.error);
    }
    var user := FromDao(row);
    db.CreateGrant(UserRole(user.id, role.id.value, expire, now));
    var token := GenerateToken(Auth(user.id, user.username, Some(domain.id), [], [role.id.value], role.level, false));
    r := Ok(Session(token, user, Some(domain), [role], []));
  }

  /**
   * The credential checks of login, lines 70-81, in order: validation, the
   * account (the matching row with the smallest id), the password, the
   * active flag. `passwordMatches` stands for the dto's hash comparison.
   */
  function Authenticate(users: seq<UserDao>, username: string, bodyValid: bool,
                        passwordMatches: string -> bool): (r: Result<UserDao>)
    requires forall u :: u in users ==> u.is_actived.Some?
    ensures !bodyValid ==> r == Err(Validation)
    ensures bodyValid && (forall u :: u in users ==> u.username != username) ==> r == Err(UserNotFound)
    ensures r == Err(UserNotFound) ==> forall u :: u in users ==> u.username != username
    ensures r == Err(WrongPassword) || r == Err(UserDisabled) ==>
      bodyValid && FindOne(users, UsernameIs(username)).Ok? &&
      var found := FindOne(users, UsernameIs(username)).value;
      (r == Err(WrongPassword) <==> !passwordMatches(found.password))
    ensures r == Err(UserDisabled) ==> FindOne(users, UsernameIs(username)).value.is_actived != Some(1)
    ensures bodyValid && FindOne(users, UsernameIs(username)).Ok? ==>
      var f := FindOne(users, UsernameIs(username)).value;
      && (r == Err(WrongPassword) <==> !passwordMatches(f.password))
      && (r == Err(UserDisabled) <==> passwordMatches(f.password) && f.is_actived != Some(1))
      && (r.Ok? <==> passwordMatches(f.password) && f.is_actived == Some(1))
      && (r.Ok? ==> r.value == f)
    ensures r.Ok? ==>
      && bodyValid
      && r.value in users && r.value.username == username
      && (forall u :: u in users && u.username == username ==> Query.IdLe(r.value.id, u.id))
      && passwordMatches(r.value.password)
      && r.value.is_actived == Some(1)
  {
    if !bodyValid then Err(Validation)
    else match FindOne(users, UsernameIs(username))
      case Err(_) => Err(UserNotFound)
      case Ok(dao) =>
        var user := FromDao(dao);
        if !passwordMatches(user.password) then Err(WrongPassword)
        else if !user.is_actived then Err(UserDisabled)
        else Ok(dao)
  }

  /**
   * `login`: the credential checks, the login record, then either the admin
   * bypass or the resolution of the user's orgs and roles in the `from`
   * tenant. The login record is written before the tenant checks, so a login
   * refused for its tenant has still stamped the account.
   */
  method Login(db: Store, from: Option<string>, body: LoginUser, bodyValid: bool,
               passwordMatches: string -> bool, now: int) returns (r: Result<Session>)
    requires db.Valid()
    requires var a := Authenticate(db.users, body.username, bodyValid, passwordMatches);
      a.Ok? ==> a.value.sys_role.Some?
    modifies db
    ensures db.Valid()
    ensures db.domains == old(db.domains) && db.roles == old(db.roles) && db.orgs == old(db.orgs)
    ensures db.memberships == old(db.memberships) && db.grants == old(db.grants)
    ensures var auth := Authenticate(old(db.users), body.username, bodyValid, passwordMatches);
      && (auth.Err? ==> r == Err(auth.error) && db.users == old(db.users))
      && (auth.Ok? ==> db.users == WithLoginAt(old(db.users), auth.value.id, now))
    ensures var auth := Authenticate(old(db.users), body.username, bodyValid, passwordMatches);
      auth.Ok? && auth.value.sys_role == Some(AdminRole) ==>
        r == Ok(Session(Token(Auth(auth.value.id, auth.value.username, from, [], [], NoRoleLevel, true)),
                        FromDao(auth.value.(last_logined_at := now)), None, [], []))
    ensures var auth := Authenticate(old(db.users), body.username, bodyValid, passwordMatches);
      auth.Ok? && auth.value.sys_role != Some(AdminRole) ==>
        && (from.None? ==> r == Err(DomainRequired))
        && (from.Some? && DomainTable.FindById(old(db.domains), from.value).Err? ==> r == Err(DomainNotFound(from.value)))
    ensures var auth := Authenticate(old(db.users), body.username, bodyValid, passwordMatches);
      auth.Ok? && auth.value.sys_role != Some(AdminRole) && from.Some? &&
      DomainTable.FindById(old(db.domains), from.value).Ok? ==>
        var id, domainId := auth.value.id, from.value;
        var roles := TenantRoles(old(db.grants), old(db.roles), id, domainId);
        r == Ok(Session(
          Token(Auth(id, auth.value.username, from,
                     OrgIdsOf(OrgTable.MembershipsOf(old(db.memberships), id)),
                     RoleIdsOf(FindByUser(old(db.grants), id)),
                     RoleLevel(roles), false)),
          FromDao(auth.value.(last_logined_at := now)),
          Some(DomainTable.FindById(old(db.domains), domainId).value),
          roles,
          TenantOrgs(old(db.memberships), old(db.orgs), id, domainId)))
  {
    var checked := Authenticate(db.users, body.username, bodyValid, passwordMatches);
    if checked.Err? {
      return Err(checked.error);
    }
    var dao := checked.value;
    db.RecordLogin(dao.id, now);
    var user := FromDao(dao.(last_logined_at := now));
    var roles: seq<RoleDao> := [];
    var roleIds: seq<int> := [];
    var orgs: seq<OrgTable.OrgDao> := [];
    var orgIds: seq<string> := [];
    var domain: Option<Domain> := None;
    var isAdmin := user.sys_role.value == AdminRole;
    if !isAdmin {
      if from.None? {
        return Err(DomainRequired);
      }
      var found := DomainTable.FindById(db.domains, from.value);
      if found.Err? {
        return Err(DomainNotFound(from.value));
      }
      domain := Some(found.value);
      var userOrgs := OrgTable.MembershipsOf(db.memberships, user.id);
      orgIds := OrgIdsOf(userOrgs);
      orgs := OrgTable.FindByIds(db.orgs, orgIds, from);
      var userRoles := FindByUser(db.grants, user.id);
      roleIds := RoleIdsOf(userRoles);
      roles := RoleDaoTable.FindByIds(db.roles, roleIds, from);
      roles := SortByLevel(roles);
    }
    var roleLevel := RoleLevel(roles);
    var token := GenerateToken(Auth(user.id, user.username, from, orgIds, roleIds, roleLevel, isAdmin));
    r := Ok(Session(token, user, domain, roles, orgs));
  }
}
