/** Registering and logging in against a small store, using only the handlers' contracts. */
module AuthScenario {
  import opened Wrappers
  import opened UserDaoTable
  import opened DomainTable
  import opened RoleDaoTable
  import opened GrantTable
  import opened Jwt
  import opened AccountStore
  import opened AuthApi

  const member := RoleDao(Some(1), "member", None, "member", 10, "D1", Some(0), 0, 0, None, None)
  const d1 := Domain("D1", "tenant one", None, Some(1), Some(0), None, None, 0, 0)
  const alice := UserDao("u1", "alice", "hash(p@ss)", None, None, None, Some("user"), Some(1), 0, 0)

  /** The password check for a login that typed "other". */
  predicate TypedOther(secret: string)
  {
    secret == "hash(other)"
  }

  /** Against an empty users table, registering "alice" from D1 passes every check. */
  lemma AliceMayRegister()
    ensures RegisterChecks([], [d1], [member], Some("D1"), "alice", true) == Ok((d1, member))
  {
    assert FindOne([], UsernameIs("alice")).Err?;
    assert DomainTable.FindById([d1], "D1") == Ok(d1);
    assert RoleDaoTable.FindById([member], 1) == Ok(member);
  }

  /** Once registered, "alice" logging in with the wrong password is refused. */
  lemma AliceWrongPasswordIsRefused()
    ensures Authenticate([alice], "alice", true, TypedOther) == Err(WrongPassword)
  {
    assert FindOne([alice], UsernameIs("alice")) == Ok(alice);
  }

  /**
   * An account without a system role that types the wrong password is refused
   * with the wrong-password error, so its login is within `Login`'s reach: the
   * system role is demanded only of an account that passes every check.
   */
  lemma NoSystemRoleWrongPassword()
    ensures var bob := alice.(id := "u2", username := "bob", sys_role := None);
      && Authenticate([bob], "bob", true, TypedOther) == Err(WrongPassword)
      && (Authenticate([bob], "bob", true, TypedOther).Ok? ==> bob.sys_role.Some?)
  {
    var bob := alice.(id := "u2", username := "bob", sys_role := None);
    assert FindOne([bob], UsernameIs("bob")) == Ok(bob);
  }

  /**
   * Alice registers into D1, whose default role is `member` (level 10), then
   * logs in with a wrong password: the second attempt is refused and leaves
   * her account as registration left it.
   */
  method AliceRegistersThenGuessesWrong() returns (registered: Result<Session>, retried: Result<Session>)
    ensures registered.Ok?
    ensures registered.value.token.claims == Auth("u1", "alice", Some("D1"), [], [1], 10, false)
    ensures registered.value.roles == [member] && registered.value.orgs == []
    ensures retried == Err(WrongPassword)
  {
    var db := new Store();
    db.domains := [d1];
    db.roles := [member];
    AliceMayRegister();
    registered := Register(db, Some("D1"), NewUser("alice", "p@ss", None, None, None), true, alice, 100, 0);
    assert db.users == [alice];
    assert db.grants == [UserRole("u1", 1, 100, 0)];
    AliceWrongPasswordIsRefused();
    retried := Login(db, Some("D1"), LoginUser("alice", "other"), true, TypedOther, 5);
    assert db.users == [alice];
  }
}

/** A login into one tenant by a user who also holds a role in another. */
module LoginScenario {
  import opened Wrappers
  import opened Query
  import opened RoleDaoTable
  import opened GrantTable
  import opened Resolver
  import AuthScenario

  const owner := RoleDao(Some(2), "owner", None, "owner", 3, "D2", Some(0), 0, 0, None, None)
  const grants := [UserRole("u2", 1, 0, 0), UserRole("u2", 2, 0, 0)]

  /** A role of tenant D1 with the given id and level, for the scenario below. */
  function ScenarioRole(id: int, level: int): RoleDao
  {
    RoleDao(Some(id), "r", None, "r", level, "D1", Some(0), 0, 0, None, None)
  }

  /** Roles of levels 5, 2 and 8 come back as 2, 5, 8, and the effective level is 2. */
  lemma LevelsFiveTwoEight()
    ensures var five, two, eight := ScenarioRole(1, 5), ScenarioRole(2, 2), ScenarioRole(3, 8);
      && SortByLevel([five, two, eight]) == [two, five, eight]
      && RoleLevel(SortByLevel([five, two, eight])) == 2
  {
    var five, two, eight := ScenarioRole(1, 5), ScenarioRole(2, 2), ScenarioRole(3, 8);
    assert [five, two, eight][1..] == [two, eight];
    assert [two, eight][1..] == [eight];
    assert SortByLevel([eight]) == [eight];
    assert InsertByLevel(two, [eight]) == [two, eight];
    assert InsertByLevel(five, [eight]) == [five, eight];
    assert InsertByLevel(five, [two, eight]) == [two] + [five, eight];
  }

  /** The token's role ids are all of Bob's grants, in either tenant. */
  lemma BobGrantedRoleIds()
    ensures RoleIdsOf(FindByUser(grants, "u2")) == [1, 2]
  {
    assert FindByUser(grants, "u2") == grants;
  }

  /** Of Bob's two granted roles, the fetch restricted to D1 returns the member role only. */
  lemma BobFetchInD1()
    ensures RoleDaoTable.FindByIds([AuthScenario.member, owner], [1, 2], Some("D1")) == [AuthScenario.member]
  {
    assert [AuthScenario.member, owner][1..] == [owner];
    assert Filter([owner], (x: RoleDao) => IdIn(x, [1, 2]) && InTenant(x, Some("D1"))) == [];
  }

  /**
   * Bob's roles in D1 are the member role alone, so his level there is 10,
   * although the owner role (level 3, tenant D2) is among his token's role ids.
   */
  lemma BobHoldsOnlyMemberInD1()
    ensures TenantRoles(grants, [AuthScenario.member, owner], "u2", "D1") == [AuthScenario.member]
    ensures RoleLevel(TenantRoles(grants, [AuthScenario.member, owner], "u2", "D1")) == 10
  {
    BobGrantedRoleIds();
    BobFetchInD1();
    assert SortByLevel([AuthScenario.member]) == [AuthScenario.member];
  }
}
