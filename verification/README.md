# azman account core, modelled in Dafny

azman is a multi-tenant account service. Its tenants are called *domains*.
Users register into a domain, which grants them that domain's default role.
When they log in they receive a token. For an ordinary user the token carries
their org ids, their role ids and the level of their strongest role in the
domain they log in to. An administrator (`sys_role == "admin"`) skips the
tenant resolution altogether. Tenants are listed, created and renamed by
administrators only, and orgs are created and renamed through their DTOs.

This project models:

- the rows of the tables that flow touches: `UserDao`, `RoleDao`,
  `UserRole`, `OrgDao`, `UserOrg` and `Domain`;
- the queries over those tables, on sequences that stand for the tables:
  - `UserDao::find_one`, ordered by id with limit 1;
  - `find_list`;
  - `RoleDao::find_by_ids` and `RoleDao::find_all`;
  - the `UserRole` finders;
- the `UserDao` → `User` conversion and the serialised view without the
  password;
- an account store, a class whose methods insert and update rows;
- the register and login handlers;
- the admin-only domain handlers;
- the org create and save operations.

Handler failures are values of one `Error` datatype, returned in a `Result`.
The checks run in the same order as in the handlers.

Login resolves the tenant in four steps:

1. take the user's org memberships and grants;
2. keep the roles with those ids in the requested tenant;
3. sort them by level, stably;
4. take the first level, or 999 when no role is left.

This resolution is written as functions in `Resolver`, and the `Login`
method is proved against them.

Two behaviours of the source are kept as written:

- Login records the login before it checks the tenant. A login that is
  refused because of its tenant has therefore already stamped
  `last_logined_at`, and `AuthApi.Login` says so.
- The token's `role_id` list holds every role id the user has been granted,
  in every tenant. It is not the filtered tenant roles.

## Model

| member | source | states |
|---|---|---|
| Query.Filter | src/repository/dao/user.rs:25-27 | a `find_list` result keeps each row exactly as often as the table holds it when it matches, and never otherwise |
| Query.IdLeTotal | src/repository/dao/user.rs:21-24 | the id order used by `order_by(true, ["id"])` compares any two ids |
| Query.IdLeTransitive | src/repository/dao/user.rs:21-24 | the id order is transitive, so "smallest id" is well defined |
| Query.IdLeAntisymmetric | src/repository/dao/user.rs:21-24 | two ids that are each ≤ the other are equal |
| UserDaoTable.FindOne | src/repository/dao/user.rs:21-24 | `find_one` returns a matching row whose id is ≤ every matching row's id; it fails with row-not-found exactly when nothing matches |
| UserDaoTable.FindList | src/repository/dao/user.rs:25-27 | `find_list` returns exactly the matching rows, with their multiplicities |
| UserDaoTable.FindOneIsInFindList | src/repository/dao/user.rs:21-27 | the row `find_one` picks is one of the rows `find_list` returns for the same wrapper |
| UserDaoTable.FindOneIsOrderIndependent | src/repository/dao/user.rs:21-24 | with unique ids, `find_one` picks the same row however the table is stored |
| UserDaoTable.WithLoginAt | src/api/v1/auth.rs:83 | the login record changes `last_logined_at` of the rows with the user's id to `now` and leaves every other row and column alone |
| UserView.FromDao | src/repository/vo/user.rs:22-36 | the conversion copies each of the other nine columns unchanged; `is_actived` is true exactly when the stored flag is `Some(1)` |
| UserView.FromDaoRoundTrip | src/repository/vo/user.rs:22-36 | converting a row whose flag is 0 or 1 and back gives the row again |
| UserView.ToDaoRoundTrip | src/repository/vo/user.rs:22-36 | converting a `User` to a row and back gives the `User` again |
| UserView.OnlyOneMeansActive | src/repository/vo/user.rs:32 | any stored flag other than 1 gives an inactive user |
| UserView.Serialize | src/repository/vo/user.rs:9-10 | the serialised user carries each of the nine fields other than the password, unchanged |
| UserView.SerializeHidesPassword | src/repository/vo/user.rs:9-10 | two users that differ only in their password serialise identically |
| RoleDaoTable.FindByIds | src/repository/dao/role.rs:26-32 | a role is returned iff its id is listed and, when a tenant is given, it belongs to that tenant; each row is returned at most as often as the table holds it |
| RoleDaoTable.FindAll | src/repository/dao/role.rs:33-39 | no tenant returns the whole table; a tenant returns exactly its roles |
| RoleDaoTable.SoftDeletedRolesAreReturned | src/repository/dao/role.rs:18 | `find_by_ids` does not look at `is_deleted`: a deleted role that otherwise matches is returned |
| RoleDaoTable.NoIdsNoRoles | src/repository/dao/role.rs:26-32 | an empty id list returns no roles |
| RoleDaoTable.FindById | src/api/v1/auth.rs:36 | `Role::find_one(id)` returns a role with that id, and fails with row-not-found exactly when there is none |
| GrantTable.FindById | src/repository/dao/user_role.rs:20-23 | the grant of a user and a role, or row-not-found exactly when there is none |
| GrantTable.FindByUser | src/repository/dao/user_role.rs:24-27 | exactly the user's grants, with their multiplicities |
| GrantTable.FindByRole | src/repository/dao/user_role.rs:28-31 | exactly the role's grants, with their multiplicities |
| GrantTable.FindByUserIgnoresExpire | src/repository/dao/user_role.rs:14 | the user query does not look at `expire`: an expired grant is returned like a live one |
| GrantTable.FindByRoleIgnoresExpire | src/repository/dao/user_role.rs:14 | likewise for the role query |
| GrantTable.FindByIdIgnoresExpire | src/repository/dao/user_role.rs:14 | likewise for the user-and-role query |
| OrgTable.FindByIdIsTheRow | src/repository/dto/org.rs:55-56 | with unique ids, looking up a stored org by its id gives that org |
| OrgTable.FindById | src/repository/dto/org.rs:55-56 | the org with id `id`, or row-not-found exactly when there is none |
| OrgTable.FindByIds | src/api/v1/auth.rs:104 | an org is returned iff its id is listed and, when a tenant is given, it belongs to that tenant |
| OrgTable.MembershipsOf | src/api/v1/auth.rs:102 | exactly the user's memberships |
| DomainTable.FindById | src/api/v1/auth.rs:26 | the tenant with that id, or row-not-found exactly when there is none |
| DomainTable.FindByIdIsTheDomain | src/api/v1/domain.rs:27 | with unique ids, looking up a stored tenant by its id gives that tenant |
| AccountStore.Store.CreateUser | src/api/v1/auth.rs:46 | the user insert appends the row, or fails with duplicate key when the id is taken and changes nothing |
| AccountStore.Store.RecordLogin | src/api/v1/auth.rs:83 | the login record stamps the user's row and keeps the invariant |
| AccountStore.Store.CreateGrant | src/api/v1/auth.rs:47-51 | the grant insert appends one grant |
| AccountStore.Store.CreateOrg | src/repository/dto/org.rs:37 | the org insert appends the row, or fails with duplicate key |
| AccountStore.Store.UpdateOrg | src/repository/dto/org.rs:59 | `update_one` replaces the row with the org's id and nothing else |
| AccountStore.Store.CreateDomain | src/api/v1/domain.rs:36 | the tenant insert appends the row, or fails with duplicate key |
| AccountStore.Store.UpdateDomain | src/api/v1/domain.rs:49 | the tenant update replaces the row with its id and nothing else |
| Resolver.InsertByLevel | src/api/v1/auth.rs:109 | inserting into a level-sorted list keeps it sorted and adds exactly the one role |
| Resolver.SortByLevel | src/api/v1/auth.rs:109 | `sort_by` on level gives a level-sorted permutation of the roles |
| Resolver.SortByLevelIsStable | src/api/v1/auth.rs:109 | roles of equal level keep their relative order |
| Resolver.RoleLevel | src/api/v1/auth.rs:111 | `role_level` is 999 for no roles, otherwise the level of a role in the list, and on a level-sorted list no role has a lower level |
| Resolver.RoleLevelIsStrongest | src/api/v1/auth.rs:111 | the token's level is 999 for no roles, otherwise a role's level and ≤ every role's level |
| Resolver.RoleIdsOf | src/api/v1/auth.rs:107 | the token's role ids are exactly the role ids of the grants |
| Resolver.OrgIdsOf | src/api/v1/auth.rs:103 | the token's org ids are exactly the org ids of the memberships |
| Resolver.TenantRoles | src/api/v1/auth.rs:106-109 | the login roles are level-sorted and are exactly the roles of the tenant that the user has been granted |
| Resolver.TenantOrgs | src/api/v1/auth.rs:102-104 | the login orgs are exactly the tenant's orgs that the user belongs to |
| Resolver.EffectiveLevel | src/api/v1/auth.rs:106-111 | the token's level is 999 when the user holds no role in the tenant, otherwise the smallest level among the roles they hold there |
| Resolver.TokenRoleIdsCoverTenantRoles | src/api/v1/auth.rs:107-117 | every returned tenant role's id is in the token, which may also hold role ids of other tenants |
| Resolver.AtLevelInsert | src/api/v1/auth.rs:109 | inserting a role keeps the order of the roles of each level |
| LoginScenario.LevelsFiveTwoEight | src/api/v1/auth.rs:109-111 | roles of levels 5, 2, 8 sort to 2, 5, 8 and give the token level 2 |
| LoginScenario.BobGrantedRoleIds | src/api/v1/auth.rs:106-107 | a user granted one role in each of two tenants gets both ids in the token |
| LoginScenario.BobFetchInD1 | src/api/v1/auth.rs:108 | fetching that user's two role ids restricted to the first tenant returns only that tenant's role |
| LoginScenario.BobHoldsOnlyMemberInD1 | src/api/v1/auth.rs:108-111 | logging that user in to the first tenant returns only that tenant's role and its level |
| AuthApi.RegisterChecks | src/api/v1/auth.rs:20-45 | register's checks fail in order: validation, existing username, missing `from`, unknown tenant, tenant without default role, missing role row; each failure happens exactly in its case, and passing them all gives the tenant with its default role's row |
| AuthApi.UsernameTaken | src/api/v1/auth.rs:21 | `body.exists()` holds exactly when some account has the username |
| AuthApi.Register | src/api/v1/auth.rs:16-64 | a failed check or a duplicate id writes nothing; success appends the user and one grant of the default role, and returns the token claims, the user, the tenant, that one role and no orgs |
| AuthApi.Authenticate | src/api/v1/auth.rs:70-81 | login's checks fail in order: validation, unknown user, wrong password, disabled account, each exactly in its case; a valid body naming an account whose password matches and whose flag is 1 succeeds with the smallest-id account of that username |
| AuthApi.Login | src/api/v1/auth.rs:66-124 | a failed credential check writes nothing; otherwise the login is recorded; an admin gets `is_admin`, level 999 and no tenant data; anyone else needs an existing `from` tenant and gets its orgs, its sorted granted roles, their strongest level and all granted role ids |
| Jwt.GenerateToken | src/api/v1/auth.rs:52-60 | the token carries exactly the claims it is minted from |
| AuthScenario.AliceMayRegister | src/api/v1/auth.rs:20-45 | with no accounts yet, registering from a tenant whose default role exists passes every check and names that tenant and role |
| AuthScenario.AliceWrongPasswordIsRefused | src/api/v1/auth.rs:70-78 | an existing, active account logging in with a wrong password is refused with the wrong-password error |
| AuthScenario.NoSystemRoleWrongPassword | src/api/v1/auth.rs:76-90 | an account without a system role that types a wrong password gets the wrong-password error, before the system role is ever read |
| AuthScenario.AliceRegistersThenGuessesWrong | src/api/v1/auth.rs:16-81 | registering into a tenant whose default role has level 10 yields claims with that role's id and level, one role and no orgs; a later login with a wrong password is refused with the wrong-password error |
| OrgDto.CheckLength | src/repository/dto/org.rs:10 | a length rule passes exactly when the length lies between its bounds |
| OrgDto.ValidateNewOrg | src/repository/dto/org.rs:10 | a new org is valid exactly when its name has 1 to 100 characters |
| OrgDto.ValidateUpdateOrg | src/repository/dto/org.rs:44-48 | an org update is valid exactly when its name has 1 to 100 and its value 1 to 200 characters |
| OrgDto.Create | src/repository/dto/org.rs:23-39 | succeeds exactly when the id is fresh; the new row has the body's fields, `is_deleted = Some(0)`, no updater, `created_at` and `updated_at` from the two separate clock reads, and can be found by its id |
| OrgDto.Save | src/repository/dto/org.rs:53-61 | an unknown id fails with row-not-found; otherwise only name and description change, only in that org, and the saved org is what a lookup returns |
| DomainApi.All | src/api/v1/domain.rs:18-24 | the listing succeeds exactly for an admin and is then the whole table |
| DomainApi.One | src/api/v1/domain.rs:26-29 | any caller gets the tenant with that id, or row-not-found exactly when there is none |
| DomainApi.Create | src/api/v1/domain.rs:31-38 | a non-admin is refused before validation and nothing is written; otherwise a valid body with a fresh id appends a tenant created by the caller and stamped `now` |
| DomainApi.Update | src/api/v1/domain.rs:40-51 | a non-admin is refused before validation; an unknown id fails; an admin's valid update of an existing tenant succeeds, and only that tenant's name and description change |

## Left out

- HTTP plumbing is not modelled: axum routing, JSON extraction, the `reply!`/`reject!` bodies and the messages they carry. The `from` query parameter is an `Option<string>` argument, and each rejection is an `Error` constructor.
- The `Restrict` authorization layer in front of the domain routes is not modelled (its code is not part of this model). The handlers receive the caller's `Auth` directly.
- Token signing and expiry are not modelled: `GenerateToken` wraps the claims unchanged. The JWT secret and encoding are not part of this model.
- Password hashing is not modelled. `is_password_matched` is the parameter `passwordMatches`.
- The validation rules of `NewUser`, `LoginUser`, `NewDomain` and `UpdateDomain` are not part of this model. Each validator's verdict is the parameter `bodyValid`. The org DTO rules are modelled in full.
- The user DTO's `create` is not part of this model. The row it inserts is the parameter `row`, with its fresh id, hashed password and defaults.
- The user DTO's `login` is assumed to stamp `last_logined_at` on the user's row and return the converted row.
- `NewDomain`/`UpdateDomain` field lists and their `create`/`save` are not part of this model. They are assumed to follow the org DTOs: create stamps the creator and `is_deleted = Some(0)`, and save renames the row.
- `Uuid::new_v4()` and the clock are parameters. Timestamps are integers, and date formatting in serde is left out.
- `OrgDto.Create` takes its two clock reads (src/repository/dto/org.rs:34-35) as two parameters, `createdAt` and `updatedAt`.
- `DomainApi.Create` and the register and login flows take a single `now` for every clock read they make. This matters for `NewDomain::create`, whose code is not part of this model: if it reads the clock twice, the model collapses those reads into one instant.
- rbatis, the connection pool and async execution are not modelled. The only database errors modelled are duplicate key on insert and row not found on lookup.
- Concurrent requests are not modelled. In particular, two registrations of the same username racing past the existence check are not covered.
- The SQL of an `IN ()` clause with an empty list is modelled as set membership, which returns no rows.
- String ids are ordered by character code. The database collation is not modelled.
- `UserRole.role_id` is declared `String` in the table struct, while the handlers use `i32` role ids. The model uses integer role ids throughout.
- `UserDao.is_actived` is declared `Option<bool>`, yet the conversion compares it with `1`. The model stores an integer flag.
- The `vo::Role`, `vo::Org` and `vo::Domain` views are not part of this model; the rows are returned as they are.
- The derived `create_one` and `update_one` of `OrgDao` (src/repository/dto/org.rs:37,59) are not part of this model, and neither are the domain writes behind `NewDomain::create` and `UpdateDomain::save` (src/api/v1/domain.rs:36,49). The model assumes:
  - an insert appends the whole row and refuses an id already in use;
  - an update overwrites every column of the rows with that id, `None` values included, so saving an org with `description: None` clears its description.
  An update that skipped null columns would keep the old description instead.
- AuthApi.Register: `UserGrantRole::save` (src/api/v1/auth.rs:47-51) is not part of this model. It is assumed to append one grant with the given `expire` and `created_at = now`, and never to fail. The source's partial outcome is not modelled: there the user is already stored at line 46 when a failing save at line 51 returns an error. `expire` is a parameter, because the source struct carries only `user_id` and `role_id` and its default expiry is not part of this model.
- `Domain::find_all()` (src/api/v1/domain.rs:22) is not part of this model. `DomainApi.All` assumes it returns every row of the tenants table in table order, soft-deleted tenants included.
- The generic `Dao` `find_one` used by `Role`, `Org`, `Domain` and `UserRole` (src/repository/dao/user_role.rs:22) is modelled as the first match in table order.
- `LoginUser::find_one` (src/api/v1/auth.rs:71) is not part of this model. It is assumed to be `UserDao::find_one` with an equality on `username`, so it returns the matching row with the smallest id.
- `NewUser::exists` (src/api/v1/auth.rs:21) is not part of this model. It is assumed to succeed exactly when some row has the body's username.
- `Org::find_by_ids` (src/api/v1/auth.rs:104) is not part of this model. It is assumed to be an `in("id", ids)` filter plus an optional `eq("domain_id", …)`, like `RoleDao::find_by_ids`.
- `UserOrg::find_by_user` (src/api/v1/auth.rs:102) is not part of this model. It is assumed to be an equality on `user_id`, like `UserRole::find_by_user`.
- `user.sys_role.clone().unwrap()` (src/api/v1/auth.rs:90) panics on an account without a system role, but only once that account has passed validation, the password check and the active check. `AuthApi.Login` requires a system role only of an account that passes those checks. Logins refused earlier are modelled for every account.
- `UserView.FromDao` requires `is_actived` to be present, where the source's `unwrap` would panic on an absent flag. The store keeps this as an invariant.
- There is no concrete end-to-end login of an ordinary user through the store. That scenario is stated on the resolver functions `AuthApi.Login` is proved against (`LoginScenario`), because instantiating the method's full postcondition on concrete tables is too costly for the verifier.
