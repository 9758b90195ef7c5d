/**
 * The account store: the six tables the core reads and writes, held as
 * sequences of rows, and the store writes (`create_one`, `update_one`) the
 * handlers perform.
 */
module AccountStore {
  import opened Wrappers
  import opened UserDaoTable
  import DomainTable
  import opened RoleDaoTable
  import OrgTable
  import opened GrantTable

  class Store {
    var users: seq<UserDao>
    var domains: seq<DomainTable.Domain>
    var roles: seq<RoleDao>
    var orgs: seq<OrgTable.OrgDao>
    var memberships: seq<OrgTable.UserOrg>
    var grants: seq<UserRole>

    /** Primary keys are unique, and every user row has its active flag set. */
    ghost predicate Valid()
      reads this
    {
      && UserDaoTable.UniqueIds(users)
      && (forall u :: u in users ==> u.is_actived.Some?)
      && DomainTable.UniqueIds(domains)
      && OrgTable.UniqueIds(orgs)
    }

    constructor ()
      ensures Valid()
      ensures users == [] && domains == [] && roles == [] && orgs == [] && memberships == [] && grants == []
    {
      users, domains, roles := [], [], [];
      orgs, memberships, grants := [], [], [];
    }

    /** Inserts a user row; an id already in use is refused and nothing is written. */
    method CreateUser(row: UserDao) returns (r: Outcome)
      requires Valid() && row.is_actived.Some?
      modifies this
      ensures Valid()
      ensures r.Pass? <==> forall u :: u in old(users) ==> u.id != row.id
      ensures r.Pass? ==> users == old(users) + [row]
      ensures r.Fail? ==> r.error == Db(DuplicateKey) && users == old(users)
      ensures domains == old(domains) && roles == old(roles) && orgs == old(orgs)
      ensures memberships == old(memberships) && grants == old(grants)
    {
      if exists u :: u in users && u.id == row.id {
        return Fail(Db(DuplicateKey));
      }
      users := users + [row];
      r := Pass;
    }

    /** Stamps the last login time of the user rows with id `id`. */
    method RecordLogin(id: string, now: int)
      requires Valid()
      modifies this
      ensures Valid()
      ensures users == WithLoginAt(old(users), id, now)
      ensures domains == old(domains) && roles == old(roles) && orgs == old(orgs)
      ensures memberships == old(memberships) && grants == old(grants)
    {
      var stamped := WithLoginAt(users, id, now);
      assert forall u :: u in stamped ==> u.is_actived.Some? by {
        forall u | u in stamped ensures u.is_actived.Some? {
          var i :| 0 <= i < |stamped| && stamped[i] == u;
          assert users[i] in users;
        }
      }
      users := stamped;
    }

    /** Inserts a grant (the grant table has no key the model checks). */
    method CreateGrant(g: UserRole)
      requires Valid()
      modifies this
      ensures Valid()
      ensures grants == old(grants) + [g]
      ensures users == old(users) && domains == old(domains) && roles == old(roles)
      ensures orgs == old(orgs) && memberships == old(memberships)
    {
      grants := grants + [g];
    }

    /** Inserts an org row; an id already in use is refused and nothing is written. */
    method CreateOrg(row: OrgTable.OrgDao) returns (r: Outcome)
      requires Valid()
      modifies this
      ensures Valid()
      ensures r.Pass? <==> forall o :: o in old(orgs) ==> o.id != row.id
      ensures r.Pass? ==> orgs == old(orgs) + [row]
      ensures r.Fail? ==> r.error == Db(DuplicateKey) && orgs == old(orgs)
      ensures users == old(users) && domains == old(domains) && roles == old(roles)
      ensures memberships == old(memberships) && grants == old(grants)
    {
      if exists o :: o in orgs && o.id == row.id {
        return Fail(Db(DuplicateKey));
      }
      orgs := orgs + [row];
      r := Pass;
    }

    /** `update_one(row, eq("id", row.id))`: every org row with that id is overwritten by `row`. */
    method UpdateOrg(row: OrgTable.OrgDao)
      requires Valid()
      modifies this
      ensures Valid()
      ensures |orgs| == |old(orgs)|
      ensures forall i :: 0 <= i < |orgs| ==> orgs[i] == if old(orgs)[i].id == row.id then row else old(orgs)[i]
      ensures users == old(users) && domains == old(domains) && roles == old(roles)
      ensures memberships == old(memberships) && grants == old(grants)
    {
      var before := orgs;
      orgs := seq(|before|, i requires 0 <= i < |before| => if before[i].id == row.id then row else before[i]);
    }

    /** Inserts a domain row; an id already in use is refused and nothing is written. */
    method CreateDomain(row: DomainTable.Domain) returns (r: Outcome)
      requires Valid()
      modifies this
      ensures Valid()
      ensures r.Pass? <==> forall d :: d in old(domains) ==> d.id != row.id
      ensures r.Pass? ==> domains == old(domains) + [row]
      ensures r.Fail? ==> r.error == Db(DuplicateKey) && domains == old(domains)
      ensures users == old(users) && roles == old(roles) && orgs == old(orgs)
      ensures memberships == old(memberships) && grants == old(grants)
    {
      if exists d :: d in domains && d.id == row.id {
        return Fail(Db(DuplicateKey));
      }
      domains := domains + [row];
      r := Pass;
    }

    /** `update_one(row, eq("id", row.id))` on the domains table. */
    method UpdateDomain(row: DomainTable.Domain)
      requires Valid()
      modifies this
      ensures Valid()
      ensures |domains| == |old(domains)|
      ensures forall i :: 0 <= i < |domains| ==> domains[i] == if old(domains)[i].id == row.id then row else old(domains)[i]
      ensures users == old(users) && roles == old(roles) && orgs == old(orgs)
      ensures memberships == old(memberships) && grants == old(grants)
    {
      var before := domains;
      domains := seq(|before|, i requires 0 <= i < |before| => if before[i].id == row.id then row else before[i]);
    }
  }
}
