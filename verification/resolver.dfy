/**
 * The tenant resolution of the login flow (src/api/v1/auth.rs): which orgs
 * and roles of a user apply in one tenant, their order, and the effective
 * privilege level.
 */
module Resolver {
  import opened Wrappers
  import opened RoleDaoTable
  import opened GrantTable
  import OrgTable

  /** The level of a context with no role at all: the least privilege. */
  const NoRoleLevel := 999

  predicate SortedByLevel(s: seq<RoleDao>)
  {
    forall i, j :: 0 <= i < j < |s| ==> s[i].level <= s[j].level
  }

  /** Puts `x` before the first role whose level is not below its own. */
  function InsertByLevel(x: RoleDao, s: seq<RoleDao>): (r: seq<RoleDao>)
    ensures multiset(r) == multiset(s) + multiset{x}
    ensures |r| == |s| + 1
    ensures SortedByLevel(s) ==> SortedByLevel(r)
    ensures r[0] == x || (s != [] && r[0] == s[0])
  {
    if s == [] || x.level <= s[0].level then
      [x] + s
    else
      var rest := InsertByLevel(x, s[1..]);
      InsertStep(x, s, rest);
      [s[0]] + rest
  }

  /** The recursive case of `InsertByLevel`: `x` goes after the head `s[0]`, into `rest`. */
  lemma InsertStep(x: RoleDao, s: seq<RoleDao>, rest: seq<RoleDao>)
    requires s != [] && s[0].level < x.level
    requires multiset(rest) == multiset(s[1..]) + multiset{x}
    requires SortedByLevel(s[1..]) ==> SortedByLevel(rest)
    requires rest != [] && (rest[0] == x || (|s| > 1 && rest[0] == s[1]))
    ensures multiset([s[0]] + rest) == multiset(s) + multiset{x}
    ensures SortedByLevel(s) ==> SortedByLevel([s[0]] + rest)
  {
    assert s == [s[0]] + s[1..];
    if SortedByLevel(s) {
      assert SortedByLevel(s[1..]);
      SortedCons(s[0], rest);
    }
  }

  /** A role no stronger than the head of a sorted list can go in front of it. */
  lemma SortedCons(y: RoleDao, s: seq<RoleDao>)
    requires SortedByLevel(s) && (s != [] ==> y.level <= s[0].level)
    ensures SortedByLevel([y] + s)
  {
    var r := [y] + s;
    forall i, j | 0 <= i < j < |r| ensures r[i].level <= r[j].level {
      if i > 0 {
        assert r[i] == s[i - 1] && r[j] == s[j - 1];
      } else {
        assert s[0].level <= s[j - 1].level;
      }
    }
  }

  /**
   * `roles.sort_by(|a, b| a.level.cmp(&b.level))`: ascending by level; the
   * library sort is stable, which `SortByLevelIsStable` states.
   */
  function SortByLevel(s: seq<RoleDao>): (r: seq<RoleDao>)
    ensures SortedByLevel(r)
    ensures multiset(r) == multiset(s)
    ensures |r| == |s|
  {
    if s == [] then []
    else
      assert s == [s[0]] + s[1..];
      InsertByLevel(s[0], SortByLevel(s[1..]))
  }

  /** The roles of one level, in order. */
  function AtLevel(s: seq<RoleDao>, level: int): seq<RoleDao>
  {
    if s == [] then []
    else (if s[0].level == level then [s[0]] else []) + AtLevel(s[1..], level)
  }

  lemma AtLevelCons(y: RoleDao, s: seq<RoleDao>, level: int)
    ensures AtLevel([y] + s, level) == (if y.level == level then [y] else []) + AtLevel(s, level)
  {
    assert ([y] + s)[0] == y;
    assert ([y] + s)[1..] == s;
  }

  lemma {:induction false} AtLevelInsert(x: RoleDao, s: seq<RoleDao>, level: int)
    ensures AtLevel(InsertByLevel(x, s), level) ==
      if x.level == level then [x] + AtLevel(s, level) else AtLevel(s, level)
  {
    if s == [] || x.level <= s[0].level {
      AtLevelCons(x, s, level);
    } else {
      var rest := InsertByLevel(x, s[1..]);
      AtLevelInsert(x, s[1..], level);
      AtLevelCons(s[0], rest, level);
      AtLevelCons(s[0], s[1..], level);
      assert s == [s[0]] + s[1..];
    }
  }

  /** Stability: roles of equal level keep the order the fetch returned them in. */
  lemma {:induction false} SortByLevelIsStable(s: seq<RoleDao>, level: int)
    ensures AtLevel(SortByLevel(s), level) == AtLevel(s, level)
  {
    if s != [] {
      SortByLevelIsStable(s[1..], level);
      AtLevelInsert(s[0], SortByLevel(s[1..]), level);
    }
  }

  /** `role_level`: the first role's level, or 999 when there is none. */
  function RoleLevel(roles: seq<RoleDao>): (level: int)
    ensures roles == [] ==> level == NoRoleLevel
    ensures roles != [] ==> exists x :: x in roles && x.level == level
    ensures SortedByLevel(roles) ==> forall x :: x in roles ==> level <= x.level
  {
    if |roles| > 0 then
      assert roles[0] in roles;
      assert SortedByLevel(roles) ==> forall x :: x in roles ==> roles[0].level <= x.level by {
        if SortedByLevel(roles) {
          HeadIsLowest(roles);
        }
      }
      roles[0].level
    else NoRoleLevel
  }

  /** After the sort, `role_level` is the strongest (lowest) level held, or 999 for no role. */
  lemma RoleLevelIsStrongest(roles: seq<RoleDao>)
    ensures roles == [] ==> RoleLevel(SortByLevel(roles)) == NoRoleLevel
    ensures roles != [] ==> exists x :: x in roles && x.level == RoleLevel(SortByLevel(roles))
    ensures forall x :: x in roles ==> RoleLevel(SortByLevel(roles)) <= x.level
  {
    var sorted := SortByLevel(roles);
    if roles != [] {
      assert sorted[0] in multiset(sorted);
      assert sorted[0] in roles;
      forall x | x in roles ensures sorted[0].level <= x.level {
        assert x in multiset(sorted);
        var j :| 0 <= j < |sorted| && sorted[j] == x;
      }
    }
  }

  /** The head of a level-sorted list has the lowest level in it. */
  lemma HeadIsLowest(r: seq<RoleDao>)
    requires SortedByLevel(r) && r != []
    ensures forall x :: x in r ==> r[0].level <= x.level
  {
    forall x | x in r ensures r[0].level <= x.level {
      var j :| 0 <= j < |r| && r[j] == x;
      if j > 0 {
        assert r[0].level <= r[j].level;
      }
    }
  }

  /** The role ids of some grants, in order (`user_roles.iter().map(|v| v.role_id)`). */
  function RoleIdsOf(grants: seq<UserRole>): (ids: seq<int>)
    ensures |ids| == |grants|
    ensures forall v :: v in ids <==> exists g :: g in grants && g.role_id == v
  {
    var ids := seq(|grants|, i requires 0 <= i < |grants| => grants[i].role_id);
    assert forall g :: g in grants ==> g.role_id in ids by {
      forall g | g in grants ensures g.role_id in ids {
        var i :| 0 <= i < |grants| && grants[i] == g;
        assert ids[i] == g.role_id;
      }
    }
    ids
  }

  /** The org ids of some memberships, in order (`user_orgs.iter().map(|v| v.org_id)`). */
  function OrgIdsOf(memberships: seq<OrgTable.UserOrg>): (ids: seq<string>)
    ensures |ids| == |memberships|
    ensures forall v :: v in ids <==> exists m :: m in memberships && m.org_id == v
  {
    var ids := seq(|memberships|, i requires 0 <= i < |memberships| => memberships[i].org_id);
    assert forall m :: m in memberships ==> m.org_id in ids by {
      forall m | m in memberships ensures m.org_id in ids {
        var i :| 0 <= i < |memberships| && memberships[i] == m;
        assert ids[i] == m.org_id;
      }
    }
    ids
  }

  /** Holds when the user has a grant of `role`. */
  ghost predicate Granted(grants: seq<UserRole>, userId: string, role: RoleDao)
  {
    role.id.Some? && exists g :: g in grants && g.user_id == userId && g.role_id == role.id.value
  }

  /**
   * The roles a login into `domainId` returns: the user's granted roles that
   * belong to the tenant, ascending by level.
   */
  function TenantRoles(grants: seq<UserRole>, roles: seq<RoleDao>, userId: string, domainId: string): (r: seq<RoleDao>)
    ensures SortedByLevel(r)
    ensures forall x :: x in r <==> x in roles && x.domain_id == domainId && Granted(grants, userId, x)
  {
    var found := RoleDaoTable.FindByIds(roles, RoleIdsOf(FindByUser(grants, userId)), Some(domainId));
    var sorted := SortByLevel(found);
    assert forall x :: x in sorted <==> x in found by {
      forall x ensures x in sorted <==> x in found {
        assert x in sorted <==> x in multiset(sorted);
        assert x in found <==> x in multiset(found);
      }
    }
    sorted
  }

  /** The orgs a login into `domainId` returns: the user's orgs that belong to the tenant. */
  function TenantOrgs(memberships: seq<OrgTable.UserOrg>, orgs: seq<OrgTable.OrgDao>, userId: string, domainId: string): (r: seq<OrgTable.OrgDao>)
    ensures forall o :: o in r <==>
      o in orgs && o.domain_id == domainId && exists m :: m in memberships && m.user_id == userId && m.org_id == o.id
  {
    OrgTable.FindByIds(orgs, OrgIdsOf(OrgTable.MembershipsOf(memberships, userId)), Some(domainId))
  }

  /**
   * The effective level of a login into `domainId`: 999 when the user holds no
   * role of the tenant, otherwise the lowest level among those roles.
   */
  lemma EffectiveLevel(grants: seq<UserRole>, roles: seq<RoleDao>, userId: string, domainId: string)
    ensures var level := RoleLevel(TenantRoles(grants, roles, userId, domainId));
      && ((forall x :: x in roles && x.domain_id == domainId ==> !Granted(grants, userId, x)) ==> level == NoRoleLevel)
      && (forall x :: x in roles && x.domain_id == domainId && Granted(grants, userId, x) ==> level <= x.level)
      && ((exists x :: x in roles && x.domain_id == domainId && Granted(grants, userId, x)) ==>
            exists x :: x in roles && x.domain_id == domainId && Granted(grants, userId, x) && x.level == level)
  {
    var r := TenantRoles(grants, roles, userId, domainId);
    if r != [] {
      assert r[0] in r;
      HeadIsLowest(r);
    }
  }

  /**
   * The token's role ids are all of the user's grants, not only the tenant's:
   * every returned role's id is among them.
   */
  lemma TokenRoleIdsCoverTenantRoles(grants: seq<UserRole>, roles: seq<RoleDao>, userId: string, domainId: string)
    ensures forall x :: x in TenantRoles(grants, roles, userId, domainId) ==>
      x.id.Some? && x.id.value in RoleIdsOf(FindByUser(grants, userId))
  {
  }
}
