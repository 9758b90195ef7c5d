/** The `roles` table and its tenant-scoped fetches (src/repository/dao/role.rs). */
module RoleDaoTable {
  import opened Wrappers
  import opened Query

  /** A row of `roles`; a lower `level` is a stronger privilege. */
  datatype RoleDao = RoleDao(
    id: Option<int>,
    name: string,
    description: Option<string>,
    value: string,
    level: int,
    domain_id: string,
    is_deleted: Option<int>,
    created_at: int,
    updated_at: int,
    created_by: Option<string>,
    updated_by: Option<string>)

  /** `in("id", ids)`: a row without an id is in no list. */
  predicate IdIn(role: RoleDao, ids: seq<int>)
  {
    role.id.Some? && role.id.value in ids
  }

  /** The optional `eq("domain_id", d)` clause: no tenant means no restriction. */
  predicate InTenant(role: RoleDao, domainId: Option<string>)
  {
    domainId.None? || role.domain_id == domainId.value
  }

  /**
   * `RoleDao::find_by_ids`: the rows whose id is in `ids` and, when a tenant
   * is given, that belong to it. `is_deleted` is not consulted.
   */
  function FindByIds(roles: seq<RoleDao>, ids: seq<int>, domainId: Option<string>): (r: seq<RoleDao>)
    ensures forall x :: x in r <==>
      x in roles && x.id.Some? && x.id.value in ids && (domainId.Some? ==> x.domain_id == domainId.value)
    ensures forall x :: multiset(r)[x] <= multiset(roles)[x]
  {
    Filter(roles, (x: RoleDao) => IdIn(x, ids) && InTenant(x, domainId))
  }

  /** `RoleDao::find_all`: every row, or only the tenant's rows when one is given. */
  function FindAll(roles: seq<RoleDao>, domainId: Option<string>): (r: seq<RoleDao>)
    ensures domainId.None? ==> r == roles
    ensures domainId.Some? ==> forall x :: x in r <==> x in roles && x.domain_id == domainId.value
  {
    if domainId.None? then roles
    else Filter(roles, (x: RoleDao) => InTenant(x, domainId))
  }

  /** A soft-deleted role is still returned by both fetches. */
  lemma SoftDeletedRolesAreReturned(roles: seq<RoleDao>, ids: seq<int>, domainId: Option<string>, role: RoleDao)
    requires role in roles && role.is_deleted == Some(1)
    requires IdIn(role, ids) && InTenant(role, domainId)
    ensures role in FindByIds(roles, ids, domainId)
    ensures role in FindAll(roles, domainId)
  {
  }

  /** An empty id list selects nothing, whatever the tenant. */
  lemma NoIdsNoRoles(roles: seq<RoleDao>, domainId: Option<string>)
    ensures FindByIds(roles, [], domainId) == []
  {
  }

  /** `Role::find_one(id)`: the first row with that id, or RowNotFound. */
  function FindById(roles: seq<RoleDao>, id: int): (r: Result<RoleDao>)
    ensures r.Ok? ==> r.value in roles && r.value.id == Some(id)
    ensures r.Err? <==> forall x :: x in roles ==> x.id != Some(id)
    ensures r.Err? ==> r.error == Db(RowNotFound)
  {
    if roles == [] then Err(Db(RowNotFound))
    else if roles[0].id == Some(id) then Ok(roles[0])
    else
      assert forall x :: x in roles <==> x == roles[0] || x in roles[1..];
      FindById(roles[1..], id)
  }
}
