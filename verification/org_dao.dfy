/**
 * The `orgs` table and the user-org membership table, with the fetches the
 * login flow makes on them (`Org::find_by_ids`, `UserOrg::find_by_user`).
 */
module OrgTable {
  import opened Wrappers
  import opened Query

  /** A row of `orgs`; the org belongs to tenant `domain_id`. */
  datatype OrgDao = OrgDao(
    id: string,
    name: string,
    description: Option<string>,
    domain_id: string,
    is_deleted: Option<int>,
    created_by: Option<string>,
    updated_by: Option<string>,
    created_at: int,
    updated_at: int)

  /** A membership of user `user_id` in org `org_id`. */
  datatype UserOrg = UserOrg(user_id: string, org_id: string)

  /** No two rows share an id (the primary key). */
  predicate UniqueIds(orgs: seq<OrgDao>)
  {
    forall i, j :: 0 <= i < j < |orgs| ==> orgs[i].id != orgs[j].id
  }

  /** The fetch by `eq("id", id)`: the first row with that id, or RowNotFound. */
  function FindById(orgs: seq<OrgDao>, id: string): (r: Result<OrgDao>)
    ensures r.Ok? ==> r.value in orgs && r.value.id == id
    ensures r.Ok? ==> exists i :: 0 <= i < |orgs| && orgs[i] == r.value && forall j :: 0 <= j < i ==> orgs[j].id != id
    ensures r.Err? <==> forall o :: o in orgs ==> o.id != id
    ensures r.Err? ==> r.error == Db(RowNotFound)
  {
    if orgs == [] then Err(Db(RowNotFound))
    else if orgs[0].id == id then Ok(orgs[0])
    else
      var rest := FindById(orgs[1..], id);
      assert forall o :: o in orgs <==> o == orgs[0] || o in orgs[1..];
      if rest.Ok? then
        var i :| 0 <= i < |orgs[1..]| && orgs[1..][i] == rest.value && forall j :: 0 <= j < i ==> orgs[1..][j].id != id;
        assert orgs[i + 1] == rest.value;
        rest
      else rest
  }

  /** With unique ids the lookup answers with the one row carrying that id. */
  lemma FindByIdIsTheRow(orgs: seq<OrgDao>, o: OrgDao)
    requires UniqueIds(orgs) && o in orgs
    ensures FindById(orgs, o.id) == Ok(o)
  {
    var r := FindById(orgs, o.id);
    var i :| 0 <= i < |orgs| && orgs[i] == o;
    var j :| 0 <= j < |orgs| && orgs[j] == r.value;
    assert i == j;
  }

  /** `Org::find_by_ids`: the rows whose id is listed and, when a tenant is given, that belong to it. */
  function FindByIds(orgs: seq<OrgDao>, ids: seq<string>, domainId: Option<string>): (r: seq<OrgDao>)
    ensures forall o :: o in r <==>
      o in orgs && o.id in ids && (domainId.Some? ==> o.domain_id == domainId.value)
  {
    Filter(orgs, (o: OrgDao) => o.id in ids && (domainId.None? || o.domain_id == domainId.value))
  }

  /** `UserOrg::find_by_user`: exactly the memberships of `userId`, in table order. */
  function MembershipsOf(memberships: seq<UserOrg>, userId: string): (r: seq<UserOrg>)
    ensures forall m :: m in r <==> m in memberships && m.user_id == userId
  {
    Filter(memberships, (m: UserOrg) => m.user_id == userId)
  }
}
