/** The `domains` (tenants) table and its point lookup (`Domain::find_one`). */
module DomainTable {
  import opened Wrappers

  /** A tenant; new registrants are granted `default_role_id`. */
  datatype Domain = Domain(
    id: string,
    name: string,
    description: Option<string>,
    default_role_id: Option<int>,
    is_deleted: Option<int>,
    created_by: Option<string>,
    updated_by: Option<string>,
    created_at: int,
    updated_at: int)

  /** No two rows share an id (the primary key). */
  predicate UniqueIds(domains: seq<Domain>)
  {
    forall i, j :: 0 <= i < j < |domains| ==> domains[i].id != domains[j].id
  }

  /** `Domain::find_one(id)`: the first domain with that id, or RowNotFound. */
  function FindById(domains: seq<Domain>, id: string): (r: Result<Domain>)
    ensures r.Ok? ==> r.value in domains && r.value.id == id
    ensures r.Err? <==> forall d :: d in domains ==> d.id != id
    ensures r.Err? ==> r.error == Db(RowNotFound)
  {
    if domains == [] then Err(Db(RowNotFound))
    else if domains[0].id == id then Ok(domains[0])
    else
      assert forall d :: d in domains <==> d == domains[0] || d in domains[1..];
      FindById(domains[1..], id)
  }

  /** With unique ids the lookup answers with the one domain carrying that id. */
  lemma FindByIdIsTheDomain(domains: seq<Domain>, d: Domain)
    requires UniqueIds(domains) && d in domains
    ensures FindById(domains, d.id) == Ok(d)
  {
    var r := FindById(domains, d.id);
    var i :| 0 <= i < |domains| && domains[i] == d;
    var j :| 0 <= j < |domains| && domains[j] == r.value;
    assert i == j;
  }
}
