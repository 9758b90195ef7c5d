/**
 * The tenant administration handlers (src/api/v1/domain.rs): listing,
 * creating and updating tenants is for administrators only, and the admin
 * check comes before validation and before any write; reading one tenant is
 * open to every caller.
 */
module DomainApi {
  import opened Wrappers
  import opened DomainTable
  import opened Jwt
  import opened AccountStore

  /** The create body. */
  datatype NewDomain = NewDomain(name: string, description: Option<string>, default_role_id: Option<int>)

  /** The update body. */
  datatype UpdateDomain = UpdateDomain(name: string, description: Option<string>)

  /** `all`: every tenant for an admin; any other caller is refused without a listing. */
  function All(auth: Auth, domains: seq<Domain>): (r: Result<seq<Domain>>)
    ensures r.Ok? <==> auth.is_admin
    ensures r.Err? ==> r.error == AdminOnly
    ensures r.Ok? ==> r.value == domains
  {
    if !auth.is_admin then Err(AdminOnly) else Ok(domains)
  }

  /** `one`: takes no caller at all, so anyone gets the tenant with id `id`, or RowNotFound. */
  function One(domains: seq<Domain>, id: string): (r: Result<Domain>)
    ensures r.Ok? ==> r.value in domains && r.value.id == id
    ensures r.Err? <==> forall d :: d in domains ==> d.id != id
    ensures r.Err? ==> r.error == Db(RowNotFound)
  {
    DomainTable.FindById(domains, id)
  }

  /**
   * `create`: the admin check, then validation (`bodyValid` is the
   * validator's verdict), then one insert recording the caller as creator.
   */
  method Create(db: Store, auth: Auth, body: NewDomain, bodyValid: bool, id: string, now: int)
    returns (r: Result<Domain>)
    requires db.Valid()
    modifies db
    ensures db.Valid()
    ensures db.users == old(db.users) && db.roles == old(db.roles) && db.orgs == old(db.orgs)
    ensures db.memberships == old(db.memberships) && db.grants == old(db.grants)
    ensures !auth.is_admin ==> r == Err(AdminOnly)
    ensures auth.is_admin && !bodyValid ==> r == Err(Validation)
    ensures auth.is_admin && bodyValid ==> (r.Ok? <==> forall d :: d in old(db.domains) ==> d.id != id)
    ensures r.Err? ==> db.domains == old(db.domains)
    ensures r.Ok? ==>
      && db.domains == old(db.domains) + [r.value]
      && r.value.id == id && r.value.name == body.name && r.value.description == body.description
      && r.value.default_role_id == body.default_role_id
      && r.value.created_by == Some(auth.id) && r.value.updated_by == None
      && r.value.is_deleted == Some(0)
      && r.value.created_at == now && r.value.updated_at == now
    ensures r.Ok? ==> FindById(db.domains, id) == r
  {
    if !auth.is_admin {
      return Err(AdminOnly);
    }
    if !bodyValid {
      return Err(Validation);
    }
    var row := Domain(id, body.name, body.description, body.default_role_id, Some(0), Some(auth.id), None, now, now);
    var inserted := db.CreateDomain(row);
    if inserted.Fail? {
      return Err(inserted.error);
    }
    FindByIdIsTheDomain(db.domains, row);
    r := Ok(row);
  }

  /**
   * `update`: the admin check, then validation, then the tenant with id `id`
   * is loaded, renamed and written back; other tenants are untouched.
   */
  method Update(db: Store, auth: Auth, id: string, body: UpdateDomain, bodyValid: bool)
    returns (r: Result<Domain>)
    requires db.Valid()
    modifies db
    ensures db.Valid()
    ensures db.users == old(db.users) && db.roles == old(db.roles) && db.orgs == old(db.orgs)
    ensures db.memberships == old(db.memberships) && db.grants == old(db.grants)
    ensures !auth.is_admin ==> r == Err(AdminOnly)
    ensures auth.is_admin && !bodyValid ==> r == Err(Validation)
    ensures auth.is_admin && bodyValid && FindById(old(db.domains), id).Err? ==> r == Err(Db(RowNotFound))
    ensures auth.is_admin && bodyValid && FindById(old(db.domains), id).Ok? ==>
      r == Ok(FindById(old(db.domains), id).value.(name := body.name, description := body.description))
    ensures r.Err? ==> db.domains == old(db.domains)
    ensures r.Ok? ==>
      var before := FindById(old(db.domains), id).value;
      && FindById(old(db.domains), id).Ok?
      && r.value == before.(name := body.name, description := body.description)
      && |db.domains| == |old(db.domains)|
      && forall i :: 0 <= i < |db.domains| ==>
           db.domains[i] == if old(db.domains)[i].id == id then r.value else old(db.domains)[i]
    ensures r.Ok? ==> FindById(db.domains, id) == r
  {
    if !auth.is_admin {
      return Err(AdminOnly);
    }
    if !bodyValid {
      return Err(Validation);
    }
    var found := FindById(db.domains, id);
    if found.Err? {
      return Err(found.error);
    }
    var row := found.value.(name := body.name, description := body.description);
    db.UpdateDomain(row);
    ghost var i :| 0 <= i < |db.domains| && old(db.domains)[i] == found.value;
    assert db.domains[i] == row;
    FindByIdIsTheDomain(db.domains, row);
    r := Ok(row);
  }
}
