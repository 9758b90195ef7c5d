/** Creating and renaming orgs, with the bodies' length rules (src/repository/dto/org.rs). */
module OrgDto {
  import opened Wrappers
  import opened OrgTable
  import opened AccountStore

  /** The create body; `domain_id` and `created_by` are filled in by the caller, not deserialized. */
  datatype NewOrg = NewOrg(name: string, description: Option<string>, domain_id: string, created_by: Option<string>)

  /** The update body; `value` is validated but has no column to go to. */
  datatype UpdateOrg = UpdateOrg(name: string, description: Option<string>, value: string, updated_by: Option<string>)

  /** `#[validate(length(min, max))]` on one string field. */
  function CheckLength(s: string, min: nat, max: nat): (r: Outcome)
    ensures r.Pass? <==> min <= |s| <= max
    ensures r.Fail? ==> r.error == Validation
  {
    if min <= |s| <= max then Pass else Fail(Validation)
  }

  /** A `NewOrg` passes validation exactly when its name has 1 to 100 characters. */
  function ValidateNewOrg(body: NewOrg): (r: Outcome)
    ensures r.Pass? <==> 1 <= |body.name| <= 100
    ensures r.Fail? ==> r.error == Validation
  {
    CheckLength(body.name, 1, 100)
  }

  /** An `UpdateOrg` needs a name of 1 to 100 and a value of 1 to 200 characters. */
  function ValidateUpdateOrg(body: UpdateOrg): (r: Outcome)
    ensures r.Pass? <==> 1 <= |body.name| <= 100 && 1 <= |body.value| <= 200
    ensures r.Fail? ==> r.error == Validation
  {
    if CheckLength(body.name, 1, 100).Fail? then Fail(Validation) else CheckLength(body.value, 1, 200)
  }

  /**
   * `NewOrg::create`: inserts one row under the fresh id `id` (the Uuid), not
   * deleted, never updated, stamped with the two clock reads `createdAt` and
   * `updatedAt`, and returns that row. An id
   * already in use is refused by the store and nothing is written.
   */
  method Create(db: Store, body: NewOrg, id: string, createdAt: int, updatedAt: int) returns (r: Result<OrgDao>)
    requires db.Valid()
    modifies db
    ensures db.Valid()
    ensures db.users == old(db.users) && db.domains == old(db.domains) && db.roles == old(db.roles)
    ensures db.memberships == old(db.memberships) && db.grants == old(db.grants)
    ensures r.Ok? <==> forall o :: o in old(db.orgs) ==> o.id != id
    ensures r.Err? ==> r.error == Db(DuplicateKey) && db.orgs == old(db.orgs)
    ensures r.Ok? ==>
      && db.orgs == old(db.orgs) + [r.value]
      && r.value.id == id && r.value.name == body.name && r.value.description == body.description
      && r.value.domain_id == body.domain_id && r.value.created_by == body.created_by
      && r.value.is_deleted == Some(0) && r.value.updated_by == None
      && r.value.created_at == createdAt && r.value.updated_at == updatedAt
    ensures r.Ok? ==> FindById(db.orgs, id) == r
  {
    var row := OrgDao(id, body.name, body.description, body.domain_id, Some(0), body.created_by, None, createdAt, updatedAt);
    var inserted := db.CreateOrg(row);
    if inserted.Fail? {
      return Err(inserted.error);
    }
    FindByIdIsTheRow(db.orgs, row);
    r := Ok(row);
  }

  /**
   * `UpdateOrg::save`: loads the org with id `id`, replaces its name and
   * description and writes it back. `value` and `updated_by` are not
   * applied; every other column and every other org stay as they were.
   */
  method Save(db: Store, body: UpdateOrg, id: string) returns (r: Result<OrgDao>)
    requires db.Valid()
    modifies db
    ensures db.Valid()
    ensures db.users == old(db.users) && db.domains == old(db.domains) && db.roles == old(db.roles)
    ensures db.memberships == old(db.memberships) && db.grants == old(db.grants)
    ensures FindById(old(db.orgs), id).Err? ==> r == Err(Db(RowNotFound)) && db.orgs == old(db.orgs)
    ensures FindById(old(db.orgs), id).Ok? ==>
      var before := FindById(old(db.orgs), id).value;
      && r == Ok(before.(name := body.name, description := body.description))
      && |db.orgs| == |old(db.orgs)|
      && forall i :: 0 <= i < |db.orgs| ==> db.orgs[i] == if old(db.orgs)[i].id == id then r.value else old(db.orgs)[i]
    ensures r.Ok? ==> FindById(db.orgs, id) == r
  {
    var found := FindById(db.orgs, id);
    if found.Err? {
      return Err(found.error);
    }
    var dao := found.value;
    dao := dao.(name := body.name);
    dao := dao.(description := body.description);
    db.UpdateOrg(dao);
    ghost var i :| 0 <= i < |db.orgs| && old(db.orgs)[i] == found.value;
    assert db.orgs[i] == dao;
    FindByIdIsTheRow(db.orgs, dao);
    r := Ok(dao);
  }
}
