/** `EquipmentService` and its repository: add, delete and partial update of equipment. */
module EquipmentCatalog {
  import opened Common
  import opened JavaText
  import opened CatalogRules

  datatype Equipment = Equipment(id: Uuid, name: string, description: Option<string>)

  class EquipmentRepository {
    /** The equipment table, keyed by id. */
    var rows: map<Uuid, Equipment>

    ghost predicate Valid()
      reads this
    {
      forall id | id in rows :: rows[id].id == id
    }

    constructor ()
      ensures Valid() && rows == map[]
    {
      rows := map[];
    }

    /** `save`: inserts the row or replaces the row with its id. */
    method Save(e: Equipment)
      requires Valid()
      modifies this
      ensures Valid() && rows == old(rows)[e.id := e]
    {
      rows := rows[e.id := e];
    }

    /** `deleteById` */
    method DeleteById(id: Uuid)
      requires Valid()
      modifies this
      ensures Valid() && rows == old(rows) - {id}
    {
      rows := rows - {id};
    }
  }

  class EquipmentService {
    const repo: EquipmentRepository

    constructor (repo: EquipmentRepository)
      ensures this.repo == repo
    {
      this.repo := repo;
    }

    /** `add`: 400 and nothing saved without a non-blank name; otherwise the
        body is stored as given under a newly generated id. */
    method Add(body: NamedBody, newId: Uuid) returns (r: Result<Equipment>)
      requires repo.Valid() && newId !in repo.rows
      modifies repo
      ensures repo.Valid()
      ensures r.Ok? <==> AcceptableNew(body)
      ensures !r.Ok? ==> r == Err(BadRequest) && repo.rows == old(repo.rows)
      ensures r.Ok? ==>
                && r.value == Equipment(newId, body.name.value, body.description)
                && repo.rows == old(repo.rows)[newId := r.value]
    {
      if body.name.None? || IsBlank(body.name.value) {
        return Err(BadRequest);
      }
      var e := Equipment(newId, body.name.value, body.description);
      repo.Save(e);
      r := Ok(e);
    }

    /** `delete`: 404 and nothing deleted for an unknown id; otherwise exactly
        that row is removed. */
    method Delete(id: Uuid) returns (r: Result<()>)
      requires repo.Valid()
      modifies repo
      ensures repo.Valid()
      ensures r.Ok? <==> id in old(repo.rows)
      ensures !r.Ok? ==> r == Err(NotFound) && repo.rows == old(repo.rows)
      ensures r.Ok? ==> repo.rows == old(repo.rows) - {id}
    {
      if id !in repo.rows {
        return Err(NotFound);
      }
      repo.DeleteById(id);
      r := Ok(());
    }

    /** `update`: 404 for an unknown id whatever the body holds, then 400 for
        an empty body or a provided blank field; otherwise the provided fields
        replace the stored ones and the omitted ones keep their values. */
    method Update(id: Uuid, body: NamedBody) returns (r: Result<Equipment>)
      requires repo.Valid()
      modifies repo
      ensures repo.Valid()
      ensures id !in old(repo.rows) ==> r == Err(NotFound)
      ensures id in old(repo.rows) && !AcceptablePatch(body) ==> r == Err(BadRequest)
      ensures r.Ok? <==> id in old(repo.rows) && AcceptablePatch(body)
      ensures !r.Ok? ==> repo.rows == old(repo.rows)
      ensures r.Ok? ==>
                var before := old(repo.rows)[id];
                && r.value == Equipment(id, Patched(body.name, before.name), PatchedNullable(body.description, before.description))
                && repo.rows == old(repo.rows)[id := r.value]
    {
      if id !in repo.rows {
        return Err(NotFound);
      }
      var existing := repo.rows[id];
      if body.name.None? && body.description.None? {
        return Err(BadRequest);
      }
      if body.name.Some? {
        if IsBlank(body.name.value) {
          return Err(BadRequest);
        }
        existing := existing.(name := body.name.value);
      }
      if body.description.Some? {
        if IsBlank(body.description.value) {
          return Err(BadRequest);
        }
        existing := existing.(description := body.description);
      }
      repo.Save(existing);
      r := Ok(existing);
    }
  }
}
