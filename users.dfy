/** The `users` table, shared by the auth, user and recipe services (the two
    `User` entities of the source map the same table), and the media table
    that account deletion clears. */
module Users {
  import opened Common

  /** The roles the services assign; registration only ever uses USER. */
  datatype Role = USER

  datatype User = User(id: Uuid, email: string, passwordHash: string, displayName: string, role: Role)

  /** Some stored user has address `email`: `findByEmail(email).isPresent()`. */
  predicate EmailTaken(rows: map<Uuid, User>, email: string)
  {
    exists id | id in rows :: rows[id].email == email
  }

  class UserRepository {
    /** The users table, keyed by id. */
    var rows: map<Uuid, User>
    /** The media_assets table: each asset's owner. */
    var mediaOwners: map<Uuid, Uuid>

    /** Every row sits under its own id, and the unique constraint on `email` holds. */
    ghost predicate Valid()
      reads this
    {
      && (forall id | id in rows :: rows[id].id == id)
      && (forall a, b | a in rows && b in rows && rows[a].email == rows[b].email :: a == b)
    }

    constructor ()
      ensures Valid() && rows == map[] && mediaOwners == map[]
    {
      rows := map[];
      mediaOwners := map[];
    }

    /** `findByEmail`: the user stored under `email`, or empty when there is none. */
    method FindByEmail(email: string) returns (r: Option<User>)
      requires Valid()
      ensures r.Some? <==> EmailTaken(rows, email)
      ensures r.Some? ==> r.value.id in rows && rows[r.value.id] == r.value && r.value.email == email
    {
      if exists id | id in rows :: rows[id].email == email {
        var id :| id in rows && rows[id].email == email;
        r := Some(rows[id]);
      } else {
        r := None;
      }
    }

    /** `save`: inserts the user or replaces the row with its id. The caller keeps
        addresses unique. */
    method Save(u: User)
      requires Valid()
      requires forall id | id in rows && id != u.id :: rows[id].email != u.email
      modifies this
      ensures Valid()
      ensures rows == old(rows)[u.id := u] && mediaOwners == old(mediaOwners)
    {
      rows := rows[u.id := u];
    }

    /** `delete(user)`: removes exactly that row. */
    method Delete(id: Uuid)
      requires Valid()
      modifies this
      ensures Valid()
      ensures rows == old(rows) - {id} && mediaOwners == old(mediaOwners)
    {
      rows := rows - {id};
    }

    /** `deleteMediaAssetsByOwnerId`: removes exactly the assets owned by `owner`. */
    method DeleteMediaAssetsByOwnerId(owner: Uuid)
      requires Valid()
      modifies this
      ensures Valid() && rows == old(rows)
      ensures forall m :: m in mediaOwners <==> m in old(mediaOwners) && old(mediaOwners)[m] != owner
      ensures forall m | m in mediaOwners :: mediaOwners[m] == old(mediaOwners)[m]
    {
      mediaOwners := map m | m in mediaOwners && mediaOwners[m] != owner :: mediaOwners[m];
    }
  }
}
