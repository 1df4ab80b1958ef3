/** Refresh sessions and the repository over them (`AuthRefreshSessionRepository`).
    A finder hands back the position of the row it found: in the persistence
    context the entity it returns is that row, and setters on it change the row. */
module Sessions {
  import opened Common

  /** `REFRESH_TTL`, fourteen days. */
  const REFRESH_TTL_DAYS := 14
  const REFRESH_TTL_SECONDS := REFRESH_TTL_DAYS * SECONDS_PER_DAY

  datatype RefreshSession = RefreshSession(
    id: Uuid,
    user: Uuid,
    tokenHash: string,
    createdAt: Time,
    expiresAt: Time,
    revokedAt: Option<Time>)

  /** The session `login` and `refresh` create: active, created now, expiring in fourteen days. */
  function NewSession(id: Uuid, user: Uuid, tokenHash: string, now: Time): RefreshSession
  {
    RefreshSession(id, user, tokenHash, now, now + REFRESH_TTL_SECONDS, None)
  }

  /** A session can still be exchanged: not revoked and `now` strictly before its expiry. */
  predicate Usable(s: RefreshSession, now: Time)
  {
    s.revokedAt.None? && now < s.expiresAt
  }

  ghost predicate UniqueIds(rows: seq<RefreshSession>)
  {
    forall i, j | 0 <= i < j < |rows| :: rows[i].id != rows[j].id
  }

  /** At most one session per token hash, as the `Optional` finders assume. */
  ghost predicate UniqueTokenHashes(rows: seq<RefreshSession>)
  {
    forall i, j | 0 <= i < j < |rows| :: rows[i].tokenHash != rows[j].tokenHash
  }

  /** Room for one more session with this id and token hash. */
  predicate FreshSlot(rows: seq<RefreshSession>, id: Uuid, tokenHash: string)
  {
    forall i | 0 <= i < |rows| :: rows[i].id != id && rows[i].tokenHash != tokenHash
  }

  /** The only change a surviving session may undergo: an active one gets a
      revocation time. A revoked session stays exactly as it was, so `revokedAt`
      is never cleared or overwritten. */
  ghost predicate Evolves(before: seq<RefreshSession>, after: seq<RefreshSession>)
  {
    forall i, j | 0 <= i < |before| && 0 <= j < |after| && before[i].id == after[j].id ::
      || after[j] == before[i]
      || (before[i].revokedAt.None? && after[j].revokedAt.Some? && after[j] == before[i].(revokedAt := after[j].revokedAt))
  }

  /** `findByTokenHash`: the first (under `UniqueTokenHashes`, the only) row with
      token hash `h`, or empty when no row has it. */
  function FindByTokenHash(rows: seq<RefreshSession>, h: string): (r: Option<nat>)
    ensures r.Some? ==> r.value < |rows| && rows[r.value].tokenHash == h
    ensures r.Some? ==> forall j | 0 <= j < r.value :: rows[j].tokenHash != h
    ensures r.None? ==> forall j | 0 <= j < |rows| :: rows[j].tokenHash != h
  {
    if |rows| == 0 then None
    else match FindByTokenHash(rows[..|rows| - 1], h)
      case Some(i) => Some(i)
      case None => if rows[|rows| - 1].tokenHash == h then Some(|rows| - 1) else None
  }

  /** With unique hashes, the row found is the one row carrying `h`. */
  lemma FindByTokenHashUnique(rows: seq<RefreshSession>, h: string, i: nat)
    requires UniqueTokenHashes(rows)
    requires i < |rows| && rows[i].tokenHash == h
    ensures FindByTokenHash(rows, h) == Some(i)
  {
  }

  predicate ActiveOf(s: RefreshSession, user: Uuid)
  {
    s.user == user && s.revokedAt.None?
  }

  /** `findByUser_IdAndRevokedAtIsNull`: the positions, in table order, of
      exactly the sessions of `user` that are not revoked. */
  function FindByUserIdAndRevokedAtIsNull(rows: seq<RefreshSession>, user: Uuid): (r: seq<nat>)
    ensures forall k | 0 <= k < |r| :: r[k] < |rows| && ActiveOf(rows[r[k]], user)
    ensures forall i | 0 <= i < |rows| && ActiveOf(rows[i], user) :: i in r
    ensures forall k, l | 0 <= k < l < |r| :: r[k] < r[l]
  {
    if |rows| == 0 then []
    else
      var prefix := FindByUserIdAndRevokedAtIsNull(rows[..|rows| - 1], user);
      if ActiveOf(rows[|rows| - 1], user) then prefix + [|rows| - 1] else prefix
  }

  /** The table `deleteByUser_Id` leaves: exactly the sessions of other users. */
  function WithoutUser(rows: seq<RefreshSession>, user: Uuid): (r: seq<RefreshSession>)
    ensures forall s :: s in r <==> s in rows && s.user != user
    ensures UniqueIds(rows) ==> UniqueIds(r)
    ensures UniqueTokenHashes(rows) ==> UniqueTokenHashes(r)
  {
    if |rows| == 0 then []
    else
      var prefix := WithoutUser(rows[..|rows| - 1], user);
      var last := rows[|rows| - 1];
      assert forall s | s in prefix :: s in rows[..|rows| - 1];
      if last.user != user then prefix + [last] else prefix
  }

  class SessionRepository {
    /** The auth_refresh_sessions table. */
    var rows: seq<RefreshSession>

    ghost predicate Valid()
      reads this
    {
      UniqueIds(rows) && UniqueTokenHashes(rows)
    }

    constructor ()
      ensures Valid() && rows == []
    {
      rows := [];
    }

    /** `findByTokenHashWithLock`: the same answer as `findByTokenHash`; the
        pessimistic write lock only orders concurrent callers. */
    method FindByTokenHashWithLock(h: string) returns (r: Option<nat>)
      ensures r == FindByTokenHash(rows, h)
    {
      var i := 0;
      while i < |rows|
        invariant 0 <= i <= |rows|
        invariant forall j | 0 <= j < i :: rows[j].tokenHash != h
      {
        if rows[i].tokenHash == h {
          r := Some(i);
          return;
        }
        i := i + 1;
      }
      r := None;
    }

    /** `save` of a new session: the row is appended. */
    method Insert(s: RefreshSession)
      requires Valid() && FreshSlot(rows, s.id, s.tokenHash)
      modifies this
      ensures Valid() && Evolves(old(rows), rows)
      ensures rows == old(rows) + [s]
    {
      rows := rows + [s];
    }

    /** `setRevokedAt(t)` on the managed row at `i`, then `save`. */
    method SetRevokedAt(i: nat, t: Time)
      requires Valid() && i < |rows|
      modifies this
      ensures Valid()
      ensures rows == old(rows)[i := old(rows)[i].(revokedAt := Some(t))]
    {
      rows := rows[i := rows[i].(revokedAt := Some(t))];
    }

    /** `deleteByUser_Id`: removes exactly the sessions of `user`. */
    method DeleteByUserId(user: Uuid)
      requires Valid()
      modifies this
      ensures Valid()
      ensures rows == WithoutUser(old(rows), user)
    {
      rows := WithoutUser(rows, user);
    }
  }
}
