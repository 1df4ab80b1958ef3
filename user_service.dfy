/** `UserService`: renaming an account, changing its password (which revokes
    every active refresh session) and deleting it together with its recipes and
    media. */
module UserAccounts {
  import opened Common
  import opened JavaText
  import opened Validation
  import opened Users
  import opened Sessions
  import opened Recipes
  import opened Auth

  /** `UpdateRequestDTO` */
  datatype UpdateRequest = UpdateRequest(displayName: Option<string>)

  /** `UpdatePasswordDTO` */
  datatype UpdatePasswordRequest = UpdatePasswordRequest(currentPassword: Option<string>, newPassword: Option<string>)

  /** A rename `updateUser` accepts for a user currently called `current`: a
      name that is not blank and differs from the current one once both are
      trimmed. */
  predicate AcceptableRename(name: Option<string>, current: string)
  {
    name.Some? && !IsBlank(name.value) && Trim(name.value) != Trim(current)
  }

  /** What `updatePassword` checks before looking the user up: a body, both
      passwords and a user id, neither password blank. */
  predicate WellFormedPasswordChange(dto: Option<UpdatePasswordRequest>, userId: Option<Uuid>)
  {
    && dto.Some? && dto.value.currentPassword.Some? && dto.value.newPassword.Some? && userId.Some?
    && !IsBlank(dto.value.currentPassword.value) && !IsBlank(dto.value.newPassword.value)
  }

  /** The checks against the stored hash: the current password is right, the new
      one is different from it and the new one meets the password policy. */
  predicate PasswordChangeAccepted(dto: UpdatePasswordRequest, storedHash: string, matches: (string, string) -> bool)
    requires dto.currentPassword.Some? && dto.newPassword.Some?
  {
    && matches(dto.currentPassword.value, storedHash)
    && !matches(dto.newPassword.value, storedHash)
    && PatternMatchesPassword(dto.newPassword.value)
  }

  /** Every refresh session belongs to an existing account. */
  ghost predicate NoOrphanSessions(users: map<Uuid, User>, sessions: seq<RefreshSession>)
  {
    forall i | 0 <= i < |sessions| :: sessions[i].user in users
  }

  class UserService {
    const users: UserRepository
    const sessions: SessionRepository
    const recipes: RecipeRepository
    /** `PasswordEncoder.encode` */
    const encode: string -> string
    /** `PasswordEncoder.matches(raw, hash)` */
    const matches: (string, string) -> bool

    ghost predicate Valid()
      reads users, sessions, recipes
    {
      users.Valid() && sessions.Valid() && recipes.Valid()
    }

    constructor (users: UserRepository, sessions: SessionRepository, recipes: RecipeRepository,
                 encode: string -> string, matches: (string, string) -> bool)
      ensures this.users == users && this.sessions == sessions && this.recipes == recipes
      ensures this.encode == encode && this.matches == matches
    {
      this.users := users;
      this.sessions := sessions;
      this.recipes := recipes;
      this.encode := encode;
      this.matches := matches;
    }

    /** `updateUser`: 400 without an id or a body; 404 for an unknown user; 400
        for a blank name or one equal to the current name after trimming;
        otherwise the trimmed name is stored and echoed back. */
    method UpdateUser(userId: Option<Uuid>, dto: Option<UpdateRequest>) returns (r: Result<UpdateRequest>)
      requires Valid()
      modifies users
      ensures Valid()
      ensures userId.None? || dto.None? ==> r == Err(BadRequest)
      ensures userId.Some? && dto.Some? && userId.value !in old(users.rows) ==> r == Err(NotFound)
      ensures (userId.Some? && dto.Some? && userId.value in old(users.rows)
               && !AcceptableRename(dto.value.displayName, old(users.rows)[userId.value].displayName))
                ==> r == Err(BadRequest)
      ensures r.Ok? <==>
                && userId.Some? && dto.Some? && userId.value in old(users.rows)
                && AcceptableRename(dto.value.displayName, old(users.rows)[userId.value].displayName)
      ensures !r.Ok? ==> users.rows == old(users.rows)
      ensures r.Ok? ==>
                var name := Trim(dto.value.displayName.value);
                && users.rows == old(users.rows)[userId.value := old(users.rows)[userId.value].(displayName := name)]
                && r.value == UpdateRequest(Some(name))
      ensures users.mediaOwners == old(users.mediaOwners)
    {
      if userId.None? {
        return Err(BadRequest);
      }
      if dto.None? {
        return Err(BadRequest);
      }
      if userId.value !in users.rows {
        return Err(NotFound);
      }
      var current := users.rows[userId.value];
      var requested := dto.value.displayName;
      if requested.None? || IsBlank(requested.value) {
        return Err(BadRequest);
      }
      var name := Trim(requested.value);
      if name == Trim(current.displayName) {
        return Err(BadRequest);
      }
      users.Save(current.(displayName := name));
      r := Ok(UpdateRequest(Some(name)));
    }

    /** The tail of `updatePassword`: every session of `u` that is not revoked
        gets revocation time `now`; every other session stays as it was. */
    method RevokeActiveSessions(u: Uuid, now: Time)
      requires sessions.Valid()
      modifies sessions
      ensures sessions.Valid() && Evolves(old(sessions.rows), sessions.rows)
      ensures |sessions.rows| == |old(sessions.rows)|
      ensures forall i | 0 <= i < |sessions.rows| ::
                sessions.rows[i] == if ActiveOf(old(sessions.rows)[i], u)
                                    then old(sessions.rows)[i].(revokedAt := Some(now))
                                    else old(sessions.rows)[i]
    {
      var active := FindByUserIdAndRevokedAtIsNull(sessions.rows, u);
      for k := 0 to |active|
        invariant sessions.Valid()
        invariant |sessions.rows| == |old(sessions.rows)|
        invariant forall i | 0 <= i < |sessions.rows| ::
                    sessions.rows[i] == if i in active[..k] then old(sessions.rows)[i].(revokedAt := Some(now))
                                        else old(sessions.rows)[i]
      {
        assert active[k] !in active[..k];
        assert active[..k + 1] == active[..k] + [active[k]];
        sessions.SetRevokedAt(active[k], now);
      }
      assert active[..|active|] == active;
    }

    /** `updatePassword`: 400 for a missing or blank field; 404 for an unknown
        user; 400 for a wrong current password, an unchanged password or one
        that fails the policy; otherwise the new hash is stored and every active
        session of the user is revoked at `now`, the others left alone. */
    method UpdatePassword(dto: Option<UpdatePasswordRequest>, userId: Option<Uuid>, now: Time) returns (r: Result<()>)
      requires Valid()
      modifies users, sessions
      ensures Valid() && Evolves(old(sessions.rows), sessions.rows)
      ensures !WellFormedPasswordChange(dto, userId) ==> r == Err(BadRequest)
      ensures WellFormedPasswordChange(dto, userId) && userId.value !in old(users.rows) ==> r == Err(NotFound)
      ensures (WellFormedPasswordChange(dto, userId) && userId.value in old(users.rows)
               && !PasswordChangeAccepted(dto.value, old(users.rows)[userId.value].passwordHash, matches))
                ==> r == Err(BadRequest)
      ensures r.Ok? <==>
                && WellFormedPasswordChange(dto, userId) && userId.value in old(users.rows)
                && PasswordChangeAccepted(dto.value, old(users.rows)[userId.value].passwordHash, matches)
      ensures !r.Ok? ==> users.rows == old(users.rows) && sessions.rows == old(sessions.rows)
      ensures r.Ok? ==>
                var u := userId.value;
                users.rows == old(users.rows)[u := old(users.rows)[u].(passwordHash := encode(dto.value.newPassword.value))]
      ensures r.Ok? ==> |sessions.rows| == |old(sessions.rows)|
      ensures r.Ok? ==>
                forall i | 0 <= i < |sessions.rows| ::
                  sessions.rows[i] == if ActiveOf(old(sessions.rows)[i], userId.value)
                                      then old(sessions.rows)[i].(revokedAt := Some(now))
                                      else old(sessions.rows)[i]
      ensures users.mediaOwners == old(users.mediaOwners)
    {
      if dto.None? || dto.value.currentPassword.None? || dto.value.newPassword.None? || userId.None? {
        return Err(BadRequest);
      }
      var current, next := dto.value.currentPassword.value, dto.value.newPassword.value;
      if IsBlank(current) || IsBlank(next) {
        return Err(BadRequest);
      }
      var u := userId.value;
      if u !in users.rows {
        return Err(NotFound);
      }
      var user := users.rows[u];
      if !matches(current, user.passwordHash) {
        return Err(BadRequest);
      }
      if matches(next, user.passwordHash) {
        return Err(BadRequest);
      }
      if !PatternMatchesPassword(next) {
        return Err(BadRequest);
      }
      users.Save(user.(passwordHash := encode(next)));

      RevokeActiveSessions(u, now);
      r := Ok(());
    }

    /** `deleteUser`, as written: 400 without an id; 404 for an unknown user;
        otherwise the user's recipes (soft-deleted ones included), media assets
        and account are removed. The refresh-session table is not touched. */
    method DeleteUser(userId: Option<Uuid>) returns (r: Result<()>)
      requires Valid()
      modifies users, recipes
      ensures Valid()
      ensures userId.None? ==> r == Err(BadRequest)
      ensures userId.Some? && userId.value !in old(users.rows) ==> r == Err(NotFound)
      ensures r.Ok? <==> userId.Some? && userId.value in old(users.rows)
      ensures !r.Ok? ==>
                users.rows == old(users.rows) && users.mediaOwners == old(users.mediaOwners)
                && recipes.rows == old(recipes.rows)
      ensures r.Ok? ==>
                var u := userId.value;
                && recipes.rows == WithoutOwner(old(recipes.rows), u)
                && users.rows == old(users.rows) - {u}
                && (forall m :: m in users.mediaOwners <==> m in old(users.mediaOwners) && old(users.mediaOwners)[m] != u)
                && (forall m | m in users.mediaOwners :: users.mediaOwners[m] == old(users.mediaOwners)[m])
    {
      if userId.None? {
        return Err(BadRequest);
      }
      var u := userId.value;
      if u !in users.rows {
        return Err(NotFound);
      }
      recipes.DeleteByOwnerId(u);
      users.DeleteMediaAssetsByOwnerId(u);
      users.Delete(u);
      r := Ok(());
    }

    /** `deleteUser` as its test expects it: the same, and the user's refresh
        sessions are deleted too, so no session outlives its account. */
    method DeleteUserAndSessions(userId: Option<Uuid>) returns (r: Result<()>)
      requires Valid()
      modifies users, recipes, sessions
      ensures Valid()
      ensures userId.None? ==> r == Err(BadRequest)
      ensures userId.Some? && userId.value !in old(users.rows) ==> r == Err(NotFound)
      ensures r.Ok? <==> userId.Some? && userId.value in old(users.rows)
      ensures !r.Ok? ==>
                users.rows == old(users.rows) && users.mediaOwners == old(users.mediaOwners)
                && recipes.rows == old(recipes.rows) && sessions.rows == old(sessions.rows)
      ensures r.Ok? ==>
                var u := userId.value;
                && recipes.rows == WithoutOwner(old(recipes.rows), u)
                && users.rows == old(users.rows) - {u}
                && (forall m :: m in users.mediaOwners <==> m in old(users.mediaOwners) && old(users.mediaOwners)[m] != u)
                && (forall m | m in users.mediaOwners :: users.mediaOwners[m] == old(users.mediaOwners)[m])
                && sessions.rows == WithoutUser(old(sessions.rows), u)
      ensures NoOrphanSessions(old(users.rows), old(sessions.rows)) ==> NoOrphanSessions(users.rows, sessions.rows)
    {
      if userId.None? {
        return Err(BadRequest);
      }
      var u := userId.value;
      if u !in users.rows {
        return Err(NotFound);
      }
      recipes.DeleteByOwnerId(u);
      sessions.DeleteByUserId(u);
      users.DeleteMediaAssetsByOwnerId(u);
      users.Delete(u);
      r := Ok(());
      forall i | 0 <= i < |sessions.rows| && NoOrphanSessions(old(users.rows), old(sessions.rows))
        ensures sessions.rows[i].user in users.rows
      {
        assert sessions.rows[i] in sessions.rows;
        var j :| 0 <= j < |old(sessions.rows)| && old(sessions.rows)[j] == sessions.rows[i];
      }
    }
  }

  /** The gap in `deleteUser` as written: from a table where every session has
      an account, deleting a user who holds a session leaves that session
      behind, pointing at an account that no longer exists. */
  method DeleteUserOrphansSessions(svc: UserService, i: nat) returns (r: Result<()>)
    requires svc.Valid()
    requires NoOrphanSessions(svc.users.rows, svc.sessions.rows)
    requires i < |svc.sessions.rows|
    modifies svc.users, svc.recipes
    ensures r.Ok?
    ensures i < |svc.sessions.rows| && svc.sessions.rows[i] == old(svc.sessions.rows)[i]
    ensures !NoOrphanSessions(svc.users.rows, svc.sessions.rows)
  {
    var u := svc.sessions.rows[i].user;
    r := svc.DeleteUser(Some(u));
  }

  /** What an orphaned session leads to: refreshing with its token, while it is
      still usable, no longer rotates it but fails with a 500 and changes
      nothing. */
  method OrphanedSessionCannotRefresh(svc: UserService, auth: AuthService, i: nat, token: string,
                                      now: Time, newRaw: string, newId: Uuid)
    returns (deleted: Result<()>, refreshed: Result<LoginResult>)
    requires svc.Valid() && auth.users == svc.users && auth.sessions == svc.sessions
    requires i < |svc.sessions.rows| && svc.sessions.rows[i].user in svc.users.rows
    requires !IsBlank(token) && auth.hashToken(token) == svc.sessions.rows[i].tokenHash
    requires Usable(svc.sessions.rows[i], now)
    requires FreshSlot(svc.sessions.rows, newId, auth.hashToken(newRaw))
    modifies svc.users, svc.recipes, svc.sessions
    ensures deleted.Ok?
    ensures refreshed == Err(InternalError)
    ensures svc.sessions.rows == old(svc.sessions.rows)
  {
    deleted := svc.DeleteUser(Some(svc.sessions.rows[i].user));
    FindByTokenHashUnique(svc.sessions.rows, auth.hashToken(token), i);
    refreshed := auth.Refresh(Some(token), now, newRaw, newId);
  }
}
