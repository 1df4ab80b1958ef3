/** `AuthService`: registration, login, refresh-token rotation and logout. The
    password encoder, the authentication manager, the refresh-token hash and the
    access-token issuer are collaborators the service is built with; the clock,
    the new session's id and the freshly generated raw token are inputs. */
module Auth {
  import opened Common
  import opened JavaText
  import opened Validation
  import opened Users
  import opened Sessions

  /** `JwtTokenService.ACCESS_TTL_SECONDS`, fifteen minutes. */
  const ACCESS_TTL_SECONDS := 900
  const BEARER := "Bearer"

  datatype RegisterRequest = RegisterRequest(email: Option<string>, password: Option<string>, displayName: Option<string>)
  datatype LoginRequest = LoginRequest(email: Option<string>, password: Option<string>)
  datatype RegisterReturn = RegisterReturn(id: Uuid, email: string, displayName: string, role: Role)
  datatype AuthResponse = AuthResponse(accessToken: string, tokenType: string, expiresIn: int)
  datatype LoginResult = LoginResult(authResponse: AuthResponse, refreshToken: string)

  /** Every check `register` makes before looking at the store: a body with all
      three fields, no blank field, an address of the accepted shape (checked
      before trimming) and a password meeting the policy. */
  predicate WellFormedRegistration(req: Option<RegisterRequest>)
  {
    && req.Some?
    && req.value.email.Some? && req.value.password.Some? && req.value.displayName.Some?
    && !IsBlank(req.value.email.value) && !IsBlank(req.value.password.value)
    && !IsBlank(req.value.displayName.value)
    && PatternMatchesEmail(req.value.email.value)
    && PatternMatchesPassword(req.value.password.value)
  }

  /** A login body with both fields present and neither blank. */
  predicate WellFormedLogin(req: Option<LoginRequest>)
  {
    req.Some? && req.value.email.Some? && req.value.password.Some?
    && !IsBlank(req.value.email.value) && !IsBlank(req.value.password.value)
  }

  /** A presented refresh token is accepted exactly when it is present, not
      blank, and hashes to a stored session that is usable now. */
  predicate Refreshable(rows: seq<RefreshSession>, hashToken: string -> string, token: Option<string>, now: Time)
  {
    && token.Some? && !IsBlank(token.value)
    && FindByTokenHash(rows, hashToken(token.value)).Some?
    && Usable(rows[FindByTokenHash(rows, hashToken(token.value)).value], now)
  }

  /** The session a non-blank refresh token finds. */
  function PresentedSession(rows: seq<RefreshSession>, hashToken: string -> string, token: string): RefreshSession
    requires FindByTokenHash(rows, hashToken(token)).Some?
  {
    rows[FindByTokenHash(rows, hashToken(token)).value]
  }

  /** The session logout revokes: a present, non-blank token whose hash finds a
      session that is not yet revoked (expired sessions included). */
  predicate Revocable(rows: seq<RefreshSession>, hashToken: string -> string, token: Option<string>)
  {
    && token.Some? && !IsBlank(token.value)
    && FindByTokenHash(rows, hashToken(token.value)).Some?
    && rows[FindByTokenHash(rows, hashToken(token.value)).value].revokedAt.None?
  }

  class AuthService {
    const users: UserRepository
    const sessions: SessionRepository
    /** `PasswordEncoder.encode` */
    const encode: string -> string
    /** `AuthenticationManager.authenticate` succeeds for (normalised e-mail, password). */
    const authenticate: (string, string) -> bool
    /** `RefreshTokenService.hashToken`: deterministic. */
    const hashToken: string -> string
    /** `JwtTokenService.generateAccessToken` for a user row at a time: the
        token carries the user's id, email and role. */
    const mintAccessToken: (User, Time) -> string

    ghost predicate Valid()
      reads users, sessions
    {
      users.Valid() && sessions.Valid()
    }

    constructor (users: UserRepository, sessions: SessionRepository, encode: string -> string,
                 authenticate: (string, string) -> bool, hashToken: string -> string,
                 mintAccessToken: (User, Time) -> string)
      ensures this.users == users && this.sessions == sessions
      ensures this.encode == encode && this.authenticate == authenticate
      ensures this.hashToken == hashToken && this.mintAccessToken == mintAccessToken
    {
      this.users := users;
      this.sessions := sessions;
      this.encode := encode;
      this.authenticate := authenticate;
      this.hashToken := hashToken;
      this.mintAccessToken := mintAccessToken;
    }

    /** `register`: 400 for any malformed input, 409 for an address already
        taken once normalised, otherwise one new USER row with the normalised
        address, the trimmed display name and the encoded password. */
    method Register(req: Option<RegisterRequest>, newId: Uuid) returns (r: Result<RegisterReturn>)
      requires Valid() && newId !in users.rows
      modifies users
      ensures Valid()
      ensures r == Err(BadRequest) <==> !WellFormedRegistration(req)
      ensures r == Err(Conflict) <==>
                WellFormedRegistration(req) && EmailTaken(old(users.rows), NormalizeEmail(req.value.email.value))
      ensures r.Ok? <==>
                WellFormedRegistration(req) && !EmailTaken(old(users.rows), NormalizeEmail(req.value.email.value))
      ensures !r.Ok? ==> users.rows == old(users.rows)
      ensures r.Ok? ==>
                var email := NormalizeEmail(req.value.email.value);
                var name := Trim(req.value.displayName.value);
                && users.rows == old(users.rows)[newId := User(newId, email, encode(req.value.password.value), name, USER)]
                && r.value == RegisterReturn(newId, email, name, USER)
      ensures users.mediaOwners == old(users.mediaOwners)
    {
      if req.None? {
        return Err(BadRequest);
      }
      var body := req.value;
      if body.email.None? || body.password.None? || body.displayName.None? {
        return Err(BadRequest);
      }
      if IsBlank(body.email.value) || IsBlank(body.password.value) {
        return Err(BadRequest);
      }
      if IsBlank(body.displayName.value) {
        return Err(BadRequest);
      }
      if !PatternMatchesEmail(body.email.value) {
        return Err(BadRequest);
      }
      if !PatternMatchesPassword(body.password.value) {
        return Err(BadRequest);
      }
      var normalizedEmail := NormalizeEmail(body.email.value);
      var existing := users.FindByEmail(normalizedEmail);
      if existing.Some? {
        return Err(Conflict);
      }
      var user := User(newId, normalizedEmail, encode(body.password.value), Trim(body.displayName.value), USER);
      users.Save(user);
      r := Ok(RegisterReturn(user.id, user.email, user.displayName, user.role));
    }

    /** `login`: 400 for a missing or blank field, 401 when authentication of the
        normalised address fails or no user has it, otherwise exactly one new
        active session for that user and a Bearer envelope of 900 seconds. */
    method Login(req: Option<LoginRequest>, now: Time, newRaw: string, newId: Uuid) returns (r: Result<LoginResult>)
      requires Valid() && FreshSlot(sessions.rows, newId, hashToken(newRaw))
      modifies sessions
      ensures Valid() && Evolves(old(sessions.rows), sessions.rows)
      ensures r == Err(BadRequest) <==> !WellFormedLogin(req)
      ensures r.Ok? <==>
                && WellFormedLogin(req)
                && authenticate(NormalizeEmail(req.value.email.value), req.value.password.value)
                && EmailTaken(users.rows, NormalizeEmail(req.value.email.value))
      ensures !r.Ok? ==> r.status in {BadRequest, Unauthorized} && sessions.rows == old(sessions.rows)
      ensures r.Ok? ==>
                && |sessions.rows| == |old(sessions.rows)| + 1
                && sessions.rows[..|old(sessions.rows)|] == old(sessions.rows)
      ensures r.Ok? ==>
                var s := sessions.rows[|old(sessions.rows)|];
                && s.user in users.rows && users.rows[s.user].email == NormalizeEmail(req.value.email.value)
                && s == NewSession(newId, s.user, hashToken(newRaw), now)
                && r.value == LoginResult(AuthResponse(mintAccessToken(users.rows[s.user], now), BEARER, ACCESS_TTL_SECONDS), newRaw)
    {
      if req.None? {
        return Err(BadRequest);
      }
      var body := req.value;
      if body.email.None? || body.password.None? {
        return Err(BadRequest);
      }
      if IsBlank(body.email.value) || IsBlank(body.password.value) {
        return Err(BadRequest);
      }
      var normalizedEmail := NormalizeEmail(body.email.value);
      if !authenticate(normalizedEmail, body.password.value) {
        return Err(Unauthorized);
      }
      var found := users.FindByEmail(normalizedEmail);
      if found.None? {
        return Err(Unauthorized);
      }
      var user := found.value;
      var token := mintAccessToken(user, now);
      var session := NewSession(newId, user.id, hashToken(newRaw), now);
      sessions.Insert(session);
      r := Ok(LoginResult(AuthResponse(token, BEARER, ACCESS_TTL_SECONDS), newRaw));
    }

    /** `refresh`: 401 with the store untouched unless the token is present,
        not blank, and finds a usable session. When that session's account no
        longer exists, loading it for the access token throws and the
        transaction rolls back: a 500 with the store untouched. Otherwise the
        session is revoked at `now` and exactly one successor for the same user
        is added. */
    method Refresh(refreshToken: Option<string>, now: Time, newRaw: string, newId: Uuid) returns (r: Result<LoginResult>)
      requires Valid() && FreshSlot(sessions.rows, newId, hashToken(newRaw))
      modifies sessions
      ensures Valid() && Evolves(old(sessions.rows), sessions.rows)
      ensures !Refreshable(old(sessions.rows), hashToken, refreshToken, now) ==> r == Err(Unauthorized)
      ensures (Refreshable(old(sessions.rows), hashToken, refreshToken, now)
               && PresentedSession(old(sessions.rows), hashToken, refreshToken.value).user !in users.rows)
                ==> r == Err(InternalError)
      ensures r.Ok? <==>
                && Refreshable(old(sessions.rows), hashToken, refreshToken, now)
                && PresentedSession(old(sessions.rows), hashToken, refreshToken.value).user in users.rows
      ensures !r.Ok? ==> r.status in {Unauthorized, InternalError} && sessions.rows == old(sessions.rows)
      ensures r.Ok? ==>
                var i := FindByTokenHash(old(sessions.rows), hashToken(refreshToken.value)).value;
                var presented := old(sessions.rows)[i];
                && sessions.rows == old(sessions.rows)[i := presented.(revokedAt := Some(now))]
                                    + [NewSession(newId, presented.user, hashToken(newRaw), now)]
                && r.value == LoginResult(AuthResponse(mintAccessToken(users.rows[presented.user], now), BEARER, ACCESS_TTL_SECONDS), newRaw)
    {
      if refreshToken.None? || IsBlank(refreshToken.value) {
        return Err(Unauthorized);
      }
      var hashed := hashToken(refreshToken.value);
      var found := sessions.FindByTokenHashWithLock(hashed);
      if found.None? {
        return Err(Unauthorized);
      }
      var i := found.value;
      var session := sessions.rows[i];
      if session.revokedAt.Some? {
        return Err(Unauthorized);
      }
      if !(now < session.expiresAt) {
        return Err(Unauthorized);
      }
      var user := session.user;
      if user !in users.rows {
        // the source writes first and fails when minting loads the missing
        // owner; the rollback leaves the store as it was
        return Err(InternalError);
      }
      sessions.SetRevokedAt(i, now);
      var newSession := NewSession(newId, user, hashToken(newRaw), now);
      sessions.Insert(newSession);
      var token := mintAccessToken(users.rows[user], now);
      r := Ok(LoginResult(AuthResponse(token, BEARER, ACCESS_TTL_SECONDS), newRaw));
    }

    /** `logout`: revokes the presented session at `now` when it is still
        active; a missing, blank or unknown token, or an already revoked
        session, leaves the store as it was. */
    method Logout(refreshToken: Option<string>, now: Time)
      requires Valid()
      modifies sessions
      ensures Valid() && Evolves(old(sessions.rows), sessions.rows)
      ensures !Revocable(old(sessions.rows), hashToken, refreshToken) ==> sessions.rows == old(sessions.rows)
      ensures Revocable(old(sessions.rows), hashToken, refreshToken) ==>
                var i := FindByTokenHash(old(sessions.rows), hashToken(refreshToken.value)).value;
                sessions.rows == old(sessions.rows)[i := old(sessions.rows)[i].(revokedAt := Some(now))]
    {
      if refreshToken.None? || IsBlank(refreshToken.value) {
        return;
      }
      var hashed := hashToken(refreshToken.value);
      var found := FindByTokenHash(sessions.rows, hashed);
      if found.Some? && sessions.rows[found.value].revokedAt.None? {
        sessions.SetRevokedAt(found.value, now);
      }
    }
  }

  /** A refresh token is single-use: after it has been rotated, presenting it
      again, at any later time, is refused and changes nothing. */
  method RefreshTokenIsSingleUse(auth: AuthService, token: string, now: Time, later: Time,
                                 raw1: string, id1: Uuid, raw2: string, id2: Uuid)
    returns (first: Result<LoginResult>, second: Result<LoginResult>)
    requires auth.Valid()
    requires FreshSlot(auth.sessions.rows, id1, auth.hashToken(raw1))
    requires FreshSlot(auth.sessions.rows, id2, auth.hashToken(raw2))
    requires id2 != id1 && auth.hashToken(raw2) != auth.hashToken(raw1)
    modifies auth.sessions
    ensures auth.Valid()
    ensures first.Ok? ==> second == Err(Unauthorized)
  {
    first := auth.Refresh(Some(token), now, raw1, id1);
    second := auth.Refresh(Some(token), later, raw2, id2);
    if first.Ok? {
      var h := auth.hashToken(token);
      var i := FindByTokenHash(old(auth.sessions.rows), h).value;
      FindByTokenHashUnique(old(auth.sessions.rows)[i := old(auth.sessions.rows)[i].(revokedAt := Some(now))]
                            + [NewSession(id1, old(auth.sessions.rows)[i].user, auth.hashToken(raw1), now)], h, i);
    }
  }

  /** Logging out twice with the same token leaves the store as the first
      logout did. */
  method LogoutIsIdempotent(auth: AuthService, token: Option<string>, now: Time, later: Time)
    returns (ghost once: seq<RefreshSession>)
    requires auth.Valid()
    modifies auth.sessions
    ensures auth.Valid()
    ensures !Revocable(old(auth.sessions.rows), auth.hashToken, token) ==> once == old(auth.sessions.rows)
    ensures Revocable(old(auth.sessions.rows), auth.hashToken, token) ==>
              var i := FindByTokenHash(old(auth.sessions.rows), auth.hashToken(token.value)).value;
              once == old(auth.sessions.rows)[i := old(auth.sessions.rows)[i].(revokedAt := Some(now))]
    ensures auth.sessions.rows == once
  {
    auth.Logout(token, now);
    once := auth.sessions.rows;
    if Revocable(old(auth.sessions.rows), auth.hashToken, token) {
      var h := auth.hashToken(token.value);
      FindByTokenHashUnique(once, h, FindByTokenHash(old(auth.sessions.rows), h).value);
    }
    auth.Logout(token, later);
  }
}
