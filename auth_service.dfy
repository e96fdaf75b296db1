/** The authentication service: registration, login, logout, the current
    user, and refresh-token rotation and revocation. */
module Auth {
  import opened Wrappers
  import opened Tables
  import opened Entities
  import opened RefreshTokens
  import opened TokenLedger
  import opened UserStore
  import opened Jwt
  import opened ApplicationDb

  /** The two exception types the service throws, with their messages. */
  datatype AuthError = ArgumentError(message: string) | InvalidOperation(message: string)

  datatype UserDto = UserDto(id: string, userName: string, email: string, jwt: AccessToken)

  datatype TokensDto = TokensDto(accessToken: AccessToken, refreshToken: string)

  datatype AuthResponse = AuthResponse(user: UserDto, tokens: TokensDto)

  datatype RefreshResponse = RefreshResponse(tokens: TokensDto)

  const InvalidCredentials: string := "Invalid email or password"
  const InvalidRefreshToken: string := "Invalid refresh token"
  const InactiveRefreshToken: string := "Refresh token is expired or revoked"
  /** Stands for the mapper's message when a query cannot be translated. */
  const UntranslatableQuery: string := "The LINQ expression could not be translated"

  /** The user record registration creates. */
  function NewUser(id: string, userName: string, email: string, password: string, now: int): ApplicationUser
  {
    ApplicationUser(id, userName, email, userName, "", password, [DefaultRole], now, None)
  }

  function ToUserDto(u: ApplicationUser, access: AccessToken): UserDto
  {
    UserDto(u.id, u.userName, u.email, access)
  }

  class AuthService {
    const context: Database
    const settings: JwtSettings

    constructor (context: Database, settings: JwtSettings)
      ensures this.context == context && this.settings == settings
    {
      this.context := context;
      this.settings := settings;
    }

    /** Adds one fresh record for `userId` to the table and returns it. */
    method GenerateRefreshToken(userId: string, id: string, token: string, now: int) returns (t: RefreshToken)
      requires context.Valid() && HasUser(context.users, userId)
      requires FreshRecord(context.refreshTokens, id, token)
      modifies context`refreshTokens
      ensures context.Valid()
      ensures t == NewRefreshToken(id, token, userId, now)
      ensures context.refreshTokens == old(context.refreshTokens) + [t]
      ensures LedgerStep(old(context.refreshTokens), context.refreshTokens, now)
      ensures KeepsReplacements(old(context.refreshTokens), context.refreshTokens)
    {
      t := NewRefreshToken(id, token, userId, now);
      AddTokenKeepsConsistent(context.users, context.refreshTokens, context.favoriteLocations, t);
      context.refreshTokens := context.refreshTokens + [t];
    }

    method Register(email: string, password: string, userName: string, now: int,
                    creationFailure: Option<string>, newUserId: string,
                    newTokenId: string, newToken: string, jti: string)
      returns (r: Result<AuthResponse, AuthError>)
      requires context.Valid()
      requires KeyAbsent(context.users, UserIdKey, newUserId)
      requires FreshRecord(context.refreshTokens, newTokenId, newToken)
      modifies context
      ensures context.Valid()
      ensures |email| == 0 ==> r == Err(ArgumentError("Email is required"))
      ensures |email| > 0 && |password| == 0 ==> r == Err(ArgumentError("Password is required"))
      ensures |email| > 0 && |password| > 0 && |userName| == 0 ==> r == Err(ArgumentError("Username is required"))
      ensures |email| > 0 && |password| > 0 && |userName| > 0 && FindByEmail(old(context.users), email).Some? ==>
                r == Err(InvalidOperation("User with this email already exists"))
      ensures |email| > 0 && |password| > 0 && |userName| > 0 && FindByEmail(old(context.users), email).None? &&
              creationFailure.Some? ==>
                r == Err(InvalidOperation("Registration failed: " + creationFailure.value))
      ensures r.Ok? <==> |email| > 0 && |password| > 0 && |userName| > 0 &&
                         FindByEmail(old(context.users), email).None? && creationFailure.None?
      ensures r.Err? ==> unchanged(context)
      ensures r.Ok? ==>
                |email| > 0 && |password| > 0 && |userName| > 0 &&
                FindByEmail(old(context.users), email).None? && creationFailure.None? &&
                var u := NewUser(newUserId, userName, email, password, now);
                var access := IssueAccessToken(settings, u, jti, now);
                context.users == old(context.users) + [u] &&
                context.refreshTokens == old(context.refreshTokens) + [NewRefreshToken(newTokenId, newToken, newUserId, now)] &&
                context.favoriteLocations == old(context.favoriteLocations) &&
                r.value == AuthResponse(ToUserDto(u, access), TokensDto(access, newToken))
      ensures LedgerStep(old(context.refreshTokens), context.refreshTokens, now)
      ensures KeepsReplacements(old(context.refreshTokens), context.refreshTokens)
    {
      if |email| == 0 { return Err(ArgumentError("Email is required")); }
      if |password| == 0 { return Err(ArgumentError("Password is required")); }
      if |userName| == 0 { return Err(ArgumentError("Username is required")); }
      if FindByEmail(context.users, email).Some? {
        return Err(InvalidOperation("User with this email already exists"));
      }
      if creationFailure.Some? {
        return Err(InvalidOperation("Registration failed: " + creationFailure.value));
      }
      var u := NewUser(newUserId, userName, email, password, now);
      AddUserKeepsConsistent(context.users, context.refreshTokens, context.favoriteLocations, u);
      context.users := context.users + [u];
      var access := IssueAccessToken(settings, u, jti, now);
      var t := GenerateRefreshToken(u.id, newTokenId, newToken, now);
      r := Ok(AuthResponse(ToUserDto(u, access), TokensDto(access, t.token)));
    }

    method Login(email: string, password: string, now: int,
                 newTokenId: string, newToken: string, jti: string)
      returns (r: Result<AuthResponse, AuthError>)
      requires context.Valid()
      requires FreshRecord(context.refreshTokens, newTokenId, newToken)
      modifies context
      ensures context.Valid()
      ensures r.Ok? <==> |email| > 0 && |password| > 0 && CredentialsMatch(old(context.users), email, password)
      ensures |email| == 0 ==> r == Err(ArgumentError("Email is required"))
      ensures |email| > 0 && |password| == 0 ==> r == Err(ArgumentError("Password is required"))
      ensures |email| > 0 && |password| > 0 && !CredentialsMatch(old(context.users), email, password) ==>
                r == Err(InvalidOperation(InvalidCredentials))
      ensures r.Err? ==> unchanged(context)
      ensures r.Ok? ==>
                FindByEmail(old(context.users), email).Some? &&
                var k := FindByEmail(old(context.users), email).value;
                var u := old(context.users)[k].(lastLoginAt := Some(now));
                var access := IssueAccessToken(settings, u, jti, now);
                context.users == old(context.users)[k := u] &&
                context.refreshTokens == old(context.refreshTokens) + [NewRefreshToken(newTokenId, newToken, u.id, now)] &&
                context.favoriteLocations == old(context.favoriteLocations) &&
                r.value == AuthResponse(ToUserDto(u, access), TokensDto(access, newToken))
      ensures LedgerStep(old(context.refreshTokens), context.refreshTokens, now)
      ensures KeepsReplacements(old(context.refreshTokens), context.refreshTokens)
    {
      if |email| == 0 { return Err(ArgumentError("Email is required")); }
      if |password| == 0 { return Err(ArgumentError("Password is required")); }
      FindByEmailDecidesCredentials(context.users, email, password);
      var found := FindByEmail(context.users, email);
      if found.None? {
        return Err(InvalidOperation(InvalidCredentials));
      }
      var k := found.value;
      if !CheckPassword(context.users[k], password) {
        return Err(InvalidOperation(InvalidCredentials));
      }
      var u := context.users[k].(lastLoginAt := Some(now));
      UpdateUserKeepsConsistent(context.users, context.refreshTokens, context.favoriteLocations, k, u);
      context.users := context.users[k := u];
      assert context.users[k] == u && u in context.users;
      var access := IssueAccessToken(settings, u, jti, now);
      var t := GenerateRefreshToken(u.id, newTokenId, newToken, now);
      r := Ok(AuthResponse(ToUserDto(u, access), TokensDto(access, t.token)));
    }

    method Logout(userId: string, now: int) returns (ok: bool)
      requires context.Valid()
      modifies context`refreshTokens
      ensures context.Valid()
      ensures ok <==> HasUser(context.users, userId)
      ensures context.refreshTokens == if ok then LogoutSweep(old(context.refreshTokens), userId, now)
                                       else old(context.refreshTokens)
      ensures LedgerStep(old(context.refreshTokens), context.refreshTokens, now)
      ensures KeepsReplacements(old(context.refreshTokens), context.refreshTokens)
    {
      if FindById(context.users, userId).None? {
        return false;
      }
      ghost var before := context.refreshTokens;
      var i := 0;
      while i < |context.refreshTokens|
        invariant 0 <= i <= |context.refreshTokens| == |before|
        invariant context.Valid()
        invariant forall k :: 0 <= k < i ==> context.refreshTokens[k] == SweepOne(before[k], userId, now)
        invariant forall k :: i <= k < |before| ==> context.refreshTokens[k] == before[k]
      {
        var t := context.refreshTokens[i];
        if t.userId == userId && IsActive(t, now) {
          UpdateTokenKeepsConsistent(context.users, context.refreshTokens, context.favoriteLocations,
                                     i, Revoke(t, now, LoggedOut));
          context.refreshTokens := context.refreshTokens[i := Revoke(t, now, LoggedOut)];
        }
        i := i + 1;
      }
      LogoutSweepIsLedgerStep(before, userId, now);
      LogoutSweepRevokesExactlyTheActive(before, userId, now);
      forall k | 0 <= k < |before| ensures context.refreshTokens[k] == LogoutSweep(before, userId, now)[k] {
        LogoutSweepAt(before, userId, now, k);
      }
      ok := true;
    }

    /** Logout as the code is written: its query filters on the computed
        `IsActive`, which the mapper cannot translate, so for an existing
        user fetching the list throws before any record is revoked. */
    method LogoutAsWritten(userId: string, now: int) returns (r: Result<bool, AuthError>)
      requires context.Valid()
      ensures r.Ok? <==> !HasUser(context.users, userId)
      ensures r.Ok? ==> r.value == false
      ensures r.Err? ==> r.error == InvalidOperation(UntranslatableQuery)
    {
      if FindById(context.users, userId).None? {
        return Ok(false);
      }
      r := Err(InvalidOperation(UntranslatableQuery));
    }

    method GetCurrentUser(userId: string, now: int, jti: string) returns (r: Result<UserDto, AuthError>)
      requires context.Valid()
      ensures r.Err? <==> !HasUser(context.users, userId)
      ensures r.Err? ==> r.error == InvalidOperation("User not found")
      ensures r.Ok? ==> exists u :: u in context.users && u.id == userId &&
                                    r.value == ToUserDto(u, IssueAccessToken(settings, u, jti, now))
    {
      var found := FindById(context.users, userId);
      if found.None? {
        return Err(InvalidOperation("User not found"));
      }
      var u := context.users[found.value];
      r := Ok(ToUserDto(u, IssueAccessToken(settings, u, jti, now)));
    }

    method Refresh(refreshToken: string, now: int, newTokenId: string, newToken: string, jti: string)
      returns (r: Result<RefreshResponse, AuthError>)
      requires context.Valid()
      requires FreshRecord(context.refreshTokens, newTokenId, newToken)
      modifies context`refreshTokens
      ensures context.Valid()
      ensures IndexOfToken(old(context.refreshTokens), refreshToken).None? ==>
                r == Err(InvalidOperation(InvalidRefreshToken))
      ensures IndexOfToken(old(context.refreshTokens), refreshToken).Some? &&
              !IsActive(old(context.refreshTokens)[IndexOfToken(old(context.refreshTokens), refreshToken).value], now) ==>
                r == Err(InvalidOperation(InactiveRefreshToken))
      ensures r.Ok? <==> IndexOfToken(old(context.refreshTokens), refreshToken).Some? &&
                         IsActive(old(context.refreshTokens)[IndexOfToken(old(context.refreshTokens), refreshToken).value], now)
      ensures r.Err? ==> context.refreshTokens == old(context.refreshTokens)
      ensures r.Ok? ==>
                IndexOfToken(old(context.refreshTokens), refreshToken).Some? &&
                var i := IndexOfToken(old(context.refreshTokens), refreshToken).value;
                var presented := old(context.refreshTokens)[i];
                IsActive(presented, now) &&
                context.refreshTokens ==
                  old(context.refreshTokens)[i := Rotate(presented, now, newToken)] +
                  [NewRefreshToken(newTokenId, newToken, presented.userId, now)] &&
                FindById(context.users, presented.userId).Some? &&
                var owner := context.users[FindById(context.users, presented.userId).value];
                r.value == RefreshResponse(TokensDto(IssueAccessToken(settings, owner, jti, now), newToken))
      ensures LedgerStep(old(context.refreshTokens), context.refreshTokens, now)
    {
      var found := IndexOfToken(context.refreshTokens, refreshToken);
      if found.None? {
        return Err(InvalidOperation(InvalidRefreshToken));
      }
      var i := found.value;
      var presented := context.refreshTokens[i];
      if !IsActive(presented, now) {
        return Err(InvalidOperation(InactiveRefreshToken));
      }
      assert HasUser(context.users, presented.userId);
      var owner := context.users[FindById(context.users, presented.userId).value];
      var access := IssueAccessToken(settings, owner, jti, now);
      ghost var before := context.refreshTokens;
      UpdateTokenKeepsConsistent(context.users, context.refreshTokens, context.favoriteLocations,
                                 i, Rotate(presented, now, newToken));
      context.refreshTokens := context.refreshTokens[i := Rotate(presented, now, newToken)];
      var successor := GenerateRefreshToken(presented.userId, newTokenId, newToken, now);
      assert context.refreshTokens == before[i := Rotate(presented, now, newToken)] + [successor];
      r := Ok(RefreshResponse(TokensDto(access, successor.token)));
    }

    method RevokeToken(refreshToken: string, now: int) returns (ok: bool)
      requires context.Valid()
      modifies context`refreshTokens
      ensures context.Valid()
      ensures ok <==> IndexOfToken(old(context.refreshTokens), refreshToken).Some? &&
                      IsActive(old(context.refreshTokens)[IndexOfToken(old(context.refreshTokens), refreshToken).value], now)
      ensures ok ==>
                var i := IndexOfToken(old(context.refreshTokens), refreshToken).value;
                context.refreshTokens ==
                  old(context.refreshTokens)[i := Revoke(old(context.refreshTokens)[i], now, RevokedWithoutReplacement)]
      ensures !ok ==> context.refreshTokens == old(context.refreshTokens)
      ensures LedgerStep(old(context.refreshTokens), context.refreshTokens, now)
      ensures KeepsReplacements(old(context.refreshTokens), context.refreshTokens)
    {
      var found := IndexOfToken(context.refreshTokens, refreshToken);
      if found.None? || !IsActive(context.refreshTokens[found.value], now) {
        return false;
      }
      var i := found.value;
      var t := Revoke(context.refreshTokens[i], now, RevokedWithoutReplacement);
      UpdateTokenKeepsConsistent(context.users, context.refreshTokens, context.favoriteLocations, i, t);
      context.refreshTokens := context.refreshTokens[i := t];
      ok := true;
    }
  }
}
