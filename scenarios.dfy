/** Client-side sequences of calls, proved from the services' contracts
    alone: rotation makes a refresh token single-use, revocation and logout
    are final, and favourites answer what was just added or removed. */
module Scenarios {
  import opened Wrappers
  import opened Tables
  import opened Entities
  import opened RefreshTokens
  import opened TokenLedger
  import opened UserStore
  import opened ApplicationDb
  import opened Auth
  import opened Favorites

  /** After a write at index `i` that keeps the bearer string, and an
      append of a different one, the lookup still lands on `i`. */
  lemma LookupAfterRotation(ts: seq<RefreshToken>, i: nat, x: RefreshToken, y: RefreshToken, token: string)
    requires IndexOfToken(ts, token) == Some(i) && x.token == token && y.token != token
    ensures IndexOfToken(ts[i := x] + [y], token) == Some(i)
  {
    var ts' := ts[i := x] + [y];
    assert ts'[i] == x;
  }

  /** Rotation keeps a third id and bearer string fresh when the successor
      uses neither. */
  lemma FreshAfterRotation(ts: seq<RefreshToken>, i: nat, x: RefreshToken, y: RefreshToken, id: string, token: string)
    requires FreshRecord(ts, id, token) && i < |ts|
    requires x.id == ts[i].id && x.token == ts[i].token && y.id != id && y.token != token
    ensures FreshRecord(ts[i := x] + [y], id, token)
  {
    var ts' := ts[i := x] + [y];
    forall k | 0 <= k < |ts'| ensures IdKey(ts'[k]) != id && TokenKey(ts'[k]) != token {
      if k < |ts| && k != i {
        assert ts'[k] == ts[k];
      }
    }
  }

  /** Registration issues a refresh token that the table resolves to an
      active record of the new user, expiring seven days after creation. */
  method RegisteredTokenIsLive(svc: AuthService, email: string, password: string, userName: string, now: int,
                               newUserId: string, newTokenId: string, newToken: string, jti: string)
    returns (r: Result<AuthResponse, AuthError>)
    requires svc.context.Valid()
    requires KeyAbsent(svc.context.users, UserIdKey, newUserId)
    requires FreshRecord(svc.context.refreshTokens, newTokenId, newToken)
    modifies svc.context
    ensures r.Ok? ==>
              IndexOfToken(svc.context.refreshTokens, r.value.tokens.refreshToken).Some? &&
              var t := svc.context.refreshTokens[IndexOfToken(svc.context.refreshTokens, r.value.tokens.refreshToken).value];
              t.userId == r.value.user.id && IsActive(t, now) &&
              t.expiresAt == t.createdAt + RefreshTokenLifetime
  {
    r := svc.Register(email, password, userName, now, None, newUserId, newTokenId, newToken, jti);
    if r.Ok? {
      var ts := svc.context.refreshTokens;
      assert ts[|ts| - 1].token == newToken;
    }
  }

  /** Presenting the same refresh token twice: the second call is refused
      as inactive, whatever the time. */
  method RefreshReplayIsRejected(svc: AuthService, token: string, now1: int, now2: int,
                                 id1: string, token1: string, id2: string, token2: string,
                                 jti1: string, jti2: string)
    returns (first: Result<RefreshResponse, AuthError>, second: Result<RefreshResponse, AuthError>)
    requires svc.context.Valid()
    requires FreshRecord(svc.context.refreshTokens, id1, token1)
    requires FreshRecord(svc.context.refreshTokens, id2, token2) && id2 != id1 && token2 != token1
    modifies svc.context
    ensures first.Ok? ==> second == Err(InvalidOperation(InactiveRefreshToken))
  {
    ghost var before := svc.context.refreshTokens;
    first := svc.Refresh(token, now1, id1, token1, jti1);
    if first.Ok? {
      var i := IndexOfToken(before, token).value;
      assert token != token1 by {
        assert before[i].token == token;
      }
      var x, y := Rotate(before[i], now1, token1), NewRefreshToken(id1, token1, before[i].userId, now1);
      assert svc.context.refreshTokens == before[i := x] + [y];
      LookupAfterRotation(before, i, x, y, token);
      FreshAfterRotation(before, i, x, y, id2, token2);
    }
    second := svc.Refresh(token, now2, id2, token2, jti2);
  }

  /** Revoking the same token twice, the second time no earlier than the
      first: the second answer is always false. */
  method RevokeTwice(svc: AuthService, token: string, now1: int, now2: int) returns (first: bool, second: bool)
    requires svc.context.Valid() && now1 <= now2
    modifies svc.context
    ensures !second
  {
    ghost var before := svc.context.refreshTokens;
    first := svc.RevokeToken(token, now1);
    var found := IndexOfToken(before, token);
    if found.Some? {
      var i := found.value;
      if first {
        assert svc.context.refreshTokens == before[i := Revoke(before[i], now1, RevokedWithoutReplacement)];
      }
      SameTokensSameIndex(before, svc.context.refreshTokens, token);
      InactiveStaysInactive(svc.context.refreshTokens[i], now1, now2);
    } else {
      SameTokensSameIndex(before, svc.context.refreshTokens, token);
    }
    second := svc.RevokeToken(token, now2);
  }

  /** After a user logs out, no refresh token of that user can be used,
      at that time or later. */
  method LogoutThenRefreshFails(svc: AuthService, token: string, now1: int, now2: int,
                                newTokenId: string, newToken: string, jti: string)
    returns (loggedOut: bool, r: Result<RefreshResponse, AuthError>)
    requires svc.context.Valid() && now1 <= now2
    requires IndexOfToken(svc.context.refreshTokens, token).Some?
    requires FreshRecord(svc.context.refreshTokens, newTokenId, newToken)
    modifies svc.context
    ensures loggedOut
    ensures r == Err(InvalidOperation(InactiveRefreshToken))
  {
    var before := svc.context.refreshTokens;
    var i := IndexOfToken(before, token).value;
    var owner := before[i].userId;
    assert HasUser(svc.context.users, owner);
    loggedOut := svc.Logout(owner, now1);
    SweptTokenIsDead(before, owner, token, now1, now2);
    LogoutSweepKeepsKeys(before, owner, now1);
    assert svc.context.refreshTokens == LogoutSweep(before, owner, now1);
    r := svc.Refresh(token, now2, newTokenId, newToken, jti);
  }

  /** With logout as written, an active token of an existing user survives:
      the call fails, and refreshing the token at the same time succeeds.
      Compare `LogoutThenRefreshFails`, where the intended sweep kills it. */
  method LogoutAsWrittenLeavesTokenLive(svc: AuthService, token: string, now: int,
                                        newTokenId: string, newToken: string, jti: string)
    returns (loggedOut: Result<bool, AuthError>, r: Result<RefreshResponse, AuthError>)
    requires svc.context.Valid()
    requires IndexOfToken(svc.context.refreshTokens, token).Some?
    requires IsActive(svc.context.refreshTokens[IndexOfToken(svc.context.refreshTokens, token).value], now)
    requires FreshRecord(svc.context.refreshTokens, newTokenId, newToken)
    modifies svc.context
    ensures loggedOut.Err?
    ensures r.Ok?
  {
    var i := IndexOfToken(svc.context.refreshTokens, token).value;
    var owner := svc.context.refreshTokens[i].userId;
    assert HasUser(svc.context.users, owner);
    loggedOut := svc.LogoutAsWritten(owner, now);
    r := svc.Refresh(token, now, newTokenId, newToken, jti);
  }

  /** A location just added (for an existing user) is a favourite; one just
      removed is not. */
  method AddThenRemove(svc: FavoritesService, userId: string, location: string,
                       latitude: Coordinate, longitude: Coordinate, now: int, newId: string)
    returns (afterAdd: bool, removed: FavoriteResponse, afterRemove: bool)
    requires svc.context.Valid() && HasUser(svc.context.users, userId)
    requires KeyAbsent(svc.context.favoriteLocations, FavoriteIdKey, newId)
    modifies svc.context
    ensures afterAdd && removed.success && !afterRemove
  {
    var added := svc.AddToFavorites(userId, location, latitude, longitude, now, newId);
    assert HasFavorite(svc.context.favoriteLocations, userId, location) by {
      var rows := svc.context.favoriteLocations;
      if !HasFavorite(old(svc.context.favoriteLocations), userId, location) {
        assert rows[|rows| - 1] in rows;
      }
    }
    afterAdd := svc.IsLocationFavorite(userId, location);
    removed := svc.RemoveFromFavorites(userId, location);
    afterRemove := svc.IsLocationFavorite(userId, location);
  }
}
