/** The refresh-token record and its derived status at a given time. */
module RefreshTokens {
  import opened Wrappers

  /** Seconds a refresh token stays valid after it is issued (7 days). */
  const RefreshTokenLifetime: int := 7 * 24 * 60 * 60

  datatype RefreshToken = RefreshToken(
    id: string,
    token: string,
    userId: string,
    expiresAt: int,
    createdAt: int,
    revokedAt: Option<int>,
    replacedByToken: Option<string>,
    reasonRevoked: Option<string>)

  predicate IsExpired(t: RefreshToken, now: int)
  {
    now >= t.expiresAt
  }

  predicate IsRevoked(t: RefreshToken)
  {
    t.revokedAt.Some?
  }

  predicate IsActive(t: RefreshToken, now: int)
  {
    !IsRevoked(t) && !IsExpired(t, now)
  }

  /** The record built for user `userId` at time `now`, with the fresh
      identifier `id` and the fresh bearer string `token`. */
  function NewRefreshToken(id: string, token: string, userId: string, now: int): (t: RefreshToken)
    ensures t.id == id && t.token == token && t.userId == userId
    ensures t.createdAt == now && t.expiresAt == t.createdAt + RefreshTokenLifetime
    ensures t.revokedAt.None? && t.replacedByToken.None? && t.reasonRevoked.None?
    ensures IsActive(t, now)
  {
    RefreshToken(id, token, userId, now + RefreshTokenLifetime, now, None, None, None)
  }

  /** The record after it is revoked at `now` for `reason`. */
  function Revoke(t: RefreshToken, now: int, reason: string): RefreshToken
  {
    t.(revokedAt := Some(now), reasonRevoked := Some(reason))
  }

  /** A new record is active at time `at` exactly while `at` is before its
      expiry, seven days after its creation. */
  lemma NewRefreshTokenActiveUntilExpiry(id: string, token: string, userId: string, now: int, at: int)
    ensures IsActive(NewRefreshToken(id, token, userId, now), at) <==> at < now + RefreshTokenLifetime
  {
  }

  /** Expiry is monotone in time. */
  lemma ExpiryIsMonotone(t: RefreshToken, earlier: int, later: int)
    requires earlier <= later && IsExpired(t, earlier)
    ensures IsExpired(t, later)
  {
  }

  /** Without a write to its fields, an inactive record stays inactive. */
  lemma InactiveStaysInactive(t: RefreshToken, earlier: int, later: int)
    requires earlier <= later && !IsActive(t, earlier)
    ensures !IsActive(t, later)
  {
    if !IsRevoked(t) {
      ExpiryIsMonotone(t, earlier, later);
    }
  }

  /** A revoked record is inactive at every time, whatever it was before. */
  lemma RevokedIsNeverActive(t: RefreshToken, now: int, reason: string, at: int)
    ensures IsRevoked(Revoke(t, now, reason)) && !IsActive(Revoke(t, now, reason), at)
  {
  }
}
