/** The refresh-token table as a whole: lookup by bearer string, the
    revocation reasons, the logout sweep, and the discipline every write
    to the table follows. */
module TokenLedger {
  import opened Wrappers
  import opened Tables
  import opened RefreshTokens

  const LoggedOut: string := "Logged out"
  const Refreshed: string := "Refreshed"
  const RevokedWithoutReplacement: string := "Revoked without replacement"

  function IdKey(t: RefreshToken): string { t.id }

  function TokenKey(t: RefreshToken): string { t.token }

  /** The revocation fields are written together, and a replacement is
      only ever recorded on a revoked record. */
  predicate RevocationFieldsCoherent(t: RefreshToken)
  {
    (t.revokedAt.Some? <==> t.reasonRevoked.Some?) &&
    (t.replacedByToken.Some? ==> t.revokedAt.Some?)
  }

  /** Keyed by id, bearer strings unique, revocation fields coherent. */
  predicate LedgerWellFormed(ts: seq<RefreshToken>)
  {
    KeysDistinct(ts, IdKey) && KeysDistinct(ts, TokenKey) &&
    forall i :: 0 <= i < |ts| ==> RevocationFieldsCoherent(ts[i])
  }

  /** Neither the id nor the bearer string is in use yet. */
  predicate FreshRecord(ts: seq<RefreshToken>, id: string, token: string)
  {
    KeyAbsent(ts, IdKey, id) && KeyAbsent(ts, TokenKey, token)
  }

  /** The lookup `FirstOrDefaultAsync(rt => rt.Token == token)`. */
  function IndexOfToken(ts: seq<RefreshToken>, token: string): (r: Option<nat>)
    ensures r.Some? ==> r.value < |ts| && ts[r.value].token == token
    ensures r.Some? ==> forall j :: 0 <= j < r.value ==> ts[j].token != token
    ensures r.None? <==> forall j :: 0 <= j < |ts| ==> ts[j].token != token
  {
    FirstIndex(ts, (t: RefreshToken) => t.token == token)
  }

  /** Two tables whose rows carry the same bearer strings, position by
      position, resolve every lookup to the same position. */
  lemma SameTokensSameIndex(a: seq<RefreshToken>, b: seq<RefreshToken>, token: string)
    requires |a| == |b| && forall k :: 0 <= k < |a| ==> a[k].token == b[k].token
    ensures IndexOfToken(a, token) == IndexOfToken(b, token)
  {
  }

  /** The presented record after a successful refresh: revoked, and linked
      to its successor. */
  function Rotate(t: RefreshToken, now: int, successor: string): RefreshToken
  {
    Revoke(t, now, Refreshed).(replacedByToken := Some(successor))
  }

  /** What logout does to one record of the table. */
  function SweepOne(t: RefreshToken, userId: string, now: int): RefreshToken
  {
    if t.userId == userId && IsActive(t, now) then Revoke(t, now, LoggedOut) else t
  }

  /** The table after user `userId` logs out at `now`. */
  function LogoutSweep(ts: seq<RefreshToken>, userId: string, now: int): seq<RefreshToken>
  {
    if ts == [] then [] else [SweepOne(ts[0], userId, now)] + LogoutSweep(ts[1..], userId, now)
  }

  /** Logout treats each record on its own: the k-th record afterwards is
      the k-th record swept. */
  lemma {:induction false} LogoutSweepAt(ts: seq<RefreshToken>, userId: string, now: int, k: nat)
    requires k < |ts|
    ensures |LogoutSweep(ts, userId, now)| == |ts|
    ensures LogoutSweep(ts, userId, now)[k] == SweepOne(ts[k], userId, now)
  {
    if k > 0 {
      LogoutSweepAt(ts[1..], userId, now, k - 1);
    } else if |ts| > 1 {
      LogoutSweepAt(ts[1..], userId, now, 0);
    }
  }

  /** After logout no record of the user is active, every record that was
      active is revoked "Logged out" at `now`, and every other record (other
      users', already inactive ones) is unchanged. */
  lemma LogoutSweepRevokesExactlyTheActive(ts: seq<RefreshToken>, userId: string, now: int)
    ensures |LogoutSweep(ts, userId, now)| == |ts|
    ensures forall k :: 0 <= k < |ts| && ts[k].userId == userId ==> !IsActive(LogoutSweep(ts, userId, now)[k], now)
    ensures forall k :: 0 <= k < |ts| && ts[k].userId == userId && IsActive(ts[k], now) ==>
              LogoutSweep(ts, userId, now)[k] == Revoke(ts[k], now, LoggedOut)
    ensures forall k :: 0 <= k < |ts| && !(ts[k].userId == userId && IsActive(ts[k], now)) ==>
              LogoutSweep(ts, userId, now)[k] == ts[k]
  {
    if ts != [] {
      LogoutSweepAt(ts, userId, now, 0);
      forall k | 0 <= k < |ts| ensures LogoutSweep(ts, userId, now)[k] == SweepOne(ts[k], userId, now) {
        LogoutSweepAt(ts, userId, now, k);
      }
    }
  }

  /** A record that is new at `now`: created then and never revoked. */
  predicate IsFresh(t: RefreshToken, now: int)
  {
    t.createdAt == now && t.revokedAt.None? && t.reasonRevoked.None? && t.replacedByToken.None?
  }

  /** One record across one write: either untouched, or it was active and
      is now revoked at `now` with a reason, its identity unchanged. */
  predicate RecordStep(before: RefreshToken, after: RefreshToken, now: int)
  {
    after == before ||
    (IsActive(before, now) &&
     after.id == before.id && after.token == before.token && after.userId == before.userId &&
     after.expiresAt == before.expiresAt && after.createdAt == before.createdAt &&
     after.revokedAt == Some(now) && after.reasonRevoked.Some?)
  }

  /** The discipline of every operation on the table at time `now`: no
      record is deleted, only records active at `now` are written, and the
      records added are fresh. */
  predicate LedgerStep(before: seq<RefreshToken>, after: seq<RefreshToken>, now: int)
  {
    |before| <= |after| &&
    (forall i :: 0 <= i < |before| ==> RecordStep(before[i], after[i], now)) &&
    (forall i :: |before| <= i < |after| ==> IsFresh(after[i], now))
  }

  /** No existing record's ReplacedByToken is written. */
  predicate KeepsReplacements(before: seq<RefreshToken>, after: seq<RefreshToken>)
  {
    |before| <= |after| &&
    forall i :: 0 <= i < |before| ==> after[i].replacedByToken == before[i].replacedByToken
  }

  /** The logout sweep follows the ledger discipline and records no
      replacement. */
  lemma LogoutSweepIsLedgerStep(ts: seq<RefreshToken>, userId: string, now: int)
    ensures LedgerStep(ts, LogoutSweep(ts, userId, now), now)
    ensures KeepsReplacements(ts, LogoutSweep(ts, userId, now))
  {
    LogoutSweepRevokesExactlyTheActive(ts, userId, now);
  }

  /** Logout keeps every record's id and bearer string, so it keeps every
      fresh id and bearer string fresh. */
  lemma LogoutSweepKeepsKeys(ts: seq<RefreshToken>, userId: string, now: int)
    ensures |LogoutSweep(ts, userId, now)| == |ts|
    ensures forall k :: 0 <= k < |ts| ==>
              LogoutSweep(ts, userId, now)[k].id == ts[k].id && LogoutSweep(ts, userId, now)[k].token == ts[k].token
    ensures forall id, token :: FreshRecord(ts, id, token) ==> FreshRecord(LogoutSweep(ts, userId, now), id, token)
  {
    var swept := LogoutSweep(ts, userId, now);
    if ts != [] {
      LogoutSweepAt(ts, userId, now, 0);
    }
    forall k | 0 <= k < |ts| ensures swept[k].id == ts[k].id && swept[k].token == ts[k].token {
      LogoutSweepAt(ts, userId, now, k);
    }
  }

  /** After its owner logs out, a bearer string still resolves to the same
      record, and that record is inactive from then on. */
  lemma SweptTokenIsDead(ts: seq<RefreshToken>, userId: string, token: string, now: int, later: int)
    requires IndexOfToken(ts, token).Some? && ts[IndexOfToken(ts, token).value].userId == userId
    requires now <= later
    ensures IndexOfToken(LogoutSweep(ts, userId, now), token) == IndexOfToken(ts, token)
    ensures !IsActive(LogoutSweep(ts, userId, now)[IndexOfToken(ts, token).value], later)
  {
    var swept := LogoutSweep(ts, userId, now);
    var i := IndexOfToken(ts, token).value;
    LogoutSweepKeepsKeys(ts, userId, now);
    SameTokensSameIndex(ts, swept, token);
    LogoutSweepAt(ts, userId, now, i);
    InactiveStaysInactive(swept[i], now, later);
  }

  /** A record inactive at `earlier` is left alone by a write at `later`,
      and is still inactive then. */
  lemma LedgerStepKeepsInactive(before: seq<RefreshToken>, after: seq<RefreshToken>, earlier: int, later: int, n: nat)
    requires LedgerStep(before, after, later) && earlier <= later
    requires n < |before| && !IsActive(before[n], earlier)
    ensures n < |after| && after[n] == before[n] && !IsActive(after[n], later)
  {
    InactiveStaysInactive(before[n], earlier, later);
  }

  /** A run of operations at non-decreasing times, each following the
      ledger discipline. */
  predicate Trace(states: seq<seq<RefreshToken>>, times: seq<int>)
  {
    |states| == |times| &&
    forall k :: 0 < k < |states| ==> times[k - 1] <= times[k] && LedgerStep(states[k - 1], states[k], times[k])
  }

  /** The key invariant: once a record is inactive (revoked or expired) it
      is never active again and is never written again, so its revocation
      fields are set at most once. */
  lemma {:induction false} NeverReactivated(states: seq<seq<RefreshToken>>, times: seq<int>, i: nat, j: nat, n: nat)
    requires Trace(states, times) && i <= j < |states|
    requires n < |states[i]| && !IsActive(states[i][n], times[i])
    ensures n < |states[j]| && states[j][n] == states[i][n] && !IsActive(states[j][n], times[j])
    decreases j - i
  {
    if i < j {
      NeverReactivated(states, times, i, j - 1, n);
      LedgerStepKeepsInactive(states[j - 1], states[j], times[j - 1], times[j], n);
    }
  }

  /** Appending a fresh, coherent record keeps the table well formed. */
  lemma AppendKeepsLedgerWellFormed(ts: seq<RefreshToken>, t: RefreshToken)
    requires LedgerWellFormed(ts) && FreshRecord(ts, t.id, t.token) && RevocationFieldsCoherent(t)
    ensures LedgerWellFormed(ts + [t])
  {
    AppendKeepsDistinct(ts, IdKey, t);
    AppendKeepsDistinct(ts, TokenKey, t);
  }

  /** Rewriting a record's revocation fields coherently keeps the table well
      formed. */
  lemma UpdateKeepsLedgerWellFormed(ts: seq<RefreshToken>, i: nat, t: RefreshToken)
    requires LedgerWellFormed(ts) && i < |ts|
    requires t.id == ts[i].id && t.token == ts[i].token && RevocationFieldsCoherent(t)
    ensures LedgerWellFormed(ts[i := t])
  {
    UpdateKeepsDistinct(ts, IdKey, i, t);
    UpdateKeepsDistinct(ts, TokenKey, i, t);
  }
}
