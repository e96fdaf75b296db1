/** The database context: the user, refresh-token and favourite-location
    tables and the constraints the schema puts on them. */
module ApplicationDb {
  import opened Wrappers
  import opened Tables
  import opened Entities
  import opened RefreshTokens
  import opened TokenLedger
  import opened UserStore

  /** What `SaveChanges` reports when a row names a user that does not exist. */
  datatype SaveError = ForeignKeyViolation

  function FavoriteIdKey(f: FavoriteLocation): string { f.id }

  /** The unique index on (UserId, LocationName). */
  function FavoriteKey(f: FavoriteLocation): (string, string) { (f.userId, f.locationName) }

  predicate FavoritesWellFormed(favs: seq<FavoriteLocation>)
  {
    KeysDistinct(favs, FavoriteIdKey) && KeysDistinct(favs, FavoriteKey)
  }

  /** Every refresh token and every favourite belongs to an existing user. */
  predicate OwnersExist(users: seq<ApplicationUser>, tokens: seq<RefreshToken>, favs: seq<FavoriteLocation>)
  {
    (forall i :: 0 <= i < |tokens| ==> HasUser(users, tokens[i].userId)) &&
    (forall i :: 0 <= i < |favs| ==> HasUser(users, favs[i].userId))
  }

  /** All the schema's constraints together. */
  predicate Consistent(users: seq<ApplicationUser>, tokens: seq<RefreshToken>, favs: seq<FavoriteLocation>)
  {
    UsersWellFormed(users) && LedgerWellFormed(tokens) && FavoritesWellFormed(favs) &&
    OwnersExist(users, tokens, favs)
  }

  function UsersExcept(users: seq<ApplicationUser>, userId: string): (r: seq<ApplicationUser>)
    ensures forall u :: u in r <==> u in users && u.id != userId
  {
    Filter(users, (u: ApplicationUser) => u.id != userId)
  }

  function TokensNotOwnedBy(tokens: seq<RefreshToken>, userId: string): (r: seq<RefreshToken>)
    ensures forall t :: t in r <==> t in tokens && t.userId != userId
  {
    Filter(tokens, (t: RefreshToken) => t.userId != userId)
  }

  function FavoritesNotOwnedBy(favs: seq<FavoriteLocation>, userId: string): (r: seq<FavoriteLocation>)
    ensures forall f :: f in r <==> f in favs && f.userId != userId
  {
    Filter(favs, (f: FavoriteLocation) => f.userId != userId)
  }

  /** Deleting a user with its tokens and favourites, as the cascade does,
      keeps every constraint. */
  lemma CascadeKeepsConsistent(users: seq<ApplicationUser>, tokens: seq<RefreshToken>,
                               favs: seq<FavoriteLocation>, userId: string)
    requires Consistent(users, tokens, favs)
    ensures Consistent(UsersExcept(users, userId), TokensNotOwnedBy(tokens, userId), FavoritesNotOwnedBy(favs, userId))
  {
    var users', tokens', favs' := UsersExcept(users, userId), TokensNotOwnedBy(tokens, userId), FavoritesNotOwnedBy(favs, userId);
    FilterKeepsDistinct(users, (u: ApplicationUser) => u.id != userId, UserIdKey);
    FilterKeepsDistinct(users, (u: ApplicationUser) => u.id != userId, EmailKey);
    FilterKeepsDistinct(tokens, (t: RefreshToken) => t.userId != userId, IdKey);
    FilterKeepsDistinct(tokens, (t: RefreshToken) => t.userId != userId, TokenKey);
    FilterKeepsDistinct(favs, (f: FavoriteLocation) => f.userId != userId, FavoriteIdKey);
    FilterKeepsDistinct(favs, (f: FavoriteLocation) => f.userId != userId, FavoriteKey);
    forall i | 0 <= i < |tokens'| ensures RevocationFieldsCoherent(tokens'[i]) && HasUser(users', tokens'[i].userId) {
      assert tokens'[i] in tokens;
      var j :| 0 <= j < |tokens| && tokens[j] == tokens'[i];
      assert HasUser(users, tokens[j].userId);
      var u :| u in users && u.id == tokens[j].userId;
      assert u in users';
    }
    forall i | 0 <= i < |favs'| ensures HasUser(users', favs'[i].userId) {
      assert favs'[i] in favs;
      var j :| 0 <= j < |favs| && favs[j] == favs'[i];
      assert HasUser(users, favs[j].userId);
      var u :| u in users && u.id == favs[j].userId;
      assert u in users';
    }
  }

  /** Adding a user with a new id and e-mail keeps every constraint. */
  lemma AddUserKeepsConsistent(users: seq<ApplicationUser>, tokens: seq<RefreshToken>,
                               favs: seq<FavoriteLocation>, u: ApplicationUser)
    requires Consistent(users, tokens, favs)
    requires KeyAbsent(users, UserIdKey, u.id) && KeyAbsent(users, EmailKey, u.email)
    ensures Consistent(users + [u], tokens, favs) && HasUser(users + [u], u.id)
  {
    AppendKeepsDistinct(users, UserIdKey, u);
    AppendKeepsDistinct(users, EmailKey, u);
    assert u in users + [u];
    forall id | HasUser(users, id) ensures HasUser(users + [u], id) {
      var w :| w in users && w.id == id;
      assert w in users + [u];
    }
  }

  /** Rewriting a user's fields other than id and e-mail keeps every
      constraint. */
  lemma UpdateUserKeepsConsistent(users: seq<ApplicationUser>, tokens: seq<RefreshToken>,
                                  favs: seq<FavoriteLocation>, i: nat, u: ApplicationUser)
    requires Consistent(users, tokens, favs) && i < |users|
    requires u.id == users[i].id && u.email == users[i].email
    ensures Consistent(users[i := u], tokens, favs)
  {
    UpdateKeepsDistinct(users, UserIdKey, i, u);
    UpdateKeepsDistinct(users, EmailKey, i, u);
    forall id | HasUser(users, id) ensures HasUser(users[i := u], id) {
      UpdateUserKeepsKeys(users, i, u, id);
    }
  }

  /** Adding a fresh token record for an existing user keeps every
      constraint. */
  lemma AddTokenKeepsConsistent(users: seq<ApplicationUser>, tokens: seq<RefreshToken>,
                                favs: seq<FavoriteLocation>, t: RefreshToken)
    requires Consistent(users, tokens, favs)
    requires HasUser(users, t.userId) && FreshRecord(tokens, t.id, t.token) && RevocationFieldsCoherent(t)
    ensures Consistent(users, tokens + [t], favs)
  {
    AppendKeepsLedgerWellFormed(tokens, t);
  }

  /** Writing the revocation fields of a token record keeps every
      constraint. */
  lemma UpdateTokenKeepsConsistent(users: seq<ApplicationUser>, tokens: seq<RefreshToken>,
                                   favs: seq<FavoriteLocation>, i: nat, t: RefreshToken)
    requires Consistent(users, tokens, favs) && i < |tokens|
    requires t.id == tokens[i].id && t.token == tokens[i].token && t.userId == tokens[i].userId
    requires RevocationFieldsCoherent(t)
    ensures Consistent(users, tokens[i := t], favs)
  {
    UpdateKeepsLedgerWellFormed(tokens, i, t);
  }

  /** Adding a favourite of an existing user, with a new id and a new
      (UserId, LocationName) pair, keeps every constraint. */
  lemma AddFavoriteKeepsConsistent(users: seq<ApplicationUser>, tokens: seq<RefreshToken>,
                                   favs: seq<FavoriteLocation>, f: FavoriteLocation)
    requires Consistent(users, tokens, favs) && HasUser(users, f.userId)
    requires KeyAbsent(favs, FavoriteIdKey, f.id) && KeyAbsent(favs, FavoriteKey, FavoriteKey(f))
    ensures Consistent(users, tokens, favs + [f])
  {
    AppendKeepsDistinct(favs, FavoriteIdKey, f);
    AppendKeepsDistinct(favs, FavoriteKey, f);
  }

  /** Deleting one favourite keeps every constraint. */
  lemma RemoveFavoriteKeepsConsistent(users: seq<ApplicationUser>, tokens: seq<RefreshToken>,
                                      favs: seq<FavoriteLocation>, i: nat)
    requires Consistent(users, tokens, favs) && i < |favs|
    ensures Consistent(users, tokens, RemoveAt(favs, i))
  {
    RemoveAtKeepsDistinct(favs, FavoriteIdKey, i);
    RemoveAtKeepsDistinct(favs, FavoriteKey, i);
    var r := RemoveAt(favs, i);
    forall k | 0 <= k < |r| ensures HasUser(users, r[k].userId) {
      assert r[k] == favs[if k < i then k else k + 1];
    }
  }

  class Database {
    var users: seq<ApplicationUser>
    var refreshTokens: seq<RefreshToken>
    var favoriteLocations: seq<FavoriteLocation>

    predicate Valid()
      reads this
    {
      Consistent(users, refreshTokens, favoriteLocations)
    }

    /** An empty database. */
    constructor ()
      ensures Valid()
      ensures users == [] && refreshTokens == [] && favoriteLocations == []
    {
      users, refreshTokens, favoriteLocations := [], [], [];
    }

    /** Deletes a user; the cascade removes that user's refresh tokens and
        favourites and nothing else. */
    method DeleteUser(userId: string) returns (deleted: bool)
      requires Valid()
      modifies this
      ensures Valid()
      ensures deleted <==> HasUser(old(users), userId)
      ensures users == UsersExcept(old(users), userId)
      ensures refreshTokens == TokensNotOwnedBy(old(refreshTokens), userId)
      ensures favoriteLocations == FavoritesNotOwnedBy(old(favoriteLocations), userId)
    {
      deleted := FindById(users, userId).Some?;
      CascadeKeepsConsistent(users, refreshTokens, favoriteLocations, userId);
      users := UsersExcept(users, userId);
      refreshTokens := TokensNotOwnedBy(refreshTokens, userId);
      favoriteLocations := FavoritesNotOwnedBy(favoriteLocations, userId);
    }
  }
}
