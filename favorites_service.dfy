/** The favourite-locations service: the per-user list, newest first, and
    keyed add, remove and membership test. */
module Favorites {
  import opened Wrappers
  import opened Tables
  import opened Entities
  import opened UserStore
  import opened ApplicationDb

  /** A list entry: the location name and when it was saved (the service
      formats the instant as an ISO 8601 round-trip string). */
  datatype FavoriteLocationView = FavoriteLocationView(name: string, savedAt: int)

  datatype FavoriteResponse = FavoriteResponse(success: bool, locations: seq<FavoriteLocationView>)

  function View(f: FavoriteLocation): FavoriteLocationView
  {
    FavoriteLocationView(f.locationName, f.savedAt)
  }

  /** The `Select` projection: entry i is `View` of row i. */
  function Views(rows: seq<FavoriteLocation>): seq<FavoriteLocationView>
  {
    seq(|rows|, i requires 0 <= i < |rows| => View(rows[i]))
  }

  /** The rows of one user, in table order. */
  function RowsOf(rows: seq<FavoriteLocation>, userId: string): (r: seq<FavoriteLocation>)
    ensures forall f :: f in r <==> f in rows && f.userId == userId
  {
    Filter(rows, (f: FavoriteLocation) => f.userId == userId)
  }

  predicate NewestFirst(vs: seq<FavoriteLocationView>)
  {
    forall i, j :: 0 <= i < j < |vs| ==> vs[i].savedAt >= vs[j].savedAt
  }

  /** Places `v` into a newest-first list, ahead of the entries saved at the
      same instant. */
  function InsertNewestFirst(v: FavoriteLocationView, vs: seq<FavoriteLocationView>): (r: seq<FavoriteLocationView>)
    ensures multiset(r) == multiset(vs) + multiset{v}
    ensures |r| == |vs| + 1
  {
    if vs == [] || v.savedAt >= vs[0].savedAt then [v] + vs
    else
      assert vs == [vs[0]] + vs[1..];
      [vs[0]] + InsertNewestFirst(v, vs[1..])
  }

  /** Inserting into a newest-first list keeps it newest first; the result
      is led by the new entry or by the old head. */
  lemma {:induction false} InsertKeepsNewestFirst(v: FavoriteLocationView, vs: seq<FavoriteLocationView>)
    requires NewestFirst(vs)
    ensures NewestFirst(InsertNewestFirst(v, vs))
    ensures InsertNewestFirst(v, vs)[0] == v || (vs != [] && InsertNewestFirst(v, vs)[0] == vs[0])
  {
    if vs == [] || v.savedAt >= vs[0].savedAt {
      PrependKeepsNewestFirst(v, vs);
    } else {
      var rest := InsertNewestFirst(v, vs[1..]);
      InsertKeepsNewestFirst(v, vs[1..]);
      PrependKeepsNewestFirst(vs[0], rest);
    }
  }

  /** An entry no older than the head of a newest-first list can lead it. */
  lemma PrependKeepsNewestFirst(v: FavoriteLocationView, vs: seq<FavoriteLocationView>)
    requires NewestFirst(vs) && (vs != [] ==> v.savedAt >= vs[0].savedAt)
    ensures NewestFirst([v] + vs)
  {
    var r := [v] + vs;
    forall i, j | 0 <= i < j < |r| ensures r[i].savedAt >= r[j].savedAt {
      assert r[j] == vs[j - 1];
      if i > 0 {
        assert r[i] == vs[i - 1];
      } else if j > 1 {
        assert vs[0].savedAt >= vs[j - 1].savedAt;
      }
    }
  }

  /** `OrderByDescending(SavedAt)`: the same entries, newest first. */
  function SortNewestFirst(vs: seq<FavoriteLocationView>): (r: seq<FavoriteLocationView>)
    ensures NewestFirst(r)
    ensures multiset(r) == multiset(vs)
  {
    if vs == [] then []
    else
      assert vs == [vs[0]] + vs[1..];
      var rest := SortNewestFirst(vs[1..]);
      InsertKeepsNewestFirst(vs[0], rest);
      InsertNewestFirst(vs[0], rest)
  }

  /** The list the service returns for `userId`: exactly the user's rows,
      each shown by its location name and save time, newest first. */
  function FavoriteList(rows: seq<FavoriteLocation>, userId: string): (r: seq<FavoriteLocationView>)
    ensures NewestFirst(r)
    ensures multiset(r) == multiset(Views(RowsOf(rows, userId)))
    ensures forall f :: f in rows && f.userId == userId ==> View(f) in r
    ensures forall v :: v in r ==> exists f :: f in rows && f.userId == userId && View(f) == v
  {
    var mine := RowsOf(rows, userId);
    var r := SortNewestFirst(Views(mine));
    assert forall f :: f in mine ==> View(f) in r by {
      forall f | f in mine ensures View(f) in r {
        var k :| 0 <= k < |mine| && mine[k] == f;
        assert Views(mine)[k] == View(f);
        assert View(f) in multiset(Views(mine));
      }
    }
    assert forall v :: v in r ==> exists f :: f in mine && View(f) == v by {
      forall v | v in r ensures exists f :: f in mine && View(f) == v {
        assert v in multiset(Views(mine));
        var k :| 0 <= k < |Views(mine)| && Views(mine)[k] == v;
        assert mine[k] in mine;
      }
    }
    r
  }

  /** Some row has this user and location name. */
  predicate HasFavorite(rows: seq<FavoriteLocation>, userId: string, location: string)
  {
    exists f :: f in rows && f.userId == userId && f.locationName == location
  }

  /** The lookup `FirstOrDefaultAsync` on (UserId, LocationName). */
  function IndexOfFavorite(rows: seq<FavoriteLocation>, userId: string, location: string): (r: Option<nat>)
    ensures r.Some? ==> r.value < |rows| && rows[r.value].userId == userId && rows[r.value].locationName == location
    ensures r.None? <==> !HasFavorite(rows, userId, location)
  {
    FirstIndex(rows, (f: FavoriteLocation) => f.userId == userId && f.locationName == location)
  }

  /** With (UserId, LocationName) unique, removing the matching row leaves
      the pair absent. */
  lemma RemovedIsNoLongerFavorite(rows: seq<FavoriteLocation>, i: nat)
    requires FavoritesWellFormed(rows) && i < |rows|
    ensures !HasFavorite(RemoveAt(rows, i), rows[i].userId, rows[i].locationName)
  {
    RemoveAtDropsKey(rows, FavoriteKey, i);
    var r := RemoveAt(rows, i);
    forall f | f in r ensures FavoriteKey(f) != FavoriteKey(rows[i]) {
      var j :| 0 <= j < |r| && r[j] == f;
    }
  }

  class FavoritesService {
    const context: Database

    constructor (context: Database)
      ensures this.context == context
    {
      this.context := context;
    }

    method GetFavoriteLocations(userId: string) returns (locations: seq<FavoriteLocationView>)
      ensures NewestFirst(locations)
      ensures locations == FavoriteList(context.favoriteLocations, userId)
    {
      locations := FavoriteList(context.favoriteLocations, userId);
    }

    method AddToFavorites(userId: string, location: string, latitude: Coordinate, longitude: Coordinate,
                          now: int, newId: string)
      returns (r: Result<FavoriteResponse, SaveError>)
      requires context.Valid()
      requires KeyAbsent(context.favoriteLocations, FavoriteIdKey, newId)
      modifies context`favoriteLocations
      ensures context.Valid()
      ensures HasFavorite(old(context.favoriteLocations), userId, location) ==>
                context.favoriteLocations == old(context.favoriteLocations)
      ensures !HasFavorite(old(context.favoriteLocations), userId, location) && HasUser(context.users, userId) ==>
                context.favoriteLocations ==
                  old(context.favoriteLocations) + [FavoriteLocation(newId, userId, location, latitude, longitude, now)]
      ensures !HasFavorite(old(context.favoriteLocations), userId, location) && !HasUser(context.users, userId) ==>
                context.favoriteLocations == old(context.favoriteLocations) && r == Err(ForeignKeyViolation)
      ensures r.Ok? ==> r.value == FavoriteResponse(true, FavoriteList(context.favoriteLocations, userId))
      ensures r.Ok? <==> HasUser(context.users, userId)
    {
      var existing := IndexOfFavorite(context.favoriteLocations, userId, location);
      if existing.None? {
        if FindById(context.users, userId).None? {
          return Err(ForeignKeyViolation);
        }
        var favorite := FavoriteLocation(newId, userId, location, latitude, longitude, now);
        assert KeyAbsent(context.favoriteLocations, FavoriteKey, FavoriteKey(favorite)) by {
          forall i | 0 <= i < |context.favoriteLocations|
            ensures FavoriteKey(context.favoriteLocations[i]) != FavoriteKey(favorite)
          {
            assert context.favoriteLocations[i] in context.favoriteLocations;
          }
        }
        AddFavoriteKeepsConsistent(context.users, context.refreshTokens, context.favoriteLocations, favorite);
        context.favoriteLocations := context.favoriteLocations + [favorite];
      } else {
        assert context.favoriteLocations[existing.value] in context.favoriteLocations;
      }
      var locations := GetFavoriteLocations(userId);
      r := Ok(FavoriteResponse(true, locations));
    }

    method RemoveFromFavorites(userId: string, location: string) returns (r: FavoriteResponse)
      requires context.Valid()
      modifies context`favoriteLocations
      ensures context.Valid()
      ensures r.success <==> HasFavorite(old(context.favoriteLocations), userId, location)
      ensures r.success ==>
                var i := IndexOfFavorite(old(context.favoriteLocations), userId, location).value;
                context.favoriteLocations == RemoveAt(old(context.favoriteLocations), i)
      ensures !r.success ==> context.favoriteLocations == old(context.favoriteLocations)
      ensures !HasFavorite(context.favoriteLocations, userId, location)
      ensures r.locations == FavoriteList(context.favoriteLocations, userId)
    {
      var found := IndexOfFavorite(context.favoriteLocations, userId, location);
      if found.Some? {
        var i := found.value;
        RemovedIsNoLongerFavorite(context.favoriteLocations, i);
        RemoveFavoriteKeepsConsistent(context.users, context.refreshTokens, context.favoriteLocations, i);
        context.favoriteLocations := RemoveAt(context.favoriteLocations, i);
        var locations := GetFavoriteLocations(userId);
        return FavoriteResponse(true, locations);
      }
      var locations := GetFavoriteLocations(userId);
      r := FavoriteResponse(false, locations);
    }

    method IsLocationFavorite(userId: string, location: string) returns (b: bool)
      ensures b <==> HasFavorite(context.favoriteLocations, userId, location)
    {
      b := IndexOfFavorite(context.favoriteLocations, userId, location).Some?;
    }
  }
}
