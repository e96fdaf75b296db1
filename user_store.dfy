/** The part of the identity store the authentication service relies on:
    the user table, its lookups and the password check. */
module UserStore {
  import opened Wrappers
  import opened Tables
  import opened Entities

  /** The role every new account is given; it is seeded at start-up. */
  const DefaultRole: string := "User"

  function UserIdKey(u: ApplicationUser): string { u.id }

  function EmailKey(u: ApplicationUser): string { u.email }

  /** Identity keys users by id and, with unique e-mail required, by e-mail. */
  predicate UsersWellFormed(users: seq<ApplicationUser>)
  {
    KeysDistinct(users, UserIdKey) && KeysDistinct(users, EmailKey)
  }

  predicate HasUser(users: seq<ApplicationUser>, id: string)
  {
    exists u :: u in users && u.id == id
  }

  /** `FindByIdAsync`: the position of the user with this id. */
  function FindById(users: seq<ApplicationUser>, id: string): (r: Option<nat>)
    ensures r.Some? ==> r.value < |users| && users[r.value].id == id
    ensures r.None? <==> !HasUser(users, id)
  {
    FirstIndex(users, (u: ApplicationUser) => u.id == id)
  }

  /** `FindByEmailAsync`: the position of the user with this e-mail. */
  function FindByEmail(users: seq<ApplicationUser>, email: string): (r: Option<nat>)
    ensures r.Some? ==> r.value < |users| && users[r.value].email == email
    ensures r.None? <==> forall u :: u in users ==> u.email != email
  {
    FirstIndex(users, (u: ApplicationUser) => u.email == email)
  }

  /** `CheckPasswordAsync`, with hashing left out. */
  predicate CheckPassword(user: ApplicationUser, password: string)
  {
    user.credential == password
  }

  /** Some user has this e-mail and this password. */
  predicate CredentialsMatch(users: seq<ApplicationUser>, email: string, password: string)
  {
    exists u :: u in users && u.email == email && CheckPassword(u, password)
  }

  /** With unique e-mails, the user found by e-mail is the only candidate:
      the credentials match exactly when that user's password does. */
  lemma FindByEmailDecidesCredentials(users: seq<ApplicationUser>, email: string, password: string)
    requires UsersWellFormed(users)
    ensures CredentialsMatch(users, email, password) <==>
              FindByEmail(users, email).Some? && CheckPassword(users[FindByEmail(users, email).value], password)
  {
    var f := FindByEmail(users, email);
    if CredentialsMatch(users, email, password) {
      var u :| u in users && u.email == email && CheckPassword(u, password);
      var j :| 0 <= j < |users| && users[j] == u;
      assert f.Some?;
    }
  }

  /** Updating a user in place without touching id or e-mail keeps the
      table's keys unique and every id resolvable. */
  lemma UpdateUserKeepsKeys(users: seq<ApplicationUser>, i: nat, u: ApplicationUser, id: string)
    requires UsersWellFormed(users) && i < |users|
    requires u.id == users[i].id && u.email == users[i].email
    requires HasUser(users, id)
    ensures UsersWellFormed(users[i := u]) && HasUser(users[i := u], id)
  {
    UpdateKeepsDistinct(users, UserIdKey, i, u);
    UpdateKeepsDistinct(users, EmailKey, i, u);
    var w :| w in users && w.id == id;
    var j :| 0 <= j < |users| && users[j] == w;
    if j == i {
      assert users[i := u][i] == u;
    } else {
      assert users[i := u][j] == w;
    }
  }
}
