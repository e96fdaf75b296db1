/** The access token: the claim set and expiry that are signed. Signing and
    serialisation are not modelled; an `AccessToken` value stands for the
    signed string, which is a function of it. */
module Jwt {
  import opened Entities

  /** Seconds an access token stays valid after it is issued (30 minutes). */
  const AccessTokenLifetime: int := 30 * 60

  /** Issuer and audience from configuration; start-up refuses to run
      without them, and without the signing key. */
  datatype JwtSettings = JwtSettings(issuer: string, audience: string)

  /** `sub`, `jti`, and the name-identifier, name, e-mail and role claim types. */
  datatype ClaimType = Sub | Jti | NameIdentifier | Name | Email | Role

  datatype Claim = Claim(kind: ClaimType, value: string)

  datatype AccessToken = AccessToken(issuer: string, audience: string, claims: seq<Claim>, expires: int)

  /** One role claim per role, in the order the role store lists them. */
  function RoleClaims(roles: seq<string>): seq<Claim>
  {
    if roles == [] then [] else [Claim(Role, roles[0])] + RoleClaims(roles[1..])
  }

  /** The claim list, built with the unique token id `jti`. */
  function Claims(user: ApplicationUser, jti: string): seq<Claim>
  {
    [Claim(Sub, user.email)] +
    ([Claim(Jti, jti)] +
    ([Claim(NameIdentifier, user.id)] +
    ([Claim(Name, user.userName)] +
    ([Claim(Email, user.email)] +
     RoleClaims(user.roles)))))
  }

  /** The values of the claims of one type, in order. */
  function ValuesOf(claims: seq<Claim>, kind: ClaimType): seq<string>
  {
    if claims == [] then []
    else (if claims[0].kind == kind then [claims[0].value] else []) + ValuesOf(claims[1..], kind)
  }

  /** The values of the claims of one type in a one-claim list. */
  function Single(c: Claim, kind: ClaimType): seq<string>
  {
    if c.kind == kind then [c.value] else []
  }

  lemma ValuesOfCons(c: Claim, rest: seq<Claim>, kind: ClaimType)
    ensures ValuesOf([c] + rest, kind) == Single(c, kind) + ValuesOf(rest, kind)
  {
    assert ([c] + rest)[1..] == rest;
  }

  /** The role claims carry exactly the roles, and nothing of another type. */
  lemma {:induction false} RoleClaimValues(roles: seq<string>, kind: ClaimType)
    ensures ValuesOf(RoleClaims(roles), kind) == if kind == Role then roles else []
  {
    if roles != [] {
      RoleClaimValues(roles[1..], kind);
      ValuesOfCons(Claim(Role, roles[0]), RoleClaims(roles[1..]), kind);
    }
  }

  /** The token minted for `user` at `now`: subject and e-mail claims carry
      the e-mail, the name-identifier claim the user id, the name claim the
      user name, one role claim per assigned role and nothing else of those
      types; it expires 30 minutes after `now`. */
  function IssueAccessToken(settings: JwtSettings, user: ApplicationUser, jti: string, now: int): (a: AccessToken)
    ensures a.issuer == settings.issuer && a.audience == settings.audience
    ensures a.expires == now + AccessTokenLifetime
    ensures ValuesOf(a.claims, Sub) == [user.email]
    ensures ValuesOf(a.claims, Jti) == [jti]
    ensures ValuesOf(a.claims, NameIdentifier) == [user.id]
    ensures ValuesOf(a.claims, Name) == [user.userName]
    ensures ValuesOf(a.claims, Email) == [user.email]
    ensures ValuesOf(a.claims, Role) == user.roles
  {
    forall kind: ClaimType
      ensures ValuesOf(Claims(user, jti), kind) ==
                Single(Claim(Sub, user.email), kind) + (Single(Claim(Jti, jti), kind) +
                (Single(Claim(NameIdentifier, user.id), kind) + (Single(Claim(Name, user.userName), kind) +
                (Single(Claim(Email, user.email), kind) + (if kind == Role then user.roles else [])))))
    {
      var roles := RoleClaims(user.roles);
      RoleClaimValues(user.roles, kind);
      ValuesOfCons(Claim(Email, user.email), roles, kind);
      ValuesOfCons(Claim(Name, user.userName), [Claim(Email, user.email)] + roles, kind);
      ValuesOfCons(Claim(NameIdentifier, user.id), [Claim(Name, user.userName)] + ([Claim(Email, user.email)] + roles), kind);
      ValuesOfCons(Claim(Jti, jti), [Claim(NameIdentifier, user.id)] + ([Claim(Name, user.userName)] + ([Claim(Email, user.email)] + roles)), kind);
      ValuesOfCons(Claim(Sub, user.email), [Claim(Jti, jti)] + ([Claim(NameIdentifier, user.id)] + ([Claim(Name, user.userName)] + ([Claim(Email, user.email)] + roles))), kind);
    }
    AccessToken(settings.issuer, settings.audience, Claims(user, jti), now + AccessTokenLifetime)
  }
}
