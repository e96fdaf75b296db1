/** The user and favourite-location rows of the domain layer. */
module Entities {
  import opened Wrappers

  /** A user as the identity store keeps it. `credential` stands for the
      stored password hash: the model compares it with the presented
      password instead of hashing. `roles` is what the role store reports
      for the user. */
  datatype ApplicationUser = ApplicationUser(
    id: string,
    userName: string,
    email: string,
    firstName: string,
    lastName: string,
    credential: string,
    roles: seq<string>,
    createdAt: int,
    lastLoginAt: Option<int>)

  /** A latitude or longitude: an IEEE double carried as payload, never
      computed on. */
  type Coordinate = real

  /** A saved location of one user. */
  datatype FavoriteLocation = FavoriteLocation(
    id: string,
    userId: string,
    locationName: string,
    latitude: Coordinate,
    longitude: Coordinate,
    savedAt: int)
}
