/** UserMapper: conversion between the stored user and its transfer shape. */
module UserMapper {
  import opened Results
  import opened Domain

  /** UserDto: the user as exchanged with clients. */
  datatype UserDto = UserDto(id: Option<int>, name: string, email: string)

  /** toDto: copies id, name and e-mail. */
  function ToDto(u: User): (d: UserDto)
    ensures d.id == u.id && d.name == u.name && d.email == u.email
  {
    UserDto(u.id, u.name, u.email)
  }

  /** toModel: copies id, name and e-mail. */
  function ToModel(d: UserDto): (u: User)
    ensures u.id == d.id && u.name == d.name && u.email == d.email
  {
    User(d.id, d.name, d.email)
  }

  /** A user survives the trip to the transfer shape and back. */
  lemma ModelRoundTrip(u: User)
    ensures ToModel(ToDto(u)) == u
  {
  }

  /** A transfer value survives the trip to the stored shape and back. */
  lemma DtoRoundTrip(d: UserDto)
    ensures ToDto(ToModel(d)) == d
  {
  }

  /** Distinct users have distinct transfer values: toDto loses nothing. */
  lemma ToDtoInjective(u: User, v: User)
    ensures ToDto(u) == ToDto(v) ==> u == v
  {
    if ToDto(u) == ToDto(v) {
      ModelRoundTrip(u);
      ModelRoundTrip(v);
    }
  }
}
