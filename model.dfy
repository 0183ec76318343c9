/**
 * The entities (User, Subscription), the DTOs the services exchange with their
 * callers, and the field copies the MapStruct mappers perform.
 * A Java `String` that may be null is an `Option<string>`; a `Long` id that
 * the client may leave out is an `Option<int>`.
 */
module Model {
  import opened Wrappers

  /** A clock reading; `LocalDateTime.now()` at creation time. */
  type Timestamp = int

  /** The `users` row. */
  datatype User = User(id: int, name: Option<string>, email: Option<string>)

  /** The `subscriptions` row; `owner` is the id behind the lazy `user` reference. */
  datatype Subscription = Subscription(
    id: int,
    owner: int,
    serviceName: string,
    notificationEnabled: bool,
    createdAt: Timestamp)

  datatype UserDto = UserDto(id: Option<int>, name: Option<string>, email: Option<string>)

  datatype SubscriptionDto = SubscriptionDto(
    id: Option<int>,
    userId: Option<int>,
    serviceName: string,
    notificationEnabled: bool)

  /** One line of the top-subscriptions answer. */
  datatype TopEntry = TopEntry(serviceName: string, count: nat)

  /** `UserMapper.userToUserDTO`: every field copied. */
  function UserToDto(u: User): (d: UserDto)
    ensures d.id == Some(u.id)
  {
    UserDto(Some(u.id), u.name, u.email)
  }

  /** The entity `UserMapper.userDTOToUser` builds, once the store has given it the id `id`. */
  function UserFromDto(id: int, d: UserDto): (u: User)
    ensures u.id == id
  {
    User(id, d.name, d.email)
  }

  /** Entity to DTO and back loses nothing; DTO to entity and back loses only the client's id. */
  lemma UserMappingRoundTrip(u: User, d: UserDto, id: int)
    ensures UserFromDto(u.id, UserToDto(u)) == u
    ensures UserToDto(UserFromDto(id, d)) == d.(id := Some(id))
  {
  }

  /** `SubscriptionMapper.toSubscriptionDTO`: `user.id` becomes `userId`. */
  function SubscriptionToDto(s: Subscription): (d: SubscriptionDto)
    ensures d.id == Some(s.id) && d.userId == Some(s.owner)
    ensures d.serviceName == s.serviceName && d.notificationEnabled == s.notificationEnabled
  {
    SubscriptionDto(Some(s.id), Some(s.owner), s.serviceName, s.notificationEnabled)
  }

  /**
   * `UserMapper.updateUserFromDto` with `NullValuePropertyMappingStrategy.IGNORE`:
   * a field the DTO leaves null keeps its stored value, a non-null field
   * overwrites it. The id is no exception: a non-null DTO id is copied too.
   */
  function MergeUser(dto: UserDto, u: User): (r: User)
    ensures dto.id.None? ==> r.id == u.id
    ensures dto.id.Some? ==> r.id == dto.id.value
    ensures dto.name.None? ==> r.name == u.name
    ensures dto.name.Some? ==> r.name == dto.name
    ensures dto.email.None? ==> r.email == u.email
    ensures dto.email.Some? ==> r.email == dto.email
  {
    User(if dto.id.Some? then dto.id.value else u.id,
         if dto.name.Some? then dto.name else u.name,
         if dto.email.Some? then dto.email else u.email)
  }

  /** Applying the same partial update twice changes nothing the first did not. */
  lemma MergeIdempotent(dto: UserDto, u: User)
    ensures MergeUser(dto, MergeUser(dto, u)) == MergeUser(dto, u)
  {
  }

  /** A DTO with name and email null changes at most the id, and nothing when it carries no other id. */
  lemma MergeEmptyIsIdentity(id: Option<int>, u: User)
    ensures MergeUser(UserDto(id, None, None), u) == if id.Some? then u.(id := id.value) else u
    ensures id.None? || id == Some(u.id) ==> MergeUser(UserDto(id, None, None), u) == u
  {
  }

  /** A DTO with both fields set replaces the whole user; the id only when the DTO carries one. */
  lemma MergeFullReplaces(dto: UserDto, u: User)
    requires dto.name.Some? && dto.email.Some?
    ensures MergeUser(dto, u) == UserFromDto(if dto.id.Some? then dto.id.value else u.id, dto)
  {
  }
}
