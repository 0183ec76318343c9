/**
 * UserService: create, read, partial update, delete and list users. A
 * missing id always ends in `userNotFound(id)`.
 */
module UserService {
  import opened Wrappers
  import opened Model
  import opened ExceptionFactory
  import opened UserRepository
  import opened Store

  class UserService {
    const db: Database

    constructor (db: Database)
      ensures this.db == db
    {
      this.db := db;
    }

    /** `findUserById`: the stored entity, or `userNotFound(id)`. */
    function FindUserById(id: int): (r: Result<User, ServiceError>)
      reads db
      ensures r.Success? <==> id in UserIds(db.users)
      ensures r.Success? ==> r.value in db.users && r.value.id == id
      ensures r.Failure? ==> r.error == UserNotFoundError(id)
    {
      match FindUser(db.users, id)
      case Some(u) => Success(u)
      case None => Failure(UserNotFoundError(id))
    }

    /** `findUserDTOById`: the stored fields as a DTO, or `userNotFound(id)`. */
    function FindUserDtoById(id: int): (r: Result<UserDto, ServiceError>)
      reads db
      ensures r.Success? <==> id in UserIds(db.users)
      ensures r.Success? ==> r.value.id == Some(id) && UserFromDto(id, r.value) in db.users
      ensures r.Failure? ==> r.error == UserNotFoundError(id)
    {
      match FindUserById(id)
      case Success(u) =>
        UserMappingRoundTrip(u, UserToDto(u), id);
        Success(UserToDto(u))
      case Failure(e) => Failure(e)
    }

    /** `createUser`: stores the DTO's name and email under a fresh id and returns them with that id. */
    method CreateUser(dto: UserDto) returns (r: UserDto)
      requires db.Valid()
      modifies db
      ensures db.Valid()
      ensures r.id == Some(old(db.nextUserId)) && r.id.value !in old(UserIds(db.users))
      ensures r == dto.(id := r.id)
      ensures db.users == old(db.users) + [UserFromDto(r.id.value, dto)]
      ensures db.nextUserId == old(db.nextUserId) + 1
      ensures db.subscriptions == old(db.subscriptions) && db.nextSubscriptionId == old(db.nextSubscriptionId)
    {
      var created := db.InsertUser(dto.name, dto.email);
      r := UserToDto(created);
    }

    /**
     * `updateUser`: loads the entity, merges the non-null DTO fields into it
     * and returns the merged state, which the transaction writes back. A DTO
     * id other than `id` is merged too, and the flush at commit then refuses
     * the changed identifier, so the whole update fails and nothing is written.
     */
    method UpdateUser(id: int, dto: UserDto) returns (r: Result<UserDto, ServiceError>)
      requires db.Valid()
      modifies db
      ensures db.Valid()
      ensures db.subscriptions == old(db.subscriptions)
      ensures db.nextUserId == old(db.nextUserId) && db.nextSubscriptionId == old(db.nextSubscriptionId)
      ensures id !in old(UserIds(db.users)) ==>
                r == Failure(UserNotFoundError(id)) && db.users == old(db.users)
      ensures id in old(UserIds(db.users)) && dto.id.Some? && dto.id.value != id ==>
                r == Failure(IdentifierAltered(id, dto.id.value)) && db.users == old(db.users)
      ensures id in old(UserIds(db.users)) && (dto.id.None? || dto.id == Some(id)) ==>
                var merged := MergeUser(dto, old(FindUser(db.users, id)).value);
                && merged.id == id
                && r == Success(UserToDto(merged))
                && db.users == WithUser(old(db.users), merged)
    {
      var found := FindUserById(id);
      if found.Failure? {
        return Failure(found.error);
      }
      FindUserLocatesRow(db.users, found.value);
      var merged := MergeUser(dto, found.value);
      if merged.id != id {
        return Failure(IdentifierAltered(id, merged.id));
      }
      db.UpdateUserRow(merged);
      r := Success(UserToDto(merged));
    }

    /** `deleteUser`: removes exactly the row with that id, or fails with `userNotFound(id)`. */
    method DeleteUser(id: int) returns (r: Outcome<ServiceError>)
      requires db.Valid()
      modifies db
      ensures db.Valid()
      ensures db.subscriptions == old(db.subscriptions)
      ensures db.nextUserId == old(db.nextUserId) && db.nextSubscriptionId == old(db.nextSubscriptionId)
      ensures id !in old(UserIds(db.users)) ==>
                r == Fail(UserNotFoundError(id)) && db.users == old(db.users)
      ensures id in old(UserIds(db.users)) ==>
                r == Pass && db.users == WithoutUser(old(db.users), id)
    {
      if !(id in UserIds(db.users)) {
        return Fail(UserNotFoundError(id));
      }
      db.DeleteUserRow(id);
      r := Pass;
    }

    /** `getAllUsers`: one DTO per stored user, in table order; the store is only read. */
    function GetAllUsers(): (r: seq<UserDto>)
      reads db
      ensures |r| == |db.users|
      ensures forall u :: u in db.users ==> UserToDto(u) in r
      ensures forall d :: d in r ==> d.id.Some? && UserFromDto(d.id.value, d) in db.users
      ensures UniqueUserIds(db.users) ==> forall i, j :: 0 <= i < j < |r| ==> r[i].id != r[j].id
    {
      var r := AllUserDtos(db.users);
      assert forall i :: 0 <= i < |r| ==> r[i] == UserToDto(db.users[i]) by {
        forall i | 0 <= i < |r| ensures r[i] == UserToDto(db.users[i]) {
          UserMappingRoundTrip(db.users[i], r[i], db.users[i].id);
        }
      }
      forall u | u in db.users ensures UserToDto(u) in r {
        var k :| 0 <= k < |db.users| && db.users[k] == u;
        assert r[k] == UserToDto(u);
      }
      r
    }
  }
}
