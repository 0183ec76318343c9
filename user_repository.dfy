/**
 * The `users` table as a sequence of rows in insertion order, and the
 * JpaRepository primitives UserService uses on it (findById, existsById,
 * save of a changed entity, deleteById, findAll).
 */
module UserRepository {
  import opened Wrappers
  import opened Model

  function UserIds(users: seq<User>): set<int> {
    set u | u in users :: u.id
  }

  /** The primary key: no two rows share an id. */
  ghost predicate UniqueUserIds(users: seq<User>) {
    forall i, j :: 0 <= i < j < |users| ==> users[i].id != users[j].id
  }

  /** `findById`: the row with that id, if any. */
  function FindUser(users: seq<User>, id: int): (r: Option<User>)
    ensures r.Some? <==> id in UserIds(users)
    ensures r.Some? ==> r.value in users && r.value.id == id
  {
    if users == [] then None
    else if users[0].id == id then Some(users[0])
    else
      assert users == [users[0]] + users[1..];
      FindUser(users[1..], id)
  }

  /** With unique ids, `findById` finds each stored row by its own id. */
  lemma {:induction false} FindUserLocatesRow(users: seq<User>, u: User)
    requires UniqueUserIds(users) && u in users
    ensures FindUser(users, u.id) == Some(u)
  {
    if users[0] != u {
      var t := users[1..];
      assert u in t;
      UniqueUserTail(users);
      FindUserLocatesRow(t, u);
    }
  }

  /** `deleteById`: every row except the one with that id, in the same order. */
  function WithoutUser(users: seq<User>, id: int): (r: seq<User>)
    ensures forall u :: u in r <==> u in users && u.id != id
    ensures UserIds(r) == UserIds(users) - {id}
    ensures id !in UserIds(users) ==> r == users
  {
    if users == [] then []
    else
      assert users == [users[0]] + users[1..];
      var rest := WithoutUser(users[1..], id);
      if users[0].id == id then rest else [users[0]] + rest
  }

  /** Deleting a row keeps the primary key. */
  lemma {:induction false} WithoutUserKeepsKey(users: seq<User>, id: int)
    ensures UniqueUserIds(users) ==> UniqueUserIds(WithoutUser(users, id))
  {
    if users != [] {
      assert users == [users[0]] + users[1..];
      var rest := WithoutUser(users[1..], id);
      WithoutUserKeepsKey(users[1..], id);
      UniqueUserTail(users);
      if users[0].id != id {
        assert WithoutUser(users, id) == [users[0]] + rest;
        PrependUniqueUser(users[0], rest);
      }
    }
  }

  /** Below the first row of a table with a primary key, its id does not occur again. */
  lemma UniqueUserTail(users: seq<User>)
    requires users != []
    ensures UniqueUserIds(users) ==> UniqueUserIds(users[1..]) && users[0].id !in UserIds(users[1..])
  {
    if UniqueUserIds(users) {
      var t := users[1..];
      forall i, j | 0 <= i < j < |t| ensures t[i].id != t[j].id { assert t[i] == users[i + 1] && t[j] == users[j + 1]; }
      forall v | v in t ensures v.id != users[0].id {
        var k :| 0 <= k < |t| && t[k] == v;
        assert users[k + 1] == v;
      }
    }
  }

  lemma PrependUniqueUser(h: User, t: seq<User>)
    ensures UniqueUserIds(t) && h.id !in UserIds(t) ==> UniqueUserIds([h] + t)
  {
    if UniqueUserIds(t) && h.id !in UserIds(t) {
      var s := [h] + t;
      forall i, j | 0 <= i < j < |s| ensures s[i].id != s[j].id {
        assert s[j] == t[j - 1];
        if i > 0 { assert s[i] == t[i - 1]; } else { assert s[j] in t; }
      }
    }
  }

  /** `save` of an existing entity: the row with `u`'s id becomes `u`, in place. */
  function WithUser(users: seq<User>, u: User): (r: seq<User>)
    ensures |r| == |users|
    ensures forall i :: 0 <= i < |r| ==> r[i].id == users[i].id
    ensures forall i :: 0 <= i < |r| && users[i].id != u.id ==> r[i] == users[i]
    ensures forall i :: 0 <= i < |r| && users[i].id == u.id ==> r[i] == u
  {
    seq(|users|, i requires 0 <= i < |users| => if users[i].id == u.id then u else users[i])
  }

  /** Replacing a row keeps the set of ids, the primary key, and every other row. */
  lemma WithUserEffect(users: seq<User>, u: User)
    requires UniqueUserIds(users) && u.id in UserIds(users)
    ensures UserIds(WithUser(users, u)) == UserIds(users)
    ensures UniqueUserIds(WithUser(users, u))
    ensures FindUser(WithUser(users, u), u.id) == Some(u)
    ensures forall v :: v in users && v.id != u.id ==> v in WithUser(users, u)
  {
    var r := WithUser(users, u);
    forall id | id in UserIds(users) ensures id in UserIds(r) {
      var v :| v in users && v.id == id;
      var k :| 0 <= k < |users| && users[k] == v;
      assert r[k].id == id;
    }
    forall v | v in users && v.id != u.id ensures v in r {
      var k :| 0 <= k < |users| && users[k] == v;
      assert r[k] == v;
    }
    assert u in r by {
      var v :| v in users && v.id == u.id;
      var k :| 0 <= k < |users| && users[k] == v;
      assert r[k] == u;
    }
    FindUserLocatesRow(r, u);
  }

  /** `findAll` mapped through `userToUserDTO`: one DTO per row, in table order. */
  function AllUserDtos(users: seq<User>): (r: seq<UserDto>)
    ensures |r| == |users|
    ensures forall i :: 0 <= i < |r| ==> UserFromDto(users[i].id, r[i]) == users[i] && r[i].id == Some(users[i].id)
  {
    seq(|users|, i requires 0 <= i < |users| => UserToDto(users[i]))
  }
}
