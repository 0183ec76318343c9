/**
 * The relational store both services share: the two tables in insertion
 * order, and the identity counters that hand out fresh primary keys
 * (`GenerationType.IDENTITY`, starting at 1).
 */
module Store {
  import opened Wrappers
  import opened Model
  import opened UserRepository
  import opened SubscriptionRepository

  class Database {
    var users: seq<User>
    var subscriptions: seq<Subscription>
    var nextUserId: int
    var nextSubscriptionId: int

    /** Primary keys are unique and every key handed out lies below its counter. */
    ghost predicate Valid()
      reads this
    {
      && 1 <= nextUserId && 1 <= nextSubscriptionId
      && UniqueUserIds(users) && UniqueSubscriptionIds(subscriptions)
      && (forall u :: u in users ==> 1 <= u.id < nextUserId)
      && (forall s :: s in subscriptions ==> 1 <= s.id < nextSubscriptionId)
    }

    constructor ()
      ensures Valid()
      ensures users == [] && subscriptions == []
      ensures nextUserId == 1 && nextSubscriptionId == 1
    {
      users, subscriptions := [], [];
      nextUserId, nextSubscriptionId := 1, 1;
    }

    /** `userRepository.save` of a new entity: the row gets the next identity value. */
    method InsertUser(name: Option<string>, email: Option<string>) returns (u: User)
      requires Valid()
      modifies this
      ensures Valid()
      ensures u == User(old(nextUserId), name, email)
      ensures u.id !in old(UserIds(users))
      ensures users == old(users) + [u]
      ensures nextUserId == old(nextUserId) + 1
      ensures subscriptions == old(subscriptions) && nextSubscriptionId == old(nextSubscriptionId)
    {
      u := User(nextUserId, name, email);
      assert u.id !in UserIds(users);
      AppendUniqueUser(users, u);
      users := users + [u];
      nextUserId := nextUserId + 1;
    }

    /** Flushing a changed managed entity: its row is replaced in place. */
    method UpdateUserRow(u: User)
      requires Valid() && u.id in UserIds(users)
      modifies this
      ensures Valid()
      ensures users == WithUser(old(users), u)
      ensures subscriptions == old(subscriptions)
      ensures nextUserId == old(nextUserId) && nextSubscriptionId == old(nextSubscriptionId)
    {
      WithUserEffect(users, u);
      ghost var r := WithUser(users, u);
      forall v | v in r ensures 1 <= v.id < nextUserId {
        var k :| 0 <= k < |r| && r[k] == v;
        assert users[k] in users;
      }
      users := WithUser(users, u);
    }

    /** `userRepository.deleteById`. */
    method DeleteUserRow(id: int)
      requires Valid()
      modifies this
      ensures Valid()
      ensures users == WithoutUser(old(users), id)
      ensures subscriptions == old(subscriptions)
      ensures nextUserId == old(nextUserId) && nextSubscriptionId == old(nextSubscriptionId)
    {
      WithoutUserKeepsKey(users, id);
      users := WithoutUser(users, id);
    }

    /** `subscriptionRepository.save` of a new entity: the row gets the next identity value. */
    method InsertSubscription(owner: int, serviceName: string, notificationEnabled: bool, createdAt: Timestamp)
      returns (s: Subscription)
      requires Valid()
      modifies this
      ensures Valid()
      ensures s == Subscription(old(nextSubscriptionId), owner, serviceName, notificationEnabled, createdAt)
      ensures s.id !in old(SubscriptionIds(subscriptions))
      ensures subscriptions == old(subscriptions) + [s]
      ensures nextSubscriptionId == old(nextSubscriptionId) + 1
      ensures users == old(users) && nextUserId == old(nextUserId)
    {
      s := Subscription(nextSubscriptionId, owner, serviceName, notificationEnabled, createdAt);
      assert s.id !in SubscriptionIds(subscriptions);
      AppendUniqueSubscription(subscriptions, s);
      subscriptions := subscriptions + [s];
      nextSubscriptionId := nextSubscriptionId + 1;
    }

    /** `subscriptionRepository.deleteById`. */
    method DeleteSubscriptionRow(id: int)
      requires Valid()
      modifies this
      ensures Valid()
      ensures subscriptions == WithoutSubscription(old(subscriptions), id)
      ensures users == old(users)
      ensures nextUserId == old(nextUserId) && nextSubscriptionId == old(nextSubscriptionId)
    {
      WithoutSubscriptionKeepsKeys(subscriptions, id);
      subscriptions := WithoutSubscription(subscriptions, id);
    }
  }

  lemma AppendUniqueUser(users: seq<User>, u: User)
    requires UniqueUserIds(users) && u.id !in UserIds(users)
    ensures UniqueUserIds(users + [u])
  {
    var s := users + [u];
    forall i, j | 0 <= i < j < |s| ensures s[i].id != s[j].id {
      assert s[i] == users[i];
      if j < |users| { assert s[j] == users[j]; } else { assert users[i] in users; }
    }
  }

  lemma AppendUniqueSubscription(subs: seq<Subscription>, s: Subscription)
    requires UniqueSubscriptionIds(subs) && s.id !in SubscriptionIds(subs)
    ensures UniqueSubscriptionIds(subs + [s])
  {
    var r := subs + [s];
    forall i, j | 0 <= i < j < |r| ensures r[i].id != r[j].id {
      assert r[i] == subs[i];
      if j < |subs| { assert r[j] == subs[j]; } else { assert subs[i] in subs; }
    }
  }
}
