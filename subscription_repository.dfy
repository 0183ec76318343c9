/**
 * The `subscriptions` table as a sequence of rows in insertion order, and
 * the queries SubscriptionRepository declares (plus the JpaRepository
 * existsById and deleteById it inherits), each as a function of the table.
 */
module SubscriptionRepository {
  import opened Wrappers
  import opened Model
  import opened Sorting
  import opened ExceptionFactory

  function SubscriptionIds(subs: seq<Subscription>): set<int> {
    set s | s in subs :: s.id
  }

  /** The primary key: no two rows share an id. */
  ghost predicate UniqueSubscriptionIds(subs: seq<Subscription>) {
    forall i, j :: 0 <= i < j < |subs| ==> subs[i].id != subs[j].id
  }

  /** What subscribe's duplicate check maintains: one row per (user, service name) pair. */
  ghost predicate UniqueOwnerAndName(subs: seq<Subscription>) {
    forall i, j :: 0 <= i < j < |subs| ==>
      subs[i].owner != subs[j].owner || subs[i].serviceName != subs[j].serviceName
  }

  /** Every service name that occurs in the table. */
  function NameSet(subs: seq<Subscription>): set<string> {
    set s | s in subs :: s.serviceName
  }

  /** `existsById`. */
  function ExistsById(subs: seq<Subscription>, id: int): (b: bool)
    ensures b <==> id in SubscriptionIds(subs)
  {
    if subs == [] then false
    else
      assert subs == [subs[0]] + subs[1..];
      subs[0].id == id || ExistsById(subs[1..], id)
  }

  /** `existsByUserAndServiceName(user, serviceName)`. */
  function ExistsByUserAndServiceName(subs: seq<Subscription>, owner: int, serviceName: string): (b: bool)
    ensures b <==> exists s :: s in subs && s.owner == owner && s.serviceName == serviceName
  {
    if subs == [] then false
    else
      assert subs == [subs[0]] + subs[1..];
      (subs[0].owner == owner && subs[0].serviceName == serviceName)
        || ExistsByUserAndServiceName(subs[1..], owner, serviceName)
  }

  /** `existsByIdAndUserId(subId, userId)`: `COUNT(s) > 0` over rows with that id and that owner. */
  function ExistsByIdAndUserId(subs: seq<Subscription>, subId: int, userId: int): (b: bool)
    ensures b <==> exists s :: s in subs && s.id == subId && s.owner == userId
  {
    if subs == [] then false
    else
      assert subs == [subs[0]] + subs[1..];
      (subs[0].id == subId && subs[0].owner == userId) || ExistsByIdAndUserId(subs[1..], subId, userId)
  }

  /** With a primary key, two rows with the same id are the same row. */
  lemma {:induction false} SameIdSameRow(subs: seq<Subscription>, a: Subscription, b: Subscription)
    requires UniqueSubscriptionIds(subs) && a in subs && b in subs && a.id == b.id
    ensures a == b
  {
    assert subs == [subs[0]] + subs[1..];
    UniqueTail(subs);
    if a != subs[0] && b != subs[0] {
      SameIdSameRow(subs[1..], a, b);
    }
  }

  /** With a primary key, a subscription that exists and is not owned by `userId` is owned by someone else. */
  lemma OwnershipOfExisting(subs: seq<Subscription>, subId: int, userId: int)
    requires UniqueSubscriptionIds(subs) && ExistsById(subs, subId)
    ensures !ExistsByIdAndUserId(subs, subId, userId) <==>
            exists s :: s in subs && s.id == subId && s.owner != userId
  {
    var s :| s in subs && s.id == subId;
    forall s' | s' in subs && s'.id == subId ensures s' == s {
      SameIdSameRow(subs, s, s');
    }
  }

  /** The rows owned by `owner`, in table order. */
  function OwnedBy(subs: seq<Subscription>, owner: int): (r: seq<Subscription>)
    ensures forall s :: s in r <==> s in subs && s.owner == owner
    ensures |r| <= |subs|
  {
    if subs == [] then []
    else
      assert subs == [subs[0]] + subs[1..];
      var rest := OwnedBy(subs[1..], owner);
      if subs[0].owner == owner then [subs[0]] + rest else rest
  }

  /**
   * `findByUser(user)` returns `Optional<Subscription>`: no row gives an empty
   * Optional, one row gives that row, and more than one makes Spring Data throw
   * IncorrectResultSizeDataAccessException.
   */
  function FindByUser(subs: seq<Subscription>, owner: int): (r: Result<Option<Subscription>, ServiceError>)
    ensures r == Success(None) <==> forall s :: s in subs ==> s.owner != owner
    ensures r.Success? && r.value.Some? ==>
              r.value.value in subs && r.value.value.owner == owner &&
              forall s :: s in subs && s.owner == owner ==> s == r.value.value
    ensures r.Failure? <==> |OwnedBy(subs, owner)| >= 2
    ensures r.Failure? ==> r.error == IncorrectResultSize(1, |OwnedBy(subs, owner)|)
  {
    var owned := OwnedBy(subs, owner);
    if |owned| == 0 then Success(None)
    else if |owned| == 1 then
      assert owned[0] in owned;
      Success(Some(owned[0]))
    else
      assert owned[0] in owned;
      Failure(IncorrectResultSize(1, |owned|))
  }

  /** `findByServiceNameIn(names)`: the rows whose service name is listed, in table order. */
  function FindByServiceNameIn(subs: seq<Subscription>, names: seq<string>): (r: seq<Subscription>)
    ensures forall s :: s in r <==> s in subs && s.serviceName in names
    ensures forall n :: CountOf(r, n) == if n in names then CountOf(subs, n) else 0
  {
    if subs == [] then []
    else
      assert subs == [subs[0]] + subs[1..];
      var rest := FindByServiceNameIn(subs[1..], names);
      if subs[0].serviceName in names then
        var r := [subs[0]] + rest;
        assert r[1..] == rest;
        r
      else rest
  }

  /** `deleteById`: every row except the one with that id, in the same order. */
  function WithoutSubscription(subs: seq<Subscription>, id: int): (r: seq<Subscription>)
    ensures forall s :: s in r <==> s in subs && s.id != id
    ensures SubscriptionIds(r) == SubscriptionIds(subs) - {id}
    ensures id !in SubscriptionIds(subs) ==> r == subs
  {
    if subs == [] then []
    else
      assert subs == [subs[0]] + subs[1..];
      var rest := WithoutSubscription(subs[1..], id);
      if subs[0].id == id then rest else [subs[0]] + rest
  }

  /** Deleting a row keeps the primary key and the one-row-per-(user, name) property. */
  lemma {:induction false} WithoutSubscriptionKeepsKeys(subs: seq<Subscription>, id: int)
    ensures UniqueSubscriptionIds(subs) ==> UniqueSubscriptionIds(WithoutSubscription(subs, id))
    ensures UniqueOwnerAndName(subs) ==> UniqueOwnerAndName(WithoutSubscription(subs, id))
  {
    if subs != [] {
      assert subs == [subs[0]] + subs[1..];
      var rest := WithoutSubscription(subs[1..], id);
      WithoutSubscriptionKeepsKeys(subs[1..], id);
      UniqueTail(subs);
      if subs[0].id != id {
        assert WithoutSubscription(subs, id) == [subs[0]] + rest;
        PrependUnique(subs[0], rest);
      }
    }
  }

  lemma UniqueTail(subs: seq<Subscription>)
    requires subs != []
    ensures UniqueSubscriptionIds(subs) ==>
              UniqueSubscriptionIds(subs[1..]) && subs[0].id !in SubscriptionIds(subs[1..])
    ensures UniqueOwnerAndName(subs) ==>
              UniqueOwnerAndName(subs[1..]) &&
              forall s :: s in subs[1..] ==> s.owner != subs[0].owner || s.serviceName != subs[0].serviceName
  {
    var t := subs[1..];
    forall i | 0 <= i < |t| ensures t[i] == subs[i + 1] { }
    if UniqueSubscriptionIds(subs) {
      forall v | v in t ensures v.id != subs[0].id {
        var k :| 0 <= k < |t| && t[k] == v;
      }
    }
    if UniqueOwnerAndName(subs) {
      forall v | v in t ensures v.owner != subs[0].owner || v.serviceName != subs[0].serviceName {
        var k :| 0 <= k < |t| && t[k] == v;
      }
    }
  }

  lemma PrependUnique(h: Subscription, t: seq<Subscription>)
    ensures UniqueSubscriptionIds(t) && h.id !in SubscriptionIds(t) ==> UniqueSubscriptionIds([h] + t)
    ensures UniqueOwnerAndName(t) && (forall s :: s in t ==> s.owner != h.owner || s.serviceName != h.serviceName)
            ==> UniqueOwnerAndName([h] + t)
  {
    var s := [h] + t;
    forall j | 1 <= j < |s| ensures s[j] == t[j - 1] && s[j] in t { }
  }

  // ---------------------------------------------------------------------------
  // Counting and ranking service names

  /** How many rows carry the service name `name`. */
  function CountOf(subs: seq<Subscription>, name: string): (c: nat)
    ensures c <= |subs|
    ensures c > 0 <==> name in NameSet(subs)
  {
    if subs == [] then 0
    else
      assert subs == [subs[0]] + subs[1..];
      (if subs[0].serviceName == name then 1 else 0) + CountOf(subs[1..], name)
  }

  /** Each service name of the table once: what `GROUP BY s.serviceName` yields. */
  function DistinctNames(subs: seq<Subscription>): (r: seq<string>)
    ensures Distinct(r)
    ensures forall n :: n in r <==> n in NameSet(subs)
  {
    if subs == [] then []
    else
      assert subs == [subs[0]] + subs[1..];
      var rest := DistinctNames(subs[1..]);
      if subs[0].serviceName in rest then rest
      else
        DistinctCons(subs[0].serviceName, rest);
        [subs[0].serviceName] + rest
  }

  /** Names in non-increasing order of how many rows carry them. */
  ghost predicate RankedByCount(subs: seq<Subscription>, names: seq<string>) {
    forall i, j :: 0 <= i < j < |names| ==> CountOf(subs, names[i]) >= CountOf(subs, names[j])
  }

  /** The sort key of `findAllTop`: the number of rows with that name. */
  function CountKey(subs: seq<Subscription>): string -> int {
    n => CountOf(subs, n)
  }

  /**
   * `findAllTop`: `SELECT s.serviceName ... GROUP BY s.serviceName ORDER BY
   * COUNT(s.serviceName) DESC`. The database leaves the order of equal counts
   * open; this is one of the orders it may return.
   */
  function FindAllTop(subs: seq<Subscription>): (r: seq<string>)
    ensures Distinct(r)
    ensures forall n :: n in r <==> n in NameSet(subs)
    ensures |r| == |NameSet(subs)|
    ensures RankedByCount(subs, r)
  {
    var r := SortDesc(DistinctNames(subs), CountKey(subs));
    RankingFacts(subs, r);
    r
  }

  lemma RankingFacts(subs: seq<Subscription>, r: seq<string>)
    requires r == SortDesc(DistinctNames(subs), CountKey(subs))
    ensures Distinct(r)
    ensures forall n :: n in r <==> n in NameSet(subs)
    ensures |r| == |NameSet(subs)|
    ensures RankedByCount(subs, r)
  {
    var names := DistinctNames(subs);
    forall n ensures n in r <==> n in names {
      assert n in r <==> n in multiset(r);
      assert n in names <==> n in multiset(names);
    }
    DistinctPermutation(names, r);
    DistinctCardinality(r);
    assert (set x | x in r) == NameSet(subs);
    forall i, j | 0 <= i < j < |r| ensures CountOf(subs, r[i]) >= CountOf(subs, r[j]) {
      assert CountKey(subs)(r[i]) >= CountKey(subs)(r[j]);
    }
  }
}
