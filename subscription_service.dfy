/**
 * SubscriptionService: subscribe, list, unsubscribe, and the two-pass
 * top-3 aggregation over all subscriptions.
 */
module SubscriptionService {
  import opened Wrappers
  import opened Model
  import opened Sorting
  import opened ExceptionFactory
  import opened UserRepository
  import opened SubscriptionRepository
  import opened Store
  import opened UserService

  /** `getTopSubscriptions` keeps this many names of the ranking. */
  const TopLimit: nat := 3

  /** `.limit(n)` on a list. */
  function Limit<T>(s: seq<T>, n: nat): (r: seq<T>)
    ensures |r| == if |s| < n then |s| else n
    ensures r == s[..|r|]
  {
    if |s| < n then s else s[..n]
  }

  /**
   * `groupingBy(Subscription::getServiceName, counting())` read out as a list
   * of entries: one entry per service name of `rows`, with its number of rows.
   * The HashMap's iteration order is open; this is one of them.
   */
  function CountByServiceName(rows: seq<Subscription>): (r: seq<TopEntry>)
    ensures Distinct(r) && |r| == |NameSet(rows)|
    ensures forall e :: e in r ==> e.count == CountOf(rows, e.serviceName)
    ensures forall n :: n in NameSet(rows) <==> exists e :: e in r && e.serviceName == n
  {
    var names := DistinctNames(rows);
    var r := seq(|names|, i requires 0 <= i < |names| => TopEntry(names[i], CountOf(rows, names[i])));
    assert forall i :: 0 <= i < |r| ==> r[i].serviceName == names[i];
    DistinctCardinality(names);
    assert (set x | x in names) == NameSet(rows);
    forall n | n in NameSet(rows) ensures exists e :: e in r && e.serviceName == n {
      var k :| 0 <= k < |names| && names[k] == n;
      assert r[k] in r;
    }
    r
  }

  function EntryCount(e: TopEntry): int {
    e.count
  }

  /** A service name that heads one of the entries. */
  ghost predicate Listed(r: seq<TopEntry>, name: string) {
    exists e :: e in r && e.serviceName == name
  }

  class SubscriptionService {
    const db: Database
    const userService: UserService

    ghost predicate Valid()
      reads db
    {
      userService.db == db && db.Valid()
    }

    constructor (db: Database, userService: UserService)
      requires userService.db == db
      ensures this.db == db && this.userService == userService
    {
      this.db := db;
      this.userService := userService;
    }

    /**
     * `subscribe`: resolve the user, refuse a second subscription of that user
     * to the same service name, then insert a new row owned by the user.
     * `now` is the clock reading that `createdAt` takes.
     */
    method Subscribe(userId: int, dto: SubscriptionDto, now: Timestamp) returns (r: Result<SubscriptionDto, ServiceError>)
      requires Valid()
      modifies db
      ensures Valid()
      ensures db.users == old(db.users) && db.nextUserId == old(db.nextUserId)
      ensures userId !in old(UserIds(db.users)) ==>
                r == Failure(UserNotFoundError(userId)) && db.subscriptions == old(db.subscriptions)
                && db.nextSubscriptionId == old(db.nextSubscriptionId)
      ensures userId in old(UserIds(db.users)) && old(ExistsByUserAndServiceName(db.subscriptions, userId, dto.serviceName)) ==>
                r == Failure(DataIntegrityViolation(DuplicateSubscriptionMessage)) &&
                db.subscriptions == old(db.subscriptions) && db.nextSubscriptionId == old(db.nextSubscriptionId)
      ensures userId in old(UserIds(db.users)) && !old(ExistsByUserAndServiceName(db.subscriptions, userId, dto.serviceName)) ==>
                var s := Subscription(old(db.nextSubscriptionId), userId, dto.serviceName, dto.notificationEnabled, now);
                && s.id !in old(SubscriptionIds(db.subscriptions))
                && db.subscriptions == old(db.subscriptions) + [s]
                && db.nextSubscriptionId == old(db.nextSubscriptionId) + 1
                && r == Success(SubscriptionToDto(s))
      ensures old(UniqueOwnerAndName(db.subscriptions)) ==> UniqueOwnerAndName(db.subscriptions)
    {
      var user := userService.FindUserById(userId);
      if user.Failure? {
        return Failure(user.error);
      }
      if ExistsByUserAndServiceName(db.subscriptions, user.value.id, dto.serviceName) {
        return Failure(DataIntegrityViolation(DuplicateSubscriptionMessage));
      }
      ghost var before := db.subscriptions;
      var saved := db.InsertSubscription(user.value.id, dto.serviceName, dto.notificationEnabled, now);
      AppendKeepsOwnerAndName(before, saved);
      r := Success(SubscriptionToDto(saved));
    }

    /**
     * `getSubscriptions` as written: resolve the user, then `findByUser`,
     * whose `Optional` holds at most one row and throws when the user owns more.
     */
    function GetSubscriptions(userId: int): (r: Result<seq<SubscriptionDto>, ServiceError>)
      requires userService.db == db
      reads db
      ensures userId !in UserIds(db.users) ==> r == Failure(UserNotFoundError(userId))
      ensures r.Success? ==> |r.value| <= 1
      ensures r.Success? ==> forall d :: d in r.value ==>
                exists s :: s in db.subscriptions && s.owner == userId && d == SubscriptionToDto(s)
      ensures userId in UserIds(db.users) ==>
                (r.Success? <==> |OwnedBy(db.subscriptions, userId)| <= 1)
      ensures userId in UserIds(db.users) && |OwnedBy(db.subscriptions, userId)| == 0 ==> r == Success([])
      ensures userId in UserIds(db.users) && |OwnedBy(db.subscriptions, userId)| == 1 ==>
                r == Success([SubscriptionToDto(OwnedBy(db.subscriptions, userId)[0])])
      ensures userId in UserIds(db.users) && r.Failure? ==>
                r.error == IncorrectResultSize(1, |OwnedBy(db.subscriptions, userId)|)
    {
      match userService.FindUserById(userId)
      case Failure(e) => Failure(e)
      case Success(user) =>
        match FindByUser(db.subscriptions, user.id)
        case Failure(e) => Failure(e)
        case Success(None) => Success([])
        case Success(Some(s)) => Success([SubscriptionToDto(s)])
    }

    /** What `getSubscriptions` is meant to return: every subscription the user owns, in table order. */
    function ListSubscriptions(userId: int): (r: Result<seq<SubscriptionDto>, ServiceError>)
      requires userService.db == db
      reads db
      ensures r.Failure? <==> userId !in UserIds(db.users)
      ensures r.Failure? ==> r.error == UserNotFoundError(userId)
      ensures r.Success? ==> forall s :: s in db.subscriptions ==>
                (s.owner == userId <==> SubscriptionToDto(s) in r.value)
      ensures r.Success? ==> forall d :: d in r.value ==>
                exists s :: s in db.subscriptions && s.owner == userId && d == SubscriptionToDto(s)
    {
      match userService.FindUserById(userId)
      case Failure(e) => Failure(e)
      case Success(user) =>
        var owned := OwnedBy(db.subscriptions, user.id);
        var dtos := seq(|owned|, i requires 0 <= i < |owned| => SubscriptionToDto(owned[i]));
        forall s | s in db.subscriptions ensures s.owner == userId <==> SubscriptionToDto(s) in dtos {
          if s.owner == userId {
            var k :| 0 <= k < |owned| && owned[k] == s;
            assert dtos[k] == SubscriptionToDto(s);
          }
        }
        forall d | d in dtos ensures exists s :: s in db.subscriptions && s.owner == userId && d == SubscriptionToDto(s) {
          var k :| 0 <= k < |dtos| && dtos[k] == d;
          assert owned[k] in owned;
        }
        Success(dtos)
    }

    /**
     * `unsubscribe`: existence first, then ownership, then delete. Neither
     * check consults the users table.
     */
    method Unsubscribe(userId: int, subId: int) returns (r: Outcome<ServiceError>)
      requires Valid()
      modifies db
      ensures Valid()
      ensures db.users == old(db.users)
      ensures db.nextUserId == old(db.nextUserId) && db.nextSubscriptionId == old(db.nextSubscriptionId)
      ensures subId !in old(SubscriptionIds(db.subscriptions)) ==>
                r == Fail(SubscriptionNotFoundError(subId)) && db.subscriptions == old(db.subscriptions)
      ensures subId in old(SubscriptionIds(db.subscriptions)) && !old(ExistsByIdAndUserId(db.subscriptions, subId, userId)) ==>
                r == Fail(SubscriptionNotBelongToUserError(userId, subId)) && db.subscriptions == old(db.subscriptions)
      ensures old(ExistsByIdAndUserId(db.subscriptions, subId, userId)) ==>
                r == Pass && db.subscriptions == WithoutSubscription(old(db.subscriptions), subId)
      ensures old(UniqueOwnerAndName(db.subscriptions)) ==> UniqueOwnerAndName(db.subscriptions)
    {
      if !ExistsById(db.subscriptions, subId) {
        return Fail(SubscriptionNotFoundError(subId));
      }
      if !ExistsByIdAndUserId(db.subscriptions, subId, userId) {
        return Fail(SubscriptionNotBelongToUserError(userId, subId));
      }
      WithoutSubscriptionKeepsKeys(db.subscriptions, subId);
      db.DeleteSubscriptionRow(subId);
      r := Pass;
    }

    /** `getTopSubscriptions`: the ranking of the table as it stands; the store is only read. */
    function GetTopSubscriptions(): (r: seq<TopEntry>)
      reads db
      ensures |r| == if |NameSet(db.subscriptions)| < TopLimit then |NameSet(db.subscriptions)| else TopLimit
      ensures TopRanked(db.subscriptions, r)
    {
      TopSubscriptions(db.subscriptions)
    }
  }

  /**
   * What a top-N answer over `subs` promises of its entries: distinct names,
   * each with its count in the whole table (so at least one), in
   * non-increasing order of count, and no name left out outcounts an entry.
   */
  ghost predicate TopRanked(subs: seq<Subscription>, r: seq<TopEntry>) {
    && (forall i, j :: 0 <= i < j < |r| ==> r[i].serviceName != r[j].serviceName)
    && (forall e :: e in r ==> e.count == CountOf(subs, e.serviceName) && e.count > 0)
    && (forall i, j :: 0 <= i < j < |r| ==> r[i].count >= r[j].count)
    && (forall e, n :: e in r && !Listed(r, n) ==> CountOf(subs, n) <= e.count)
  }

  /**
   * The pipeline behind `getTopSubscriptions`: rank the names, keep the
   * first three, load their rows, count rows per name and sort the counts in
   * descending order. The result holds min(3, number of names) entries
   * ranked as `TopRanked` says.
   */
  function TopSubscriptions(subs: seq<Subscription>): (r: seq<TopEntry>)
    ensures |r| == if |NameSet(subs)| < TopLimit then |NameSet(subs)| else TopLimit
    ensures TopRanked(subs, r)
  {
    var ranking := FindAllTop(subs);
    var top := Limit(ranking, TopLimit);
    var rows := FindByServiceNameIn(subs, top);
    var r := SortDesc(CountByServiceName(rows), EntryCount);
    TopFacts(subs, ranking, top, rows, r);
    r
  }

  /** Inserting a row for a pair that is not yet there keeps one row per (user, name) pair. */
  lemma AppendKeepsOwnerAndName(subs: seq<Subscription>, s: Subscription)
    requires !ExistsByUserAndServiceName(subs, s.owner, s.serviceName)
    ensures UniqueOwnerAndName(subs) ==> UniqueOwnerAndName(subs + [s])
  {
    var r := subs + [s];
    forall i, j | 0 <= i < j < |r| && UniqueOwnerAndName(subs)
      ensures r[i].owner != r[j].owner || r[i].serviceName != r[j].serviceName
    {
      assert r[i] == subs[i] && subs[i] in subs;
      if j < |subs| { assert r[j] == subs[j]; }
    }
  }

  /** The rows loaded for the kept names carry exactly those names, each as often as in the whole table. */
  lemma LoadedNames(subs: seq<Subscription>, ranking: seq<string>, top: seq<string>, rows: seq<Subscription>)
    requires forall n :: n in ranking <==> n in NameSet(subs)
    requires |top| <= |ranking| && top == ranking[..|top|]
    requires rows == FindByServiceNameIn(subs, top)
    ensures NameSet(rows) == set n | n in top
    ensures forall n :: n in top ==> CountOf(rows, n) == CountOf(subs, n)
  {
    forall n | n in top ensures n in NameSet(rows) {
      assert n in ranking;
      assert CountOf(rows, n) == CountOf(subs, n) > 0;
    }
  }

  /** Sorting the grouped entries keeps them, one per name, and orders them by count. */
  lemma SortedGroups(groups: seq<TopEntry>, r: seq<TopEntry>, rows: seq<Subscription>)
    requires groups == CountByServiceName(rows)
    requires r == SortDesc(groups, EntryCount)
    ensures |r| == |NameSet(rows)|
    ensures forall e :: e in r <==> e in groups
    ensures forall i, j :: 0 <= i < j < |r| ==> r[i].serviceName != r[j].serviceName
    ensures forall i, j :: 0 <= i < j < |r| ==> r[i].count >= r[j].count
  {
    forall e ensures e in r <==> e in groups {
      assert e in r <==> e in multiset(r);
      assert e in groups <==> e in multiset(groups);
    }
    DistinctPermutation(groups, r);
    forall i, j | 0 <= i < j < |r| ensures r[i].serviceName != r[j].serviceName {
      assert r[i] in groups && r[j] in groups;
    }
    forall i, j | 0 <= i < j < |r| ensures r[i].count >= r[j].count {
      assert EntryCount(r[i]) >= EntryCount(r[j]);
    }
  }

  /** A prefix of a ranking without repetitions has as many names as its length. */
  lemma KeptNamesCount(ranking: seq<string>, top: seq<string>)
    requires Distinct(ranking)
    requires |top| <= |ranking| && top == ranking[..|top|]
    ensures |set n | n in top| == |top|
  {
    assert Distinct(top) by {
      forall i, j | 0 <= i < j < |top| ensures top[i] != top[j] { assert top[i] == ranking[i] && top[j] == ranking[j]; }
    }
    DistinctCardinality(top);
  }

  /** A name ranked below the cut has no more rows than a name above it. */
  lemma CutIsTop(subs: seq<Subscription>, ranking: seq<string>, top: seq<string>, kept: string, n: string)
    requires RankedByCount(subs, ranking)
    requires forall m :: m in ranking <==> m in NameSet(subs)
    requires |top| <= |ranking| && top == ranking[..|top|]
    requires kept in top && n !in top
    ensures CountOf(subs, n) <= CountOf(subs, kept)
  {
    var i :| 0 <= i < |top| && top[i] == kept;
    assert ranking[i] == kept;
    if n in NameSet(subs) {
      var j :| 0 <= j < |ranking| && ranking[j] == n;
      assert forall k :: 0 <= k < |top| ==> top[k] == ranking[k];
    }
  }

  /** The properties of the answer, from those of each stage of the pipeline. */
  lemma TopFacts(subs: seq<Subscription>, ranking: seq<string>, top: seq<string>,
                 rows: seq<Subscription>, r: seq<TopEntry>)
    requires ranking == FindAllTop(subs)
    requires top == Limit(ranking, TopLimit)
    requires rows == FindByServiceNameIn(subs, top)
    requires r == SortDesc(CountByServiceName(rows), EntryCount)
    ensures |r| == if |NameSet(subs)| < TopLimit then |NameSet(subs)| else TopLimit
    ensures TopRanked(subs, r)
  {
    var groups := CountByServiceName(rows);
    LoadedNames(subs, ranking, top, rows);
    SortedGroups(groups, r, rows);
    KeptNamesCount(ranking, top);
    forall e | e in r ensures e.count == CountOf(subs, e.serviceName) && e.count > 0 {
      assert e in groups;
      assert e.serviceName in NameSet(rows);
    }
    forall n | n in top ensures Listed(r, n) {
      assert n in NameSet(rows);
      var g :| g in groups && g.serviceName == n;
      assert g in r;
    }
    forall e, n | e in r && !Listed(r, n) ensures CountOf(subs, n) <= e.count {
      assert e in groups && e.serviceName in NameSet(rows);
      CutIsTop(subs, ranking, top, e.serviceName, n);
    }
  }

  /** Among four keys with strictly decreasing values, a key's value tells which one it is. */
  lemma ValueDeterminesKey<T>(n: T, na: T, nb: T, nc: T, nd: T, f: T -> int)
    requires n == na || n == nb || n == nc || n == nd
    requires f(na) > f(nb) > f(nc) > f(nd)
    ensures f(n) == f(na) || f(n) == f(nb) || f(n) == f(nc) || f(n) == f(nd)
    ensures n == if f(n) == f(na) then na else if f(n) == f(nb) then nb else if f(n) == f(nc) then nc else nd
  {
  }

  /** Four names with distinct counts make four names. */
  lemma FourRankedNames(subs: seq<Subscription>, na: string, nb: string, nc: string, nd: string)
    requires FourRanked(subs, na, nb, nc, nd)
    ensures |NameSet(subs)| == 4
  {
    FourDistinct(na, nb, nc, nd);
  }

  lemma FourDistinct<T>(a: T, b: T, c: T, d: T)
    requires a != b && a != c && a != d && b != c && b != d && c != d
    ensures |{a, b, c, d}| == 4
  {
    assert {a, b, c, d} == {a, b, c} + {d};
    assert {a, b, c} == {a, b} + {c};
  }

  /** Four names, exactly those of the table, whose counts strictly decrease in the order given. */
  ghost predicate FourRanked(subs: seq<Subscription>, na: string, nb: string, nc: string, nd: string) {
    && NameSet(subs) == {na, nb, nc, nd}
    && CountOf(subs, na) > CountOf(subs, nb) > CountOf(subs, nc) > CountOf(subs, nd)
  }

  /**
   * Three ranked entries over four names whose counts strictly decrease:
   * the order is strict, each entry's count is at most the count of the
   * name at its own rank, and the last entry's count says which name it is.
   */
  lemma {:induction false} StrictlyRanked(subs: seq<Subscription>, r: seq<TopEntry>,
                                          na: string, nb: string, nc: string, nd: string)
    requires FourRanked(subs, na, nb, nc, nd) && TopRanked(subs, r) && |r| == 3
    ensures r[0].count > r[1].count > r[2].count
    ensures r[1].count <= CountOf(subs, nb) && r[2].count <= CountOf(subs, nc)
    ensures r[2].count == CountOf(subs, nc) ==> r[2].serviceName == nc
  {
    assert r[0] in r && r[1] in r && r[2] in r;
    var f := n => CountOf(subs, n);
    ValueDeterminesKey(r[0].serviceName, na, nb, nc, nd, f);
    ValueDeterminesKey(r[1].serviceName, na, nb, nc, nd, f);
    ValueDeterminesKey(r[2].serviceName, na, nb, nc, nd, f);
  }

  /**
   * The first two names outcount the last entry, so top-ness lists them;
   * the third, if missing, would bound the last entry from below and so be it.
   */
  lemma TopListsFirstThree(subs: seq<Subscription>, r: seq<TopEntry>, na: string, nb: string, nc: string, nd: string)
    requires FourRanked(subs, na, nb, nc, nd) && TopRanked(subs, r) && |r| == 3
    ensures Listed(r, na) && Listed(r, nb) && Listed(r, nc)
  {
    StrictlyRanked(subs, r, na, nb, nc, nd);
    assert r[2] in r;
    assert Listed(r, na) && Listed(r, nb);
  }

  /** Three listed names with strictly decreasing counts fill a strictly decreasing list of three in order. */
  lemma ThreeListedInOrder(r: seq<TopEntry>, na: string, nb: string, nc: string, ca: int, cb: int, cc: int)
    requires |r| == 3 && r[0].count > r[1].count > r[2].count
    requires Listed(r, na) && Listed(r, nb) && Listed(r, nc)
    requires ca > cb > cc
    requires forall e :: e in r && e.serviceName == na ==> e.count == ca
    requires forall e :: e in r && e.serviceName == nb ==> e.count == cb
    requires forall e :: e in r && e.serviceName == nc ==> e.count == cc
    ensures r == [TopEntry(na, ca), TopEntry(nb, cb), TopEntry(nc, cc)]
  {
    var ea :| ea in r && ea.serviceName == na;
    var eb :| eb in r && eb.serviceName == nb;
    var ec :| ec in r && ec.serviceName == nc;
    var ka :| 0 <= ka < 3 && r[ka] == ea;
    var kb :| 0 <= kb < 3 && r[kb] == eb;
    var kc :| 0 <= kc < 3 && r[kc] == ec;
    assert ka == 0 && kb == 1 && kc == 2;
  }

  /** Three ranked entries over four names with strictly decreasing counts are the first three names, in order. */
  lemma TopThreeOfRanking(subs: seq<Subscription>, r: seq<TopEntry>, na: string, nb: string, nc: string, nd: string)
    requires FourRanked(subs, na, nb, nc, nd) && TopRanked(subs, r) && |r| == 3
    ensures r == [TopEntry(na, CountOf(subs, na)), TopEntry(nb, CountOf(subs, nb)), TopEntry(nc, CountOf(subs, nc))]
  {
    StrictlyRanked(subs, r, na, nb, nc, nd);
    TopListsFirstThree(subs, r, na, nb, nc, nd);
    ThreeListedInOrder(r, na, nb, nc, CountOf(subs, na), CountOf(subs, nb), CountOf(subs, nc));
  }

  /**
   * Over a table holding exactly four names with strictly decreasing counts,
   * the top three are the first three names with their counts, in that order.
   */
  lemma TopThreeOfFour(subs: seq<Subscription>, na: string, nb: string, nc: string, nd: string)
    requires FourRanked(subs, na, nb, nc, nd)
    ensures TopSubscriptions(subs) == [TopEntry(na, CountOf(subs, na)), TopEntry(nb, CountOf(subs, nb)),
                                       TopEntry(nc, CountOf(subs, nc))]
  {
    var r := TopSubscriptions(subs);
    FourRankedNames(subs, na, nb, nc, nd);
    TopThreeOfRanking(subs, r, na, nb, nc, nd);
  }

  /**
   * A worked instance: when A, B, C and D have 5, 3, 2 and 1
   * subscriptions and no other service has any, the top three are exactly
   * A (5), B (3) and C (2), in that order.
   */
  lemma TopThreeExample(subs: seq<Subscription>)
    requires NameSet(subs) == {"A", "B", "C", "D"}
    requires CountOf(subs, "A") == 5 && CountOf(subs, "B") == 3 && CountOf(subs, "C") == 2 && CountOf(subs, "D") == 1
    ensures TopSubscriptions(subs) == [TopEntry("A", 5), TopEntry("B", 3), TopEntry("C", 2)]
  {
    TopThreeOfFour(subs, "A", "B", "C", "D");
  }
}
