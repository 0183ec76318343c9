/**
 * Short request sequences against a fresh store, each proved from the
 * services' contracts alone. The error texts they expect are the ones the
 * controller tests check.
 */
module Scenarios {
  import opened Wrappers
  import opened Model
  import opened ExceptionFactory
  import opened UserRepository
  import opened SubscriptionRepository
  import opened Store
  import opened UserService
  import opened SubscriptionService

  /** Create, read back, delete, read again: the last read is a 404 naming the id. */
  method UserLifecycle() returns (created: UserDto, read: Result<UserDto, ServiceError>,
                                  deleted: Outcome<ServiceError>, readAgain: Result<UserDto, ServiceError>)
    ensures created.id.Some? && created.name == Some("Ivan Ivanov") && created.email == Some("ivan@example.com")
    ensures read == Success(created)
    ensures deleted == Pass
    ensures readAgain == Failure(UserNotFoundError(created.id.value))
  {
    var db := new Database();
    var users := new UserService(db);
    created := users.CreateUser(UserDto(None, Some("Ivan Ivanov"), Some("ivan@example.com")));
    var id := created.id.value;
    assert db.users == [User(id, Some("Ivan Ivanov"), Some("ivan@example.com"))];
    read := users.FindUserDtoById(id);
    deleted := users.DeleteUser(id);
    readAgain := users.FindUserDtoById(id);
  }

  /** A partial update with only a name keeps the stored email. */
  method PartialUpdate() returns (updated: Result<UserDto, ServiceError>)
    ensures updated.Success?
    ensures updated.value.name == Some("Petr") && updated.value.email == Some("ivan@example.com")
  {
    var db := new Database();
    var users := new UserService(db);
    var created := users.CreateUser(UserDto(None, Some("Ivan Ivanov"), Some("ivan@example.com")));
    var id := created.id.value;
    updated := users.UpdateUser(id, UserDto(None, Some("Petr"), None));
  }

  /**
   * Subscribing to an unknown user is a 404; the same (user, service) twice
   * is refused the second time; another user may take the same service.
   */
  method DuplicateSubscribe() returns (unknown: Result<SubscriptionDto, ServiceError>,
                                       first: Result<SubscriptionDto, ServiceError>,
                                       second: Result<SubscriptionDto, ServiceError>,
                                       other: Result<SubscriptionDto, ServiceError>)
    ensures unknown == Failure(UserNotFoundError(999))
    ensures first.Success? && first.value.serviceName == "Test Service"
    ensures second == Failure(DataIntegrityViolation("Пользователь уже подписан на этот сервис"))
    ensures other.Success? && other.value.userId != first.value.userId
  {
    var db := new Database();
    var users := new UserService(db);
    var subscriptions := new SubscriptionService(db, users);
    var ivan := users.CreateUser(UserDto(None, Some("Ivan"), Some("ivan@example.com")));
    var petr := users.CreateUser(UserDto(None, Some("Petr"), Some("petr@example.com")));
    assert UserIds(db.users) == {1, 2};
    unknown := subscriptions.Subscribe(999, SubscriptionDto(None, None, "Test Service", true), 0);
    first := subscriptions.Subscribe(1, SubscriptionDto(None, None, "Test Service", true), 0);
    second := subscriptions.Subscribe(1, SubscriptionDto(None, None, "Test Service", false), 1);
    other := subscriptions.Subscribe(2, SubscriptionDto(None, None, "Test Service", true), 2);
  }

  /**
   * Unsubscribing checks existence before ownership: an unknown subscription
   * is "not found" whoever asks, a known one asked for by another user is
   * "does not belong", and its owner removes it.
   */
  method UnsubscribeOrder() returns (missing: Outcome<ServiceError>, foreign: Outcome<ServiceError>,
                                     own: Outcome<ServiceError>)
    ensures missing == Fail(SubscriptionNotFoundError(15))
    ensures foreign == Fail(SubscriptionNotBelongToUserError(2, 1))
    ensures own == Pass
  {
    var db := new Database();
    var users := new UserService(db);
    var subscriptions := new SubscriptionService(db, users);
    var ivan := users.CreateUser(UserDto(None, Some("Ivan"), Some("ivan@example.com")));
    var petr := users.CreateUser(UserDto(None, Some("Petr"), Some("petr@example.com")));
    assert UserIds(db.users) == {1, 2};
    var sub := subscriptions.Subscribe(1, SubscriptionDto(None, None, "Test Service", true), 0);
    missing := subscriptions.Unsubscribe(2, 15);
    foreign := subscriptions.Unsubscribe(2, 1);
    own := subscriptions.Unsubscribe(1, 1);
  }

  /**
   * A user who subscribes to two different services cannot list them:
   * `findByUser` matches two rows where its `Optional` allows one.
   */
  method TwoServicesBreakListing() returns (listed: Result<seq<SubscriptionDto>, ServiceError>,
                                            intended: Result<seq<SubscriptionDto>, ServiceError>)
    ensures listed == Failure(IncorrectResultSize(1, 2))
    ensures intended.Success? && |intended.value| == 2
  {
    var db := new Database();
    var users := new UserService(db);
    var subscriptions := new SubscriptionService(db, users);
    var ivan := users.CreateUser(UserDto(None, Some("Ivan"), Some("ivan@example.com")));
    assert UserIds(db.users) == {1};
    var a := subscriptions.Subscribe(1, SubscriptionDto(None, None, "A", true), 0);
    var b := subscriptions.Subscribe(1, SubscriptionDto(None, None, "B", false), 0);
    var s1, s2 := Subscription(1, 1, "A", true, 0), Subscription(2, 1, "B", false, 0);
    assert db.subscriptions == [s1, s2];
    assert OwnedBy(db.subscriptions, 1) == [s1, s2] by {
      assert db.subscriptions[1..] == [s2];
      assert OwnedBy([s2], 1) == [s2] by { assert [s2][1..] == []; }
    }
    listed := subscriptions.GetSubscriptions(1);
    intended := subscriptions.ListSubscriptions(1);
    assert SubscriptionToDto(s1) in intended.value && SubscriptionToDto(s2) in intended.value;
    assert |intended.value| == 2 by {
      assert intended.value == [SubscriptionToDto(s1), SubscriptionToDto(s2)];
    }
  }
}
