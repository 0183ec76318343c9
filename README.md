# User and subscription services

A model of the service layer of a Spring Boot microservice with two entities:
users and the subscriptions they hold to named external services.

- **UserService** creates, reads, updates and deletes users and lists them all.
  A partial update merges: a null field keeps its stored value. A missing id
  always ends in the `userNotFound` error.
- **SubscriptionService** does four things:
  - subscribes a user to a service, refusing a duplicate (user, service name) pair;
  - lists a user's subscriptions;
  - unsubscribes, checking existence before ownership;
  - computes the three most popular service names by number of subscriptions.
- **SubscriptionRepository** queries (`existsByUserAndServiceName`,
  `findByUser`, `findAllTop`, `findByServiceNameIn`, `existsByIdAndUserId`)
  are functions of the subscriptions table.
- **ExceptionFactory** formats the error messages. Each message is shown to
  give back the ids it was built from.

The two tables live in one `Store.Database` object. Each table is a sequence
of rows in insertion order, with identity counters that hand out fresh keys.
The services are classes over that object. Operations that write are methods
whose contracts give the whole new state. Read-only operations are functions.
The MapStruct mappers are functions in `Model`.

Files:
- `wrappers.dfy`: option, result and outcome types.
- `sorting.dfy`: insertion sort by a key, and repetition-free sequences.
- `exception_factory.dfy`
- `model.dfy`: the entities, DTOs and mappers.
- `user_repository.dfy`
- `subscription_repository.dfy`
- `store.dfy`
- `user_service.dfy`
- `subscription_service.dfy`
- `scenarios.dfy`: short request sequences against a fresh store, proved from the service contracts. The error texts they expect are the ones the controller tests check.

## Model

| member | source | states |
|---|---|---|
| ExceptionFactory.Decimal | src/main/java/ru/semavin/microservice/util/ExceptionFactory.java:29 | the `%d` text of an id: an optional `-` exactly when the id is negative, then decimal digits with no leading zero |
| ExceptionFactory.DecimalRoundTrip | src/main/java/ru/semavin/microservice/util/ExceptionFactory.java:29 | parsing the `%d` text of any integer gives that integer back |
| ExceptionFactory.DecimalInjective | src/main/java/ru/semavin/microservice/util/ExceptionFactory.java:29 | two integers with the same `%d` text are equal |
| ExceptionFactory.UserNotFoundError | src/main/java/ru/semavin/microservice/util/ExceptionFactory.java:27-30 | `userNotFound` builds a user-not-found error whose message, read between "Пользователь с id: " and " не найден", gives back the user id |
| ExceptionFactory.SubscriptionNotFoundError | src/main/java/ru/semavin/microservice/util/ExceptionFactory.java:38-40 | `subscriptionNotFound` builds a subscription-not-found error whose message, read between "Подписка с id: " and " не найдена", gives back the subscription id |
| ExceptionFactory.SubscriptionNotBelongToUserError | src/main/java/ru/semavin/microservice/util/ExceptionFactory.java:48-52 | `subscriptionNotBelongToUser(userId, subscriptionId)` builds an ownership error whose message holds the subscription id first and the user id second, and both read back |
| ExceptionFactory.UserNotFoundDistinguishesIds | src/main/java/ru/semavin/microservice/util/ExceptionFactory.java:27-30 | different user ids give different user-not-found errors |
| ExceptionFactory.SubscriptionNotFoundDistinguishesIds | src/main/java/ru/semavin/microservice/util/ExceptionFactory.java:38-40 | different subscription ids give different subscription-not-found errors |
| ExceptionFactory.NotBelongDistinguishesIds | src/main/java/ru/semavin/microservice/util/ExceptionFactory.java:48-52 | the ownership error determines both the user id and the subscription id, so swapping them changes the message |
| ExceptionFactory.FactoriesDiffer | src/main/java/ru/semavin/microservice/util/ExceptionFactory.java:27-52 | the three factories never produce the same error |
| ExceptionFactory.UserNotFoundExample1 | src/test/java/ru/semavin/microservice/controllers/UserControllerTest.java:70-77 | user id 1 gives exactly "Пользователь с id: 1 не найден" |
| ExceptionFactory.UserNotFoundExample5 | src/test/java/ru/semavin/microservice/controllers/SubscriptionControllerTest.java:137-143 | user id 5 gives exactly "Пользователь с id: 5 не найден" |
| ExceptionFactory.UserNotFoundExample999 | src/test/java/ru/semavin/microservice/controllers/SubscriptionControllerTest.java:87-95 | user id 999 gives exactly "Пользователь с id: 999 не найден" |
| ExceptionFactory.SubscriptionNotFoundExample | src/test/java/ru/semavin/microservice/controllers/SubscriptionControllerTest.java:163-169 | subscription id 15 gives exactly "Подписка с id: 15 не найдена" |
| ExceptionFactory.NotBelongExample | src/test/java/ru/semavin/microservice/controllers/SubscriptionControllerTest.java:178-184 | user 1 and subscription 20 give exactly "Подписка 20 не принадлежит пользователю 1" |
| Model.UserToDto | src/main/java/ru/semavin/microservice/mapper/UserMapper.java:12 | `userToUserDTO` carries the entity's id into the DTO |
| Model.UserFromDto | src/main/java/ru/semavin/microservice/mapper/UserMapper.java:13 | the entity built from a DTO gets the id the store assigns |
| Model.UserMappingRoundTrip | src/main/java/ru/semavin/microservice/mapper/UserMapper.java:12-13 | entity to DTO and back is the identity; DTO to entity and back loses only the client-supplied id |
| Model.SubscriptionToDto | src/main/java/ru/semavin/microservice/mapper/SubscriptionMapper.java:11-12 | `toSubscriptionDTO` copies id, service name and notification flag, and maps `user.id` to `userId` |
| Model.MergeUser | src/main/java/ru/semavin/microservice/mapper/UserMapper.java:14-15 | a null DTO field keeps the stored value and a non-null one overwrites it; this includes the id |
| Model.MergeIdempotent | src/main/java/ru/semavin/microservice/mapper/UserMapper.java:14-15 | applying the same partial update twice equals applying it once |
| Model.MergeEmptyIsIdentity | src/main/java/ru/semavin/microservice/mapper/UserMapper.java:14-15 | a DTO with name and email null changes only the id, and leaves the user unchanged when its id is null or the same |
| Model.MergeFullReplaces | src/main/java/ru/semavin/microservice/mapper/UserMapper.java:14-15 | a DTO with both fields set replaces name and email, and the id only when the DTO carries one |
| UserRepository.FindUser | src/main/java/ru/semavin/microservice/services/UserService.java:121-122 | `findById` finds a row exactly when the id is stored, and the row it returns has that id |
| UserRepository.FindUserLocatesRow | src/main/java/ru/semavin/microservice/services/UserService.java:121-122 | with unique ids, `findById` of a stored row's id returns that very row |
| UserRepository.WithoutUser | src/main/java/ru/semavin/microservice/services/UserService.java:89 | `deleteById` keeps exactly the rows with other ids and removes only that id; an absent id changes nothing |
| UserRepository.WithoutUserKeepsKey | src/main/java/ru/semavin/microservice/services/UserService.java:89 | deleting a user keeps user ids unique |
| UserRepository.WithUser | src/main/java/ru/semavin/microservice/services/UserService.java:72-74 | writing back a managed entity replaces the row with its id in place and leaves every other row and every position's id alone |
| UserRepository.WithUserEffect | src/main/java/ru/semavin/microservice/services/UserService.java:72-74 | after the write-back the ids and their uniqueness are unchanged and `findById` returns the new row |
| UserRepository.AllUserDtos | src/main/java/ru/semavin/microservice/services/UserService.java:101-103 | one DTO per stored row, in table order, each mapping back to its row |
| SubscriptionRepository.ExistsById | src/main/java/ru/semavin/microservice/services/SubscriptionService.java:94 | `existsById` holds exactly when some row has that id |
| SubscriptionRepository.ExistsByUserAndServiceName | src/main/java/ru/semavin/microservice/repositrories/SubscriptionRepository.java:17 | holds exactly when some row has that owner and that service name |
| SubscriptionRepository.ExistsByIdAndUserId | src/main/java/ru/semavin/microservice/repositrories/SubscriptionRepository.java:24-25 | holds exactly when some row has that id and that owner |
| SubscriptionRepository.SameIdSameRow | src/main/java/ru/semavin/microservice/repositrories/SubscriptionRepository.java:14 | with a primary key, two rows with the same id are the same row |
| SubscriptionRepository.OwnershipOfExisting | src/main/java/ru/semavin/microservice/repositrories/SubscriptionRepository.java:24-25 | for an existing subscription, the ownership query fails exactly when the row with that id has another owner |
| SubscriptionRepository.OwnedBy | src/main/java/ru/semavin/microservice/repositrories/SubscriptionRepository.java:15 | the rows a user owns: exactly the rows with that owner |
| SubscriptionRepository.FindByUser | src/main/java/ru/semavin/microservice/repositrories/SubscriptionRepository.java:15 | the `Optional` query is empty when the user owns nothing; with one owned row it returns that row; with two or more it fails with an incorrect-result-size error naming the number of rows |
| SubscriptionRepository.FindByServiceNameIn | src/main/java/ru/semavin/microservice/repositrories/SubscriptionRepository.java:22 | exactly the rows whose service name is listed, so a listed name keeps its full count and any other name has none |
| SubscriptionRepository.WithoutSubscription | src/main/java/ru/semavin/microservice/services/SubscriptionService.java:104 | `deleteById` keeps exactly the rows with other ids; an absent id changes nothing |
| SubscriptionRepository.WithoutSubscriptionKeepsKeys | src/main/java/ru/semavin/microservice/services/SubscriptionService.java:104 | deleting a subscription keeps ids unique and keeps at most one row per (user, service name) |
| SubscriptionRepository.CountOf | src/main/java/ru/semavin/microservice/repositrories/SubscriptionRepository.java:19 | `COUNT(s.serviceName)` for one name: at most the table size, and positive exactly when the name occurs |
| SubscriptionRepository.DistinctNames | src/main/java/ru/semavin/microservice/repositrories/SubscriptionRepository.java:19 | `GROUP BY s.serviceName`: each name of the table exactly once |
| SubscriptionRepository.FindAllTop | src/main/java/ru/semavin/microservice/repositrories/SubscriptionRepository.java:19-20 | `findAllTop` returns every service name exactly once, in non-increasing order of row count |
| SubscriptionRepository.RankingFacts | src/main/java/ru/semavin/microservice/repositrories/SubscriptionRepository.java:19-20 | sorting the grouped names by count gives a repetition-free ranking of exactly the table's names |
| Store.Database.constructor | src/main/java/ru/semavin/microservice/models/Subscription.java:16-18 | an empty store whose identity counters both start at 1 |
| Store.Database.InsertUser | src/main/java/ru/semavin/microservice/services/UserService.java:36 | `save` of a new user appends one row under a fresh id, advances the counter and keeps ids unique |
| Store.Database.UpdateUserRow | src/main/java/ru/semavin/microservice/services/UserService.java:72-74 | the managed entity's row is replaced in place and nothing else changes |
| Store.Database.DeleteUserRow | src/main/java/ru/semavin/microservice/services/UserService.java:89 | the row with that id disappears, ids stay unique, subscriptions are untouched |
| Store.Database.InsertSubscription | src/main/java/ru/semavin/microservice/services/SubscriptionService.java:56 | `save` of a new subscription appends one row under a fresh id and advances the counter |
| Store.Database.DeleteSubscriptionRow | src/main/java/ru/semavin/microservice/services/SubscriptionService.java:104 | the subscription with that id disappears; users and counters are untouched |
| Store.AppendUniqueUser | src/main/java/ru/semavin/microservice/services/UserService.java:36 | appending a user with a fresh id keeps user ids unique |
| Store.AppendUniqueSubscription | src/main/java/ru/semavin/microservice/services/SubscriptionService.java:56 | appending a subscription with a fresh id keeps subscription ids unique |
| UserService.UserService.constructor | src/main/java/ru/semavin/microservice/services/UserService.java:21-25 | the service works on the store it is given |
| UserService.UserService.FindUserById | src/main/java/ru/semavin/microservice/services/UserService.java:119-123 | success exactly when the id is stored, returning the stored row; otherwise `userNotFound(id)` |
| UserService.UserService.FindUserDtoById | src/main/java/ru/semavin/microservice/services/UserService.java:48-53 | success exactly when the id is stored, returning a DTO of the stored row; otherwise `userNotFound(id)` |
| UserService.UserService.CreateUser | src/main/java/ru/semavin/microservice/services/UserService.java:33-39 | a new user row holds the DTO's name and email under a fresh id; the returned DTO is the input with that id; nothing else changes |
| UserService.UserService.UpdateUser | src/main/java/ru/semavin/microservice/services/UserService.java:64-75 | an absent id fails with `userNotFound(id)`; a DTO carrying another id fails when the changed identifier is flushed; neither writes anything. Otherwise the DTO is merged into that row only and the merged user is returned |
| UserService.UserService.DeleteUser | src/main/java/ru/semavin/microservice/services/UserService.java:83-91 | an absent id fails with `userNotFound(id)` and changes nothing; a present one removes exactly that user |
| UserService.UserService.GetAllUsers | src/main/java/ru/semavin/microservice/services/UserService.java:98-106 | one DTO per user: every stored user appears, every DTO comes from a stored user, and the ids are distinct |
| SubscriptionService.Limit | src/main/java/ru/semavin/microservice/services/SubscriptionService.java:121-123 | `.limit(n)` keeps the first min(n, length) elements |
| SubscriptionService.CountByServiceName | src/main/java/ru/semavin/microservice/services/SubscriptionService.java:127-128 | grouping gives one entry per service name, each with that name's row count |
| SubscriptionService.SubscriptionService.constructor | src/main/java/ru/semavin/microservice/services/SubscriptionService.java:43-60 | the service shares its store with the user service it calls |
| SubscriptionService.SubscriptionService.Subscribe | src/main/java/ru/semavin/microservice/services/SubscriptionService.java:43-60 | an unknown user gives `userNotFound`; a (user, name) pair already stored gives the duplicate error; otherwise exactly one row is appended and returned as a DTO. Each failure changes nothing, and at most one row per (user, name) is kept |
| SubscriptionService.SubscriptionService.GetSubscriptions | src/main/java/ru/semavin/microservice/services/SubscriptionService.java:68-76 | as written: an unknown user gives `userNotFound`. A user with no subscription gets an empty list, and one with exactly one gets that one. A user with two or more gets an incorrect-result-size error naming the row count |
| SubscriptionService.SubscriptionService.ListSubscriptions | src/main/java/ru/semavin/microservice/services/SubscriptionService.java:68-76 | as intended: fails exactly for an unknown user; otherwise a subscription is listed exactly when the user owns it |
| SubscriptionService.SubscriptionService.Unsubscribe | src/main/java/ru/semavin/microservice/services/SubscriptionService.java:91-106 | existence is checked before ownership: an unknown id gives `subscriptionNotFound`, another user's subscription gives `subscriptionNotBelongToUser`, and the owner removes exactly that row. Users are untouched |
| SubscriptionService.SubscriptionService.GetTopSubscriptions | src/main/java/ru/semavin/microservice/services/SubscriptionService.java:120-137 | min(3, number of names) entries over the current table, ranked as `TopSubscriptions` states |
| SubscriptionService.TopSubscriptions | src/main/java/ru/semavin/microservice/services/SubscriptionService.java:120-137 | min(3, number of names) entries with distinct names, each with its full count, non-increasing; no name left out has more rows than any listed one |
| SubscriptionService.TopFacts | src/main/java/ru/semavin/microservice/services/SubscriptionService.java:120-137 | the ranking promise follows from the stages: rank, limit, load, group, sort |
| SubscriptionService.AppendKeepsOwnerAndName | src/main/java/ru/semavin/microservice/services/SubscriptionService.java:48-56 | appending a row for a (user, name) pair not yet stored keeps one row per pair |
| SubscriptionService.CutIsTop | src/main/java/ru/semavin/microservice/services/SubscriptionService.java:121-125 | a name cut off by `.limit(3)` has no more rows than a kept name |
| SubscriptionService.TopThreeOfFour | src/main/java/ru/semavin/microservice/services/SubscriptionService.java:120-137 | over four names with strictly decreasing counts, the answer is the first three, with their counts, in order |
| SubscriptionService.TopThreeExample | src/main/java/ru/semavin/microservice/services/SubscriptionService.java:120-137 | if A, B, C, D have 5, 3, 2, 1 rows, the answer is exactly A 5, B 3, C 2 |
| Scenarios.UserLifecycle | src/main/java/ru/semavin/microservice/services/UserService.java:33-91 | create, read, delete, read again: the read returns the created user and the last read fails with `userNotFound` of its id |
| Scenarios.PartialUpdate | src/main/java/ru/semavin/microservice/services/UserService.java:64-75 | updating only the name keeps the stored email |
| Scenarios.DuplicateSubscribe | src/main/java/ru/semavin/microservice/services/SubscriptionService.java:43-60 | an unknown user 999 gives `userNotFound(999)`; the same user and service twice gives the duplicate error; another user may take the same service |
| Scenarios.UnsubscribeOrder | src/main/java/ru/semavin/microservice/services/SubscriptionService.java:91-106 | a missing subscription 15 is "not found" whoever asks; another user's subscription is "does not belong"; the owner removes it |
| Scenarios.TwoServicesBreakListing | src/main/java/ru/semavin/microservice/repositrories/SubscriptionRepository.java:15 | a user with two subscriptions gets an incorrect-result-size error from `getSubscriptions`, while the corrected listing returns both |

## Left out

- The controllers, HTTP status mapping, request validation (`@Valid`), logging and Swagger configuration are not modelled. The services are modelled from their inputs to their results.
- Transactions and concurrency are not modelled. Each operation runs alone. The check-then-insert race in `subscribe` between `existsByUserAndServiceName` and `save` is therefore not modelled.
- The database schema is not modelled: no unique constraint and no foreign key. Deleting a user leaves that user's subscriptions in the table, because `deleteUser` does nothing else. Whatever cascade or constraint error the real schema would add is not modelled.
- UserService.UserService.CreateUser: does not model a client-supplied DTO `id`. MapStruct copies it into the entity, and Spring Data's `save` then merges instead of inserting. `createUser` with the id of a stored user overwrites that user. The model always inserts under a fresh id.
- SubscriptionService.SubscriptionService.Subscribe: does not model a client-supplied DTO `id` either. With the id of a stored subscription, `save` rewrites that row, even when another user owns it. The model always inserts under a fresh id.
- Service names compare by exact string equality. The database compares them by its collation when it groups, filters with `IN` and checks duplicates. The Java grouping at SubscriptionService.java:127-128 uses `String.equals`. Under a case-insensitive collation, the duplicate check and the top-3 answer differ from the model, and that answer can hold more than three entries.
- `LocalDateTime.now()` for `createdAt` is the parameter `now` of `Subscribe`.
- Ids are unbounded integers. `Long` overflow is not modelled, nor the `Integer` key type that `UserRepository` declares while the service passes `Long`. A null `serviceName` and the 100-character column limit are not modelled.
- The database leaves the order of equal counts in `findAllTop` open, and the `HashMap` behind `groupingBy` leaves its iteration order open. The model fixes one order for each. The contracts of `SubscriptionService.TopSubscriptions` state only what every such order satisfies.
- `Store.Database.UpdateUserRow` writes the merged entity back at once. The source relies on the transaction flushing the managed entity when `updateUser` returns.

## Findings

| source | as written | input that shows it | evidently intended | confidence | as-written member | corrected member |
|---|---|---|---|---|---|---|
| src/main/java/ru/semavin/microservice/repositrories/SubscriptionRepository.java:15 | `findByUser` returns `Optional<Subscription>`. `getSubscriptions` streams that `Optional`. A user with two or more subscriptions therefore makes the query fail with an incorrect-result-size error, and at most one subscription is ever listed. | user 1 subscribes to "A" and then to "B". `subscribe` allows this, because the service names differ. `getSubscriptions(1)` then fails. | return every subscription of the user, as a `List<Subscription>` query would | not executed | `SubscriptionService.SubscriptionService.GetSubscriptions`, exhibited by `Scenarios.TwoServicesBreakListing` | `SubscriptionService.SubscriptionService.ListSubscriptions` |
