/**
 * The domain exceptions and the factory that builds their messages from ids
 * (`String.format` with `%d`), plus a parser that reads the id back out of a
 * message, so that every message is shown to identify its id.
 */
module ExceptionFactory {
  import opened Wrappers

  /** The exceptions the services throw, each with the message the client sees. */
  datatype ServiceError =
    | UserNotFound(message: string)
    | SubscriptionNotFound(message: string)
    | SubscriptionNotBelongToUser(message: string)
      /** Spring's DataIntegrityViolationException, thrown by subscribe for a duplicate. */
    | DataIntegrityViolation(message: string)
      /** Spring's IncorrectResultSizeDataAccessException: a single-result query matched `actual` rows. */
    | IncorrectResultSize(expected: nat, actual: nat)
      /** Hibernate's refusal, at flush, of a managed entity whose id was changed from `stored` to `requested`. */
    | IdentifierAltered(stored: int, requested: int)

  const DuplicateSubscriptionMessage: string := "Пользователь уже подписан на этот сервис"

  const UserNotFoundPrefix: string := "Пользователь с id: "
  const UserNotFoundSuffix: string := " не найден"
  const SubscriptionNotFoundPrefix: string := "Подписка с id: "
  const SubscriptionNotFoundSuffix: string := " не найдена"
  const NotBelongPrefix: string := "Подписка "
  const NotBelongInfix: string := " не принадлежит пользователю "

  // ---------------------------------------------------------------------------
  // `%d`: decimal text of a (possibly negative) integer, and its inverse

  function DigitChar(d: nat): (c: char)
    requires d < 10
    ensures '0' <= c <= '9' && c as int - '0' as int == d
  {
    "0123456789"[d]
  }

  predicate IsDigit(c: char) {
    '0' <= c <= '9'
  }

  predicate AllDigits(s: string) {
    forall i :: 0 <= i < |s| ==> IsDigit(s[i])
  }

  /** The decimal digits of `n`, most significant first, without leading zeros. */
  function Digits(n: nat): (s: string)
    ensures |s| >= 1 && AllDigits(s)
    ensures |s| > 1 ==> s[0] != '0'
    ensures n > 0 ==> s[0] != '0'
  {
    if n < 10 then [DigitChar(n)] else Digits(n / 10) + [DigitChar(n % 10)]
  }

  /** `String.format("%d", n)`. */
  function Decimal(n: int): (s: string)
    ensures |s| >= 1
    ensures n >= 0 <==> IsDigit(s[0])
    ensures n < 0 <==> s[0] == '-'
    ensures n < 0 ==> |s| >= 2
    ensures AllDigits(if n < 0 then s[1..] else s)
    ensures n >= 0 && |s| > 1 ==> s[0] != '0'
    ensures n < 0 ==> s[1] != '0'
  {
    if n < 0 then "-" + Digits(-n) else Digits(n)
  }

  function DigitsValue(s: string): nat
    requires AllDigits(s)
  {
    if s == [] then 0
    else DigitsValue(s[..|s| - 1]) * 10 + (s[|s| - 1] as int - '0' as int)
  }

  /** Reads back what `Decimal` writes; `None` for text that is not an optionally signed digit string. */
  function ParseDecimal(s: string): Option<int> {
    if |s| >= 2 && s[0] == '-' && AllDigits(s[1..]) then Some(-(DigitsValue(s[1..]) as int))
    else if |s| >= 1 && AllDigits(s) then Some(DigitsValue(s))
    else None
  }

  lemma {:induction false} DigitsRoundTrip(n: nat)
    ensures DigitsValue(Digits(n)) == n
  {
    if n >= 10 {
      var s := Digits(n);
      assert s[..|s| - 1] == Digits(n / 10);
      DigitsRoundTrip(n / 10);
    }
  }

  /** `%d` loses nothing: the id can always be read back from its text. */
  lemma DecimalRoundTrip(n: int)
    ensures ParseDecimal(Decimal(n)) == Some(n)
  {
    if n < 0 {
      NegativeRoundTrip(n);
    } else {
      DigitsRoundTrip(n);
      assert Decimal(n) == Digits(n);
    }
  }

  lemma NegativeRoundTrip(n: int)
    requires n < 0
    ensures ParseDecimal(Decimal(n)) == Some(n)
  {
    var d := Digits(-n);
    var s := "-" + d;
    assert Decimal(n) == s;
    assert s[1..] == d;
    DigitsRoundTrip(-n);
    assert |s| >= 2 && s[0] == '-' && AllDigits(s[1..]);
    assert ParseDecimal(s) == Some(-(DigitsValue(d) as int));
  }

  lemma DecimalInjective(a: int, b: int)
    requires Decimal(a) == Decimal(b)
    ensures a == b
  {
    DecimalRoundTrip(a);
    DecimalRoundTrip(b);
  }

  // ---------------------------------------------------------------------------
  // Reading an id back out of a message

  /** The text strictly between `prefix` and `suffix`, if `msg` has that shape. */
  function Between(msg: string, prefix: string, suffix: string): Option<string> {
    if |prefix| + |suffix| <= |msg| && msg[..|prefix|] == prefix && msg[|msg| - |suffix|..] == suffix
    then Some(msg[|prefix|..|msg| - |suffix|])
    else None
  }

  /** The id a message of the shape prefix + id + suffix names. */
  function IdBetween(msg: string, prefix: string, suffix: string): Option<int> {
    match Between(msg, prefix, suffix)
    case None => None
    case Some(t) => ParseDecimal(t)
  }

  lemma BetweenOfConcat(prefix: string, middle: string, suffix: string)
    ensures Between(prefix + middle + suffix, prefix, suffix) == Some(middle)
  {
    var msg := prefix + middle + suffix;
    assert msg[..|prefix|] == prefix;
    assert msg[|msg| - |suffix|..] == suffix;
    assert msg[|prefix|..|msg| - |suffix|] == middle;
  }

  // ---------------------------------------------------------------------------
  // The factory

  /** `userNotFound(userId)`: "Пользователь с id: <userId> не найден". */
  function UserNotFoundError(userId: int): (e: ServiceError)
    ensures e.UserNotFound?
    ensures IdBetween(e.message, UserNotFoundPrefix, UserNotFoundSuffix) == Some(userId)
  {
    var e := UserNotFound(UserNotFoundPrefix + Decimal(userId) + UserNotFoundSuffix);
    BetweenOfConcat(UserNotFoundPrefix, Decimal(userId), UserNotFoundSuffix);
    DecimalRoundTrip(userId);
    e
  }

  /** `subscriptionNotFound(subscriptionId)`: "Подписка с id: <subscriptionId> не найдена". */
  function SubscriptionNotFoundError(subscriptionId: int): (e: ServiceError)
    ensures e.SubscriptionNotFound?
    ensures IdBetween(e.message, SubscriptionNotFoundPrefix, SubscriptionNotFoundSuffix) == Some(subscriptionId)
  {
    var e := SubscriptionNotFound(SubscriptionNotFoundPrefix + Decimal(subscriptionId) + SubscriptionNotFoundSuffix);
    BetweenOfConcat(SubscriptionNotFoundPrefix, Decimal(subscriptionId), SubscriptionNotFoundSuffix);
    DecimalRoundTrip(subscriptionId);
    e
  }

  /**
   * `subscriptionNotBelongToUser(userId, subscriptionId)`: the subscription id
   * comes first, the user id second.
   */
  function SubscriptionNotBelongToUserError(userId: int, subscriptionId: int): (e: ServiceError)
    ensures e.SubscriptionNotBelongToUser?
    ensures IdBetween(e.message, NotBelongPrefix, NotBelongInfix + Decimal(userId)) == Some(subscriptionId)
    ensures IdBetween(e.message, NotBelongPrefix + Decimal(subscriptionId) + NotBelongInfix, "") == Some(userId)
  {
    var msg := NotBelongPrefix + Decimal(subscriptionId) + NotBelongInfix + Decimal(userId);
    assert msg == NotBelongPrefix + Decimal(subscriptionId) + (NotBelongInfix + Decimal(userId));
    BetweenOfConcat(NotBelongPrefix, Decimal(subscriptionId), NotBelongInfix + Decimal(userId));
    assert msg == NotBelongPrefix + Decimal(subscriptionId) + NotBelongInfix + Decimal(userId) + "";
    BetweenOfConcat(NotBelongPrefix + Decimal(subscriptionId) + NotBelongInfix, Decimal(userId), "");
    DecimalRoundTrip(subscriptionId);
    DecimalRoundTrip(userId);
    SubscriptionNotBelongToUser(msg)
  }

  /** Different ids give different messages: a message names exactly one user. */
  lemma UserNotFoundDistinguishesIds(a: int, b: int)
    requires UserNotFoundError(a) == UserNotFoundError(b)
    ensures a == b
  {
    var ea, eb := UserNotFoundError(a), UserNotFoundError(b);
    assert IdBetween(ea.message, UserNotFoundPrefix, UserNotFoundSuffix) == Some(a);
  }

  lemma SubscriptionNotFoundDistinguishesIds(a: int, b: int)
    requires SubscriptionNotFoundError(a) == SubscriptionNotFoundError(b)
    ensures a == b
  {
    var ea := SubscriptionNotFoundError(a);
    assert IdBetween(ea.message, SubscriptionNotFoundPrefix, SubscriptionNotFoundSuffix) == Some(a);
  }

  /** The ownership message determines both ids, so swapping them is visible. */
  lemma NotBelongDistinguishesIds(u1: int, s1: int, u2: int, s2: int)
    requires SubscriptionNotBelongToUserError(u1, s1) == SubscriptionNotBelongToUserError(u2, s2)
    ensures u1 == u2 && s1 == s2
  {
    var m := SubscriptionNotBelongToUserError(u1, s1).message;
    var m2 := SubscriptionNotBelongToUserError(u2, s2).message;
    assert m == NotBelongPrefix + Decimal(s1) + NotBelongInfix + Decimal(u1);
    assert m2 == NotBelongPrefix + Decimal(s2) + NotBelongInfix + Decimal(u2);
    NotBelongSplit(Decimal(s1), Decimal(u1), Decimal(s2), Decimal(u2));
    DecimalInjective(s1, s2);
    DecimalInjective(u1, u2);
  }

  /** Index of the first space in `m` at or after `i`, or `|m|` if there is none. */
  function FirstSpaceFrom(m: string, i: nat): (k: nat)
    decreases |m| - i
  {
    if i >= |m| then |m| else if m[i] == ' ' then i else FirstSpaceFrom(m, i + 1)
  }

  lemma {:induction false} FirstSpaceAfter(m: string, i: nat, len: nat)
    requires i + len < |m| && m[i + len] == ' '
    requires forall k :: i <= k < i + len ==> m[k] != ' '
    ensures FirstSpaceFrom(m, i) == i + len
    decreases len
  {
    if len > 0 {
      FirstSpaceAfter(m, i + 1, len - 1);
    }
  }

  /** A decimal number followed by the infix ends at the first space after the prefix. */
  lemma NumberEndsAtSpace(a: string, b: string)
    requires |a| >= 1 && (a[0] == '-' || IsDigit(a[0])) && AllDigits(a[1..])
    ensures FirstSpaceFrom(NotBelongPrefix + a + NotBelongInfix + b, |NotBelongPrefix|) == |NotBelongPrefix| + |a|
  {
    var m := NotBelongPrefix + a + NotBelongInfix + b;
    var p := |NotBelongPrefix|;
    forall k | p <= k < p + |a| ensures m[k] != ' ' {
      assert m[k] == a[k - p];
      if k > p { assert a[k - p] == a[1..][k - p - 1]; }
    }
    assert m[p + |a|] == NotBelongInfix[0];
    FirstSpaceAfter(m, p, |a|);
  }

  /**
   * The infix cannot occur inside a decimal number, so a message with two
   * numbers splits in only one way.
   */
  lemma NotBelongSplit(a: string, b: string, c: string, d: string)
    requires |a| >= 1 && |c| >= 1
    requires (a[0] == '-' || IsDigit(a[0])) && AllDigits(a[1..])
    requires (c[0] == '-' || IsDigit(c[0])) && AllDigits(c[1..])
    requires NotBelongPrefix + a + NotBelongInfix + b == NotBelongPrefix + c + NotBelongInfix + d
    ensures a == c && b == d
  {
    var p := |NotBelongPrefix|;
    var m := NotBelongPrefix + a + NotBelongInfix + b;
    NumberEndsAtSpace(a, b);
    NumberEndsAtSpace(c, d);
    assert a == m[p..p + |a|];
    assert b == m[p + |a| + |NotBelongInfix|..];
  }

  /** The three not-found/ownership factories produce three different kinds of error. */
  lemma FactoriesDiffer(userId: int, subscriptionId: int)
    ensures UserNotFoundError(userId) != SubscriptionNotFoundError(subscriptionId)
    ensures UserNotFoundError(userId) != SubscriptionNotBelongToUserError(userId, subscriptionId)
    ensures SubscriptionNotFoundError(subscriptionId) != SubscriptionNotBelongToUserError(userId, subscriptionId)
  {
  }

  lemma DecimalSmall()
    ensures Decimal(1) == "1" && Decimal(5) == "5"
  {
  }

  lemma Decimal15And20()
    ensures Decimal(15) == "15" && Decimal(20) == "20"
  {
    assert Digits(15) == Digits(1) + "5";
    assert Digits(20) == Digits(2) + "0";
  }

  lemma Decimal999()
    ensures Decimal(999) == "999"
  {
    assert Digits(99) == Digits(9) + "9";
    assert Digits(999) == Digits(99) + "9";
  }

  /** The message of `userNotFound` is the prefix, the id's text and the suffix, in that order. */
  lemma UserNotFoundMessage(userId: int, text: string)
    requires Decimal(userId) == text
    ensures UserNotFoundError(userId).message == UserNotFoundPrefix + text + UserNotFoundSuffix
  {
  }

  /** The message the user controller test expects for the absent user 1. */
  lemma UserNotFoundExample1()
    ensures UserNotFoundError(1).message == "Пользователь с id: 1 не найден"
  {
    DecimalSmall();
    UserNotFoundMessage(1, "1");
  }

  /** The message the subscription controller test expects for the absent user 5. */
  lemma UserNotFoundExample5()
    ensures UserNotFoundError(5).message == "Пользователь с id: 5 не найден"
  {
    DecimalSmall();
    UserNotFoundMessage(5, "5");
  }

  /** The message the controller tests expect for the absent user 999. */
  lemma UserNotFoundExample999()
    ensures UserNotFoundError(999).message == "Пользователь с id: 999 не найден"
  {
    Decimal999();
    UserNotFoundMessage(999, "999");
  }

  /** The message of `subscriptionNotFound` is the prefix, the id's text and the suffix, in that order. */
  lemma SubscriptionNotFoundMessage(subscriptionId: int, text: string)
    requires Decimal(subscriptionId) == text
    ensures SubscriptionNotFoundError(subscriptionId).message
              == SubscriptionNotFoundPrefix + text + SubscriptionNotFoundSuffix
  {
  }

  /** The message the controller tests expect for subscription 15. */
  lemma SubscriptionNotFoundExample()
    ensures SubscriptionNotFoundError(15).message == "Подписка с id: 15 не найдена"
  {
    Decimal15And20();
    SubscriptionNotFoundMessage(15, "15");
    assert SubscriptionNotFoundPrefix + "15" + SubscriptionNotFoundSuffix == "Подписка с id: 15 не найдена";
  }

  /** The message of `subscriptionNotBelongToUser`: prefix, subscription id, infix, user id. */
  lemma NotBelongMessage(userId: int, subscriptionId: int, userText: string, subscriptionText: string)
    requires Decimal(userId) == userText && Decimal(subscriptionId) == subscriptionText
    ensures SubscriptionNotBelongToUserError(userId, subscriptionId).message
              == NotBelongPrefix + subscriptionText + NotBelongInfix + userText
  {
  }

  /** The message the controller tests expect for user 1 and subscription 20: subscription first. */
  lemma NotBelongExample()
    ensures SubscriptionNotBelongToUserError(1, 20).message == "Подписка 20 не принадлежит пользователю 1"
  {
    DecimalSmall();
    Decimal15And20();
    NotBelongMessage(1, 20, "1", "20");
    NotBelongText();
  }

  lemma NotBelongText()
    ensures NotBelongPrefix + "20" + NotBelongInfix + "1" == "Подписка 20 не принадлежит пользователю 1"
  {
    assert NotBelongPrefix + "20" == "Подписка 20";
    assert NotBelongPrefix + "20" + NotBelongInfix == "Подписка 20 не принадлежит пользователю ";
  }
}
