/** Serial runs of logins: what a counter that does not slide promises about any 15 minutes, and when a
    lockout never ends. */
module LockoutRuns {
  import opened Prelude
  import opened Lockout

  /** Each login starts after the previous one has sent its last command. */
  predicate Serial(from: int, logins: List<Login>)
    decreases logins
  {
    match logins
    case Nil => true
    case Cons(l, rest) => from <= l.checkedAt <= l.actedAt <= l.expireAt && Serial(l.expireAt, rest)
  }

  predicate InWindow(a: int, at: int) {
    a <= at < a + 900_000
  }

  predicate FailsIn(store: Store, l: Login, key: string, a: int) {
    Key(l.email) == key && Fails(store, l) && InWindow(a, l.actedAt)
  }

  /** Counted failures of `key` in the 900 seconds from `a`. */
  function Failures(store: Store, logins: List<Login>, key: string, a: int): nat
    decreases logins
  {
    match logins
    case Nil => 0
    case Cons(l, rest) =>
      (if FailsIn(store, l, key, a) then 1 else 0) + Failures(AfterLogin(store, l), rest, key, a)
  }

  predicate SucceedsIn(store: Store, l: Login, key: string, a: int) {
    Key(l.email) == key && Clears(store, l) && InWindow(a, l.actedAt)
  }

  /** No success clears `key` in the 900 seconds from `a`. */
  predicate NoSuccess(store: Store, logins: List<Login>, key: string, a: int)
    decreases logins
  {
    match logins
    case Nil => true
    case Cons(l, rest) => !SucceedsIn(store, l, key, a) && NoSuccess(AfterLogin(store, l), rest, key, a)
  }

  // ---- The bound -------------------------------------------------------------------

  /** The counter of `key` started its current (or latest) lifetime at `start`, if at all since the
      last success. */
  predicate CounterSince(store: Store, key: string, start: Option<int>, now: int) {
    match start
    case None => key !in store
    case Some(s) =>
      && key in store && s <= now && 1 <= store[key].count <= LOCKOUT_THRESHOLD
      && (store[key].expiresAt.Some? ==> s + LOCKOUT_TTL <= store[key].expiresAt.value)
  }

  /** How many failures the window from `a` can hold so far. A lifetime that began before the window
      contributes at most its later failures, and at most one can begin inside it. */
  predicate WithinBudget(store: Store, key: string, start: Option<int>, now: int, a: int, failures: nat) {
    && (now < a ==> failures == 0)
    && failures <= 9
    && match start
       case None => failures > 0 ==> a + LOCKOUT_TTL <= now
       case Some(s) =>
         key in store
         && (s < a ==> failures < store[key].count)
         && (InWindow(a, s) ==> failures <= 4 + store[key].count)
  }

  /** A failure of `key` that is counted is at most the fifth of its counter's lifetime. */
  predicate CountWithinThreshold(store: Store, l: Login, key: string) {
    Key(l.email) == key && Fails(store, l) ==>
      key in AfterLogin(store, l) && 1 <= AfterLogin(store, l)[key].count <= LOCKOUT_THRESHOLD
  }

  /** One login moves the budget on, with the lifetime that now applies. */
  lemma StepWithinBudget(store: Store, l: Login, key: string, start: Option<int>, now: int, a: int, failures: nat)
    returns (next: Option<int>)
    requires CounterSince(store, key, start, now) && WithinBudget(store, key, start, now, a, failures)
    requires now <= l.checkedAt <= l.actedAt <= l.expireAt
    requires !SucceedsIn(store, l, key, a)
    ensures CounterSince(AfterLogin(store, l), key, next, l.expireAt)
    ensures WithinBudget(AfterLogin(store, l), key, next, l.expireAt, a,
                         failures + if FailsIn(store, l, key, a) then 1 else 0)
    ensures CountWithinThreshold(store, l, key)
  {
    next := start;
    if Key(l.email) == key {
      if Clears(store, l) {
        next := None;
      } else if Fails(store, l) && !Live(store, key, l.actedAt) {
        next := Some(l.actedAt);
      }
    }
  }

  lemma {:induction false} RunWithinBudget(
      store: Store, logins: List<Login>, key: string, start: Option<int>, now: int, a: int, failures: nat)
    requires CounterSince(store, key, start, now) && WithinBudget(store, key, start, now, a, failures)
    requires Serial(now, logins) && NoSuccess(store, logins, key, a)
    ensures failures + Failures(store, logins, key, a) <= 9
    decreases logins
  {
    if logins.Cons? {
      var l := logins.head;
      var next := StepWithinBudget(store, l, key, start, now, a, failures);
      RunWithinBudget(AfterLogin(store, l), logins.tail, key, next, l.expireAt, a,
                      failures + if FailsIn(store, l, key, a) then 1 else 0);
    }
  }

  /** At most 9 counted failures fall in any 900 seconds without a successful login, over every serial
      run on any addresses, whatever Redis commands get lost. */
  lemma SlidingWindowBound(logins: List<Login>, key: string, now: int, a: int)
    requires Serial(now, logins) && NoSuccess(map[], logins, key, a)
    ensures Failures(map[], logins, key, a) <= 9
  {
    RunWithinBudget(map[], logins, key, None, now, a, 0);
  }

  /** Every counted failure of `key` is at most the fifth of its counter's lifetime. */
  predicate CountsWithinThreshold(store: Store, logins: List<Login>, key: string)
    decreases logins
  {
    match logins
    case Nil => true
    case Cons(l, rest) =>
      CountWithinThreshold(store, l, key) && CountsWithinThreshold(AfterLogin(store, l), rest, key)
  }

  lemma {:induction false} LifetimeBound(store: Store, logins: List<Login>, key: string, start: Option<int>, now: int)
    requires CounterSince(store, key, start, now) && Serial(now, logins)
    ensures CountsWithinThreshold(store, logins, key)
    decreases logins
  {
    if logins.Cons? {
      var l := logins.head;
      var next := StepWithinBudget(store, l, key, start, now, l.expireAt + 1, 0);
      LifetimeBound(AfterLogin(store, l), logins.tail, key, next, l.expireAt);
    }
  }

  // ---- The bound is reached ----------------------------------------------------------

  function FailureAt(at: int): Login {
    Login("a", at, at, at, false, true, Answered, Answered, Answered)
  }

  function Counting(store: Store, key: string, n: Positive, expiresAt: Option<int>): Store {
    store[key := Entry(n, expiresAt)]
  }

  lemma OneOfBurst(store: Store, at: int, n: Positive, expiresAt: Option<int>, key: string)
    requires key == Key("a") && (expiresAt.Some? ==> at <= expiresAt.value) && n < LOCKOUT_THRESHOLD
    ensures Fails(Counting(store, key, n, expiresAt), FailureAt(at))
    ensures AfterLogin(Counting(store, key, n, expiresAt), FailureAt(at)) == Counting(store, key, n + 1, expiresAt)
  {
    var s := Counting(store, key, n, expiresAt);
    assert Incremented(s, key, at) == Counting(store, key, n + 1, expiresAt);
  }

  lemma FirstOfBurst(store: Store, at: int, key: string)
    requires key == Key("a") && CountAt(store, key, at) == 0
    ensures Fails(store, FailureAt(at))
    ensures AfterLogin(store, FailureAt(at)) == Counting(store, key, 1, Some(at + LOCKOUT_TTL))
  {
    var s := Incremented(store, key, at);
    assert s[key := s[key].(expiresAt := Some(at + LOCKOUT_TTL))] == Counting(store, key, 1, Some(at + LOCKOUT_TTL));
  }

  lemma AfterFailure(store: Store, l: Login, after: Store, rest: List<Login>, key: string, a: int)
    requires AfterLogin(store, l) == after && FailsIn(store, l, key, a)
    ensures Failures(store, Cons(l, rest), key, a) == 1 + Failures(after, rest, key, a)
    ensures NoSuccess(store, Cons(l, rest), key, a) == NoSuccess(after, rest, key, a)
  {
  }

  /** What a burst contributes: `c` failures and no success. */
  predicate Contributes(
      store: Store, logins: List<Login>, after: Store, rest: List<Login>, key: string, a: int, c: nat)
  {
    && Failures(store, logins, key, a) == c + Failures(after, rest, key, a)
    && NoSuccess(store, logins, key, a) == NoSuccess(after, rest, key, a)
  }

  lemma {:induction false} BurstCounts(
      store: Store, at: int, n: Positive, k: nat, expiresAt: int, rest: List<Login>, key: string, a: int)
    requires key == Key("a") && InWindow(a, at) && at <= expiresAt && n + k <= LOCKOUT_THRESHOLD
    ensures Contributes(Counting(store, key, n, Some(expiresAt)), Repeat(FailureAt(at), k, rest),
                        Counting(store, key, n + k, Some(expiresAt)), rest, key, a, k)
    decreases k
  {
    if k > 0 {
      BurstCounts(store, at, n + 1, k - 1, expiresAt, rest, key, a);
      OneMoreInBurst(store, at, n, expiresAt, Repeat(FailureAt(at), k - 1, rest),
                     Counting(store, key, n + k, Some(expiresAt)), rest, key, a, k - 1);
    }
  }

  lemma OneMoreInBurst(store: Store, at: int, n: Positive, expiresAt: int, logins: List<Login>, after: Store,
                       rest: List<Login>, key: string, a: int, k: nat)
    requires key == Key("a") && InWindow(a, at) && at <= expiresAt && n < LOCKOUT_THRESHOLD
    requires Contributes(Counting(store, key, n + 1, Some(expiresAt)), logins, after, rest, key, a, k)
    ensures Contributes(Counting(store, key, n, Some(expiresAt)), Cons(FailureAt(at), logins), after, rest,
                        key, a, k + 1)
  {
    OneOfBurst(store, at, n, Some(expiresAt), key);
    BurstGrows(Counting(store, key, n, Some(expiresAt)), Counting(store, key, n + 1, Some(expiresAt)), logins,
               after, rest, at, key, a, k);
  }

  lemma BurstGrows(store: Store, next: Store, logins: List<Login>, after: Store, rest: List<Login>,
                   at: int, key: string, a: int, k: nat)
    requires Fails(store, FailureAt(at)) && AfterLogin(store, FailureAt(at)) == next
    requires key == Key("a") && InWindow(a, at)
    requires Contributes(next, logins, after, rest, key, a, k)
    ensures Contributes(store, Cons(FailureAt(at), logins), after, rest, key, a, k + 1)
  {
    AfterFailure(store, FailureAt(at), next, logins, key, a);
  }

  lemma {:induction false} BurstIsSerial(at: int, k: nat, rest: List<Login>)
    requires Serial(at, rest)
    ensures Serial(at, Repeat(FailureAt(at), k, rest))
    decreases k
  {
    if k > 0 {
      BurstIsSerial(at, k - 1, rest);
    }
  }

  /** One failure, four more in the last millisecond of its counter, and five in the next: nine within two
      milliseconds, so the bound of nine is exact. */
  lemma SlidingWindowBoundIsTight(now: int)
    ensures exists logins, a ::
      Serial(now, logins) && NoSuccess(map[], logins, Key("a"), a) && Failures(map[], logins, Key("a"), a) == 9
  {
    var key, late, again, a := Key("a"), now + LOCKOUT_TTL, now + LOCKOUT_TTL + 1, now + 2;
    var tail := Repeat(FailureAt(again), 5, Nil);
    var logins := Cons(FailureAt(now), Repeat(FailureAt(late), 4, tail));
    var s2 := Counting(map[], key, 5, Some(late));
    FirstOfBurst(map[], now, key);
    FirstOfBurst(s2, again, key);
    BurstCounts(s2, again, 1, 4, again + LOCKOUT_TTL, Nil, key, a);
    BurstIsSerial(again, 5, Nil);
    assert Failures(s2, tail, key, a) == 5 && NoSuccess(s2, tail, key, a) && Serial(late, tail);
    BurstCounts(map[], late, 1, 4, late, tail, key, a);
    BurstIsSerial(late, 4, tail);
    assert Serial(now, logins) && NoSuccess(map[], logins, key, a) && Failures(map[], logins, key, a) == 9;
  }

  // ---- What a lost EXPIRE does ---------------------------------------------------------

  function Run(store: Store, logins: List<Login>): Store
    decreases logins
  {
    match logins
    case Nil => store
    case Cons(l, rest) => Run(AfterLogin(store, l), rest)
  }

  /** When the last login of a serial run has sent its last command. */
  function EndOf(from: int, logins: List<Login>): int
    decreases logins
  {
    match logins
    case Nil => from
    case Cons(l, rest) => EndOf(l.expireAt, rest)
  }

  /** The login whose failure started the lifetime of `key`'s counter, if no success has cleared it. */
  function OpenerAfter(store: Store, l: Login, key: string, opener: Option<Login>): Option<Login> {
    if Key(l.email) != key then opener
    else if Fails(store, l) && CountAt(store, key, l.actedAt) == 0 then Some(l)
    else if Clears(store, l) then None
    else opener
  }

  function Opener(store: Store, logins: List<Login>, key: string, opener: Option<Login>): Option<Login>
    decreases logins
  {
    match logins
    case Nil => opener
    case Cons(l, rest) => Opener(AfterLogin(store, l), rest, key, OpenerAfter(store, l, key, opener))
  }

  /** The counter's expiry is the one its opener sent, if that got through. */
  predicate OpenedBy(store: Store, key: string, opener: Option<Login>) {
    match opener
    case None => key !in store
    case Some(l) =>
      && Key(l.email) == key && key in store
      && store[key].expiresAt == if SendsExpire(l) then Some(l.expireAt + LOCKOUT_TTL) else None
  }

  lemma StepOpened(store: Store, l: Login, key: string, opener: Option<Login>)
    requires OpenedBy(store, key, opener)
    ensures OpenedBy(AfterLogin(store, l), key, OpenerAfter(store, l, key, opener))
  {
  }

  lemma {:induction false} RunOpened(store: Store, logins: List<Login>, key: string, opener: Option<Login>)
    requires OpenedBy(store, key, opener)
    ensures OpenedBy(Run(store, logins), key, Opener(store, logins, key, opener))
    decreases logins
  {
    if logins.Cons? {
      StepOpened(store, logins.head, key, opener);
      RunOpened(AfterLogin(store, logins.head), logins.tail, key, OpenerAfter(store, logins.head, key, opener));
    }
  }

  predicate AllLocked(store: Store, logins: List<Login>, key: string)
    decreases logins
  {
    match logins
    case Nil => true
    case Cons(l, rest) =>
      (Key(l.email) == key ==> !PassesCheck(store, l)) && AllLocked(AfterLogin(store, l), rest, key)
  }

  /** No later login for `key` gets past the lockout check, however long it waits. */
  ghost predicate LockedForever(store: Store, key: string, from: int) {
    forall later | Serial(from, later) :: AllLocked(store, later, key)
  }

  lemma {:induction false} StaysLocked(store: Store, logins: List<Login>, key: string)
    requires key in store && store[key].count >= LOCKOUT_THRESHOLD && store[key].expiresAt.None?
    ensures AllLocked(store, logins, key)
    decreases logins
  {
    if logins.Cons? {
      StaysLocked(AfterLogin(store, logins.head), logins.tail, key);
    }
  }

  lemma PassingIsNotLocked(store: Store, l: Login, key: string, from: int)
    requires PassesCheck(store, l) && Key(l.email) == key && from <= l.checkedAt <= l.actedAt <= l.expireAt
    ensures !LockedForever(store, key, from)
  {
    var later := Cons(l, Nil);
    assert Serial(l.expireAt, later.tail) && Serial(from, later);
    assert !AllLocked(store, later, key) by {
      assert later.head == l && Key(later.head.email) == key;
    }
  }

  /** At the end of any serial run that leaves `key` locked out: the lockout never ends if and only if the
      login that opened the counter's lifetime did not get its EXPIRE executed. What became of later
      commands does not matter. */
  lemma LockedForeverIffOpenerLostExpire(logins: List<Login>, key: string, from: int)
    requires LockedOut(Run(map[], logins), key, EndOf(from, logins))
    ensures Opener(map[], logins, key, None).Some?
    ensures LockedForever(Run(map[], logins), key, EndOf(from, logins)) <==>
            !SendsExpire(Opener(map[], logins, key, None).value)
  {
    RunOpened(map[], logins, key, None);
    var store, end, opener := Run(map[], logins), EndOf(from, logins), Opener(map[], logins, key, None).value;
    if SendsExpire(opener) {
      var at := opener.expireAt + LOCKOUT_TTL + 1;
      assert end < at;
      var l := Login(opener.email, at, at, at, false, true, Answered, Answered, Answered);
      assert PassesCheck(store, l) && Key(l.email) == key;
      PassingIsNotLocked(store, l, key, end);
    } else {
      forall later | Serial(end, later) ensures AllLocked(store, later, key) {
        StaysLocked(store, later, key);
      }
    }
  }

  lemma {:induction false} BurstRuns(store: Store, at: int, n: Positive, k: nat, expiresAt: Option<int>, key: string)
    requires key == Key("a") && n + k <= LOCKOUT_THRESHOLD && (expiresAt.Some? ==> at <= expiresAt.value)
    ensures Run(Counting(store, key, n, expiresAt), Repeat(FailureAt(at), k, Nil)) ==
            Counting(store, key, n + k, expiresAt)
    decreases k
  {
    if k > 0 {
      OneOfBurst(store, at, n, expiresAt, key);
      BurstRuns(store, at, n + 1, k - 1, expiresAt, key);
    }
  }

  lemma {:induction false} BurstEnds(at: int, k: nat)
    ensures EndOf(at, Repeat(FailureAt(at), k, Nil)) == at
  {
    if k > 0 {
      BurstEnds(at, k - 1);
    }
  }

  /** Five serial failures of which only the first loses its EXPIRE lock the address for ever. */
  lemma OneLostExpireLocksForever(now: int)
    ensures var logins := Cons(FailureAt(now).(expire := NotExecuted), Repeat(FailureAt(now), 4, Nil));
            Serial(now, logins) && LockedForever(Run(map[], logins), Key("a"), EndOf(now, logins))
  {
    var key, first, rest := Key("a"), FailureAt(now).(expire := NotExecuted), Repeat(FailureAt(now), 4, Nil);
    var store := Counting(map[], key, 5, None);
    assert AfterLogin(map[], first) == Counting(map[], key, 1, None);
    BurstRuns(map[], now, 1, 4, None, key);
    BurstIsSerial(now, 4, Nil);
    BurstEnds(now, 4);
    forall later | Serial(now, later) ensures AllLocked(store, later, key) {
      StaysLocked(store, later, key);
    }
  }

  // ---- Answers over a run -----------------------------------------------------------------

  /** Every login of the run is answered as the policy says, and changes the counters as it says. */
  predicate AllKeepPolicy(store: Store, logins: List<Login>)
    decreases logins
  {
    match logins
    case Nil => true
    case Cons(l, rest) =>
      && KeepsLoginPolicy(store, l, Answer(store, l))
      && CountersAfter(store, l, AfterLogin(store, l))
      && AllKeepPolicy(AfterLogin(store, l), rest)
  }

  lemma {:induction false} RunKeepsPolicy(store: Store, logins: List<Login>)
    ensures AllKeepPolicy(store, logins)
    decreases logins
  {
    if logins.Cons? {
      AnswerKeepsPolicy(store, logins.head, RedisFailed);
      LoginKeepsCounters(store, logins.head);
      RunKeepsPolicy(AfterLogin(store, logins.head), logins.tail);
    }
  }

  /** No login of the run with rejected credentials, and none that finds five failures counted, succeeds. */
  predicate OnlyGoodLoginsSucceed(store: Store, logins: List<Login>)
    decreases logins
  {
    match logins
    case Nil => true
    case Cons(l, rest) =>
      && (Answer(store, l).LoggedIn? ==> l.verified && l.active && CountAt(store, Key(l.email), l.checkedAt) < 5)
      && OnlyGoodLoginsSucceed(AfterLogin(store, l), rest)
  }

  lemma {:induction false} SuccessesAreEarned(store: Store, logins: List<Login>)
    ensures OnlyGoodLoginsSucceed(store, logins)
    decreases logins
  {
    if logins.Cons? {
      SuccessesAreEarned(AfterLogin(store, logins.head), logins.tail);
    }
  }

  /** Five serial failures from an empty store lock the address; it is locked until 900 seconds after the first
      one's EXPIRE and open again one millisecond later. */
  lemma LockedFor900Seconds(now: int, l: Login)
    requires Key(l.email) == Key("a") && l.check.Answered? && l.act.Answered? && now <= l.checkedAt
    ensures var store := Run(map[], Repeat(FailureAt(now), 5, Nil));
            Answer(store, l).AccountLocked? <==> l.checkedAt <= now + 900_000
  {
    var key := Key("a");
    FirstOfBurst(map[], now, key);
    BurstRuns(map[], now, 1, 4, Some(now + LOCKOUT_TTL), key);
    assert Repeat(FailureAt(now), 5, Nil) == Cons(FailureAt(now), Repeat(FailureAt(now), 4, Nil));
  }

  /** The seconds a rejected login is told to wait lead to within half a second of the counter's expiry; a
      lockout that never ends tells it to retry at once. */
  lemma RetryAfterIsRemaining(store: Store, l: Login)
    requires Answer(store, l).AccountLocked? && Live(store, Key(l.email), l.actedAt)
    ensures var entry, again := store[Key(l.email)], l.actedAt + 1000 * Answer(store, l).retryAfterSeconds;
            && (entry.expiresAt.None? ==> again == l.actedAt)
            && (entry.expiresAt.Some? ==> -500 < again - entry.expiresAt.value <= 500)
  {
  }
}
