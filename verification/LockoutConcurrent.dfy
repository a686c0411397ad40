/** Overlapping login attempts for one address: every Redis command is atomic, and everything between
    two commands may interleave. */
module LockoutConcurrent {
  import opened Prelude
  import opened Lockout
  import opened LockoutRuns

  datatype Command =
    | Check                      // is_locked_out answers
    | Fail                       // INCR after rejected credentials
    | SetExpiry                  // EXPIRE after an INCR that returned 1
    | LoseExpiry                 // the attempt dies before that EXPIRE
    | Clear                      // DEL after a successful login
    | Leave                      // the attempt ends without touching the counter
    | Elsewhere(after: Store)    // a command for another key

  datatype Timed = Timed(command: Command, at: int)

  /** The store; attempts that have passed the lockout check and not yet acted, and attempts that have
      created the counter and not yet sent its EXPIRE. */
  datatype Attempts = Attempts(store: Store, passed: nat, creating: nat)

  predicate SameEntry(a: Store, b: Store, key: string) {
    (key in a <==> key in b) && (key in a ==> a[key] == b[key])
  }

  predicate Enabled(a: Attempts, key: string, c: Command) {
    match c
    case Check => true
    case Fail | Clear | Leave => a.passed > 0
    case SetExpiry | LoseExpiry => a.creating > 0
    case Elsewhere(after) => SameEntry(a.store, after, key)
  }

  function Execute(a: Attempts, key: string, c: Command, at: int): Attempts
    requires Enabled(a, key, c)
  {
    match c
    case Check => if LockedOut(a.store, key, at) then a else a.(passed := a.passed + 1)
    case Fail =>
      Attempts(Incremented(a.store, key, at), a.passed - 1,
               if CountAt(a.store, key, at) == 0 then a.creating + 1 else a.creating)
    case SetExpiry => a.(store := Expiring(a.store, key, at, LOCKOUT_TTL), creating := a.creating - 1)
    case LoseExpiry => a.(creating := a.creating - 1)
    case Clear => a.(store := a.store - {key}, passed := a.passed - 1)
    case Leave => a.(passed := a.passed - 1)
    case Elsewhere(after) => a.(store := after)
  }

  /** The commands, at times that never decrease, lead from `a` at `now` to `b` at `end`, and at most `n`
      attempts overlap at any time on the way. */
  predicate Leads(a: Attempts, now: int, key: string, commands: List<Timed>, b: Attempts, end: int, n: nat)
    decreases commands
  {
    a.passed + a.creating <= n &&
    match commands
    case Nil => a == b && now <= end
    case Cons(t, rest) =>
      now <= t.at && Enabled(a, key, t.command) && Leads(Execute(a, key, t.command, t.at), t.at, key, rest, b, end, n)
  }

  ghost predicate Reachable(b: Attempts, end: int, key: string, n: nat) {
    exists now, commands :: Leads(Attempts(map[], 0, 0), now, key, commands, b, end, n)
  }

  // ---- Serial runs are interleavings ---------------------------------------------------------

  /** The commands of one login for `key` that get executed, and after them `rest`. */
  function CommandsOf(store: Store, l: Login, key: string, rest: List<Timed>): List<Timed> {
    if Key(l.email) != key then Cons(Timed(Elsewhere(AfterLogin(store, l)), l.expireAt), rest)
    else if !l.check.Answered? then rest
    else Cons(Timed(Check, l.checkedAt),
              if LockedOut(store, key, l.checkedAt) then rest else ActionOf(store, l, key, rest))
  }

  /** What an attempt past the check does. */
  function ActionOf(store: Store, l: Login, key: string, rest: List<Timed>): List<Timed> {
    if Fails(store, l) then
      Cons(Timed(Fail, l.actedAt),
           if CountAt(store, key, l.actedAt) > 0 then rest
           else Cons(Timed(if SendsExpire(l) then SetExpiry else LoseExpiry, l.expireAt), rest))
    else Cons(Timed(if Clears(store, l) then Clear else Leave, l.actedAt), rest)
  }

  lemma LaterStart(
      a: Attempts, now: int, later: int, key: string, commands: List<Timed>, b: Attempts, end: int, n: nat)
    requires now <= later && Leads(a, later, key, commands, b, end, n)
    ensures Leads(a, now, key, commands, b, end, n)
  {
  }

  lemma OtherLoginInterleaves(store: Store, l: Login, key: string, from: int, rest: List<Timed>, b: Attempts, end: int)
    requires from <= l.expireAt && Key(l.email) != key
    requires Leads(Attempts(AfterLogin(store, l), 0, 0), l.expireAt, key, rest, b, end, 1)
    ensures Leads(Attempts(store, 0, 0), from, key, CommandsOf(store, l, key, rest), b, end, 1)
  {
    assert SameEntry(store, AfterLogin(store, l), key);
  }

  lemma FailureInterleaves(store: Store, l: Login, key: string, from: int, rest: List<Timed>, b: Attempts, end: int)
    requires from <= l.actedAt <= l.expireAt && Key(l.email) == key && Fails(store, l)
    requires Leads(Attempts(AfterLogin(store, l), 0, 0), l.expireAt, key, rest, b, end, 1)
    ensures Leads(Attempts(store, 1, 0), from, key, ActionOf(store, l, key, rest), b, end, 1)
  {
    var s1 := Incremented(store, key, l.actedAt);
    if s1[key].count > 1 {
      LaterStart(Attempts(s1, 0, 0), l.actedAt, l.expireAt, key, rest, b, end, 1);
    } else {
      var last := Timed(if SendsExpire(l) then SetExpiry else LoseExpiry, l.expireAt);
      assert Leads(Attempts(s1, 0, 1), l.actedAt, key, Cons(last, rest), b, end, 1);
    }
  }

  lemma ActionInterleaves(store: Store, l: Login, key: string, from: int, rest: List<Timed>, b: Attempts, end: int)
    requires from <= l.actedAt <= l.expireAt && Key(l.email) == key && PassesCheck(store, l)
    requires Leads(Attempts(AfterLogin(store, l), 0, 0), l.expireAt, key, rest, b, end, 1)
    ensures Leads(Attempts(store, 1, 0), from, key, ActionOf(store, l, key, rest), b, end, 1)
  {
    if Fails(store, l) {
      FailureInterleaves(store, l, key, from, rest, b, end);
    } else {
      LaterStart(Attempts(AfterLogin(store, l), 0, 0), l.actedAt, l.expireAt, key, rest, b, end, 1);
    }
  }

  lemma LoginInterleaves(store: Store, l: Login, key: string, from: int, rest: List<Timed>, b: Attempts, end: int)
    requires from <= l.checkedAt <= l.actedAt <= l.expireAt && Key(l.email) == key
    requires Leads(Attempts(AfterLogin(store, l), 0, 0), l.expireAt, key, rest, b, end, 1)
    ensures Leads(Attempts(store, 0, 0), from, key, CommandsOf(store, l, key, rest), b, end, 1)
  {
    if PassesCheck(store, l) {
      ActionInterleaves(store, l, key, l.checkedAt, rest, b, end);
    } else {
      LaterStart(Attempts(store, 0, 0), l.checkedAt, l.expireAt, key, rest, b, end, 1);
      LaterStart(Attempts(store, 0, 0), from, l.expireAt, key, rest, b, end, 1);
    }
  }

  /** Every serial run of logins is a run of commands in which no two attempts overlap, with the same
      final store. */
  lemma {:induction false} SerialRunsInterleave(store: Store, logins: List<Login>, key: string, from: int)
    returns (commands: List<Timed>)
    requires Serial(from, logins)
    ensures Leads(Attempts(store, 0, 0), from, key, commands,
                  Attempts(Run(store, logins), 0, 0), EndOf(from, logins), 1)
    decreases logins
  {
    match logins
    case Nil => commands := Nil;
    case Cons(l, rest) =>
      var later := SerialRunsInterleave(AfterLogin(store, l), rest, key, l.expireAt);
      commands := CommandsOf(store, l, key, later);
      var b, end := Attempts(Run(store, logins), 0, 0), EndOf(from, logins);
      if Key(l.email) == key {
        LoginInterleaves(store, l, key, from, later, b, end);
      } else {
        OtherLoginInterleaves(store, l, key, from, later, b, end);
      }
  }

  // ---- The bound ---------------------------------------------------------------------------

  /** The counter and the attempts past the check together stay within 4 + n. */
  predicate Within(a: Attempts, key: string, at: int, n: nat) {
    CountAt(a.store, key, at) + a.passed <= LOCKOUT_THRESHOLD - 1 + n
  }

  lemma CommandWithin(a: Attempts, now: int, key: string, c: Command, at: int, n: nat)
    requires n > 0 && now <= at && Enabled(a, key, c) && Within(a, key, now, n)
    requires Execute(a, key, c, at).passed <= n
    ensures Within(Execute(a, key, c, at), key, at, n)
  {
    assert CountAt(a.store, key, at) <= CountAt(a.store, key, now);
  }

  lemma {:induction false} OverlapBound(
      a: Attempts, now: int, key: string, commands: List<Timed>, b: Attempts, end: int, n: nat)
    requires n > 0 && Within(a, key, now, n) && Leads(a, now, key, commands, b, end, n)
    ensures Within(b, key, end, n)
    decreases commands
  {
    if commands.Cons? {
      var t := commands.head;
      CommandWithin(a, now, key, t.command, t.at, n);
      OverlapBound(Execute(a, key, t.command, t.at), t.at, key, commands.tail, b, end, n);
    }
  }

  // ---- The bound is reached ------------------------------------------------------------------

  /** A live counter and `passed` attempts past the check. */
  function Holding(key: string, count: Positive, expiresAt: int, passed: nat): Attempts {
    Attempts(map[key := Entry(count, Some(expiresAt))], passed, 0)
  }

  lemma {:induction false} RepeatedChecks(key: string, count: Positive, expiresAt: int, passed: nat, now: int, k: nat,
                                          rest: List<Timed>, b: Attempts, n: nat)
    requires now < expiresAt && count < LOCKOUT_THRESHOLD && passed + k <= n
    requires Leads(Holding(key, count, expiresAt, passed + k), now, key, rest, b, now, n)
    ensures Leads(Holding(key, count, expiresAt, passed), now, key, Repeat(Timed(Check, now), k, rest), b, now, n)
    decreases k
  {
    if k > 0 {
      RepeatedChecks(key, count, expiresAt, passed + 1, now, k - 1, rest, b, n);
    }
  }

  lemma OneFailure(key: string, count: Positive, expiresAt: int, passed: nat, now: int)
    requires now < expiresAt && passed > 0
    ensures Execute(Holding(key, count, expiresAt, passed), key, Fail, now)
            == Holding(key, count + 1, expiresAt, passed - 1)
  {
  }

  lemma {:induction false} RepeatedFailures(key: string, count: Positive, expiresAt: int, passed: nat, now: int, k: nat,
                                            n: nat)
    requires now < expiresAt && k <= passed <= n
    ensures Leads(Holding(key, count, expiresAt, passed), now, key, Repeat(Timed(Fail, now), k, Nil),
                  Holding(key, count + k, expiresAt, passed - k), now, n)
    decreases k
  {
    if k > 0 {
      OneFailure(key, count, expiresAt, passed, now);
      RepeatedFailures(key, count + 1, expiresAt, passed - 1, now, k - 1, n);
    }
  }

  /** A failure whose attempt is over before the next begins. */
  lemma SerialFailure(key: string, count: Positive, expiresAt: int, now: int, rest: List<Timed>, b: Attempts, n: nat)
    requires n > 0 && now < expiresAt && count < LOCKOUT_THRESHOLD
    requires Leads(Holding(key, count + 1, expiresAt, 0), now, key, rest, b, now, n)
    ensures Leads(Holding(key, count, expiresAt, 0), now, key,
                  Cons(Timed(Check, now), Cons(Timed(Fail, now), rest)), b, now, n)
  {
    OneFailure(key, count, expiresAt, 1, now);
    assert Leads(Holding(key, count, expiresAt, 1), now, key, Cons(Timed(Fail, now), rest), b, now, n);
  }

  lemma FirstFailure(key: string, now: int, rest: List<Timed>, b: Attempts, n: nat)
    requires n > 0 && Leads(Holding(key, 1, now + LOCKOUT_TTL, 0), now, key, rest, b, now, n)
    ensures Leads(Attempts(map[], 0, 0), now, key,
                  Cons(Timed(Check, now), Cons(Timed(Fail, now), Cons(Timed(SetExpiry, now), rest))), b, now, n)
  {
    var created := Attempts(map[key := Entry(1, None)], 0, 1);
    assert Execute(created, key, SetExpiry, now) == Holding(key, 1, now + LOCKOUT_TTL, 0);
    assert Leads(created, now, key, Cons(Timed(SetExpiry, now), rest), b, now, n);
    assert Execute(Attempts(map[], 1, 0), key, Fail, now) == created;
    assert Leads(Attempts(map[], 1, 0), now, key, Cons(Timed(Fail, now), Cons(Timed(SetExpiry, now), rest)), b, now, n);
  }

  /** After four serial failures, `p` overlapping attempts pass the check and `f` of them fail, all within
      one millisecond. */
  lemma FourThenBurst(key: string, now: int, p: nat, f: nat, n: nat)
    requires f <= p <= n && n > 0
    ensures Reachable(Holding(key, 4 + f, now + LOCKOUT_TTL, p - f), now, key, n)
  {
    var until, b := now + LOCKOUT_TTL, Holding(key, 4 + f, now + LOCKOUT_TTL, p - f);
    var fails := Repeat(Timed(Fail, now), f, Nil);
    RepeatedFailures(key, 4, until, p, now, f, n);
    var commands := Repeat(Timed(Check, now), p, fails);
    RepeatedChecks(key, 4, until, 0, now, p, fails, b, n);
    for i := 0 to 3
      invariant Leads(Holding(key, 4 - i, until, 0), now, key, commands, b, now, n)
    {
      SerialFailure(key, 3 - i, until, now, commands, b, n);
      commands := Cons(Timed(Check, now), Cons(Timed(Fail, now), commands));
    }
    FirstFailure(key, now, commands, b, n);
  }

  /** Among n overlapping attempts the counter reaches 4 + n and no more, over all runs of commands. */
  lemma OverlapBoundIsExact(key: string, n: nat)
    requires n > 0
    ensures exists b, end :: Reachable(b, end, key, n) && CountAt(b.store, key, end) == LOCKOUT_THRESHOLD - 1 + n
    ensures forall b, end | Reachable(b, end, key, n) ::
              CountAt(b.store, key, end) + b.passed <= LOCKOUT_THRESHOLD - 1 + n
  {
    FourThenBurst(key, 0, n, n, n);
    assert CountAt(Holding(key, 4 + n, LOCKOUT_TTL, 0).store, key, 0) == 4 + n;
    forall b, end | Reachable(b, end, key, n) ensures Within(b, key, end, n) {
      var now, commands :| Leads(Attempts(map[], 0, 0), now, key, commands, b, end, n);
      OverlapBound(Attempts(map[], 0, 0), now, key, commands, b, end, n);
    }
  }

  // ---- Can a success clear a lockout? -----------------------------------------------------

  /** With at most n attempts overlapping, a counter that a success could clear is below the threshold. */
  ghost predicate ClearsAreGuarded(key: string, n: nat) {
    forall b, end | Reachable(b, end, key, n) :: Enabled(b, key, Clear) ==> !LockedOut(b.store, key, end)
  }

  predicate Guarded(a: Attempts, key: string, at: int) {
    a.passed > 0 ==> !LockedOut(a.store, key, at)
  }

  lemma CommandGuarded(a: Attempts, now: int, key: string, c: Command, at: int)
    requires now <= at && Enabled(a, key, c) && Guarded(a, key, now)
    requires a.passed + a.creating <= 1 && Execute(a, key, c, at).passed <= 1
    ensures Guarded(Execute(a, key, c, at), key, at)
  {
    assert CountAt(a.store, key, at) <= CountAt(a.store, key, now);
  }

  lemma {:induction false} SerialAttemptsAreGuarded(
      a: Attempts, now: int, key: string, commands: List<Timed>, b: Attempts, end: int, n: nat)
    requires n <= 1 && Leads(a, now, key, commands, b, end, n) && Guarded(a, key, now)
    ensures Guarded(b, key, end)
    decreases commands
  {
    if commands.Cons? {
      var t := commands.head;
      CommandGuarded(a, now, key, t.command, t.at);
      SerialAttemptsAreGuarded(Execute(a, key, t.command, t.at), t.at, key, commands.tail, b, end, n);
    }
  }

  /** "Never cleared while locked out" holds exactly when logins do not overlap. With two, one can pass
      the check at four failures, be overtaken by the fifth, and then clear the lockout. */
  lemma ClearsAreGuardedIffSerial(key: string, n: nat)
    ensures ClearsAreGuarded(key, n) <==> n <= 1
  {
    if n <= 1 {
      forall b, end | Reachable(b, end, key, n) && Enabled(b, key, Clear) ensures !LockedOut(b.store, key, end) {
        var now, commands :| Leads(Attempts(map[], 0, 0), now, key, commands, b, end, n);
        SerialAttemptsAreGuarded(Attempts(map[], 0, 0), now, key, commands, b, end, n);
      }
    } else {
      FourThenBurst(key, 0, 2, 1, n);
      var b := Holding(key, 5, LOCKOUT_TTL, 1);
      assert Reachable(b, 0, key, n) && Enabled(b, key, Clear) && LockedOut(b.store, key, 0);
    }
  }
}
