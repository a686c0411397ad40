/** The failed-login counter of backend/app/auth/brute_force.py and the login that obeys it
    (backend/app/services/auth_service.py). */
module Lockout {
  import opened Prelude
  import opened Database
  import opened Accounts

  const LOCKOUT_THRESHOLD := 5

  /** Milliseconds, the resolution of a Redis expiry. */
  const LOCKOUT_TTL := 900_000

  function Key(email: string): string {
    "brute_force:" + Lower(email)
  }

  /** A counter belongs to an address up to case, and to no two others. */
  lemma KeysIgnoreCase(a: string, b: string)
    ensures Key(a) == Key(b) <==> SameUpToCase(a, b)
    ensures |Key(a)| == 12 + |a| && Key(a)[..12] == "brute_force:"
  {
    assert Key(a)[12..] == Lower(a) && Key(b)[12..] == Lower(b);
    LowersAlikeIff(a, b);
  }

  /** INCR never leaves a counter at zero. */
  type Positive = n: int | n > 0 witness 1

  /** A Redis counter; it is gone once the time is past `expiresAt`. */
  datatype Entry = Entry(count: Positive, expiresAt: Option<int>)

  type Store = map<string, Entry>

  predicate Live(store: Store, key: string, at: int) {
    key in store && (store[key].expiresAt.Some? ==> at <= store[key].expiresAt.value)
  }

  function CountAt(store: Store, key: string, at: int): nat {
    if Live(store, key, at) then store[key].count else 0
  }

  predicate LockedOut(store: Store, key: string, at: int) {
    CountAt(store, key, at) >= LOCKOUT_THRESHOLD
  }

  /** INCR: a live counter keeps its expiry, a new one has none. */
  function Incremented(store: Store, key: string, at: int): Store {
    store[key := if Live(store, key, at) then Entry(store[key].count + 1, store[key].expiresAt) else Entry(1, None)]
  }

  /** EXPIRE: without effect on an absent key. */
  function Expiring(store: Store, key: string, at: int, ttl: nat): Store {
    if Live(store, key, at) then store[key := Entry(store[key].count, Some(at + ttl))] else store
  }

  /** TTL: whole seconds to the expiry, rounded to the nearest; a counter without one answers -1 and an
      absent one -2, which `_lockout_ttl` turns into 0. */
  function RetryAfterSeconds(store: Store, key: string, at: int): nat {
    if Live(store, key, at) && store[key].expiresAt.Some? then (store[key].expiresAt.value - at + 500) / 1000 else 0
  }

  /** One login attempt: when it reads the counter, when it verifies and acts on the result, when its
      EXPIRE (if any) is executed; what GoTrue and the user table say; and the fate of its
      commands: the check, then INCR, DEL or TTL, then EXPIRE. */
  datatype Login = Login(
    email: string,
    checkedAt: int,
    actedAt: int,
    expireAt: int,
    verified: bool,
    active: bool,
    check: Fate,
    act: Fate,
    expire: Fate)

  datatype Outcome =
    | AccountLocked(retryAfterSeconds: nat)
    | BadCredentials(count: nat)
    | AccountNotFound
    | LoggedIn
    | RedisFailed

  predicate PassesCheck(store: Store, l: Login) {
    l.check.Answered? && !LockedOut(store, Key(l.email), l.checkedAt)
  }

  /** The attempt gets as far as a rejected credential check that is counted. */
  predicate Fails(store: Store, l: Login) {
    PassesCheck(store, l) && !l.verified && !l.act.NotExecuted?
  }

  /** The attempt gets as far as an executed DEL. */
  predicate Clears(store: Store, l: Login) {
    PassesCheck(store, l) && l.verified && l.active && !l.act.NotExecuted?
  }

  /** If the attempt creates the counter, this one also gives it its expiry. */
  predicate SendsExpire(l: Login) {
    l.act.Answered? && !l.expire.NotExecuted?
  }

  function FailureRecorded(store: Store, key: string, at: int, expireAt: int, expireSent: bool): Store {
    var s := Incremented(store, key, at);
    if s[key].count == 1 && expireSent then Expiring(s, key, expireAt, LOCKOUT_TTL) else s
  }

  function AfterLogin(store: Store, l: Login): Store {
    var key := Key(l.email);
    if Fails(store, l) then FailureRecorded(store, key, l.actedAt, l.expireAt, SendsExpire(l))
    else if Clears(store, l) then store - {key}
    else store
  }

  function Answer(store: Store, l: Login): Outcome {
    var key := Key(l.email);
    if !l.check.Answered? then RedisFailed
    else if LockedOut(store, key, l.checkedAt) then
      if l.act.Answered? then AccountLocked(RetryAfterSeconds(store, key, l.actedAt)) else RedisFailed
    else if !l.verified then
      var count := CountAt(store, key, l.actedAt) + 1;
      if l.act.Answered? && (count == 1 ==> l.expire.Answered?) then BadCredentials(count) else RedisFailed
    else if !l.active then AccountNotFound
    else if l.act.Answered? then LoggedIn
    else RedisFailed
  }

  /** The audit entry a login writes; a locked one is on record before the TTL is read. */
  function AuditAction(store: Store, l: Login): Option<string> {
    if l.check.Answered? && !PassesCheck(store, l) then Some("login_locked")
    else match Answer(store, l)
      case BadCredentials(count) => Some(if count >= LOCKOUT_THRESHOLD then "login_locked" else "login_failed")
      case LoggedIn => Some("login_success")
      case _ => None
  }

  // ---- What a login promises ------------------------------------------------------------

  /** A command that the login sends gets no answer: the check; of a locked account the TTL; after rejected
      credentials the INCR, or the EXPIRE of a counter that INCR has just created; after a success the DEL. */
  predicate SomethingUnanswered(store: Store, l: Login) {
    var locked := CountAt(store, Key(l.email), l.checkedAt) >= 5;
    || !l.check.Answered?
    || (!l.act.Answered? && (locked || !l.verified || l.active))
    || (!locked && !l.verified && CountAt(store, Key(l.email), l.actedAt) == 0 && !l.expire.Answered?)
  }

  /** Which answer a login gets, from what it finds and what becomes of its commands. */
  predicate KeepsLoginPolicy(store: Store, l: Login, o: Outcome) {
    var locked := CountAt(store, Key(l.email), l.checkedAt) >= 5;
    && (o.RedisFailed? <==> SomethingUnanswered(store, l))
    && (o.AccountLocked? <==> !SomethingUnanswered(store, l) && locked)
    && (o.BadCredentials? <==> !SomethingUnanswered(store, l) && !locked && !l.verified)
    && (o.AccountNotFound? <==> !SomethingUnanswered(store, l) && !locked && l.verified && !l.active)
    && (o.LoggedIn? <==> !SomethingUnanswered(store, l) && !locked && l.verified && l.active)
    && (o.BadCredentials? ==> o.count == CountAt(store, Key(l.email), l.actedAt) + 1)
    && (o.AccountLocked? ==> SaysWhenToRetry(store, l, o.retryAfterSeconds))
  }

  /** The announced wait ends within half a second of the expiry of the counter, and is 0 without one. */
  predicate SaysWhenToRetry(store: Store, l: Login, seconds: nat) {
    var key, again := Key(l.email), l.actedAt + 1000 * seconds;
    if Live(store, key, l.actedAt) && store[key].expiresAt.Some?
    then -500 < again - store[key].expiresAt.value <= 500
    else seconds == 0
  }

  /** Which audit entry a login leaves: a lockout when the account is found locked, even if the TTL is then not
      answered; what the count makes of a failure; or a success. */
  predicate KeepsAuditPolicy(store: Store, l: Login, o: Outcome, action: Option<string>) {
    var locked := l.check.Answered? && CountAt(store, Key(l.email), l.checkedAt) >= 5;
    && (action == Some("login_locked") <==> locked || (o.BadCredentials? && o.count >= 5))
    && (action == Some("login_failed") <==> o.BadCredentials? && o.count < 5)
    && (action == Some("login_success") <==> o.LoggedIn?)
    && (action == None <==> !locked && (o.RedisFailed? || o.AccountNotFound?))
  }

  /** What becomes of the counters: a counted failure moves the counter of its address up by one, and a counter
      that is new lives for 900 seconds if its EXPIRE was executed; a success removes it; nothing else
      changes anything. */
  predicate CountersAfter(store: Store, l: Login, after: Store) {
    var key := Key(l.email);
    var passed := l.check.Answered? && CountAt(store, key, l.checkedAt) < 5 && !l.act.NotExecuted?;
    && after - {key} == store - {key}
    && if passed && !l.verified then
         && key in after && after[key].count == CountAt(store, key, l.actedAt) + 1
         && after[key].expiresAt ==
              if CountAt(store, key, l.actedAt) > 0 then store[key].expiresAt
              else if l.act.Answered? && !l.expire.NotExecuted? then Some(l.expireAt + 900_000) else None
       else if passed && l.active then key !in after
       else after == store
  }

  /** The policies leave one answer and one audit entry. */
  lemma AnswerKeepsPolicy(store: Store, l: Login, o: Outcome)
    ensures KeepsLoginPolicy(store, l, Answer(store, l))
    ensures KeepsAuditPolicy(store, l, Answer(store, l), AuditAction(store, l))
    ensures KeepsLoginPolicy(store, l, o) && !o.AccountLocked? ==> o == Answer(store, l)
  {
  }

  lemma LoginKeepsCounters(store: Store, l: Login)
    ensures CountersAfter(store, l, AfterLogin(store, l))
  {
  }

  // ---- The service ----------------------------------------------------------------

  class Redis {
    var store: Store

    constructor ()
      ensures store == map[]
    {
      store := map[];
    }

    method Incr(key: string, at: int, fate: Fate) returns (count: Option<nat>)
      modifies this
      ensures store == if fate.NotExecuted? then old(store) else Incremented(old(store), key, at)
      ensures count == if fate.Answered? then Some(CountAt(old(store), key, at) + 1) else None
    {
      if fate.NotExecuted? {
        return None;
      }
      if key in store && (store[key].expiresAt.None? || at <= store[key].expiresAt.value) {
        store := store[key := store[key].(count := store[key].count + 1)];
      } else {
        store := store[key := Entry(1, None)];
      }
      count := if fate.Answered? then Some(store[key].count) else None;
    }

    method Expire(key: string, ttl: nat, at: int, fate: Fate) returns (answered: bool)
      modifies this
      ensures store == if fate.NotExecuted? then old(store) else Expiring(old(store), key, at, ttl)
      ensures answered == fate.Answered?
    {
      if !fate.NotExecuted? && key in store && (store[key].expiresAt.None? || at <= store[key].expiresAt.value) {
        store := store[key := store[key].(expiresAt := Some(at + ttl))];
      }
      answered := fate.Answered?;
    }

    /** The value of a key, None if it is absent. */
    method Get(key: string, at: int) returns (value: Option<nat>)
      ensures value == if Live(store, key, at) then Some(store[key].count) else None
    {
      value := if Live(store, key, at) then Some(store[key].count) else None;
    }

    method Delete(key: string, fate: Fate) returns (answered: bool)
      modifies this
      ensures store == if fate.NotExecuted? then old(store) else old(store) - {key}
      ensures answered == fate.Answered?
    {
      if !fate.NotExecuted? {
        store := store - {key};
      }
      answered := fate.Answered?;
    }

    method Ttl(key: string, at: int) returns (seconds: int)
      ensures seconds ==
        if !Live(store, key, at) then -2
        else if store[key].expiresAt.None? then -1
        else (store[key].expiresAt.value - at + 500) / 1000
    {
      if !Live(store, key, at) {
        return -2;
      }
      return if store[key].expiresAt.None? then -1 else (store[key].expiresAt.value - at + 500) / 1000;
    }
  }

  /** The new count, or None when a command went unanswered and the failure surfaces. */
  method RecordLoginFailure(redis: Redis, email: string, at: int, expireAt: int, incr: Fate, expire: Fate)
    returns (count: Option<nat>)
    modifies redis
    ensures redis.store ==
      if incr.NotExecuted? then old(redis.store)
      else FailureRecorded(old(redis.store), Key(email), at, expireAt, incr.Answered? && !expire.NotExecuted?)
    ensures var c := CountAt(old(redis.store), Key(email), at) + 1;
            count == if incr.Answered? && (c == 1 ==> expire.Answered?) then Some(c) else None
  {
    count := redis.Incr(Key(email), at, incr);
    if count == Some(1) {
      var answered := redis.Expire(Key(email), LOCKOUT_TTL, expireAt, expire);
      if !answered {
        return None;
      }
    }
  }

  /** Whether the counter is at the threshold, or None when Redis did not answer. */
  method IsLockedOut(redis: Redis, email: string, at: int, fate: Fate) returns (locked: Option<bool>)
    ensures locked == if fate.Answered? then Some(LockedOut(redis.store, Key(email), at)) else None
  {
    if !fate.Answered? {
      return None;
    }
    var value := redis.Get(Key(email), at);
    if value.None? {
      return Some(false);
    }
    return Some(value.value >= LOCKOUT_THRESHOLD);
  }

  method ClearFailures(redis: Redis, email: string, fate: Fate) returns (answered: bool)
    modifies redis
    ensures redis.store == if fate.NotExecuted? then old(redis.store) else old(redis.store) - {Key(email)}
    ensures answered == fate.Answered?
  {
    answered := redis.Delete(Key(email), fate);
  }

  method LockoutTtl(redis: Redis, email: string, at: int, fate: Fate) returns (seconds: Option<nat>)
    ensures seconds == if fate.Answered? then Some(RetryAfterSeconds(redis.store, Key(email), at)) else None
  {
    if !fate.Answered? {
      return None;
    }
    var ttl := redis.Ttl(Key(email), at);
    return Some(if ttl > 0 then ttl else 0);
  }

  ghost function AuditUser(users: map<Id, User>, email: string, o: Outcome): Option<Id> {
    if o.LoggedIn? && EmailActive(users, email) then Some(ActiveUser(users, email)) else None
  }

  function Audited(t: Tables, userId: Option<Id>, action: Option<string>, written: bool): Tables {
    if action.Some? then AppendAudit(t, AuditRow(userId, action.value), written) else t
  }

  /** The attempt against these users: whether the address is active is for the table to say. */
  function Facing(login: Login, users: map<Id, User>): Login {
    login.(active := EmailActive(users, login.email))
  }

  /** The part of a login after its credentials were accepted. */
  method CompleteLogin(redis: Redis, db: Session, email: string, act: Fate, auditWritten: bool) returns (o: Outcome)
    requires db.Valid() && redis as object != db as object
    modifies redis, db
    ensures db.Valid()
    ensures redis.store ==
      if EmailActive(old(db.committed.users), email) && !act.NotExecuted? then old(redis.store) - {Key(email)}
      else old(redis.store)
    ensures o == if !EmailActive(old(db.committed.users), email) then AccountNotFound
                 else if act.Answered? then LoggedIn else RedisFailed
    ensures db.committed == Audited(old(db.committed), AuditUser(old(db.committed.users), email, o),
                                    if o.LoggedIn? then Some("login_success") else None, auditWritten)
  {
    if user :| user in db.pending.users && ActiveWithEmail(db.pending.users, user, email) {
      ActiveUserIsUnique(db.committed.users, email);
      assert user == ActiveUser(db.committed.users, email);
      var cleared := ClearFailures(redis, email, act);
      if !cleared {
        return RedisFailed;
      }
      WriteAudit(db, "login_success", Some(user), auditWritten);
      return LoggedIn;
    }
    return AccountNotFound;
  }

  /** The lockout check comes before anything else, so a locked account never reaches the credential
      check; whether the address is active is looked up only after the credentials are accepted. */
  method LoginUser(redis: Redis, db: Session, login: Login, auditWritten: bool) returns (o: Outcome)
    requires db.Valid() && redis as object != db as object
    modifies redis, db
    ensures db.Valid()
    ensures redis.store == AfterLogin(old(redis.store), Facing(login, old(db.committed.users)))
    ensures o == Answer(old(redis.store), Facing(login, old(db.committed.users)))
    ensures KeepsLoginPolicy(old(redis.store), Facing(login, old(db.committed.users)), o)
    ensures db.committed ==
      Audited(old(db.committed), AuditUser(old(db.committed.users), login.email, o),
              AuditAction(old(redis.store), Facing(login, old(db.committed.users))), auditWritten)
  {
    AnswerKeepsPolicy(redis.store, Facing(login, db.committed.users), RedisFailed);
    var locked := IsLockedOut(redis, login.email, login.checkedAt, login.check);
    if locked.None? {
      return RedisFailed;
    }
    if locked.value {
      WriteAudit(db, "login_locked", None, auditWritten);
      var seconds := LockoutTtl(redis, login.email, login.actedAt, login.act);
      return if seconds.Some? then AccountLocked(seconds.value) else RedisFailed;
    }
    if !login.verified {
      var count := RecordLoginFailure(redis, login.email, login.actedAt, login.expireAt, login.act, login.expire);
      if count.None? {
        return RedisFailed;
      }
      WriteAudit(db, if count.value >= LOCKOUT_THRESHOLD then "login_locked" else "login_failed", None, auditWritten);
      return BadCredentials(count.value);
    }
    o := CompleteLogin(redis, db, login.email, login.act, auditWritten);
  }
}
