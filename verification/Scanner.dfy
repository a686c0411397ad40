/** The periodic scan of backend/app/workers/gdpr/tasks.py and the queue it fills. */
module Scanner {
  import opened Prelude
  import opened Database
  import opened Revocation

  const ERASURE_DELAY_DAYS := 30

  /** The durable `gdpr_erasure` queue. */
  class JobQueue {
    var jobs: seq<Id>

    constructor ()
      ensures jobs == []
    {
      jobs := [];
    }

    method ApplyAsync(uid: Id)
      modifies this
      ensures jobs == old(jobs) + [uid]
    {
      jobs := jobs + [uid];
    }
  }

  /** Strictly more than 30 days have passed since the deletion. */
  predicate Eligible(users: map<Id, User>, uid: Id, now: Instant) {
    uid in users && users[uid].deletedAt.Some? && users[uid].deletedAt.value < now - ERASURE_DELAY_DAYS * DAY
  }

  /** Every eligible user, each once, in some order. */
  predicate Enumerates(users: map<Id, User>, now: Instant, ids: seq<Id>) {
    && (forall i | 0 <= i < |ids| :: Eligible(users, ids[i], now))
    && (forall uid | uid in users && Eligible(users, uid, now) :: uid in ids)
    && (forall i, j | 0 <= i < j < |ids| :: ids[i] != ids[j])
  }

  /** SELECT id FROM "user" WHERE deleted_at IS NOT NULL AND deleted_at < cutoff. */
  method SelectEligible(users: map<Id, User>, now: Instant) returns (ids: seq<Id>)
    ensures Enumerates(users, now, ids)
  {
    ids := [];
    var rest := users.Keys;
    while rest != {}
      invariant rest <= users.Keys
      invariant forall i | 0 <= i < |ids| :: Eligible(users, ids[i], now) && ids[i] !in rest
      invariant forall uid | uid in users && uid !in rest && Eligible(users, uid, now) :: uid in ids
      invariant forall i, j | 0 <= i < j < |ids| :: ids[i] != ids[j]
      decreases rest
    {
      var uid :| uid in rest;
      rest := rest - {uid};
      if users[uid].deletedAt.Some? && users[uid].deletedAt.value < now - ERASURE_DELAY_DAYS * DAY {
        ids := ids + [uid];
      }
    }
  }

  /** Dispatches one job per eligible user. The broker may fail after `sent` dispatches; the
      exception then ends the scan. */
  method ScanAndDispatch(db: Session, queue: JobQueue, now: Instant, brokerFailsAfter: Option<nat>)
    returns (ghost ids: seq<Id>, raised: bool)
    requires db.Valid()
    modifies queue
    ensures Enumerates(db.committed.users, now, ids)
    ensures raised <==> brokerFailsAfter.Some? && brokerFailsAfter.value < |ids|
    ensures queue.jobs == old(queue.jobs) + if raised then ids[..brokerFailsAfter.value] else ids
  {
    var rows := SelectEligible(db.pending.users, now);
    ids := rows;
    for i := 0 to |rows|
      invariant queue.jobs == old(queue.jobs) + rows[..i]
      invariant brokerFailsAfter.Some? ==> i <= brokerFailsAfter.value
    {
      if brokerFailsAfter == Some(i) {
        return ids, true;
      }
      queue.ApplyAsync(rows[i]);
    }
    raised := false;
  }

  /** Exactly 30 days after its deletion an account is not yet due; one microsecond later it is. */
  lemma ThirtyDaysAreNotEnough(users: map<Id, User>, uid: Id, now: Instant, ids: seq<Id>, next: seq<Id>)
    requires uid in users && users[uid].deletedAt == Some(now - 30 * 24 * 3600 * 1_000_000)
    requires Enumerates(users, now, ids) && Enumerates(users, now + 1, next)
    ensures uid !in ids && uid in next
  {
    assert !Eligible(users, uid, now) && Eligible(users, uid, now + 1);
  }

  /** Two enumerations of the same rows dispatch the same jobs, up to order. */
  lemma EnumerationsAgree(users: map<Id, User>, now: Instant, a: seq<Id>, b: seq<Id>)
    requires Enumerates(users, now, a) && Enumerates(users, now, b)
    ensures multiset(a) == multiset(b)
  {
    forall uid: Id ensures multiset(a)[uid] == multiset(b)[uid] {
      DistinctCount(a, uid);
      DistinctCount(b, uid);
      if uid in a {
        assert Eligible(users, uid, now);
      }
      if uid in b {
        assert Eligible(users, uid, now);
      }
    }
  }

  lemma {:induction false} DistinctCount(s: seq<Id>, x: Id)
    requires forall i, j | 0 <= i < j < |s| :: s[i] != s[j]
    ensures multiset(s)[x] == if x in s then 1 else 0
  {
    if s != [] {
      DistinctCount(s[1..], x);
      assert s == [s[0]] + s[1..];
    }
  }
}
