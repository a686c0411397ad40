/** Whole runs of everything that happens to an account: sign-up, profile updates, deletion, password
    reset, the erasure scan, and its jobs delivered once or more, with failures anywhere. Deletions
    and resets, which both read a clock before they commit, may overlap. */
module Lifecycle {
  import opened Prelude
  import opened Database
  import opened Erasure
  import opened ErasureRuns
  import opened Accounts
  import opened Revocation
  import opened Profile
  import opened Scanner

  /** A request between its load and its commit: a deletion that found its account not deleted, or a reset
      that has revoked the sessions and read the clock. `since` is that moment. */
  datatype Request = Deleting(uid: Id, since: Instant) | Resetting(uid: Id, since: Instant)

  /** `purged`, `deletions` and `chosen` record the history: which purges committed when, which deletion times
      were committed, and the address each account last chose, at sign-up or by a profile update. */
  datatype World = World(
    tables: Tables,
    requests: seq<Request>,
    queue: seq<Id>,
    now: Instant,
    purged: seq<(Id, Instant)>,
    deletions: seq<(Id, Instant)>,
    chosen: map<Id, string>)

  /** A request that commits has read the clock `delay` after its load if it is a deletion, which reads it
      last, and at `since` if it is a reset. */
  datatype Event =
    | Tick(elapsed: nat)
    | RegisterEvent(email: string, displayName: string, signUp: SignUp, subId: Id, commit: Fate)
    | OauthEvent(claims: Option<OauthClaims>, subId: Id, commit: Fate, auditWritten: bool)
    | ProfileEvent(bearer: Bearer, patch: Patch, commit: Fate)
    | OpenDeletion(uid: Id)
    | OpenReset(recovery: Recovery, signedOut: bool)
    | CommitRequest(k: nat, delay: nat, commit: Fate, auditWritten: bool)
    | ScanEvent(ids: seq<Id>, brokerFailsAfter: Option<nat>)
    | JobEvent(k: nat, secret: string, fault: Fault, redelivered: bool)
    | DuplicateEvent(k: nat)

  function StampOf(r: Request, delay: nat, now: Instant): Instant {
    if r.Deleting? && r.since + delay <= now then r.since + delay else r.since
  }

  /** The UPDATE of a deletion has no condition on the row it finds. */
  function StampDeletion(t: Tables, uid: Id, stamp: Instant): Tables
    requires uid in t.users
  {
    t.(users := t.users[uid := t.users[uid].(deletedAt := Some(stamp), tokenInvalidatedAt := Some(stamp))])
  }

  predicate CommitsDeletion(w: World, e: Event) {
    && e.CommitRequest? && e.k < |w.requests| && w.requests[e.k].Deleting?
    && !e.commit.NotExecuted? && w.requests[e.k].uid in w.tables.users
  }

  function CommittedRequest(t: Tables, r: Request, stamp: Instant, commit: Fate, auditWritten: bool): Tables {
    match r
    case Deleting(uid, since) =>
      if !commit.NotExecuted? && uid in t.users then StampDeletion(t, uid, stamp) else t
    case Resetting(uid, since) => Reset(t, RecoveredUser(uid), true, since, commit, auditWritten).0
  }

  ghost function NextTables(w: World, hmac: Hmac, e: Event): Tables {
    match e
    case RegisterEvent(email, displayName, signUp, subId, commit) =>
      Register(w.tables, email, displayName, signUp, subId, commit).0
    case OauthEvent(claims, subId, commit, auditWritten) => Oauth(w.tables, claims, subId, commit, auditWritten).0
    case ProfileEvent(bearer, patch, commit) => UpdateProfile(w.tables, bearer, patch, commit).0
    case CommitRequest(k, delay, commit, auditWritten) =>
      if k >= |w.requests| then w.tables
      else CommittedRequest(w.tables, w.requests[k], StampOf(w.requests[k], delay, w.now), commit, auditWritten)
    case JobEvent(k, secret, fault, redelivered) =>
      if k >= |w.queue| then w.tables else Step(w.tables, hmac, Job(w.queue[k], secret, fault)).0
    case _ => w.tables
  }

  /** A request that finds nothing to do, or fails before it would touch the table, is over at once. */
  function NextRequests(w: World, e: Event): seq<Request> {
    match e
    case OpenDeletion(uid) =>
      if uid in w.tables.users && w.tables.users[uid].deletedAt.None? then w.requests + [Deleting(uid, w.now)]
      else w.requests
    case OpenReset(recovery, signedOut) =>
      if recovery.RecoveredUser? && signedOut then w.requests + [Resetting(recovery.userId, w.now)] else w.requests
    case CommitRequest(k, delay, commit, auditWritten) =>
      if k >= |w.requests| then w.requests else w.requests[..k] + w.requests[k + 1..]
    case _ => w.requests
  }

  /** A scan adds its jobs, a delivery takes its job away unless it is delivered again, and the broker
      may duplicate a job. */
  ghost function NextQueue(w: World, e: Event): seq<Id> {
    match e
    case ScanEvent(ids, brokerFailsAfter) =>
      if !Enumerates(w.tables.users, w.now, ids) then w.queue
      else if brokerFailsAfter.Some? && brokerFailsAfter.value < |ids| then w.queue + ids[..brokerFailsAfter.value]
      else w.queue + ids
    case JobEvent(k, secret, fault, redelivered) =>
      if k >= |w.queue| || redelivered then w.queue else w.queue[..k] + w.queue[k + 1..]
    case DuplicateEvent(k) => if k >= |w.queue| then w.queue else w.queue + [w.queue[k]]
    case _ => w.queue
  }

  /** The account that an event creates or renames, with the address it then has. */
  ghost function Chooses(t: Tables, e: Event): Option<(Id, string)> {
    match e
    case RegisterEvent(email, displayName, signUp, subId, commit) =>
      var t1 := Register(t, email, displayName, signUp, subId, commit).0;
      if signUp.SignedUp? && signUp.userId !in t.users && signUp.userId in t1.users
      then Some((signUp.userId, email)) else None
    case OauthEvent(claims, subId, commit, auditWritten) =>
      var t1 := Oauth(t, claims, subId, commit, auditWritten).0;
      if claims.Some? && claims.value.sub.SubjectId? && claims.value.sub.id in t1.users.Keys - t.users.Keys
      then Some((claims.value.sub.id, claims.value.email)) else None
    case ProfileEvent(bearer, patch, commit) =>
      if TakesEffect(t, bearer, patch, commit) && patch.email.Some?
      then Some((AuthenticateRequest(t, bearer).value, patch.email.value)) else None
    case _ => None
  }

  ghost function NextChosen(w: World, e: Event): map<Id, string> {
    var choice := Chooses(w.tables, e);
    if choice.Some? then w.chosen[choice.value.0 := choice.value.1] else w.chosen
  }

  ghost function NextPurged(w: World, hmac: Hmac, e: Event): seq<(Id, Instant)> {
    if e.JobEvent? && e.k < |w.queue| && Erases(w.tables, hmac, Job(w.queue[e.k], e.secret, e.fault))
    then w.purged + [(w.queue[e.k], w.now)] else w.purged
  }

  function NextDeletions(w: World, e: Event): seq<(Id, Instant)> {
    if CommitsDeletion(w, e)
    then w.deletions + [(w.requests[e.k].uid, StampOf(w.requests[e.k], e.delay, w.now))] else w.deletions
  }

  ghost function Next(w: World, hmac: Hmac, e: Event): World {
    World(
      NextTables(w, hmac, e),
      NextRequests(w, e),
      NextQueue(w, e),
      if e.Tick? then w.now + e.elapsed else w.now,
      NextPurged(w, hmac, e),
      NextDeletions(w, e),
      NextChosen(w, e))
  }

  ghost function Exec(w: World, hmac: Hmac, events: seq<Event>): World
    decreases |events|
  {
    if events == [] then w else Exec(Next(w, hmac, events[0]), hmac, events[1..])
  }

  /** A scan adds a job for every due user, or for those before the broker fails. */
  lemma ScanQueues(w: World, ids: seq<Id>, brokerFailsAfter: Option<nat>)
    requires Enumerates(w.tables.users, w.now, ids)
    ensures var after := NextQueue(w, ScanEvent(ids, brokerFailsAfter));
            && w.queue <= after && after[|w.queue|..] <= ids
            && |after| == |w.queue| + if brokerFailsAfter.Some? && brokerFailsAfter.value < |ids|
                                      then brokerFailsAfter.value else |ids|
  {
  }

  lemma WithoutOne(queue: seq<Id>, k: nat)
    requires k < |queue|
    ensures multiset(queue[..k] + queue[k + 1..]) == multiset(queue) - multiset{queue[k]}
  {
    assert queue == queue[..k] + [queue[k]] + queue[k + 1..];
  }

  /** A delivery removes its job unless it is delivered again. */
  lemma DeliveryQueues(w: World, k: nat, secret: string, fault: Fault, redelivered: bool)
    requires k < |w.queue|
    ensures multiset(NextQueue(w, JobEvent(k, secret, fault, redelivered))) ==
            if redelivered then multiset(w.queue) else multiset(w.queue) - multiset{w.queue[k]}
  {
    WithoutOne(w.queue, k);
  }

  /** A duplicate is one more of the same. */
  lemma DuplicateQueues(w: World, k: nat)
    requires k < |w.queue|
    ensures multiset(NextQueue(w, DuplicateEvent(k))) == multiset(w.queue) + multiset{w.queue[k]}
  {
  }

  /** A deletion whose load is followed by its commit is what the endpoint does on its own. */
  lemma UninterruptedDeletion(w: World, hmac: Hmac, uid: Id, commit: Fate)
    requires uid in w.tables.users && w.tables.users[uid].deletedAt.None?
    ensures var end := Next(Next(w, hmac, OpenDeletion(uid)), hmac, CommitRequest(|w.requests|, 0, commit, false));
            && end.tables == DeleteAccount(w.tables, uid, w.now, commit) && end.requests == w.requests
            && end.deletions == w.deletions + if commit.NotExecuted? then [] else [(uid, w.now)]
  {
    assert (w.requests + [Deleting(uid, w.now)])[..|w.requests|] + [] == w.requests;
  }

  lemma UninterruptedReset(w: World, hmac: Hmac, uid: Id, commit: Fate, auditWritten: bool)
    ensures var read := Next(w, hmac, OpenReset(RecoveredUser(uid), true));
            var end := Next(read, hmac, CommitRequest(|w.requests|, 0, commit, auditWritten));
            && end.tables == Reset(w.tables, RecoveredUser(uid), true, w.now, commit, auditWritten).0
            && end.requests == w.requests
  {
    assert (w.requests + [Resetting(uid, w.now)])[..|w.requests|] + [] == w.requests;
  }

  // ---- One step ----------------------------------------------------------------------

  /** No row is removed, and a deleted account stays deleted. */
  predicate Onward(a: map<Id, User>, b: map<Id, User>) {
    forall uid | uid in a :: uid in b && (a[uid].deletedAt.Some? ==> b[uid].deletedAt.Some?)
  }

  predicate NotInFuture(users: map<Id, User>, now: Instant) {
    forall uid | uid in users && users[uid].tokenInvalidatedAt.Some? :: users[uid].tokenInvalidatedAt.value <= now
  }

  ghost predicate SoundTables(t: Tables, now: Instant) {
    Constraints(t) && OneSubscriptionEach(t) && NotInFuture(t.users, now)
  }

  /** The subscriptions, and which ids are users, decide the account invariant. */
  lemma SameAccounts(a: Tables, b: Tables)
    requires OneSubscriptionEach(a) && a.users.Keys == b.users.Keys && a.subscriptions == b.subscriptions
    ensures OneSubscriptionEach(b)
  {
    forall uid | uid in b.users ensures exists s :: OwnsSubscription(b, uid, s) {
      var s :| OwnsSubscription(a, uid, s);
      assert OwnsSubscription(b, uid, s);
    }
    assert forall uid, s :: OwnsSubscription(b, uid, s) ==> OwnsSubscription(a, uid, s);
  }

  lemma SoundFrom(t: Tables, t1: Tables, now: Instant)
    requires SoundTables(t, now) && Constraints(t1) && NotInFuture(t1.users, now)
    requires t.users.Keys == t1.users.Keys && t.subscriptions == t1.subscriptions
    ensures SoundTables(t1, now)
  {
    SameAccounts(t, t1);
  }

  /** The stored times of existing accounts are what they were, and accounts that are new have none. */
  predicate TimesKept(a: map<Id, User>, b: map<Id, User>) {
    && (forall uid | uid in a ::
          && uid in b
          && b[uid].deletedAt == a[uid].deletedAt && b[uid].tokenInvalidatedAt == a[uid].tokenInvalidatedAt)
    && (forall uid | uid in b && uid !in a :: b[uid].deletedAt.None? && b[uid].tokenInvalidatedAt.None?)
  }

  lemma InsertStep(t: Tables, now: Instant, uid: Id, user: User, subId: Id)
    requires SoundTables(t, now) && Insertable(t, uid, user.email, subId) && user.tokenInvalidatedAt.None?
    ensures SoundTables(InsertAccount(t, uid, user, subId), now)
  {
    InsertCommitsIffAddressFree(t, uid, user, subId);
    InsertKeepsOneSubscriptionEach(t, uid, user, subId);
  }

  lemma AuditStep(t: Tables, now: Instant, row: AuditRow, written: bool)
    requires SoundTables(t, now)
    ensures SoundTables(AppendAudit(t, row, written), now)
  {
    SameAccounts(t, AppendAudit(t, row, written));
  }

  lemma StampStep(t: Tables, now: Instant, uid: Id, user: User)
    requires SoundTables(t, now) && uid in t.users && user.email == t.users[uid].email
    requires user.tokenInvalidatedAt.Some? && user.tokenInvalidatedAt.value <= now
    ensures SoundTables(t.(users := t.users[uid := user]), now)
  {
    TimestampsKeepConstraints(t, uid, user);
    SoundFrom(t, t.(users := t.users[uid := user]), now);
  }

  lemma StoreStep(t: Tables, now: Instant, uid: Id, id: string)
    requires SoundTables(t, now) && uid in t.users
    ensures SoundTables(StoreAnonymousId(t, uid, id), now)
  {
    StoreKeepsConstraints(t, uid, id);
    SoundFrom(t, StoreAnonymousId(t, uid, id), now);
  }

  lemma PurgeStep(t: Tables, now: Instant, uid: Id, id: string)
    requires SoundTables(t, now) && uid in t.users && AddressFree(t.users, uid, ErasedEmail(id))
    ensures SoundTables(PurgeRows(t, uid, id), now)
  {
    PurgeCommitsIffAddressFree(t, uid, id);
    SoundFrom(t, PurgeRows(t, uid, id), now);
  }

  lemma JobStep(t: Tables, now: Instant, hmac: Hmac, j: Job)
    requires SoundTables(t, now)
    ensures SoundTables(Step(t, hmac, j).0, now)
  {
    if Erases(t, hmac, j) {
      ErasingStep(t, hmac, j);
      var id := IdFor(t, hmac, j.uid, j.secret);
      StoreStep(t, now, j.uid, id);
      PurgeStep(StoreAnonymousId(t, j.uid, id), now, j.uid, id);
    } else {
      NothingErasedBeforeIdStored(t, hmac, j);
      if j.uid in t.users {
        StoreStep(t, now, j.uid, hmac(j.secret, j.uid));
      }
    }
  }

  lemma ErasureKeepsTimes(t: Tables, uid: Id, id: string)
    requires uid in t.users
    ensures TimesKept(t.users, StoreAnonymousId(t, uid, id).users)
    ensures TimesKept(t.users, PurgeRows(StoreAnonymousId(t, uid, id), uid, id).users)
  {
  }

  lemma JobKeepsTimes(t: Tables, hmac: Hmac, j: Job)
    ensures TimesKept(t.users, Step(t, hmac, j).0.users)
  {
    if Erases(t, hmac, j) {
      ErasingStep(t, hmac, j);
      ErasureKeepsTimes(t, j.uid, IdFor(t, hmac, j.uid, j.secret));
    } else {
      NothingErasedBeforeIdStored(t, hmac, j);
      if j.uid in t.users {
        ErasureKeepsTimes(t, j.uid, hmac(j.secret, j.uid));
      }
    }
  }

  lemma RegisterStep(
      t: Tables, now: Instant, email: string, displayName: string, signUp: SignUp, subId: Id, commit: Fate)
    requires SoundTables(t, now)
    ensures SoundTables(Register(t, email, displayName, signUp, subId, commit).0, now)
  {
    if signUp.SignedUp? && Insertable(t, signUp.userId, email, subId) {
      InsertStep(t, now, signUp.userId, PasswordAccount(email, displayName), subId);
    }
  }

  lemma OauthStep(t: Tables, now: Instant, claims: Option<OauthClaims>, subId: Id, commit: Fate, auditWritten: bool)
    requires SoundTables(t, now)
    ensures SoundTables(Oauth(t, claims, subId, commit, auditWritten).0, now)
  {
    if claims.Some? && claims.value.sub.SubjectId? && Insertable(t, claims.value.sub.id, claims.value.email, subId) {
      var uid, user := claims.value.sub.id, OauthAccount(claims.value.email, claims.value.displayName);
      InsertStep(t, now, uid, user, subId);
      AuditStep(InsertAccount(t, uid, user, subId), now, AuditRow(Some(uid), "login_success"), auditWritten);
    }
  }

  lemma RegisterKeepsTimes(t: Tables, email: string, displayName: string, signUp: SignUp, subId: Id, commit: Fate)
    ensures TimesKept(t.users, Register(t, email, displayName, signUp, subId, commit).0.users)
  {
  }

  lemma PatchKeepsTimes(users: map<Id, User>, uid: Id, patch: Patch)
    requires uid in users
    ensures TimesKept(users, users[uid := Patched(users[uid], patch)])
  {
  }

  lemma ProfileKeepsTimes(t: Tables, bearer: Bearer, patch: Patch, commit: Fate)
    ensures TimesKept(t.users, UpdateProfile(t, bearer, patch, commit).0.users)
  {
    var current := AuthenticateRequest(t, bearer);
    if current.Some? {
      PatchKeepsTimes(t.users, current.value, patch);
    }
  }

  /** A sign-in adds at most one account, a new one. */
  lemma OauthUsers(t: Tables, claims: Option<OauthClaims>, subId: Id, commit: Fate, auditWritten: bool)
    ensures var users := Oauth(t, claims, subId, commit, auditWritten).0.users;
            || users == t.users
            || (claims.Some? && claims.value.sub.SubjectId? && claims.value.sub.id !in t.users
                && users == t.users[claims.value.sub.id :=
                     OauthAccount(claims.value.email, claims.value.displayName)])
  {
  }

  lemma OauthKeepsTimes(t: Tables, claims: Option<OauthClaims>, subId: Id, commit: Fate, auditWritten: bool)
    ensures TimesKept(t.users, Oauth(t, claims, subId, commit, auditWritten).0.users)
  {
    OauthUsers(t, claims, subId, commit, auditWritten);
  }

  lemma ProfileStep(t: Tables, now: Instant, bearer: Bearer, patch: Patch, commit: Fate)
    requires SoundTables(t, now)
    ensures SoundTables(UpdateProfile(t, bearer, patch, commit).0, now)
  {
    ProfileUpdateIsConfined(t, bearer, patch, commit);
    SoundFrom(t, UpdateProfile(t, bearer, patch, commit).0, now);
  }

  lemma DeletionStep(t: Tables, now: Instant, uid: Id, stamp: Instant)
    requires SoundTables(t, now) && uid in t.users && stamp <= now
    ensures SoundTables(StampDeletion(t, uid, stamp), now) && Onward(t.users, StampDeletion(t, uid, stamp).users)
  {
    StampStep(t, now, uid, t.users[uid].(deletedAt := Some(stamp), tokenInvalidatedAt := Some(stamp)));
  }

  lemma ResetTablesStep(t: Tables, now: Instant, uid: Id, stamp: Instant, commit: Fate)
    requires SoundTables(t, now) && stamp <= now
    ensures var t1 := ResetTables(t, RecoveredUser(uid), true, stamp, commit);
            SoundTables(t1, now) && Onward(t.users, t1.users)
  {
    if uid in t.users && !commit.NotExecuted? {
      StampStep(t, now, uid, t.users[uid].(tokenInvalidatedAt := Some(stamp)));
    }
  }

  lemma ResetStep(t: Tables, now: Instant, uid: Id, stamp: Instant, commit: Fate, auditWritten: bool)
    requires SoundTables(t, now) && stamp <= now
    ensures var t1 := Reset(t, RecoveredUser(uid), true, stamp, commit, auditWritten).0;
            SoundTables(t1, now) && Onward(t.users, t1.users)
  {
    ResetTablesStep(t, now, uid, stamp, commit);
    AuditStep(ResetTables(t, RecoveredUser(uid), true, stamp, commit), now,
              AuditRow(Some(uid), "password_reset_confirmed"), auditWritten);
  }

  predicate RequestsNotInFuture(requests: seq<Request>, now: Instant) {
    forall i | 0 <= i < |requests| :: requests[i].since <= now
  }

  lemma RequestStep(t: Tables, now: Instant, r: Request, delay: nat, commit: Fate, auditWritten: bool)
    requires SoundTables(t, now) && r.since <= now
    ensures var t1 := CommittedRequest(t, r, StampOf(r, delay, now), commit, auditWritten);
            SoundTables(t1, now) && Onward(t.users, t1.users)
  {
    match r
    case Deleting(uid, since) =>
      if uid in t.users {
        DeletionStep(t, now, uid, StampOf(r, delay, now));
      }
    case Resetting(uid, since) => ResetStep(t, now, uid, since, commit, auditWritten);
  }

  lemma CommitStep(w: World, hmac: Hmac, e: Event)
    requires SoundTables(w.tables, w.now) && RequestsNotInFuture(w.requests, w.now) && e.CommitRequest?
    ensures SoundTables(NextTables(w, hmac, e), w.now)
    ensures Onward(w.tables.users, NextTables(w, hmac, e).users)
  {
    if e.k < |w.requests| {
      var r := w.requests[e.k];
      assert NextTables(w, hmac, e)
          == CommittedRequest(w.tables, r, StampOf(r, e.delay, w.now), e.commit, e.auditWritten);
      RequestStep(w.tables, w.now, r, e.delay, e.commit, e.auditWritten);
    }
  }

  /** Only the commit of a deletion or a reset touches a stored time. */
  lemma TimesStep(w: World, hmac: Hmac, e: Event)
    requires !e.CommitRequest?
    ensures TimesKept(w.tables.users, NextTables(w, hmac, e).users)
  {
    match e
    case RegisterEvent(email, displayName, signUp, subId, commit) =>
      RegisterKeepsTimes(w.tables, email, displayName, signUp, subId, commit);
    case OauthEvent(claims, subId, commit, auditWritten) =>
      OauthKeepsTimes(w.tables, claims, subId, commit, auditWritten);
    case ProfileEvent(bearer, patch, commit) => ProfileKeepsTimes(w.tables, bearer, patch, commit);
    case JobEvent(k, secret, fault, redelivered) =>
      if k < |w.queue| {
        JobKeepsTimes(w.tables, hmac, Job(w.queue[k], secret, fault));
      }
    case _ =>
  }

  lemma KeptTimesAreOnward(a: map<Id, User>, b: map<Id, User>)
    requires TimesKept(a, b)
    ensures Onward(a, b)
  {
  }

  lemma OtherTablesStep(w: World, hmac: Hmac, e: Event)
    requires SoundTables(w.tables, w.now) && !e.CommitRequest?
    ensures SoundTables(NextTables(w, hmac, e), w.now)
  {
    match e
    case RegisterEvent(email, displayName, signUp, subId, commit) =>
      RegisterStep(w.tables, w.now, email, displayName, signUp, subId, commit);
    case OauthEvent(claims, subId, commit, auditWritten) =>
      OauthStep(w.tables, w.now, claims, subId, commit, auditWritten);
    case ProfileEvent(bearer, patch, commit) => ProfileStep(w.tables, w.now, bearer, patch, commit);
    case JobEvent(k, secret, fault, redelivered) =>
      if k < |w.queue| {
        JobStep(w.tables, w.now, hmac, Job(w.queue[k], secret, fault));
      }
    case _ =>
  }

  /** Every event keeps the tables sound. */
  lemma TablesStep(w: World, hmac: Hmac, e: Event)
    requires SoundTables(w.tables, w.now) && RequestsNotInFuture(w.requests, w.now)
    ensures SoundTables(NextTables(w, hmac, e), w.now)
    ensures Onward(w.tables.users, NextTables(w, hmac, e).users)
  {
    if !e.CommitRequest? {
      OtherTablesStep(w, hmac, e);
      TimesStep(w, hmac, e);
      KeptTimesAreOnward(w.tables.users, NextTables(w, hmac, e).users);
    } else {
      CommitStep(w, hmac, e);
    }
  }

  // ---- What the history says ---------------------------------------------------------------

  /** `stamp` lies more than 30 days, of 86,400 seconds each, before `when`. */
  predicate Over30DaysBefore(stamp: Instant, when: Instant) {
    when - stamp > 30 * 86_400 * 1_000_000
  }

  /** A deletion time more than 30 days before `when` was committed for the account. */
  predicate DueBy(deletions: seq<(Id, Instant)>, uid: Id, when: Instant) {
    exists i | 0 <= i < |deletions| :: deletions[i].0 == uid && Over30DaysBefore(deletions[i].1, when)
  }

  predicate AllDue(deletions: seq<(Id, Instant)>, uids: seq<Id>, when: Instant) {
    forall i | 0 <= i < |uids| :: DueBy(deletions, uids[i], when)
  }

  predicate PurgesDue(deletions: seq<(Id, Instant)>, purged: seq<(Id, Instant)>) {
    forall i | 0 <= i < |purged| :: DueBy(deletions, purged[i].0, purged[i].1)
  }

  /** Every committed deletion time is that of an account which is deleted, and not in the future; and every
      stored one was committed. */
  predicate DeletionsRecorded(users: map<Id, User>, deletions: seq<(Id, Instant)>, now: Instant) {
    && (forall i | 0 <= i < |deletions| ::
          deletions[i].0 in users && users[deletions[i].0].deletedAt.Some? && deletions[i].1 <= now)
    && (forall uid | uid in users && users[uid].deletedAt.Some? :: (uid, users[uid].deletedAt.value) in deletions)
  }

  predicate SoundHistory(w: World) {
    && RequestsNotInFuture(w.requests, w.now)
    && DeletionsRecorded(w.tables.users, w.deletions, w.now)
    && AllDue(w.deletions, w.queue, w.now)
    && PurgesDue(w.deletions, w.purged)
  }

  ghost predicate Sound(w: World) {
    SoundTables(w.tables, w.now) && SoundHistory(w)
  }

  lemma DueLater(deletions: seq<(Id, Instant)>, more: seq<(Id, Instant)>, uid: Id, when: Instant, later: Instant)
    requires deletions <= more && when <= later && DueBy(deletions, uid, when)
    ensures DueBy(more, uid, later)
  {
    var i :| 0 <= i < |deletions| && deletions[i].0 == uid && Over30DaysBefore(deletions[i].1, when);
    assert more[i] == deletions[i];
  }

  lemma EligibleIsDue(users: map<Id, User>, deletions: seq<(Id, Instant)>, uid: Id, now: Instant)
    requires DeletionsRecorded(users, deletions, now) && Eligible(users, uid, now)
    ensures DueBy(deletions, uid, now)
  {
    var i :| 0 <= i < |deletions| && deletions[i] == (uid, users[uid].deletedAt.value);
  }

  /** What is queued is due. */
  lemma QueueStep(w: World, e: Event)
    requires SoundHistory(w)
    ensures AllDue(w.deletions, NextQueue(w, e), w.now)
  {
    if e.ScanEvent? && Enumerates(w.tables.users, w.now, e.ids) {
      forall i | 0 <= i < |e.ids| ensures DueBy(w.deletions, e.ids[i], w.now) {
        EligibleIsDue(w.tables.users, w.deletions, e.ids[i], w.now);
      }
    }
  }

  lemma PurgedStep(w: World, hmac: Hmac, e: Event)
    requires SoundHistory(w)
    ensures PurgesDue(w.deletions, NextPurged(w, hmac, e))
  {
  }

  lemma AllDueLater(a: seq<(Id, Instant)>, b: seq<(Id, Instant)>, uids: seq<Id>, when: Instant, later: Instant)
    requires a <= b && when <= later && AllDue(a, uids, when)
    ensures AllDue(b, uids, later)
  {
    forall i | 0 <= i < |uids| ensures DueBy(b, uids[i], later) {
      DueLater(a, b, uids[i], when, later);
    }
  }

  lemma PurgesDueLater(a: seq<(Id, Instant)>, b: seq<(Id, Instant)>, purged: seq<(Id, Instant)>)
    requires a <= b && PurgesDue(a, purged)
    ensures PurgesDue(b, purged)
  {
    forall i | 0 <= i < |purged| ensures DueBy(b, purged[i].0, purged[i].1) {
      DueLater(a, b, purged[i].0, purged[i].1, purged[i].1);
    }
  }

  lemma KeptTimesStayRecorded(
      a: map<Id, User>, b: map<Id, User>, deletions: seq<(Id, Instant)>, now: Instant, later: Instant)
    requires DeletionsRecorded(a, deletions, now) && TimesKept(a, b) && now <= later
    ensures DeletionsRecorded(b, deletions, later)
  {
  }

  lemma DeletionRecorded(t: Tables, deletions: seq<(Id, Instant)>, now: Instant, uid: Id, stamp: Instant)
    requires DeletionsRecorded(t.users, deletions, now) && uid in t.users && stamp <= now
    ensures DeletionsRecorded(StampDeletion(t, uid, stamp).users, deletions + [(uid, stamp)], now)
  {
    var more := deletions + [(uid, stamp)];
    assert more[|deletions|] == (uid, stamp);
  }

  lemma ResetRecorded(t: Tables, deletions: seq<(Id, Instant)>, now: Instant, uid: Id, stamp: Instant, commit: Fate,
                      auditWritten: bool)
    requires DeletionsRecorded(t.users, deletions, now)
    ensures DeletionsRecorded(Reset(t, RecoveredUser(uid), true, stamp, commit, auditWritten).0.users, deletions, now)
  {
  }

  lemma DeletionsStep(w: World, hmac: Hmac, e: Event)
    requires Sound(w)
    ensures DeletionsRecorded(NextTables(w, hmac, e).users, NextDeletions(w, e), Next(w, hmac, e).now)
    ensures w.deletions <= NextDeletions(w, e)
  {
    if !e.CommitRequest? {
      TimesStep(w, hmac, e);
      KeptTimesStayRecorded(w.tables.users, NextTables(w, hmac, e).users, w.deletions, w.now, Next(w, hmac, e).now);
    } else if CommitsDeletion(w, e) {
      var r := w.requests[e.k];
      DeletionRecorded(w.tables, w.deletions, w.now, r.uid, StampOf(r, e.delay, w.now));
    } else if e.k < |w.requests| && w.requests[e.k].Resetting? {
      var r := w.requests[e.k];
      ResetRecorded(w.tables, w.deletions, w.now, r.uid, r.since, e.commit, e.auditWritten);
    }
  }

  /** What has been promised of the past, the queue and the open requests keeps holding. */
  lemma HistoryStep(w: World, hmac: Hmac, e: Event)
    requires Sound(w)
    ensures SoundHistory(Next(w, hmac, e))
  {
    var w1 := Next(w, hmac, e);
    DeletionsStep(w, hmac, e);
    QueueStep(w, e);
    PurgedStep(w, hmac, e);
    AllDueLater(w.deletions, w1.deletions, w1.queue, w.now, w1.now);
    PurgesDueLater(w.deletions, w1.deletions, w1.purged);
    RequestsStep(w, e, w1.now);
  }

  lemma RequestsStep(w: World, e: Event, later: Instant)
    requires RequestsNotInFuture(w.requests, w.now) && w.now <= later
    ensures RequestsNotInFuture(NextRequests(w, e), later)
  {
  }

  lemma StepSound(w: World, hmac: Hmac, e: Event)
    requires Sound(w)
    ensures Sound(Next(w, hmac, e)) && Onward(w.tables.users, Next(w, hmac, e).tables.users)
    ensures w.now <= Next(w, hmac, e).now && w.deletions <= Next(w, hmac, e).deletions
  {
    TablesStep(w, hmac, e);
    DeletionsStep(w, hmac, e);
    HistoryStep(w, hmac, e);
  }

  // ---- Whole runs ----------------------------------------------------------------------

  lemma {:induction false} ExecAppends(w: World, hmac: Hmac, events: seq<Event>, e: Event)
    ensures Exec(w, hmac, events + [e]) == Next(Exec(w, hmac, events), hmac, e)
    decreases |events|
  {
    var all := events + [e];
    if events == [] {
      assert all == [e] && all[1..] == [];
    } else {
      assert all[0] == events[0] && all[1..] == events[1..] + [e];
      ExecAppends(Next(w, hmac, events[0]), hmac, events[1..], e);
    }
  }

  lemma {:induction false} RunSound(w: World, hmac: Hmac, events: seq<Event>)
    requires Sound(w)
    ensures Sound(Exec(w, hmac, events))
    ensures Onward(w.tables.users, Exec(w, hmac, events).tables.users)
    ensures w.now <= Exec(w, hmac, events).now && w.deletions <= Exec(w, hmac, events).deletions
    decreases |events|
  {
    if events != [] {
      StepSound(w, hmac, events[0]);
      RunSound(Next(w, hmac, events[0]), hmac, events[1..]);
    }
  }

  lemma {:induction false} ExecSplits(w: World, hmac: Hmac, events: seq<Event>, k: nat)
    requires k <= |events|
    ensures Exec(w, hmac, events) == Exec(Exec(w, hmac, events[..k]), hmac, events[k..])
    decreases k
  {
    if k == 0 {
      assert events[0..] == events;
    } else {
      var w1, front := Next(w, hmac, events[0]), events[..k];
      ExecSplits(w1, hmac, events[1..], k - 1);
      assert events[1..][..k - 1] == front[1..] && events[1..][k - 1..] == events[k..];
      assert Exec(w, hmac, front) == Exec(w1, hmac, front[1..]);
      assert Exec(w, hmac, events) == Exec(w1, hmac, events[1..]);
    }
  }

  /** A deployment before its first event. */
  ghost predicate Fresh(w: World) {
    w.tables.users == map[] && w.tables.subscriptions == map[] && Constraints(w.tables)
    && w.requests == [] && w.queue == [] && w.purged == [] && w.deletions == [] && w.chosen == map[]
  }

  function EmptyWorld(): World {
    World(Tables(map[], map[], [], [], map[], map[], [], {}), [], [], 0, [], [], map[])
  }

  /** A sign-up with fresh keys and an address nobody holds. */
  lemma SignUpSucceeds(w: World, hmac: Hmac, uid: Id, email: string)
    requires uid !in w.tables.users && uid !in w.tables.subscriptions
    requires forall v | v in w.tables.users :: w.tables.users[v].email != email
    ensures var v := Next(w, hmac, RegisterEvent(email, "A", SignedUp(uid), uid, Answered));
            && v.tables == InsertAccount(w.tables, uid, PasswordAccount(email, "A"), uid)
            && v == w.(tables := v.tables, chosen := w.chosen[uid := email])
  {
    assert !EmailActive(w.tables.users, email);
  }

  /** From a fresh start, users and subscriptions stay paired one to one, and addresses stay distinct. */
  lemma AccountsStayPaired(w: World, hmac: Hmac, events: seq<Event>)
    requires Fresh(w)
    ensures OneSubscriptionEach(Exec(w, hmac, events).tables) && UniqueEmails(Exec(w, hmac, events).tables.users)
  {
    RunSound(w, hmac, events);
  }

  /** No purge commits for a user who was not deleted, or not yet 30 days ago, however deletions overlap. */
  lemma ThirtyDaySafety(w: World, hmac: Hmac, events: seq<Event>, k: nat)
    requires Fresh(w) && k < |events| && events[k].JobEvent?
    requires var before := Exec(w, hmac, events[..k]);
             && events[k].k < |before.queue|
             && Erases(before.tables, hmac, Job(before.queue[events[k].k], events[k].secret, events[k].fault))
    ensures var before := Exec(w, hmac, events[..k]); var uid := before.queue[events[k].k];
            var end := Exec(w, hmac, events);
            && DueBy(before.deletions, uid, before.now)
            && uid in before.tables.users && before.tables.users[uid].deletedAt.Some?
            && uid in end.tables.users && end.tables.users[uid].deletedAt.Some?
  {
    RunSound(w, hmac, events[..k]);
    ExecSplits(w, hmac, events, k);
    var before := Exec(w, hmac, events[..k]);
    assert DueBy(before.deletions, before.queue[events[k].k], before.now);
    RunSound(before, hmac, events[k..]);
  }

  lemma DeletionStored(w: World, hmac: Hmac, e: Event)
    requires CommitsDeletion(w, e)
    ensures var uid, users := w.requests[e.k].uid, Next(w, hmac, e).tables.users;
            uid in users && users[uid].deletedAt.Some?
  {
  }

  /** Once a deletion has committed, no token authenticates as the user, however late it was issued. */
  lemma DeletionIsFinal(w: World, hmac: Hmac, e: Event, after: seq<Event>, token: Bearer)
    requires Sound(w) && CommitsDeletion(w, e)
    ensures AuthenticateRequest(Exec(Next(w, hmac, e), hmac, after).tables, token) != Some(w.requests[e.k].uid)
  {
    StepSound(w, hmac, e);
    DeletionStored(w, hmac, e);
    RunSound(Next(w, hmac, e), hmac, after);
  }
}
