/** Deletions and password resets of one account that overlap: what depends on there being at most one
    such request at a time, and how it fails with two. */
module Overlaps {
  import opened Prelude
  import opened Database
  import opened Erasure
  import opened ErasureRuns
  import opened Accounts
  import opened Revocation
  import opened Lifecycle

  /** How many requests for the account are between their load and their commit. */
  function OpenFor(requests: seq<Request>, uid: Id): nat {
    if requests == [] then 0 else (if requests[0].uid == uid then 1 else 0) + OpenFor(requests[1..], uid)
  }

  ghost predicate AtMostEach(requests: seq<Request>, n: nat) {
    forall uid :: OpenFor(requests, uid) <= n
  }

  /** At no moment of the run are more than `n` requests open for one account. */
  ghost predicate OverlapAtMost(w: World, hmac: Hmac, events: seq<Event>, n: nat)
    decreases |events|
  {
    && AtMostEach(w.requests, n)
    && (events != [] ==> OverlapAtMost(Next(w, hmac, events[0]), hmac, events[1..], n))
  }

  lemma {:induction false} OpenWhenListed(requests: seq<Request>, i: nat)
    requires i < |requests|
    ensures OpenFor(requests, requests[i].uid) >= 1
  {
    if i > 0 {
      OpenWhenListed(requests[1..], i - 1);
    }
  }

  lemma {:induction false} OpenAtMostAll(requests: seq<Request>, uid: Id)
    ensures OpenFor(requests, uid) <= |requests|
  {
    if requests != [] {
      OpenAtMostAll(requests[1..], uid);
    }
  }

  lemma FewRequests(requests: seq<Request>, n: nat)
    requires |requests| <= n
    ensures AtMostEach(requests, n)
  {
    forall uid ensures OpenFor(requests, uid) <= n {
      OpenAtMostAll(requests, uid);
    }
  }

  predicate OneRequestEach(requests: seq<Request>) {
    forall i, j | 0 <= i < j < |requests| :: requests[i].uid != requests[j].uid
  }

  lemma {:induction false} AtMostOneEach(requests: seq<Request>)
    requires AtMostEach(requests, 1)
    ensures OneRequestEach(requests)
  {
    if requests != [] {
      var rest := requests[1..];
      forall uid ensures OpenFor(rest, uid) <= 1 {
        assert OpenFor(requests, uid) <= 1;
      }
      AtMostOneEach(rest);
      forall j | 0 <= j < |rest| ensures rest[j].uid != requests[0].uid {
        OpenWhenListed(rest, j);
        assert OpenFor(requests, rest[j].uid) <= 1;
      }
    }
  }

  // ---- One request at a time ---------------------------------------------------------------

  /** Nothing has happened to the account since the request loaded it. */
  predicate Current(users: map<Id, User>, r: Request) {
    && (r.Deleting? ==> r.uid in users && users[r.uid].deletedAt.None?)
    && (r.uid in users && users[r.uid].tokenInvalidatedAt.Some? ==> users[r.uid].tokenInvalidatedAt.value <= r.since)
  }

  predicate AllCurrent(users: map<Id, User>, requests: seq<Request>) {
    forall i | 0 <= i < |requests| :: Current(users, requests[i])
  }

  /** One deletion time was committed per deleted account, and it is the one stored. */
  predicate DeletedOnce(users: map<Id, User>, deletions: seq<(Id, Instant)>) {
    && (forall i | 0 <= i < |deletions| ::
          deletions[i].0 in users && users[deletions[i].0].deletedAt == Some(deletions[i].1))
    && (forall i, j | 0 <= i < j < |deletions| :: deletions[i].0 != deletions[j].0)
  }

  predicate InOrder(w: World) {
    OneRequestEach(w.requests) && AllCurrent(w.tables.users, w.requests) && DeletedOnce(w.tables.users, w.deletions)
  }

  /** No invalidation time goes back. */
  predicate InvalidationsOnward(a: map<Id, User>, b: map<Id, User>) {
    forall uid | uid in a && a[uid].tokenInvalidatedAt.Some? ::
      && uid in b && b[uid].tokenInvalidatedAt.Some?
      && a[uid].tokenInvalidatedAt.value <= b[uid].tokenInvalidatedAt.value
  }

  lemma KeptTimesStayCurrent(a: map<Id, User>, b: map<Id, User>, requests: seq<Request>)
    requires AllCurrent(a, requests) && TimesKept(a, b)
    ensures AllCurrent(b, requests)
  {
    forall i | 0 <= i < |requests| ensures Current(b, requests[i]) {
      assert Current(a, requests[i]);
    }
  }

  lemma OpeningIsCurrent(w: World, e: Event)
    requires Sound(w) && AllCurrent(w.tables.users, w.requests) && !e.CommitRequest?
    ensures AllCurrent(w.tables.users, NextRequests(w, e))
  {
  }

  lemma OtherEventsKeepOrder(w: World, hmac: Hmac, e: Event)
    requires Sound(w) && InOrder(w) && OneRequestEach(NextRequests(w, e)) && !e.CommitRequest?
    ensures InOrder(Next(w, hmac, e))
    ensures InvalidationsOnward(w.tables.users, Next(w, hmac, e).tables.users)
  {
    TimesStep(w, hmac, e);
    OpeningIsCurrent(w, e);
    KeptTimesStayCurrent(w.tables.users, NextTables(w, hmac, e).users, NextRequests(w, e));
  }

  /** The other open requests are for other accounts. */
  lemma OthersStayCurrent(users: map<Id, User>, after: map<Id, User>, requests: seq<Request>, k: nat)
    requires k < |requests| && OneRequestEach(requests) && AllCurrent(users, requests)
    requires users.Keys == after.Keys && forall v | v in users && v != requests[k].uid :: after[v] == users[v]
    ensures AllCurrent(after, requests[..k] + requests[k + 1..]) && OneRequestEach(requests[..k] + requests[k + 1..])
  {
    var rest := requests[..k] + requests[k + 1..];
    forall i | 0 <= i < |rest| ensures Current(after, rest[i]) {
      var j := if i < k then i else i + 1;
      assert rest[i] == requests[j] && Current(users, requests[j]);
    }
  }

  lemma DeletionCommitsOnce(t: Tables, deletions: seq<(Id, Instant)>, r: Request, stamp: Instant)
    requires DeletedOnce(t.users, deletions) && r.Deleting? && Current(t.users, r) && r.since <= stamp
    ensures DeletedOnce(StampDeletion(t, r.uid, stamp).users, deletions + [(r.uid, stamp)])
    ensures InvalidationsOnward(t.users, StampDeletion(t, r.uid, stamp).users)
  {
  }

  lemma AuditKeepsUsers(t: Tables, uid: Id, stamp: Instant, commit: Fate, auditWritten: bool)
    ensures Reset(t, RecoveredUser(uid), true, stamp, commit, auditWritten).0.users
            == ResetTables(t, RecoveredUser(uid), true, stamp, commit).users
  {
  }

  lemma ResetKeepsDeletions(t: Tables, deletions: seq<(Id, Instant)>, r: Request, commit: Fate)
    requires DeletedOnce(t.users, deletions) && Current(t.users, r)
    ensures var users := ResetTables(t, RecoveredUser(r.uid), true, r.since, commit).users;
            && DeletedOnce(users, deletions) && InvalidationsOnward(t.users, users)
            && users.Keys == t.users.Keys && forall v | v in t.users && v != r.uid :: users[v] == t.users[v]
  {
  }

  /** What the users and the committed deletions look like after one open request has committed. */
  predicate Follows(w: World, k: nat, users: map<Id, User>, deletions: seq<(Id, Instant)>)
    requires k < |w.requests|
  {
    && users.Keys == w.tables.users.Keys
    && (forall v | v in users && v != w.requests[k].uid :: users[v] == w.tables.users[v])
    && DeletedOnce(users, deletions) && InvalidationsOnward(w.tables.users, users)
  }

  lemma DeletionFollows(w: World, hmac: Hmac, e: Event)
    requires InOrder(w) && CommitsDeletion(w, e)
    ensures Follows(w, e.k, NextTables(w, hmac, e).users, NextDeletions(w, e))
  {
    var r := w.requests[e.k];
    assert Current(w.tables.users, r);
    DeletionCommitsOnce(w.tables, w.deletions, r, StampOf(r, e.delay, w.now));
  }

  lemma ResetFollows(w: World, hmac: Hmac, e: Event)
    requires InOrder(w) && e.CommitRequest? && e.k < |w.requests| && w.requests[e.k].Resetting?
    ensures Follows(w, e.k, NextTables(w, hmac, e).users, NextDeletions(w, e))
  {
    var r := w.requests[e.k];
    assert Current(w.tables.users, r);
    ResetKeepsDeletions(w.tables, w.deletions, r, e.commit);
    AuditKeepsUsers(w.tables, r.uid, r.since, e.commit, e.auditWritten);
  }

  lemma CommitKeepsOrder(w: World, hmac: Hmac, e: Event)
    requires InOrder(w) && e.CommitRequest?
    ensures InOrder(Next(w, hmac, e))
    ensures InvalidationsOnward(w.tables.users, Next(w, hmac, e).tables.users)
  {
    if e.k < |w.requests| {
      if w.requests[e.k].Resetting? {
        ResetFollows(w, hmac, e);
      } else if CommitsDeletion(w, e) {
        DeletionFollows(w, hmac, e);
      }
      OthersStayCurrent(w.tables.users, NextTables(w, hmac, e).users, w.requests, e.k);
    }
  }

  lemma {:induction false} RunInOrder(w: World, hmac: Hmac, events: seq<Event>)
    requires Sound(w) && InOrder(w) && OverlapAtMost(w, hmac, events, 1)
    ensures Sound(Exec(w, hmac, events)) && InOrder(Exec(w, hmac, events))
    ensures Onward(w.tables.users, Exec(w, hmac, events).tables.users)
    ensures InvalidationsOnward(w.tables.users, Exec(w, hmac, events).tables.users)
    ensures w.deletions <= Exec(w, hmac, events).deletions
    decreases |events|
  {
    if events != [] {
      var w1 := Next(w, hmac, events[0]);
      AtMostOneEach(w1.requests);
      if events[0].CommitRequest? {
        CommitKeepsOrder(w, hmac, events[0]);
      } else {
        OtherEventsKeepOrder(w, hmac, events[0]);
      }
      StepSound(w, hmac, events[0]);
      RunInOrder(w1, hmac, events[1..]);
    }
  }

  lemma {:induction false} FewerOverlap(w: World, hmac: Hmac, events: seq<Event>, n: nat, m: nat)
    requires n <= m && OverlapAtMost(w, hmac, events, n)
    ensures OverlapAtMost(w, hmac, events, m)
    decreases |events|
  {
    if events != [] {
      FewerOverlap(Next(w, hmac, events[0]), hmac, events[1..], n, m);
    }
  }

  lemma DueByTheStoredTime(users: map<Id, User>, deletions: seq<(Id, Instant)>, uid: Id, when: Instant)
    requires DeletedOnce(users, deletions) && DueBy(deletions, uid, when)
    ensures uid in users && users[uid].deletedAt.Some? && Over30DaysBefore(users[uid].deletedAt.value, when)
    ensures (uid, users[uid].deletedAt.value) in deletions
  {
    var i :| 0 <= i < |deletions| && deletions[i].0 == uid && Over30DaysBefore(deletions[i].1, when);
    assert deletions[i] == (uid, users[uid].deletedAt.value);
  }

  lemma RecordedTimeIsStored(users: map<Id, User>, deletions: seq<(Id, Instant)>, uid: Id, stamp: Instant)
    requires DeletedOnce(users, deletions) && (uid, stamp) in deletions
    ensures uid in users && users[uid].deletedAt == Some(stamp)
  {
    var i :| 0 <= i < |deletions| && deletions[i] == (uid, stamp);
  }

  /** A purge goes by the one deletion time of its account, more than 30 days ago, which stays what it is. */
  lemma PurgeGoesByTheDeletion(w: World, hmac: Hmac, before: seq<Event>, e: Event, after: seq<Event>)
    requires Fresh(w) && OverlapAtMost(w, hmac, before, 1) && e.JobEvent?
    requires var mid := Exec(w, hmac, before);
             && OverlapAtMost(mid, hmac, [e] + after, 1)
             && e.k < |mid.queue| && Erases(mid.tables, hmac, Job(mid.queue[e.k], e.secret, e.fault))
    ensures var mid := Exec(w, hmac, before); var uid := mid.queue[e.k]; var end := Exec(mid, hmac, [e] + after);
            && uid in mid.tables.users && mid.tables.users[uid].deletedAt.Some?
            && Over30DaysBefore(mid.tables.users[uid].deletedAt.value, mid.now)
            && uid in end.tables.users && end.tables.users[uid].deletedAt == mid.tables.users[uid].deletedAt
  {
    var mid, end := Exec(w, hmac, before), Exec(Exec(w, hmac, before), hmac, [e] + after);
    var uid := mid.queue[e.k];
    RunInOrder(w, hmac, before);
    DueByTheStoredTime(mid.tables.users, mid.deletions, uid, mid.now);
    RunInOrder(mid, hmac, [e] + after);
    assert (uid, mid.tables.users[uid].deletedAt.value) in end.deletions;
    RecordedTimeIsStored(end.tables.users, end.deletions, uid, mid.tables.users[uid].deletedAt.value);
  }

  // ---- Two at a time -----------------------------------------------------------------------

  ghost predicate Reached(w: World, hmac: Hmac, n: nat) {
    exists events :: OverlapAtMost(EmptyWorld(), hmac, events, n) && Exec(EmptyWorld(), hmac, events) == w
  }

  lemma {:induction false} OverlapAppends(w: World, hmac: Hmac, events: seq<Event>, e: Event, n: nat)
    requires OverlapAtMost(w, hmac, events, n)
    requires AtMostEach(NextRequests(Exec(w, hmac, events), e), n)
    ensures OverlapAtMost(w, hmac, events + [e], n)
    decreases |events|
  {
    var all := events + [e];
    if events == [] {
      assert all[0] == e && all[1..] == [];
      assert OverlapAtMost(Next(w, hmac, e), hmac, [], n);
    } else {
      assert all[0] == events[0] && all[1..] == events[1..] + [e];
      OverlapAppends(Next(w, hmac, events[0]), hmac, events[1..], e, n);
    }
  }

  lemma NextReached(w: World, hmac: Hmac, e: Event, n: nat)
    requires Reached(w, hmac, n) && |NextRequests(w, e)| <= n
    ensures Reached(Next(w, hmac, e), hmac, n)
  {
    var events :| OverlapAtMost(EmptyWorld(), hmac, events, n) && Exec(EmptyWorld(), hmac, events) == w;
    FewRequests(NextRequests(w, e), n);
    OverlapAppends(EmptyWorld(), hmac, events, e, n);
    ExecAppends(EmptyWorld(), hmac, events, e);
  }

  /** A world with the one account 0, at `now`, and these requests. */
  predicate OneAccount(w: World, now: Instant, requests: seq<Request>) {
    0 in w.tables.users && w.now == now && w.requests == requests
  }

  lemma OneSignUp(hmac: Hmac, n: nat) returns (w: World)
    ensures Reached(w, hmac, n) && OneAccount(w, 0, []) && w.deletions == [] && w.tables.users[0].deletedAt.None?
  {
    var e := RegisterEvent("a@x", "A", SignedUp(0), 0, Answered);
    assert Exec(EmptyWorld(), hmac, []) == EmptyWorld() && OverlapAtMost(EmptyWorld(), hmac, [], n);
    SignUpSucceeds(EmptyWorld(), hmac, 0, "a@x");
    NextReached(EmptyWorld(), hmac, e, n);
    w := Next(EmptyWorld(), hmac, e);
  }

  lemma DeletionOpens(w: World, hmac: Hmac, n: nat) returns (v: World)
    requires Reached(w, hmac, n) && |w.requests| < n
    requires 0 in w.tables.users && w.tables.users[0].deletedAt.None?
    ensures Reached(v, hmac, n) && v == w.(requests := w.requests + [Deleting(0, w.now)])
  {
    NextReached(w, hmac, OpenDeletion(0), n);
    v := Next(w, hmac, OpenDeletion(0));
  }

  lemma TimePasses(w: World, hmac: Hmac, n: nat, elapsed: nat) returns (v: World)
    requires Reached(w, hmac, n) && |w.requests| <= n
    ensures Reached(v, hmac, n) && v == w.(now := w.now + elapsed)
  {
    NextReached(w, hmac, Tick(elapsed), n);
    v := Next(w, hmac, Tick(elapsed));
  }

  lemma DeletionCommits(w: World, hmac: Hmac, n: nat, delay: nat) returns (v: World)
    requires Reached(w, hmac, n) && 0 < |w.requests| <= n
    requires w.requests[0].Deleting? && w.requests[0].uid == 0 && 0 in w.tables.users
    requires w.requests[0].since + delay <= w.now
    ensures Reached(v, hmac, n) && OneAccount(v, w.now, w.requests[1..])
    ensures v.deletions == w.deletions + [(0, w.requests[0].since + delay)]
  {
    NextReached(w, hmac, CommitRequest(0, delay, Answered, false), n);
    v := Next(w, hmac, CommitRequest(0, delay, Answered, false));
    assert w.requests[..0] + w.requests[1..] == w.requests[1..];
  }

  lemma DeletedTwice(hmac: Hmac, n: nat) returns (w: World)
    requires n >= 2
    ensures Reached(w, hmac, n) && w.deletions == [(0, 0)] + [(0, 1)]
  {
    w := OneSignUp(hmac, n);
    w := DeletionOpens(w, hmac, n);
    w := DeletionOpens(w, hmac, n);
    w := DeletionCommits(w, hmac, n, 0);
    w := TimePasses(w, hmac, n, 1);
    w := DeletionCommits(w, hmac, n, 1);
  }

  /** With at most n deletions and resets open per account, a deletion time is committed once per account
      and stays: as every deletion that commits goes on to the enqueue, each account is enqueued at
      most once. */
  ghost predicate DeletesOnce(hmac: Hmac, n: nat) {
    forall w: World, events: seq<Event> | Fresh(w) && OverlapAtMost(w, hmac, events, n) ::
      DeletedOnce(Exec(w, hmac, events).tables.users, Exec(w, hmac, events).deletions)
  }

  /** "Enqueued exactly once per account" and "already soft-deleted: do not re-commit timestamps" hold exactly
      when the requests of an account do not overlap. Two deletions that both find it not deleted
      both commit their time, and both enqueue. */
  lemma DeletesOnceIffSerial(hmac: Hmac, n: nat)
    ensures DeletesOnce(hmac, n) <==> n <= 1
  {
    if n <= 1 {
      forall w: World, events: seq<Event> | Fresh(w) && OverlapAtMost(w, hmac, events, n)
        ensures DeletedOnce(Exec(w, hmac, events).tables.users, Exec(w, hmac, events).deletions)
      {
        FewerOverlap(w, hmac, events, n, 1);
        RunInOrder(w, hmac, events);
      }
    } else {
      var w := DeletedTwice(hmac, n);
      var events :| OverlapAtMost(EmptyWorld(), hmac, events, n) && Exec(EmptyWorld(), hmac, events) == w;
      assert w.deletions[0].0 == w.deletions[1].0;
      assert Fresh(EmptyWorld()) && !DeletedOnce(w.tables.users, w.deletions);
    }
  }

  /** The account's tokens from before `issued` on are invalidated. */
  predicate Invalidated(users: map<Id, User>, uid: Id, issued: nat) {
    uid in users && users[uid].tokenInvalidatedAt.Some? && issued < users[uid].tokenInvalidatedAt.value
  }

  /** With at most n deletions and resets open per account, a token really issued before an invalidation is
      rejected at every later moment. */
  ghost predicate RevocationHolds(hmac: Hmac, n: nat) {
    forall w: World, before: seq<Event>, after: seq<Event>, uid: Id, issued: nat
      | Fresh(w) && OverlapAtMost(w, hmac, before, n) && OverlapAtMost(Exec(w, hmac, before), hmac, after, n)
        && Invalidated(Exec(w, hmac, before).tables.users, uid, issued) ::
      AuthenticateRequest(Exec(Exec(w, hmac, before), hmac, after).tables, IssuedAt(uid, issued)) == None
  }

  lemma InvalidatedIsRejected(t: Tables, uid: Id, issued: nat)
    requires Invalidated(t.users, uid, issued)
    ensures AuthenticateRequest(t, IssuedAt(uid, issued)) == None
  {
  }

  lemma SerialRevocationHolds(
      hmac: Hmac, w: World, before: seq<Event>, after: seq<Event>, uid: Id, issued: nat)
    requires Fresh(w) && OverlapAtMost(w, hmac, before, 1) && OverlapAtMost(Exec(w, hmac, before), hmac, after, 1)
    requires Invalidated(Exec(w, hmac, before).tables.users, uid, issued)
    ensures AuthenticateRequest(Exec(Exec(w, hmac, before), hmac, after).tables, IssuedAt(uid, issued)) == None
  {
    RunInOrder(w, hmac, before);
    RunInOrder(Exec(w, hmac, before), hmac, after);
    InvalidatedIsRejected(Exec(Exec(w, hmac, before), hmac, after).tables, uid, issued);
  }

  lemma ResetOpens(w: World, hmac: Hmac, n: nat) returns (v: World)
    requires Reached(w, hmac, n) && |w.requests| < n
    ensures Reached(v, hmac, n) && v == w.(requests := w.requests + [Resetting(0, w.now)])
  {
    NextReached(w, hmac, OpenReset(RecoveredUser(0), true), n);
    v := Next(w, hmac, OpenReset(RecoveredUser(0), true));
  }

  /** The account with two resets open, read 10 seconds apart. */
  lemma TwoResetsOpen(hmac: Hmac, n: nat) returns (w: World)
    requires n >= 2
    ensures Reached(w, hmac, n) && w.requests == [Resetting(0, 20 * SECOND), Resetting(0, 30 * SECOND)]
    ensures 0 in w.tables.users && w.tables.users[0].deletedAt.None?
  {
    w := OneSignUp(hmac, n);
    w := TimePasses(w, hmac, n, 20 * SECOND);
    w := ResetOpens(w, hmac, n);
    w := TimePasses(w, hmac, n, 10 * SECOND);
    w := ResetOpens(w, hmac, n);
  }

  lemma ResetCommits(w: World, hmac: Hmac, k: nat)
    requires k < |w.requests| && w.requests[k].Resetting? && w.requests[k].uid == 0 && 0 in w.tables.users
    ensures var v := Next(w, hmac, CommitRequest(k, 0, Answered, false));
            && v.requests == w.requests[..k] + w.requests[k + 1..]
            && 0 in v.tables.users && v.tables.users[0].deletedAt == w.tables.users[0].deletedAt
            && v.tables.users[0].tokenInvalidatedAt == Some(w.requests[k].since)
  {
  }

  lemma OneMore(w: World, hmac: Hmac, e: Event, n: nat)
    requires |w.requests| <= n && |NextRequests(w, e)| <= n
    ensures OverlapAtMost(w, hmac, [e], n)
  {
    FewRequests(w.requests, n);
    FewRequests(NextRequests(w, e), n);
    assert OverlapAtMost(Next(w, hmac, e), hmac, [], n);
  }

  /** The later one commits first. */
  lemma LaterResetFirst(hmac: Hmac, n: nat) returns (w: World)
    requires n >= 2
    ensures Reached(w, hmac, n) && w.requests == [Resetting(0, 20 * SECOND)]
    ensures Invalidated(w.tables.users, 0, 25 * SECOND)
    ensures w.tables.users[0].deletedAt.None?
  {
    var both := TwoResetsOpen(hmac, n);
    NextReached(both, hmac, CommitRequest(1, 0, Answered, false), n);
    ResetCommits(both, hmac, 1);
    w := Next(both, hmac, CommitRequest(1, 0, Answered, false));
    assert [Resetting(0, 20 * SECOND)] + [] == [Resetting(0, 20 * SECOND)];
  }

  /** Then the earlier one takes its invalidation back. */
  lemma OverlappingResetsRevive(hmac: Hmac, n: nat)
    requires n >= 2
    ensures !RevocationHolds(hmac, n)
  {
    var first := CommitRequest(0, 0, Answered, false);
    var w := LaterResetFirst(hmac, n);
    ResetCommits(w, hmac, 0);
    OneMore(w, hmac, first, n);
    var before :| OverlapAtMost(EmptyWorld(), hmac, before, n) && Exec(EmptyWorld(), hmac, before) == w;
    assert Exec(w, hmac, [first]) == Next(w, hmac, first);
    assert AuthenticateRequest(Next(w, hmac, first).tables, IssuedAt(0, 25 * SECOND)) == Some(0);
    assert Fresh(EmptyWorld());
  }

  /** Revocation is permanent exactly when the deletions and resets of an account do not overlap. */
  lemma RevocationIsPermanentIffSerial(hmac: Hmac, n: nat)
    ensures RevocationHolds(hmac, n) <==> n <= 1
  {
    if n <= 1 {
      forall w: World, before: seq<Event>, after: seq<Event>, uid: Id, issued: nat
        | Fresh(w) && OverlapAtMost(w, hmac, before, n) && OverlapAtMost(Exec(w, hmac, before), hmac, after, n)
          && Invalidated(Exec(w, hmac, before).tables.users, uid, issued)
        ensures AuthenticateRequest(Exec(Exec(w, hmac, before), hmac, after).tables, IssuedAt(uid, issued)) == None
      {
        FewerOverlap(w, hmac, before, n, 1);
        FewerOverlap(Exec(w, hmac, before), hmac, after, n, 1);
        SerialRevocationHolds(hmac, w, before, after, uid, issued);
      }
    } else {
      OverlappingResetsRevive(hmac, n);
    }
  }
}
