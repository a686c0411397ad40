/** Whole runs of the purge job: any number of attempts on any users, each able to die around
    either commit, with the server secret changing in between. */
module ErasureRuns {
  import opened Prelude
  import opened Database
  import opened Erasure

  datatype Job = Job(uid: Id, secret: string, fault: Fault)

  function Step(t: Tables, hmac: Hmac, j: Job): (Tables, Outcome) {
    Attempt(t, j.uid, hmac, j.secret, j.fault)
  }

  /** Attempts one after the other. */
  function Run(t: Tables, hmac: Hmac, jobs: seq<Job>): Tables
    decreases |jobs|
  {
    if jobs == [] then t else Run(Step(t, hmac, jobs[0]).0, hmac, jobs[1..])
  }

  /** The attempt gets through its second commit, even if the worker dies right after it. */
  predicate Erases(t: Tables, hmac: Hmac, j: Job) {
    var o := Step(t, hmac, j).1;
    o.Completed? || (o.Crashed? && j.fault.AfterSecondCommit?)
  }

  /** The attempt commits an id for a user that has none. */
  predicate FirstStores(t: Tables, j: Job) {
    j.uid in t.users && !HasAnonymousId(t.users[j.uid]) && j.secret != "" && !j.fault.BeforeFirstCommit?
  }

  /** The id an attempt works with: the stored one, or else a fresh digest. */
  function IdFor(t: Tables, hmac: Hmac, uid: Id, secret: string): string
    requires uid in t.users
  {
    if HasAnonymousId(t.users[uid]) then t.users[uid].anonymousId.value else hmac(secret, uid)
  }

  /** The address an erased user is given: 16 characters of the id, or all of a shorter one. */
  predicate IsPlaceholder(email: string, id: string) {
    email == "erased_" + (if |id| > 16 then id[..16] else id) + "@erased.invalid"
  }

  /** The ids agree on their first 16 characters. */
  predicate StartAlike(a: string, b: string) {
    && (|a| == |b| || (|a| >= 16 && |b| >= 16))
    && forall k | 0 <= k < 16 && k < |a| && k < |b| :: a[k] == b[k]
  }

  lemma PlaceholderParts(id: string)
    ensures var start, email := if |id| > 16 then id[..16] else id, ErasedEmail(id);
            && email == "erased_" + start + "@erased.invalid" && |email| == 7 + |start| + 15
            && email[7..7 + |start|] == start
  {
  }

  /** Two ids give the same address exactly when they start alike. */
  lemma SamePlaceholderIff(a: string, b: string)
    ensures IsPlaceholder(ErasedEmail(a), a)
    ensures ErasedEmail(a) == ErasedEmail(b) <==> StartAlike(a, b)
  {
    var x, y := if |a| > 16 then a[..16] else a, if |b| > 16 then b[..16] else b;
    PlaceholderParts(a);
    PlaceholderParts(b);
    assert ErasedEmail(a) == ErasedEmail(b) <==> x == y;
    if StartAlike(a, b) {
      assert x == y;
    }
    if x == y {
      assert forall k | 0 <= k < |x| :: a[k] == x[k] && b[k] == y[k];
    }
  }

  /** No other row holds the address that goes with the id. */
  predicate PlaceholderFree(users: map<Id, User>, uid: Id, id: string) {
    forall v | v in users && v != uid :: !IsPlaceholder(users[v].email, id)
  }

  /** An attempt that is not interrupted completes exactly when the user exists, an id can be had
      and no other row holds the erased address; what it leaves is the purge with that id. */
  lemma UninterruptedAttempt(t: Tables, hmac: Hmac, uid: Id, secret: string)
    ensures Attempt(t, uid, hmac, secret, NoFault).1 == Completed <==>
      && uid in t.users
      && (HasAnonymousId(t.users[uid]) || secret != "")
      && PlaceholderFree(t.users, uid, IdFor(t, hmac, uid, secret))
    ensures Attempt(t, uid, hmac, secret, NoFault).1 == Completed ==>
      var id := IdFor(t, hmac, uid, secret);
      Attempt(t, uid, hmac, secret, NoFault).0 == PurgeRows(StoreAnonymousId(t, uid, id), uid, id)
  {
    if uid in t.users {
      var id := IdFor(t, hmac, uid, secret);
      var stored := StoreAnonymousId(t, uid, id);
      assert forall v | v in t.users :: stored.users[v].email == t.users[v].email;
      FreeIffNoPlaceholder(t.users, uid, id);
      if HasAnonymousId(t.users[uid]) {
        assert stored.users == t.users;
      }
    }
  }

  lemma {:induction false} DropConsentsCompose(rows: seq<Consent>, a: set<Id>, b: set<Id>)
    ensures DropConsents(DropConsents(rows, a), b) == DropConsents(rows, a + b)
  {
    if rows != [] {
      DropConsentsCompose(rows[1..], a, b);
      var rest := DropConsents(rows[1..], a);
      if !OwnedByAny(rows[0], a) {
        assert ([rows[0]] + rest)[1..] == rest;
      }
    }
  }

  lemma {:induction false} DropConsentsNone(rows: seq<Consent>)
    ensures DropConsents(rows, {}) == rows
  {
    if rows != [] {
      DropConsentsNone(rows[1..]);
    }
  }

  /** What is dropped, row by row. */
  lemma {:induction false} DropConsentsKeeps(rows: seq<Consent>, uids: set<Id>, c: Consent)
    ensures multiset(DropConsents(rows, uids))[c] == if OwnedByAny(c, uids) then 0 else multiset(rows)[c]
  {
    if rows != [] {
      DropConsentsKeeps(rows[1..], uids, c);
      assert rows == [rows[0]] + rows[1..];
    }
  }

  /** `end` is `t` with the personal data of `u` gone, field by field, and nothing else touched. */
  ghost predicate PersonalDataGone(t: Tables, end: Tables, u: Id, id: string) {
    && u in t.users && end.users.Keys == t.users.Keys
    && end.users[u] == t.users[u].(
         anonymousId := Some(id),
         email := end.users[u].email,
         displayName := "Deleted User",
         passwordHash := None)
    && IsPlaceholder(end.users[u].email, id)
    && (forall v | v in t.users && v != u :: end.users[v] == t.users[v])
    && |end.audit| == |t.audit|
    && (forall i | 0 <= i < |t.audit| ::
          end.audit[i] == if t.audit[i].userId == Some(u) then t.audit[i].(userId := None) else t.audit[i])
    && (forall c :: multiset(end.consents)[c] == if c.userId == Some(u) then 0 else multiset(t.consents)[c])
    && end == t.(users := end.users, audit := end.audit, consents := end.consents)
  }

  lemma ConsentsDropped(rows: seq<Consent>, u: Id)
    ensures forall c ::
      multiset(DropConsents(rows, {u}))[c] == if c.userId == Some(u) then 0 else multiset(rows)[c]
  {
    forall c: Consent
      ensures multiset(DropConsents(rows, {u}))[c] == if c.userId == Some(u) then 0 else multiset(rows)[c]
    {
      DropConsentsKeeps(rows, {u}, c);
    }
  }

  lemma PurgeRowsErases(t: Tables, u: Id, id: string)
    requires u in t.users
    ensures PersonalDataGone(t, PurgeRows(StoreAnonymousId(t, u, id), u, id), u, id)
  {
    ConsentsDropped(t.consents, u);
    var end := PurgeRows(StoreAnonymousId(t, u, id), u, id);
    assert end.users == t.users[u := ErasedRow(t.users[u].(anonymousId := Some(id)), id)];
    PlaceholderParts(id);
    assert end.audit == NullAudit(t.audit, {u}) && end.consents == DropConsents(t.consents, {u});
  }

  /** The attempt has an id to work with: a stored one that is not empty, or a secret to derive it from. */
  predicate HasId(t: Tables, uid: Id, secret: string) {
    uid in t.users
    && ((t.users[uid].anonymousId.Some? && t.users[uid].anonymousId.value != "") || secret != "")
  }

  lemma IdForIs(t: Tables, hmac: Hmac, uid: Id, secret: string)
    requires HasId(t, uid, secret)
    ensures var stored := t.users[uid].anonymousId;
            IdFor(t, hmac, uid, secret) ==
              if stored.Some? && stored.value != "" then stored.value else hmac(secret, uid)
  {
  }

  /** How every attempt ends, whatever interrupts it. */
  predicate KeepsOutcome(t: Tables, hmac: Hmac, j: Job, o: Outcome) {
    && (o.UserNotFound? <==> j.uid !in t.users)
    && (o.SecretMissing? <==> j.uid in t.users && !HasId(t, j.uid, j.secret))
    && (HasId(t, j.uid, j.secret) ==>
          var free := PlaceholderFree(t.users, j.uid, IdFor(t, hmac, j.uid, j.secret));
          && (o.Completed? <==> j.fault.NoFault? && free)
          && (o.IntegrityError? <==> (j.fault.NoFault? || j.fault.AfterSecondCommit?) && !free)
          && (o.Crashed? <==> !j.fault.NoFault? && (j.fault.AfterSecondCommit? ==> free)))
  }

  lemma AttemptKeepsOutcome(t: Tables, hmac: Hmac, j: Job)
    ensures KeepsOutcome(t, hmac, j, Step(t, hmac, j).1)
  {
    if HasId(t, j.uid, j.secret) {
      var id := IdFor(t, hmac, j.uid, j.secret);
      StoringKeepsAddresses(t, j.uid, id);
      FreeIffNoPlaceholder(t.users, j.uid, id);
      if HasAnonymousId(t.users[j.uid]) {
        assert FirstTransaction(t, j.uid, hmac, j.secret, NoFault).0 == t;
      }
    }
  }

  lemma StoringKeepsAddresses(t: Tables, uid: Id, id: string)
    requires uid in t.users
    ensures AddressFree(StoreAnonymousId(t, uid, id).users, uid, ErasedEmail(id)) <==>
            AddressFree(t.users, uid, ErasedEmail(id))
  {
    assert forall v | v in t.users :: StoreAnonymousId(t, uid, id).users[v].email == t.users[v].email;
  }

  lemma FreeIffNoPlaceholder(users: map<Id, User>, uid: Id, id: string)
    ensures AddressFree(users, uid, ErasedEmail(id)) <==> PlaceholderFree(users, uid, id)
  {
    PlaceholderParts(id);
  }

  /** Two users whose ids agree on 15 characters: the sixteenth decides whether the second can be erased
      after the first, and nothing behind it does. */
  lemma SixteenthCharacterDecides(t: Tables, hmac: Hmac, secret: string, u: Id, v: Id, a: string, b: string)
    requires t.users.Keys == {u, v} && u != v && |a| >= 16 && |b| >= 16 && a[..15] == b[..15]
    requires IsPlaceholder(t.users[u].email, a) && t.users[v].anonymousId == Some(b)
    ensures Attempt(t, v, hmac, secret, NoFault).1 == if a[15] == b[15] then IntegrityError else Completed
  {
    AttemptKeepsOutcome(t, hmac, Job(v, secret, NoFault));
    SamePlaceholderIff(a, b);
    SamePlaceholderIff(b, a);
    assert forall k | 0 <= k < 15 :: a[k] == a[..15][k] && b[k] == b[..15][k];
    assert StartAlike(a, b) <==> a[15] == b[15];
    PlaceholderParts(a);
    PlaceholderParts(b);
  }

  /** A committed purge is the two transactions in a row. */
  lemma ErasingStep(t: Tables, hmac: Hmac, j: Job)
    requires Erases(t, hmac, j)
    ensures j.uid in t.users
    ensures var id := IdFor(t, hmac, j.uid, j.secret); var stored := StoreAnonymousId(t, j.uid, id);
            AddressFree(stored.users, j.uid, ErasedEmail(id)) && Step(t, hmac, j).0 == PurgeRows(stored, j.uid, id)
  {
    if HasAnonymousId(t.users[j.uid]) {
      assert StoreAnonymousId(t, j.uid, IdFor(t, hmac, j.uid, j.secret)).users == t.users;
    }
  }

  lemma ErasureRemovesPersonalData(t: Tables, hmac: Hmac, j: Job)
    requires Erases(t, hmac, j)
    ensures j.uid in t.users
    ensures PersonalDataGone(t, Step(t, hmac, j).0, j.uid, IdFor(t, hmac, j.uid, j.secret))
  {
    ErasingStep(t, hmac, j);
    PurgeRowsErases(t, j.uid, IdFor(t, hmac, j.uid, j.secret));
  }

  /** An attempt that does not get that far has erased nothing: at most the id is stored, which is
      therefore always committed before any personal data goes. */
  lemma NothingErasedBeforeIdStored(t: Tables, hmac: Hmac, j: Job)
    requires !Erases(t, hmac, j)
    ensures var end := Step(t, hmac, j).0;
            if FirstStores(t, j) then end == StoreAnonymousId(t, j.uid, hmac(j.secret, j.uid)) else end == t
  {
  }

  // ---- A closed form for the tables after a run -----------------------------------

  /** `ids`: the id first committed for each user that started without one.
      `erased`: the users for whom some attempt got through its second commit. */
  datatype Progress = Progress(ids: map<Id, string>, erased: set<Id>)

  const NOTHING_YET := Progress(map[], {})

  function Advance(t: Tables, hmac: Hmac, p: Progress, j: Job): Progress {
    Progress(
      if FirstStores(t, j) then p.ids[j.uid := hmac(j.secret, j.uid)] else p.ids,
      if Erases(t, hmac, j) then p.erased + {j.uid} else p.erased)
  }

  function Summary(t: Tables, hmac: Hmac, p: Progress, jobs: seq<Job>): Progress
    decreases |jobs|
  {
    if jobs == [] then p
    else Summary(Step(t, hmac, jobs[0]).0, hmac, Advance(t, hmac, p, jobs[0]), jobs[1..])
  }

  function RowAfter(row: User, uid: Id, p: Progress): User {
    var r := if uid in p.ids then row.(anonymousId := Some(p.ids[uid])) else row;
    if uid in p.erased && r.anonymousId.Some? then ErasedRow(r, r.anonymousId.value) else r
  }

  /** The tables a run leaves, computed from where it started and what it achieved alone. */
  function Closed(t0: Tables, p: Progress): Tables {
    t0.(users := map u | u in t0.users :: RowAfter(t0.users[u], u, p),
        audit := NullAudit(t0.audit, p.erased),
        consents := DropConsents(t0.consents, p.erased))
  }

  ghost predicate Plausible(t0: Tables, p: Progress) {
    && (forall u | u in p.ids :: u in t0.users && !HasAnonymousId(t0.users[u]) && p.ids[u] != "")
    && (forall u | u in p.erased :: u in t0.users && (u in p.ids || HasAnonymousId(t0.users[u])))
  }

  lemma ClosedNothing(t: Tables)
    ensures Closed(t, NOTHING_YET) == t
  {
    DropConsentsNone(t.consents);
    assert NullAudit(t.audit, {}) == t.audit;
    assert Closed(t, NOTHING_YET).users == t.users;
  }

  /** Storing an id, in closed form. */
  lemma StoreClosed(t0: Tables, p: Progress, uid: Id, id: string)
    requires Plausible(t0, p) && uid in t0.users && !HasAnonymousId(t0.users[uid]) && id != ""
    requires uid in p.ids ==> p.ids[uid] == id
    ensures StoreAnonymousId(Closed(t0, p), uid, id) == Closed(t0, p.(ids := p.ids[uid := id]))
  {
    assert StoreAnonymousId(Closed(t0, p), uid, id).users == Closed(t0, p.(ids := p.ids[uid := id])).users;
  }

  /** Purging, in closed form: it makes no difference whether the user was purged before. */
  lemma PurgeClosed(t0: Tables, p: Progress, uid: Id, id: string)
    requires Plausible(t0, p) && uid in t0.users
    requires RowAfter(t0.users[uid], uid, p).anonymousId == Some(id)
    ensures PurgeRows(Closed(t0, p), uid, id) == Closed(t0, p.(erased := p.erased + {uid}))
  {
    var q := p.(erased := p.erased + {uid});
    DropConsentsCompose(t0.consents, p.erased, {uid});
    assert NullAudit(NullAudit(t0.audit, p.erased), {uid}) == NullAudit(t0.audit, q.erased);
    assert PurgeRows(Closed(t0, p), uid, id).users == Closed(t0, q).users;
  }

  lemma StepClosed(t0: Tables, hmac: Hmac, p: Progress, j: Job)
    requires FullLengthDigests(hmac) && Plausible(t0, p)
    ensures Plausible(t0, Advance(Closed(t0, p), hmac, p, j))
    ensures Step(Closed(t0, p), hmac, j).0 == Closed(t0, Advance(Closed(t0, p), hmac, p, j))
  {
    var t := Closed(t0, p);
    if j.uid in t.users {
      var stored := FirstTransaction(t, j.uid, hmac, j.secret, j.fault);
      var q := p.(ids := Advance(t, hmac, p, j).ids);
      if FirstStores(t, j) {
        assert |hmac(j.secret, j.uid)| == 64;
        StoreClosed(t0, p, j.uid, hmac(j.secret, j.uid));
      }
      assert stored.0 == Closed(t0, q);
      if Erases(t, hmac, j) {
        PurgeClosed(t0, q, j.uid, stored.1.value);
      }
    }
  }

  /** The tables after a run depend only on which id was committed first for each user and on who
      was erased: not on the order, the number, the crashes or the secrets of the attempts. */
  lemma {:induction false} RunIsClosed(t0: Tables, hmac: Hmac, p: Progress, jobs: seq<Job>)
    requires FullLengthDigests(hmac) && Plausible(t0, p)
    ensures Plausible(t0, Summary(Closed(t0, p), hmac, p, jobs))
    ensures Run(Closed(t0, p), hmac, jobs) == Closed(t0, Summary(Closed(t0, p), hmac, p, jobs))
    decreases |jobs|
  {
    if jobs != [] {
      StepClosed(t0, hmac, p, jobs[0]);
      RunIsClosed(t0, hmac, Advance(Closed(t0, p), hmac, p, jobs[0]), jobs[1..]);
    }
  }

  lemma {:induction false} RunSplits(t: Tables, hmac: Hmac, jobs: seq<Job>, k: nat)
    requires k <= |jobs|
    ensures Run(t, hmac, jobs) == Run(Run(t, hmac, jobs[..k]), hmac, jobs[k..])
    decreases k
  {
    if k == 0 {
      assert jobs[0..] == jobs;
    } else {
      RunSplits(Step(t, hmac, jobs[0]).0, hmac, jobs[1..], k - 1);
      assert jobs[1..][..k - 1] == jobs[..k][1..];
      assert jobs[1..][k - 1..] == jobs[k..];
    }
  }

  /** Once committed, a user's anonymous id never changes, whatever happens to the secret. */
  lemma AnonymousIdNeverChanges(t: Tables, hmac: Hmac, jobs: seq<Job>, k: nat, uid: Id)
    requires FullLengthDigests(hmac) && k <= |jobs| && uid in Run(t, hmac, jobs[..k]).users
    requires HasAnonymousId(Run(t, hmac, jobs[..k]).users[uid])
    ensures uid in Run(t, hmac, jobs).users
    ensures Run(t, hmac, jobs).users[uid].anonymousId == Run(t, hmac, jobs[..k]).users[uid].anonymousId
  {
    var mid := Run(t, hmac, jobs[..k]);
    RunSplits(t, hmac, jobs, k);
    ClosedNothing(mid);
    RunIsClosed(mid, hmac, NOTHING_YET, jobs[k..]);
  }

  lemma {:induction false} SummaryGrows(t: Tables, hmac: Hmac, p: Progress, jobs: seq<Job>)
    ensures p.erased <= Summary(t, hmac, p, jobs).erased
    ensures p.ids.Keys <= Summary(t, hmac, p, jobs).ids.Keys
    decreases |jobs|
  {
    if jobs != [] {
      SummaryGrows(Step(t, hmac, jobs[0]).0, hmac, Advance(t, hmac, p, jobs[0]), jobs[1..]);
    }
  }

  /** The user, audit and consent rows of `uid` in `end` are those of one uninterrupted purge,
      starting from `t`, with the id `end` holds for that user. */
  predicate AsPurgedOnce(t: Tables, end: Tables, uid: Id) {
    && uid in t.users && uid in end.users && HasAnonymousId(end.users[uid])
    && var id := end.users[uid].anonymousId.value;
       var once := PurgeRows(StoreAnonymousId(t, uid, id), uid, id);
       && end.users[uid] == once.users[uid]
       && |end.audit| == |once.audit| == |t.audit|
       && (forall i | 0 <= i < |t.audit| && t.audit[i].userId == Some(uid) :: end.audit[i] == once.audit[i])
       && (forall c | c in end.consents :: c.userId != Some(uid))
       && (forall c | c in once.consents :: c.userId != Some(uid))
  }

  lemma ClosedAsPurgedOnce(t: Tables, p: Progress, uid: Id)
    requires Plausible(t, p) && uid in p.erased
    ensures AsPurgedOnce(t, Closed(t, p), uid)
  {
    forall c: Consent | c.userId == Some(uid)
      ensures c !in DropConsents(t.consents, p.erased) && c !in DropConsents(t.consents, {uid})
    {
      DropConsentsKeeps(t.consents, p.erased, c);
      DropConsentsKeeps(t.consents, {uid}, c);
    }
  }

  /** After a run in which some attempt on `uid` got through, the rows of that user are those of
      one uninterrupted purge with the id stored first; and further attempts change nothing. */
  lemma ErasureConverges(t: Tables, hmac: Hmac, jobs: seq<Job>, k: nat, uid: Id, again: Job)
    requires FullLengthDigests(hmac) && k < |jobs| && jobs[k].uid == uid && again.uid == uid
    requires Erases(Run(t, hmac, jobs[..k]), hmac, jobs[k])
    ensures AsPurgedOnce(t, Run(t, hmac, jobs), uid)
    ensures Step(Run(t, hmac, jobs), hmac, again).0 == Run(t, hmac, jobs)
  {
    var p := Summary(t, hmac, NOTHING_YET, jobs);
    ClosedNothing(t);
    RunIsClosed(t, hmac, NOTHING_YET, jobs);
    ErasedIsRecorded(t, hmac, NOTHING_YET, jobs, k);
    ClosedAsPurgedOnce(t, p, uid);
    StepClosed(t, hmac, p, again);
    assert Advance(Closed(t, p), hmac, p, again).ids == p.ids;
    assert p.erased + {uid} == p.erased;
  }

  lemma {:induction false} ErasedIsRecorded(t: Tables, hmac: Hmac, p: Progress, jobs: seq<Job>, k: nat)
    requires k < |jobs| && Erases(Run(t, hmac, jobs[..k]), hmac, jobs[k])
    ensures jobs[k].uid in Summary(t, hmac, p, jobs).erased
    decreases k
  {
    var t1, p1 := Step(t, hmac, jobs[0]).0, Advance(t, hmac, p, jobs[0]);
    if k == 0 {
      SummaryGrows(t1, hmac, p1, jobs[1..]);
    } else {
      assert jobs[..k][1..] == jobs[1..][..k - 1];
      ErasedIsRecorded(t1, hmac, p1, jobs[1..], k - 1);
    }
  }
}
