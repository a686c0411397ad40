/** When the unique address constraint blocks a purge: what every account's address is in every
    reachable state, and the exact condition under which another row holds the erased one. */
module ErasedAddresses {
  import opened Prelude
  import opened Database
  import opened Erasure
  import opened ErasureRuns
  import opened Accounts
  import opened Revocation
  import opened Profile
  import opened Scanner
  import opened Lifecycle

  // ---- The address of every account ------------------------------------------------------

  predicate Purged(purged: seq<(Id, Instant)>, uid: Id) {
    exists i | 0 <= i < |purged| :: purged[i].0 == uid
  }

  /** The id is the digest of the user under one of these secrets. */
  predicate DigestOf(hmac: Hmac, secrets: set<string>, uid: Id, id: string) {
    exists s | s in secrets :: id == hmac(s, uid)
  }

  /** An account has the placeholder made from its id once its purge has committed, and until then the
      address it chose last. */
  predicate AddressKnown(users: map<Id, User>, chosen: map<Id, string>, purged: seq<(Id, Instant)>, uid: Id)
    requires uid in users && uid in chosen
  {
    if Purged(purged, uid)
    then HasAnonymousId(users[uid]) && IsPlaceholder(users[uid].email, users[uid].anonymousId.value)
    else users[uid].email == chosen[uid]
  }

  predicate IdKnown(u: User, hmac: Hmac, secrets: set<string>, uid: Id) {
    HasAnonymousId(u) ==> DigestOf(hmac, secrets, uid, u.anonymousId.value)
  }

  predicate AllKnown(users: map<Id, User>, chosen: map<Id, string>, purged: seq<(Id, Instant)>,
                     hmac: Hmac, secrets: set<string>) {
    && chosen.Keys == users.Keys
    && forall uid | uid in users ::
         AddressKnown(users, chosen, purged, uid) && IdKnown(users[uid], hmac, secrets, uid)
  }

  predicate AddressesKnown(w: World, hmac: Hmac, secrets: set<string>) {
    AllKnown(w.tables.users, w.chosen, w.purged, hmac, secrets)
  }

  /** The secrets that jobs run with. */
  predicate SecretsFrom(events: seq<Event>, secrets: set<string>) {
    forall i | 0 <= i < |events| && events[i].JobEvent? && events[i].secret != "" :: events[i].secret in secrets
  }

  lemma PurgedAppend(purged: seq<(Id, Instant)>, uid: Id, now: Instant)
    ensures forall v :: Purged(purged + [(uid, now)], v) <==> v == uid || Purged(purged, v)
  {
    var after := purged + [(uid, now)];
    assert after[|purged|].0 == uid;
    forall v | Purged(purged, v) ensures Purged(after, v) {
      var i :| 0 <= i < |purged| && purged[i].0 == v;
      assert after[i].0 == v;
    }
  }

  lemma StoredIdKeepsKnown(users: map<Id, User>, chosen: map<Id, string>, purged: seq<(Id, Instant)>,
                           hmac: Hmac, secrets: set<string>, uid: Id, id: string)
    requires AllKnown(users, chosen, purged, hmac, secrets) && uid in users && !HasAnonymousId(users[uid])
    requires DigestOf(hmac, secrets, uid, id)
    ensures AllKnown(users[uid := users[uid].(anonymousId := Some(id))], chosen, purged, hmac, secrets)
  {
    assert AddressKnown(users, chosen, purged, uid);
  }

  lemma PurgeKeepsKnown(users: map<Id, User>, chosen: map<Id, string>, purged: seq<(Id, Instant)>,
                        hmac: Hmac, secrets: set<string>, uid: Id, id: string, now: Instant)
    requires AllKnown(users, chosen, purged, hmac, secrets) && uid in users
    requires id != "" && DigestOf(hmac, secrets, uid, id)
    ensures AllKnown(users[uid := ErasedRow(users[uid].(anonymousId := Some(id)), id)], chosen,
                     purged + [(uid, now)], hmac, secrets)
  {
    PurgedAppend(purged, uid, now);
    PlaceholderParts(id);
    forall v | v in users && v != uid
      ensures AddressKnown(users, chosen, purged, v) && IdKnown(users[v], hmac, secrets, v)
    {
    }
  }

  lemma IdForIsDigest(t: Tables, chosen: map<Id, string>, purged: seq<(Id, Instant)>,
                      hmac: Hmac, secrets: set<string>, uid: Id, secret: string)
    requires FullLengthDigests(hmac) && AllKnown(t.users, chosen, purged, hmac, secrets) && uid in t.users
    requires HasAnonymousId(t.users[uid]) || secret in secrets
    ensures DigestOf(hmac, secrets, uid, IdFor(t, hmac, uid, secret)) && IdFor(t, hmac, uid, secret) != ""
  {
    assert IdKnown(t.users[uid], hmac, secrets, uid);
    assert |hmac(secret, uid)| == 64;
  }

  lemma ErasingJobKeepsKnown(w: World, hmac: Hmac, secrets: set<string>, j: Job)
    requires FullLengthDigests(hmac) && AddressesKnown(w, hmac, secrets) && Erases(w.tables, hmac, j)
    requires j.secret != "" ==> j.secret in secrets
    ensures AllKnown(Step(w.tables, hmac, j).0.users, w.chosen, w.purged + [(j.uid, w.now)], hmac, secrets)
  {
    var t := w.tables;
    ErasingStep(t, hmac, j);
    IdForIsDigest(t, w.chosen, w.purged, hmac, secrets, j.uid, j.secret);
    PurgeKeepsKnown(t.users, w.chosen, w.purged, hmac, secrets, j.uid, IdFor(t, hmac, j.uid, j.secret), w.now);
  }

  lemma OtherJobKeepsKnown(w: World, hmac: Hmac, secrets: set<string>, j: Job)
    requires FullLengthDigests(hmac) && AddressesKnown(w, hmac, secrets) && !Erases(w.tables, hmac, j)
    requires j.secret != "" ==> j.secret in secrets
    ensures AllKnown(Step(w.tables, hmac, j).0.users, w.chosen, w.purged, hmac, secrets)
  {
    NothingErasedBeforeIdStored(w.tables, hmac, j);
    if FirstStores(w.tables, j) {
      IdForIsDigest(w.tables, w.chosen, w.purged, hmac, secrets, j.uid, j.secret);
      StoredIdKeepsKnown(w.tables.users, w.chosen, w.purged, hmac, secrets, j.uid, hmac(j.secret, j.uid));
    }
  }

  lemma JobKeepsAddressesKnown(w: World, hmac: Hmac, secrets: set<string>, e: Event)
    requires FullLengthDigests(hmac) && AddressesKnown(w, hmac, secrets)
    requires e.JobEvent? && (e.secret != "" ==> e.secret in secrets)
    ensures AddressesKnown(Next(w, hmac, e), hmac, secrets)
  {
    if e.k < |w.queue| {
      var j := Job(w.queue[e.k], e.secret, e.fault);
      if Erases(w.tables, hmac, j) {
        ErasingJobKeepsKnown(w, hmac, secrets, j);
      } else {
        OtherJobKeepsKnown(w, hmac, secrets, j);
      }
    }
  }

  /** An account that has not been erased takes an address. */
  lemma ChoiceKeepsKnown(users: map<Id, User>, chosen: map<Id, string>, purged: seq<(Id, Instant)>,
                         hmac: Hmac, secrets: set<string>, uid: Id, user: User)
    requires AllKnown(users, chosen, purged, hmac, secrets) && !Purged(purged, uid)
    requires user.anonymousId == if uid in users then users[uid].anonymousId else None
    ensures AllKnown(users[uid := user], chosen[uid := user.email], purged, hmac, secrets)
  {
    forall v | v in users && v != uid
      ensures AddressKnown(users, chosen, purged, v) && IdKnown(users[v], hmac, secrets, v)
    {
    }
  }

  /** Neither an address nor an id changes. */
  predicate SameNames(users: map<Id, User>, after: map<Id, User>) {
    && users.Keys == after.Keys
    && forall v | v in users :: after[v].email == users[v].email && after[v].anonymousId == users[v].anonymousId
  }

  lemma SameNamesKeepKnown(users: map<Id, User>, after: map<Id, User>, chosen: map<Id, string>,
                           purged: seq<(Id, Instant)>, hmac: Hmac, secrets: set<string>)
    requires AllKnown(users, chosen, purged, hmac, secrets) && SameNames(users, after)
    ensures AllKnown(after, chosen, purged, hmac, secrets)
  {
    forall v | v in users
      ensures AddressKnown(after, chosen, purged, v) && IdKnown(after[v], hmac, secrets, v)
    {
      assert AddressKnown(users, chosen, purged, v) && IdKnown(users[v], hmac, secrets, v);
    }
  }

  ghost predicate PurgedAreDeleted(w: World) {
    forall uid | Purged(w.purged, uid) :: uid in w.tables.users && w.tables.users[uid].deletedAt.Some?
  }

  lemma SoundPurges(w: World)
    requires Sound(w)
    ensures PurgedAreDeleted(w)
  {
    forall uid | Purged(w.purged, uid) ensures uid in w.tables.users && w.tables.users[uid].deletedAt.Some? {
      var i :| 0 <= i < |w.purged| && w.purged[i].0 == uid;
      assert DueBy(w.deletions, uid, w.purged[i].1);
    }
  }

  /** What a sign-up, a sign-in or a profile update does to the users: nothing to names, or one account takes
      the address it chooses. */
  predicate NamesAsChosen(users: map<Id, User>, after: map<Id, User>, choice: Option<(Id, string)>) {
    match choice
    case None => SameNames(users, after)
    case Some((uid, email)) =>
      && uid in after && after == users[uid := after[uid]] && after[uid].email == email
      && after[uid].anonymousId == if uid in users then users[uid].anonymousId else None
  }

  lemma RegisterNames(t: Tables, e: Event)
    requires e.RegisterEvent?
    ensures NamesAsChosen(t.users, Register(t, e.email, e.displayName, e.signUp, e.subId, e.commit).0.users,
                          Chooses(t, e))
    ensures Chooses(t, e).Some? ==> Chooses(t, e).value.0 !in t.users
  {
  }

  lemma OauthNames(t: Tables, e: Event)
    requires e.OauthEvent?
    ensures NamesAsChosen(t.users, Oauth(t, e.claims, e.subId, e.commit, e.auditWritten).0.users, Chooses(t, e))
    ensures Chooses(t, e).Some? ==> Chooses(t, e).value.0 !in t.users
  {
    OauthUsers(t, e.claims, e.subId, e.commit, e.auditWritten);
  }

  lemma ProfileNames(t: Tables, e: Event)
    requires e.ProfileEvent?
    ensures NamesAsChosen(t.users, UpdateProfile(t, e.bearer, e.patch, e.commit).0.users, Chooses(t, e))
    ensures Chooses(t, e).Some? ==>
              Chooses(t, e).value.0 in t.users && t.users[Chooses(t, e).value.0].deletedAt.None?
  {
  }

  predicate MayChoose(e: Event) {
    e.RegisterEvent? || e.OauthEvent? || e.ProfileEvent?
  }

  lemma ChoiceNames(w: World, hmac: Hmac, e: Event)
    requires MayChoose(e) && PurgedAreDeleted(w)
    ensures NamesAsChosen(w.tables.users, NextTables(w, hmac, e).users, Chooses(w.tables, e))
    ensures Chooses(w.tables, e).Some? ==> !Purged(w.purged, Chooses(w.tables, e).value.0)
  {
    if e.RegisterEvent? {
      RegisterNames(w.tables, e);
    } else if e.OauthEvent? {
      OauthNames(w.tables, e);
    } else {
      ProfileNames(w.tables, e);
    }
  }

  lemma ChoiceKeepsAddressesKnown(w: World, hmac: Hmac, secrets: set<string>, e: Event)
    requires AddressesKnown(w, hmac, secrets) && PurgedAreDeleted(w) && MayChoose(e)
    ensures AddressesKnown(Next(w, hmac, e), hmac, secrets)
  {
    var users, after, choice := w.tables.users, NextTables(w, hmac, e).users, Chooses(w.tables, e);
    ChoiceNames(w, hmac, e);
    if choice.Some? {
      ChoiceKeepsKnown(users, w.chosen, w.purged, hmac, secrets, choice.value.0, after[choice.value.0]);
    } else {
      SameNamesKeepKnown(users, after, w.chosen, w.purged, hmac, secrets);
    }
  }

  lemma DeletionKeepsNames(t: Tables, uid: Id, stamp: Instant)
    requires uid in t.users
    ensures SameNames(t.users, StampDeletion(t, uid, stamp).users)
  {
  }

  lemma ResetKeepsNames(t: Tables, uid: Id, stamp: Instant, commit: Fate, auditWritten: bool)
    ensures SameNames(t.users, Reset(t, RecoveredUser(uid), true, stamp, commit, auditWritten).0.users)
  {
  }

  lemma RequestKeepsNames(t: Tables, r: Request, stamp: Instant, commit: Fate, auditWritten: bool)
    ensures SameNames(t.users, CommittedRequest(t, r, stamp, commit, auditWritten).users)
  {
    match r
    case Deleting(uid, since) =>
      if uid in t.users {
        DeletionKeepsNames(t, uid, stamp);
      }
    case Resetting(uid, since) => ResetKeepsNames(t, uid, since, commit, auditWritten);
  }

  lemma StampKeepsAddressesKnown(w: World, hmac: Hmac, secrets: set<string>, e: Event)
    requires AddressesKnown(w, hmac, secrets) && e.CommitRequest?
    ensures AddressesKnown(Next(w, hmac, e), hmac, secrets)
  {
    if e.k < |w.requests| {
      RequestKeepsNames(w.tables, w.requests[e.k], StampOf(w.requests[e.k], e.delay, w.now), e.commit, e.auditWritten);
      SameNamesKeepKnown(w.tables.users, NextTables(w, hmac, e).users, w.chosen, w.purged, hmac, secrets);
    }
  }

  lemma StepKeepsAddressesKnown(w: World, hmac: Hmac, secrets: set<string>, e: Event)
    requires FullLengthDigests(hmac) && AddressesKnown(w, hmac, secrets) && PurgedAreDeleted(w)
    requires e.JobEvent? && e.secret != "" ==> e.secret in secrets
    ensures AddressesKnown(Next(w, hmac, e), hmac, secrets)
  {
    if e.JobEvent? {
      JobKeepsAddressesKnown(w, hmac, secrets, e);
    } else if MayChoose(e) {
      ChoiceKeepsAddressesKnown(w, hmac, secrets, e);
    } else if e.CommitRequest? {
      StampKeepsAddressesKnown(w, hmac, secrets, e);
    } else {
      assert NextTables(w, hmac, e) == w.tables;
    }
  }

  lemma {:induction false} RunKeepsAddressesKnown(w: World, hmac: Hmac, secrets: set<string>, events: seq<Event>)
    requires Sound(w) && FullLengthDigests(hmac) && AddressesKnown(w, hmac, secrets) && SecretsFrom(events, secrets)
    ensures AddressesKnown(Exec(w, hmac, events), hmac, secrets)
    decreases |events|
  {
    if events != [] {
      SoundPurges(w);
      StepKeepsAddressesKnown(w, hmac, secrets, events[0]);
      StepSound(w, hmac, events[0]);
      RunKeepsAddressesKnown(Next(w, hmac, events[0]), hmac, secrets, events[1..]);
    }
  }

  // ---- When a purge is blocked -------------------------------------------------------------

  /** `v` stands in the way of erasing a user with `id`: an erased account whose id starts alike, or an
      account, not erased, whose chosen address is that very placeholder. */
  predicate InTheWay(w: World, v: Id, id: string)
    requires v in w.tables.users && v in w.chosen
  {
    if Purged(w.purged, v)
    then w.tables.users[v].anonymousId.Some? && StartAlike(w.tables.users[v].anonymousId.value, id)
    else IsPlaceholder(w.chosen[v], id)
  }

  predicate Blocked(w: World, uid: Id, id: string)
    requires w.chosen.Keys == w.tables.users.Keys
  {
    exists v | v in w.tables.users && v != uid :: InTheWay(w, v, id)
  }

  lemma BlockedIffAddressTaken(w: World, hmac: Hmac, secrets: set<string>, uid: Id, id: string)
    requires AddressesKnown(w, hmac, secrets)
    ensures Blocked(w, uid, id) <==> !PlaceholderFree(w.tables.users, uid, id)
  {
    forall v | v in w.tables.users
      ensures InTheWay(w, v, id) <==> IsPlaceholder(w.tables.users[v].email, id)
    {
      assert AddressKnown(w.tables.users, w.chosen, w.purged, v);
      if Purged(w.purged, v) {
        SamePlaceholderIff(w.tables.users[v].anonymousId.value, id);
        SamePlaceholderIff(id, id);
        PlaceholderParts(w.tables.users[v].anonymousId.value);
        PlaceholderParts(id);
      }
    }
  }

  /** In every reachable state an uninterrupted purge of a user completes, unless somebody is in the way;
      and then it fails on the unique constraint and leaves the purge undone. */
  lemma PurgeBlockedIff(w: World, hmac: Hmac, events: seq<Event>, uid: Id, secret: string)
    requires Fresh(w) && FullLengthDigests(hmac) && secret != ""
    requires uid in Exec(w, hmac, events).tables.users
    ensures var end := Exec(w, hmac, events);
            && end.chosen.Keys == end.tables.users.Keys
            && Attempt(end.tables, uid, hmac, secret, NoFault).1 ==
                 if Blocked(end, uid, IdFor(end.tables, hmac, uid, secret)) then IntegrityError else Completed
  {
    var secrets := set i | 0 <= i < |events| && events[i].JobEvent? :: events[i].secret;
    RunKeepsAddressesKnown(w, hmac, secrets, events);
    var end := Exec(w, hmac, events);
    BlockedIffAddressTaken(end, hmac, secrets, uid, IdFor(end.tables, hmac, uid, secret));
    AttemptWithId(end.tables, hmac, uid, secret);
  }

  /** Storing the id does not change who holds an address. */
  lemma AttemptWithId(t: Tables, hmac: Hmac, uid: Id, secret: string)
    requires uid in t.users && secret != ""
    ensures Attempt(t, uid, hmac, secret, NoFault).1 ==
              if PlaceholderFree(t.users, uid, IdFor(t, hmac, uid, secret)) then Completed else IntegrityError
  {
    AttemptKeepsOutcome(t, hmac, Job(uid, secret, NoFault));
  }

  // ---- When it never is --------------------------------------------------------------------

  predicate PrefixesDiffer(hmac: Hmac, s: string, a: Id, r: string, b: Id) {
    !StartAlike(hmac(s, a), hmac(r, b))
  }

  /** Among these users and secrets, digests of different users differ within their first 16 characters. */
  predicate DistinctPrefixes(hmac: Hmac, secrets: set<string>, users: set<Id>) {
    forall s, r, a, b | s in secrets && r in secrets && a in users && b in users && a != b ::
      PrefixesDiffer(hmac, s, a, r, b)
  }

  ghost predicate ErasedForm(email: string) {
    exists id: string :: IsPlaceholder(email, id)
  }

  /** If the digests of the accounts there are differ early enough, and none of them has last chosen an address
      of the erased form, an uninterrupted purge of any of them completes. */
  lemma PurgeIsNeverBlocked(
      w: World, hmac: Hmac, events: seq<Event>, secrets: set<string>, uid: Id, secret: string)
    requires Fresh(w) && FullLengthDigests(hmac) && SecretsFrom(events, secrets) && secret in secrets && secret != ""
    requires var end := Exec(w, hmac, events);
             && uid in end.tables.users
             && DistinctPrefixes(hmac, secrets, end.tables.users.Keys)
             && forall v | v in end.chosen :: !ErasedForm(end.chosen[v])
    ensures Attempt(Exec(w, hmac, events).tables, uid, hmac, secret, NoFault).1 == Completed
  {
    var end := Exec(w, hmac, events);
    RunKeepsAddressesKnown(w, hmac, secrets, events);
    IdForIsDigest(end.tables, end.chosen, end.purged, hmac, secrets, uid, secret);
    PurgeBlockedIff(w, hmac, events, uid, secret);
    var id := IdFor(end.tables, hmac, uid, secret);
    var r :| r in secrets && id == hmac(r, uid);
    forall v | v in end.tables.users && v != uid ensures !InTheWay(end, v, id) {
      assert AddressKnown(end.tables.users, end.chosen, end.purged, v);
      if Purged(end.purged, v) {
        assert IdKnown(end.tables.users[v], hmac, secrets, v);
        var s :| s in secrets && end.tables.users[v].anonymousId.value == hmac(s, v);
        assert PrefixesDiffer(hmac, s, v, r, uid);
      }
    }
  }

  // ---- The hypotheses are met: a run in which two users are erased --------------------------

  /** Digests that tell user 0 from user 1 in their sixteenth character alone. */
  function TwoDigests(secret: string, uid: Id): string {
    seq(64, (i: nat) => if i == 15 && uid == 0 then '0' else '1')
  }

  /** A world with just these two accounts. */
  predicate TwoAccounts(w: World) {
    && w.tables.users.Keys == {0, 1} && w.chosen == map[0 := "a@x", 1 := "b@x"]
  }

  lemma ErasedFormStartsWithE(email: string)
    requires email != [] && email[0] != 'e'
    ensures !ErasedForm(email)
  {
    forall id: string ensures !IsPlaceholder(email, id) {
      assert ("erased_" + (if |id| > 16 then id[..16] else id) + "@erased.invalid")[0] == 'e';
    }
  }

  predicate Calm(w: World) {
    w.queue == [] && w.purged == [] && w.requests == []
  }

  /** Some run from the empty world, with the one secret "s", ends in `w`. */
  ghost predicate Reached(w: World) {
    exists events :: SecretsFrom(events, {"s"}) && Exec(EmptyWorld(), TwoDigests, events) == w
  }

  lemma NextReached(w: World, e: Event)
    requires Reached(w) && (e.JobEvent? ==> e.secret == "s")
    ensures Reached(Next(w, TwoDigests, e))
  {
    var events :| SecretsFrom(events, {"s"}) && Exec(EmptyWorld(), TwoDigests, events) == w;
    ExecAppends(EmptyWorld(), TwoDigests, events, e);
    assert SecretsFrom(events + [e], {"s"});
  }

  lemma TwoSignUps() returns (w: World)
    ensures Reached(w) && TwoAccounts(w) && Calm(w) && w.now == 0
    ensures w.tables.users[0].deletedAt.None? && w.tables.users[1].deletedAt.None?
  {
    w := EmptyWorld();
    assert Exec(EmptyWorld(), TwoDigests, []) == w && SecretsFrom([], {"s"});
    SignUpSucceeds(w, TwoDigests, 0, "a@x");
    var e1 := RegisterEvent("a@x", "A", SignedUp(0), 0, Answered);
    NextReached(w, e1);
    w := Next(w, TwoDigests, e1);
    SignUpSucceeds(w, TwoDigests, 1, "b@x");
    var e2 := RegisterEvent("b@x", "A", SignedUp(1), 1, Answered);
    NextReached(w, e2);
    w := Next(w, TwoDigests, e2);
  }

  lemma OneDeletion(w: World, uid: Id) returns (v: World)
    requires Reached(w) && TwoAccounts(w) && Calm(w) && uid <= 1 && w.tables.users[uid].deletedAt.None?
    ensures Reached(v) && TwoAccounts(v) && Calm(v) && v.now == w.now
    ensures v.tables.users[uid].deletedAt == Some(w.now)
    ensures v.tables.users[1 - uid] == w.tables.users[1 - uid]
  {
    UninterruptedDeletion(w, TwoDigests, uid, Answered);
    NextReached(w, OpenDeletion(uid));
    v := Next(w, TwoDigests, OpenDeletion(uid));
    NextReached(v, CommitRequest(0, 0, Answered, false));
    v := Next(v, TwoDigests, CommitRequest(0, 0, Answered, false));
  }

  lemma TwoDeletions(w: World) returns (v: World)
    requires Reached(w) && TwoAccounts(w) && Calm(w)
    requires w.tables.users[0].deletedAt.None? && w.tables.users[1].deletedAt.None?
    ensures Reached(v) && TwoAccounts(v) && Calm(v)
    ensures v.tables.users[0].deletedAt == v.tables.users[1].deletedAt == Some(v.now)
  {
    v := OneDeletion(w, 0);
    v := OneDeletion(v, 1);
  }

  /** 31 days pass. */
  lemma BothDue(w: World) returns (v: World)
    requires Reached(w) && TwoAccounts(w) && w.tables.users[0].deletedAt == w.tables.users[1].deletedAt == Some(w.now)
    ensures Reached(v) && TwoAccounts(v) && v.queue == w.queue && v.purged == w.purged
    ensures Enumerates(v.tables.users, v.now, [0, 1])
  {
    NextReached(w, Tick(31 * DAY));
    v := Next(w, TwoDigests, Tick(31 * DAY));
    assert v.tables == w.tables && v.now == w.now + 31 * DAY;
    assert Eligible(v.tables.users, 0, v.now) && Eligible(v.tables.users, 1, v.now);
  }

  lemma BothQueued(w: World) returns (v: World)
    requires Reached(w) && TwoAccounts(w) && w.queue == [] && Enumerates(w.tables.users, w.now, [0, 1])
    ensures Reached(v) && TwoAccounts(v) && v.queue == [0] + [1] && v.purged == w.purged
  {
    NextReached(w, ScanEvent([0, 1], None));
    v := Next(w, TwoDigests, ScanEvent([0, 1], None));
    assert [] + [0, 1] == [0] + [1];
  }

  lemma HypothesesHold(w: World)
    requires TwoAccounts(w)
    ensures FullLengthDigests(TwoDigests) && DistinctPrefixes(TwoDigests, {"s"}, w.tables.users.Keys)
    ensures forall v | v in w.chosen :: !ErasedForm(w.chosen[v])
  {
    ErasedFormStartsWithE("a@x");
    ErasedFormStartsWithE("b@x");
    assert TwoDigests("s", 0)[15] == '0' && TwoDigests("s", 1)[15] == '1';
    forall s, r, a, b | s in {"s"} && r in {"s"} && a in {0, 1} && b in {0, 1} && a != b
      ensures PrefixesDiffer(TwoDigests, s, a, r, b)
    {
      assert TwoDigests(s, a)[15] != TwoDigests(r, b)[15];
    }
  }

  /** The job at the head of the queue is delivered and erases its user. */
  lemma HeadIsErased(w: World, hmac: Hmac, uid: Id, rest: seq<Id>)
    requires TwoAccounts(w) && w.queue == [uid] + rest
    requires Attempt(w.tables, uid, hmac, "s", NoFault).1 == Completed
    ensures var end := Next(w, hmac, JobEvent(0, "s", NoFault, false));
            TwoAccounts(end) && end.queue == rest && end.purged == w.purged + [(uid, w.now)]
  {
    assert Erases(w.tables, hmac, Job(uid, "s", NoFault));
    ErasingStep(w.tables, hmac, Job(uid, "s", NoFault));
    assert w.queue[..0] + w.queue[1..] == rest;
  }

  lemma OneMoreErased(w: World, uid: Id, rest: seq<Id>) returns (v: World)
    requires Reached(w) && TwoAccounts(w) && uid <= 1 && w.queue == [uid] + rest
    ensures Reached(v) && TwoAccounts(v) && v.queue == rest && v.purged == w.purged + [(uid, w.now)]
  {
    HypothesesHold(w);
    ErasableWhenReached(w, uid);
    HeadIsErased(w, TwoDigests, uid, rest);
    NextReached(w, JobEvent(0, "s", NoFault, false));
    v := Next(w, TwoDigests, JobEvent(0, "s", NoFault, false));
  }

  lemma ErasableWhenReached(w: World, uid: Id)
    requires Reached(w) && uid in w.tables.users && FullLengthDigests(TwoDigests)
    requires DistinctPrefixes(TwoDigests, {"s"}, w.tables.users.Keys)
    requires forall v | v in w.chosen :: !ErasedForm(w.chosen[v])
    ensures Attempt(w.tables, uid, TwoDigests, "s", NoFault).1 == Completed
  {
    var events :| SecretsFrom(events, {"s"}) && Exec(EmptyWorld(), TwoDigests, events) == w;
    PurgeIsNeverBlocked(EmptyWorld(), TwoDigests, events, {"s"}, uid, "s");
  }

  lemma BothErased() returns (w: World)
    ensures Reached(w) && TwoAccounts(w) && Purged(w.purged, 0) && Purged(w.purged, 1)
  {
    w := TwoSignUps();
    w := TwoDeletions(w);
    w := BothDue(w);
    w := BothQueued(w);
    w := OneMoreErased(w, 0, [1]);
    assert [1] == [1] + [];
    w := OneMoreErased(w, 1, []);
    assert w.purged[0].0 == 0 && w.purged[1].0 == 1;
  }

  /** Two erased users whose digests differ early and whose sign-up addresses are not of the erased form. */
  ghost predicate BothErasedWithinHypotheses(end: World) {
    && end.tables.users.Keys == {0, 1}
    && DistinctPrefixes(TwoDigests, {"s"}, end.tables.users.Keys)
    && (forall v | v in end.chosen :: !ErasedForm(end.chosen[v]))
    && Purged(end.purged, 0) && Purged(end.purged, 1)
  }

  lemma ErasedWithinHypotheses() returns (end: World)
    ensures Reached(end) && FullLengthDigests(TwoDigests) && BothErasedWithinHypotheses(end)
  {
    end := BothErased();
    HypothesesHold(end);
  }

  /** A run that meets every hypothesis above and erases two different users. */
  lemma TwoUsersErased() returns (events: seq<Event>)
    ensures Fresh(EmptyWorld()) && FullLengthDigests(TwoDigests) && SecretsFrom(events, {"s"})
    ensures BothErasedWithinHypotheses(Exec(EmptyWorld(), TwoDigests, events))
  {
    var end := ErasedWithinHypotheses();
    events :| SecretsFrom(events, {"s"}) && Exec(EmptyWorld(), TwoDigests, events) == end;
  }

  // ---- A purge that is blocked ---------------------------------------------------------------

  /** The address user 0 will be given by its purge. */
  function Coveted(): string {
    "erased_" + "1111111111111110" + "@erased.invalid"
  }

  lemma CovetedIsPlaceholder(email: string)
    ensures IsPlaceholder(email, TwoDigests("s", 0)) <==> email == Coveted()
  {
    assert TwoDigests("s", 0)[..16] == "1111111111111110";
  }

  /** User 1 signs up with it. */
  lemma Squatted() returns (w: World)
    ensures Reached(w) && w.tables.users.Keys == {0, 1}
    ensures w.tables.users[0] == PasswordAccount("a@x", "A") && w.tables.users[1] == PasswordAccount(Coveted(), "A")
  {
    w := EmptyWorld();
    assert Exec(EmptyWorld(), TwoDigests, []) == w && SecretsFrom([], {"s"});
    SignUpSucceeds(w, TwoDigests, 0, "a@x");
    var e1 := RegisterEvent("a@x", "A", SignedUp(0), 0, Answered);
    NextReached(w, e1);
    w := Next(w, TwoDigests, e1);
    assert Coveted()[0] == 'e';
    SignUpSucceeds(w, TwoDigests, 1, Coveted());
    var e2 := RegisterEvent(Coveted(), "A", SignedUp(1), 1, Answered);
    NextReached(w, e2);
    w := Next(w, TwoDigests, e2);
  }

  lemma AddressChanges(t: Tables, e: Event)
    requires t.users.Keys == {0, 1} && t.users[0] == PasswordAccount("a@x", "A")
    requires t.users[1] == PasswordAccount(Coveted(), "A")
    requires e == ProfileEvent(IssuedAt(1, 0), Patch(None, Some("b@x")), Answered)
    ensures var users := UpdateProfile(t, e.bearer, e.patch, e.commit).0.users;
            users.Keys == {0, 1} && users[0] == t.users[0] && users[1].email == "b@x"
  {
    assert AuthenticateRequest(t, e.bearer) == Some(1);
    assert AddressFree(t.users, 1, "b@x");
  }

  /** With only user 1 beside user 0, and user 0 without an id, it is the address of user 1 that decides. */
  lemma OtherAddressDecides(t: Tables)
    requires t.users.Keys == {0, 1} && t.users[0] == PasswordAccount("a@x", "A")
    ensures Attempt(t, 0, TwoDigests, "s", NoFault).1 ==
              if t.users[1].email == Coveted() then IntegrityError else Completed
  {
    AttemptWithId(t, TwoDigests, 0, "s");
    CovetedIsPlaceholder(t.users[1].email);
  }

  lemma SquatterBlocks(w: World, e: Event)
    requires w.tables.users.Keys == {0, 1} && w.tables.users[0] == PasswordAccount("a@x", "A")
    requires w.tables.users[1] == PasswordAccount(Coveted(), "A")
    requires e == ProfileEvent(IssuedAt(1, 0), Patch(None, Some("b@x")), Answered)
    ensures Attempt(w.tables, 0, TwoDigests, "s", NoFault).1 == IntegrityError
    ensures Attempt(Next(w, TwoDigests, e).tables, 0, TwoDigests, "s", NoFault).1 == Completed
  {
    OtherAddressDecides(w.tables);
    AddressChanges(w.tables, e);
    assert Coveted()[0] == 'e';
    OtherAddressDecides(Next(w, TwoDigests, e).tables);
  }

  /** The purge of user 0 fails; and it completes once user 1 has changed its address. */
  lemma BlockedUntilAddressChanges() returns (events: seq<Event>, e: Event)
    ensures Fresh(EmptyWorld()) && FullLengthDigests(TwoDigests) && e.ProfileEvent?
    ensures var w := Exec(EmptyWorld(), TwoDigests, events);
            && Attempt(w.tables, 0, TwoDigests, "s", NoFault).1 == IntegrityError
            && Attempt(Next(w, TwoDigests, e).tables, 0, TwoDigests, "s", NoFault).1 == Completed
  {
    var w := Squatted();
    e := ProfileEvent(IssuedAt(1, 0), Patch(None, Some("b@x")), Answered);
    SquatterBlocks(w, e);
    events :| SecretsFrom(events, {"s"}) && Exec(EmptyWorld(), TwoDigests, events) == w;
  }
}
