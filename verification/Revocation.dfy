/** Everything that ends a session: account deletion (backend/app/services/gdpr_init_service.py),
    password reset (backend/app/services/password_reset.py) and the check made on every request
    (backend/app/auth/middleware.py). */
module Revocation {
  import opened Prelude
  import opened Database
  import opened Accounts

  const SECOND: Instant := 1_000_000
  const DAY: Instant := 86_400 * SECOND
  const PRODUCTION_COUNTDOWN_SECONDS := 30 * 24 * 3600

  // ---- Account deletion -----------------------------------------------------------

  /** The side effects attempted after the commit; the failure of one does not stop the next. */
  datatype Effect = AdminSignOut(userId: Id) | InvalidateFlags(userId: Id) | EnqueueErasure(userId: Id, countdown: nat)

  function DeleteAccount(t: Tables, uid: Id, now: Instant, commit: Fate): Tables {
    if !commit.NotExecuted? && uid in t.users && t.users[uid].deletedAt.None?
    then t.(users := t.users[uid := t.users[uid].(deletedAt := Some(now), tokenInvalidatedAt := Some(now))])
    else t
  }

  /** Both timestamps are the moment of the deletion, or neither is touched; only the first deletion of
      an existing account counts, and no other row changes. */
  lemma DeletionIsAtomic(t: Tables, uid: Id, now: Instant, commit: Fate)
    ensures var t1 := DeleteAccount(t, uid, now, commit);
            if !commit.NotExecuted? && uid in t.users && t.users[uid].deletedAt.None? then
              && t1.users.Keys == t.users.Keys
              && t1.users[uid].deletedAt == t1.users[uid].tokenInvalidatedAt == Some(now)
              && t1.users[uid].email == t.users[uid].email
              && (forall v | v in t.users && v != uid :: t1.users[v] == t.users[v])
              && DeleteAccount(t1, uid, now + 1, Answered) == t1
            else t1 == t
  {
  }

  lemma TimestampsKeepConstraints(t: Tables, uid: Id, user: User)
    requires Constraints(t) && uid in t.users && user.email == t.users[uid].email
    ensures Constraints(t.(users := t.users[uid := user]))
  {
    SameEmailsStayUnique(t.users, t.users[uid := user]);
  }

  method InitiateAccountDeletion(db: Session, uid: Id, now: Instant, production: bool, commit: Fate)
    returns (effects: seq<Effect>)
    requires db.Valid()
    modifies db
    ensures db.Valid()
    ensures db.committed == DeleteAccount(old(db.committed), uid, now, commit)
    ensures effects ==
      if commit.Answered? && uid in old(db.committed.users) && old(db.committed.users)[uid].deletedAt.None?
      then [AdminSignOut(uid), InvalidateFlags(uid),
            EnqueueErasure(uid, if production then 2_592_000 else 0)]
      else []
  {
    effects := [];
    if uid !in db.pending.users || db.pending.users[uid].deletedAt.Some? {
      return;
    }
    var user := db.pending.users[uid].(deletedAt := Some(now)).(tokenInvalidatedAt := Some(now));
    db.pending := db.pending.(users := db.pending.users[uid := user]);
    TimestampsKeepConstraints(db.committed, uid, user);
    var ok := db.Commit(commit);
    if !ok {
      return;
    }
    effects := effects + [AdminSignOut(uid)];
    effects := effects + [InvalidateFlags(uid)];
    effects := effects + [EnqueueErasure(uid, if production then PRODUCTION_COUNTDOWN_SECONDS else 0)];
  }

  // ---- Password reset -------------------------------------------------------------

  /** What consuming the recovery token at GoTrue yields. */
  datatype Recovery = TokenRejected | NoUserId | RecoveredUser(userId: Id)

  datatype ResetOutcome = Confirmed | InvalidResetToken | SignOutFailed | CommitFailed

  function ResetTables(t: Tables, recovery: Recovery, signedOut: bool, now: Instant, commit: Fate): Tables {
    if recovery.RecoveredUser? && signedOut && !commit.NotExecuted? && recovery.userId in t.users
    then t.(users := t.users[recovery.userId := t.users[recovery.userId].(tokenInvalidatedAt := Some(now))])
    else t
  }

  function Reset(t: Tables, recovery: Recovery, signedOut: bool, now: Instant, commit: Fate, auditWritten: bool)
    : (Tables, ResetOutcome)
  {
    if !recovery.RecoveredUser? then (t, InvalidResetToken)
    else if !signedOut then (t, SignOutFailed)
    else if recovery.userId in t.users && !commit.Answered? then
      (ResetTables(t, recovery, signedOut, now, commit), CommitFailed)
    else (AppendAudit(ResetTables(t, recovery, signedOut, now, commit),
                      AuditRow(Some(recovery.userId), "password_reset_confirmed"), auditWritten),
          Confirmed)
  }

  /** Revokes all sessions first; only if that succeeds is the invalidation time read and stored. */
  method ConfirmReset(
      db: Session, recovery: Recovery, signedOut: bool, now: Instant, commit: Fate, auditWritten: bool)
    returns (o: ResetOutcome)
    requires db.Valid()
    modifies db
    ensures db.Valid()
    ensures (db.committed, o) == Reset(old(db.committed), recovery, signedOut, now, commit, auditWritten)
  {
    if !recovery.RecoveredUser? {
      return InvalidResetToken;
    }
    var uid := recovery.userId;
    if !signedOut {
      return SignOutFailed;
    }
    if uid in db.pending.users {
      var user := db.pending.users[uid].(tokenInvalidatedAt := Some(now));
      db.pending := db.pending.(users := db.pending.users[uid := user]);
      TimestampsKeepConstraints(db.committed, uid, user);
      var ok := db.Commit(commit);
      if !ok {
        return CommitFailed;
      }
    }
    WriteAudit(db, "password_reset_confirmed", Some(uid), auditWritten);
    return Confirmed;
  }

  // ---- The per-request check ------------------------------------------------------

  /** The bearer token of a request. `iat` is the NumericDate of section 4.1.6 of RFC 7519,
      after `int()`: whole seconds since the epoch. */
  datatype Bearer = NoBearer | Unverifiable | Verified(sub: Subject, iat: Option<int>)

  /** The identity a request is given, or None for a 401. */
  function AuthenticateRequest(t: Tables, bearer: Bearer): Option<Id> {
    if !bearer.Verified? || !bearer.sub.SubjectId? || bearer.iat.None? then None
    else if bearer.sub.id !in t.users then None
    else
      var row := t.users[bearer.sub.id];
      if row.deletedAt.Some? then None
      else if row.tokenInvalidatedAt.Some? && bearer.iat.value * SECOND < row.tokenInvalidatedAt.value then None
      else Some(bearer.sub.id)
  }

  /** The claim of a token really issued at instant `issued`. */
  function IssuedAt(uid: Id, issued: nat): Bearer {
    Verified(SubjectId(uid), Some(issued / SECOND))
  }

  /** A token is accepted again only from the first whole second at or after the invalidation:
      truncation never saves an old token, but it can cost a new one up to a second. */
  lemma AcceptedIffIssuedInALaterSecond(t: Tables, uid: Id, issued: nat, invalidated: nat)
    requires uid in t.users && t.users[uid].deletedAt.None?
    requires t.users[uid].tokenInvalidatedAt == Some(invalidated)
    ensures AuthenticateRequest(t, IssuedAt(uid, issued)) == Some(uid)
            <==> issued / SECOND >= (invalidated + SECOND - 1) / SECOND
    ensures issued < invalidated ==> AuthenticateRequest(t, IssuedAt(uid, issued)) == None
    ensures issued >= invalidated + SECOND ==> AuthenticateRequest(t, IssuedAt(uid, issued)) == Some(uid)
  {
  }

  /** A token issued after the reset, in the same second, is turned away. */
  lemma FreshTokenRejectedInSameSecond(t: Tables, uid: Id)
    requires uid in t.users && t.users[uid].deletedAt.None?
    requires t.users[uid].tokenInvalidatedAt == Some(10 * SECOND + 1)
    ensures AuthenticateRequest(t, IssuedAt(uid, 10 * SECOND + 500_000)) == None
  {
  }

  /** When each outcome of a reset occurs. */
  predicate KeepsResetPolicy(t: Tables, recovery: Recovery, signedOut: bool, commit: Fate, o: ResetOutcome) {
    && (o.InvalidResetToken? <==> recovery == TokenRejected || recovery == NoUserId)
    && (o.SignOutFailed? <==> recovery.RecoveredUser? && !signedOut)
    && (o.CommitFailed? <==> recovery.RecoveredUser? && signedOut && recovery.userId in t.users && commit != Answered)
  }

  /** A reset stores its time for the one account and nothing else, and only with the sessions revoked; without
      that neither a time nor an audit entry is written. The entry follows a confirmed reset alone, and cannot
      be stored for an account that does not exist. */
  lemma ResetKeepsPolicy(
      t: Tables, recovery: Recovery, signedOut: bool, now: Instant, commit: Fate, auditWritten: bool)
    ensures var (t1, o) := Reset(t, recovery, signedOut, now, commit, auditWritten);
            && KeepsResetPolicy(t, recovery, signedOut, commit, o)
            && (!recovery.RecoveredUser? || !signedOut ==> t1 == t)
            && (recovery.RecoveredUser? && signedOut ==>
                  var uid := recovery.userId;
                  && t1 == t.(users := t1.users, audit := t1.audit)
                  && t1.users == (if uid in t.users && commit != NotExecuted
                                  then t.users[uid := t.users[uid].(tokenInvalidatedAt := Some(now))] else t.users)
                  && t1.audit == t.audit + if o == Confirmed && auditWritten && uid in t.users
                                           then [AuditRow(Some(uid), "password_reset_confirmed")] else [])
  {
    assert t.audit + [] == t.audit;
  }

  /** A request is let in exactly with a verified token that names an account there is, not deleted, and was
      issued, to the whole second, no earlier than the account's invalidation. */
  lemma AuthenticatedIff(t: Tables, bearer: Bearer, uid: Id)
    ensures AuthenticateRequest(t, bearer) == Some(uid) <==>
      && bearer.Verified? && bearer.sub == SubjectId(uid) && bearer.iat.Some?
      && uid in t.users && t.users[uid].deletedAt == None
      && (t.users[uid].tokenInvalidatedAt == None
          || bearer.iat.value * 1_000_000 >= t.users[uid].tokenInvalidatedAt.value)
  {
  }
}
