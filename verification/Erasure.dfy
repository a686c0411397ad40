/** The two-transaction purge of backend/app/workers/gdpr/anonymizer.py. */
module Erasure {
  import opened Prelude
  import opened Database

  const ERASED_EMAIL_DOMAIN := "erased.invalid"
  const ERASED_DISPLAY_NAME := "Deleted User"
  const ERASED_EMAIL_ID_LEN := 16

  /** HMAC-SHA256 under a server secret, as a hex digest. Nothing is assumed of it but
      what a lemma names. */
  type Hmac = (string, Id) -> string

  /** Every digest has the 64 characters of a SHA-256 hex string. */
  ghost predicate FullLengthDigests(hmac: Hmac) {
    forall s: string, u: Id :: |hmac(s, u)| == 64
  }

  function Slice16(id: string): string {
    if |id| <= ERASED_EMAIL_ID_LEN then id else id[..ERASED_EMAIL_ID_LEN]
  }

  function ErasedEmail(id: string): string {
    "erased_" + Slice16(id) + "@" + ERASED_EMAIL_DOMAIN
  }

  /** The truth value Python gives `user.anonymous_id`: NULL and "" are both absent. */
  predicate HasAnonymousId(u: User) {
    u.anonymousId.Some? && u.anonymousId.value != ""
  }

  /** Where the worker process dies, if it does. */
  datatype Fault = NoFault | BeforeFirstCommit | AfterFirstCommit | BeforeSecondCommit | AfterSecondCommit

  datatype Outcome = Completed | Crashed | UserNotFound | SecretMissing | IntegrityError

  // ---- What the two transactions do to the tables --------------------------------

  function StoreAnonymousId(t: Tables, uid: Id, id: string): Tables
    requires uid in t.users
  {
    t.(users := t.users[uid := t.users[uid].(anonymousId := Some(id))])
  }

  function ErasedRow(u: User, id: string): User {
    u.(email := ErasedEmail(id), displayName := ERASED_DISPLAY_NAME, passwordHash := None)
  }

  /** UPDATE audit_log SET user_id = NULL WHERE user_id IN uids. */
  function NullAudit(rows: seq<AuditRow>, uids: set<Id>): (r: seq<AuditRow>)
    ensures |r| == |rows|
  {
    seq(|rows|, i requires 0 <= i < |rows| =>
      if rows[i].userId.Some? && rows[i].userId.value in uids then rows[i].(userId := None) else rows[i])
  }

  predicate OwnedByAny(c: Consent, uids: set<Id>) {
    c.userId.Some? && c.userId.value in uids
  }

  /** DELETE FROM ml_training_consent WHERE user_id IN uids. */
  function DropConsents(rows: seq<Consent>, uids: set<Id>): seq<Consent> {
    if rows == [] then []
    else if OwnedByAny(rows[0], uids) then DropConsents(rows[1..], uids)
    else [rows[0]] + DropConsents(rows[1..], uids)
  }

  function PurgeRows(t: Tables, uid: Id, id: string): Tables
    requires uid in t.users
  {
    t.(users := t.users[uid := ErasedRow(t.users[uid], id)],
       audit := NullAudit(t.audit, {uid}),
       consents := DropConsents(t.consents, {uid}))
  }

  /** Transaction 1 as a function of the committed tables: a stored id is returned as it is,
      a missing one is derived and committed. */
  function FirstTransaction(t: Tables, uid: Id, hmac: Hmac, secret: string, fault: Fault)
    : (Tables, Result<string, Outcome>)
  {
    if uid !in t.users then (t, Err(UserNotFound))
    else if HasAnonymousId(t.users[uid]) then
      (t, if fault.BeforeFirstCommit? then Err(Crashed) else Ok(t.users[uid].anonymousId.value))
    else if secret == "" then (t, Err(SecretMissing))
    else if fault.BeforeFirstCommit? then (t, Err(Crashed))
    else (StoreAnonymousId(t, uid, hmac(secret, uid)), Ok(hmac(secret, uid)))
  }

  function SecondTransaction(t: Tables, uid: Id, id: string, fault: Fault): (Tables, Outcome)
    requires uid in t.users
  {
    if fault.AfterFirstCommit? || fault.BeforeSecondCommit? then (t, Crashed)
    else if !AddressFree(t.users, uid, ErasedEmail(id)) then (t, IntegrityError)
    else (PurgeRows(t, uid, id), if fault.AfterSecondCommit? then Crashed else Completed)
  }

  /** One attempt of the job. */
  function Attempt(t: Tables, uid: Id, hmac: Hmac, secret: string, fault: Fault): (Tables, Outcome) {
    var (t1, id) := FirstTransaction(t, uid, hmac, secret, fault);
    if id.Err? then (t1, id.error) else SecondTransaction(t1, uid, id.value, fault)
  }

  lemma StoreKeepsConstraints(t: Tables, uid: Id, id: string)
    requires Constraints(t) && uid in t.users
    ensures Constraints(StoreAnonymousId(t, uid, id))
  {
    SameEmailsStayUnique(t.users, StoreAnonymousId(t, uid, id).users);
  }

  /** The unique constraint is the only one the purge can break, and it breaks exactly when
      another row already holds the erased address. */
  lemma PurgeCommitsIffAddressFree(t: Tables, uid: Id, id: string)
    requires Constraints(t) && uid in t.users
    ensures Constraints(PurgeRows(t, uid, id)) <==> AddressFree(t.users, uid, ErasedEmail(id))
  {
    UniqueIffAddressFree(t.users, uid, ErasedRow(t.users[uid], id));
  }

  // ---- The worker --------------------------------------------------------------

  /** Persists the anonymous id, in a transaction of its own, before anything is erased. */
  method EnsureAnonymousId(db: Session, uid: Id, hmac: Hmac, secret: string, fault: Fault)
    returns (r: Result<string, Outcome>)
    requires db.Valid()
    modifies db
    ensures db.Valid()
    ensures (db.committed, r) == FirstTransaction(old(db.committed), uid, hmac, secret, fault)
  {
    if uid !in db.pending.users {
      return Err(UserNotFound);
    }
    var user := db.pending.users[uid];
    if HasAnonymousId(user) {
      return if fault.BeforeFirstCommit? then Err(Crashed) else Ok(user.anonymousId.value);
    }
    if secret == "" {
      return Err(SecretMissing);
    }
    var anonymousId := hmac(secret, uid);
    db.pending := db.pending.(users := db.pending.users[uid := user.(anonymousId := Some(anonymousId))]);
    if fault.BeforeFirstCommit? {
      db.Rollback();
      return Err(Crashed);
    }
    StoreKeepsConstraints(db.committed, uid, anonymousId);
    var ok := db.Commit(Answered);
    return Ok(anonymousId);
  }

  /** Erases the user row, then the audit rows, then the consent rows, and commits them together. */
  method EraseRows(db: Session, uid: Id, anonymousId: string, fault: Fault) returns (o: Outcome)
    requires db.Valid() && uid in db.committed.users
    modifies db
    ensures db.Valid()
    ensures (db.committed, o) == SecondTransaction(old(db.committed), uid, anonymousId, fault)
  {
    if fault.AfterFirstCommit? {
      return Crashed;
    }
    var user := db.pending.users[uid];
    user := user.(email := ErasedEmail(anonymousId));
    user := user.(displayName := ERASED_DISPLAY_NAME);
    user := user.(passwordHash := None);
    db.pending := db.pending.(users := db.pending.users[uid := user]);
    db.pending := db.pending.(audit := NullAudit(db.pending.audit, {uid}));
    db.pending := db.pending.(consents := DropConsents(db.pending.consents, {uid}));
    if fault.BeforeSecondCommit? {
      db.Rollback();
      return Crashed;
    }
    assert db.pending == PurgeRows(db.committed, uid, anonymousId);
    PurgeCommitsIffAddressFree(db.committed, uid, anonymousId);
    var ok := db.Commit(Answered);
    if !ok {
      return IntegrityError;
    }
    return if fault.AfterSecondCommit? then Crashed else Completed;
  }

  /** The whole job. */
  method PurgeUserPii(db: Session, uid: Id, hmac: Hmac, secret: string, fault: Fault) returns (o: Outcome)
    requires db.Valid()
    modifies db
    ensures db.Valid()
    ensures (db.committed, o) == Attempt(old(db.committed), uid, hmac, secret, fault)
  {
    var id := EnsureAnonymousId(db, uid, hmac, secret, fault);
    if id.Err? {
      return id.error;
    }
    o := EraseRows(db, uid, id.value, fault);
  }
}
