/** Registration and Google sign-in of backend/app/services/auth_service.py. */
module Accounts {
  import opened Prelude
  import opened Database

  const SUPABASE_MANAGED_SENTINEL := "<SUPABASE_MANAGED>"
  const FREE_TIER_ID := "free"
  const ACTIVE_BILLING_STATE := "Active"

  /** What the GoTrue signup call does; an answer may lack a user id that reads as a UUID. */
  datatype SignUp = SignedUp(userId: Id) | SignedUpWithoutId | LooksLikeDuplicate | SignUpFailed

  datatype RegisterOutcome =
    | Registered(userId: Id)
    | EmailAlreadyRegistered
    | SupabaseError
    | BadUserId
    | InsertFailed

  datatype VerificationEmail = VerificationEmail(userId: Id, email: string, displayName: string)

  /** The e-mail jobs handed to the broker. */
  class NotificationQueue {
    var jobs: seq<VerificationEmail>

    constructor ()
      ensures jobs == []
    {
      jobs := [];
    }

    /** Whether the broker took the job. */
    method Enqueue(job: VerificationEmail, brokerUp: bool) returns (ok: bool)
      modifies this
      ensures ok == brokerUp && jobs == if ok then old(jobs) + [job] else old(jobs)
    {
      ok := brokerUp;
      if ok {
        jobs := jobs + [job];
      }
    }
  }

  /** The `sub` claim of a token: absent or empty, not a UUID, or a user id. */
  datatype Subject = MissingSubject | MalformedSubject | SubjectId(id: Id)

  /** The claims of an OAuth token, or None when it does not verify. An absent address is "". */
  datatype OauthClaims = OauthClaims(email: string, sub: Subject, displayName: string)

  datatype OauthOutcome =
    | SessionFor(userId: Id)
    | InvalidCredentials
    | AccountLinkRequired(email: string)
    | BadSubject
    | OauthInsertFailed

  predicate ActiveWithEmail(users: map<Id, User>, uid: Id, email: string) {
    uid in users && users[uid].email == email && users[uid].deletedAt.None?
  }

  predicate EmailActive(users: map<Id, User>, email: string) {
    exists uid | uid in users :: ActiveWithEmail(users, uid, email)
  }

  function PasswordAccount(email: string, displayName: string): User {
    User(email, displayName, Some(SUPABASE_MANAGED_SENTINEL), false, None, None, None, None)
  }

  function OauthAccount(email: string, displayName: string): User {
    User(email, displayName, None, true, None, None, None, None)
  }

  /** The user row and its free subscription. */
  function InsertAccount(t: Tables, uid: Id, user: User, subId: Id): Tables {
    t.(users := t.users[uid := user],
       subscriptions := t.subscriptions[subId := Subscription(uid, FREE_TIER_ID, ACTIVE_BILLING_STATE)])
  }

  /** No primary key is taken, and no row, active or deleted, holds the address. */
  predicate Insertable(t: Tables, uid: Id, email: string, subId: Id) {
    && uid !in t.users && subId !in t.subscriptions
    && AddressFree(t.users, uid, email)
  }

  function AppendAudit(t: Tables, row: AuditRow, written: bool): Tables {
    if written && (row.userId.Some? ==> row.userId.value in t.users) then t.(audit := t.audit + [row]) else t
  }

  function Register(t: Tables, email: string, displayName: string, signUp: SignUp, subId: Id, commit: Fate)
    : (Tables, RegisterOutcome)
  {
    if EmailActive(t.users, email) then (t, EmailAlreadyRegistered)
    else match signUp
      case LooksLikeDuplicate => (t, EmailAlreadyRegistered)
      case SignUpFailed => (t, SupabaseError)
      case SignedUpWithoutId => (t, BadUserId)
      case SignedUp(uid) =>
        if !commit.NotExecuted? && Insertable(t, uid, email, subId)
        then (InsertAccount(t, uid, PasswordAccount(email, displayName), subId),
              if commit.Answered? then Registered(uid) else InsertFailed)
        else (t, InsertFailed)
  }

  /** The row a sign-in returns when the address is active. */
  ghost function ActiveUser(users: map<Id, User>, email: string): Id
    requires EmailActive(users, email)
    ensures ActiveWithEmail(users, ActiveUser(users, email), email)
  {
    var uid :| ActiveWithEmail(users, uid, email);
    uid
  }

  /** At most one active row answers to an address. */
  lemma ActiveUserIsUnique(users: map<Id, User>, email: string)
    requires UniqueEmails(users)
    ensures forall uid, v | ActiveWithEmail(users, uid, email) && v in users && users[v].email == email :: uid == v
  {
    forall uid, v | ActiveWithEmail(users, uid, email) && v in users && users[v].email == email
      ensures uid == v
    {
      assert uid != v ==> SameEmail(users, uid, v);
    }
  }

  ghost function Oauth(t: Tables, claims: Option<OauthClaims>, subId: Id, commit: Fate, auditWritten: bool)
    : (Tables, OauthOutcome)
  {
    if claims.None? || claims.value.email == "" || claims.value.sub.MissingSubject? then (t, InvalidCredentials)
    else var OauthClaims(email, sub, displayName) := claims.value;
      if EmailActive(t.users, email) then
        var uid := ActiveUser(t.users, email);
        (t, if t.users[uid].passwordHash.Some? then AccountLinkRequired(email) else SessionFor(uid))
      else if sub.MalformedSubject? then (t, BadSubject)
      else if !commit.NotExecuted? && Insertable(t, sub.id, email, subId) then
        var t1 := InsertAccount(t, sub.id, OauthAccount(email, displayName), subId);
        if commit.Answered?
        then (AppendAudit(t1, AuditRow(Some(sub.id), "login_success"), auditWritten), SessionFor(sub.id))
        else (t1, OauthInsertFailed)
      else (t, OauthInsertFailed)
  }

  /** The unique constraint decides: it counts deleted rows, which the check for an active
      address does not see. */
  lemma InsertCommitsIffAddressFree(t: Tables, uid: Id, user: User, subId: Id)
    requires Constraints(t) && uid !in t.users && subId !in t.subscriptions
    ensures Constraints(InsertAccount(t, uid, user, subId)) <==> AddressFree(t.users, uid, user.email)
  {
    UniqueIffAddressFree(t.users, uid, user);
  }

  method WriteAudit(db: Session, actionType: string, userId: Option<Id>, written: bool)
    requires db.Valid()
    modifies db
    ensures db.Valid()
    ensures db.committed == AppendAudit(old(db.committed), AuditRow(userId, actionType), written)
  {
    db.pending := db.pending.(audit := db.pending.audit + [AuditRow(userId, actionType)]);
    assert db.pending.audit[|db.pending.audit| - 1] == AuditRow(userId, actionType);
    var ok := db.Commit(if written then Answered else NotExecuted);
  }

  /** Adds the user and the subscription and commits both or neither. */
  method Insert(db: Session, uid: Id, user: User, subId: Id, commit: Fate) returns (ok: bool)
    requires db.Valid()
    modifies db
    ensures db.Valid()
    ensures var done := !commit.NotExecuted? && Insertable(old(db.committed), uid, user.email, subId);
            && ok == (done && commit.Answered?)
            && db.committed == if done then InsertAccount(old(db.committed), uid, user, subId) else old(db.committed)
  {
    if uid in db.pending.users || subId in db.pending.subscriptions {
      db.Rollback();
      return false;
    }
    InsertCommitsIffAddressFree(db.committed, uid, user, subId);
    db.pending := db.pending.(users := db.pending.users[uid := user]);
    db.pending := db.pending.(subscriptions :=
      db.pending.subscriptions[subId := Subscription(uid, FREE_TIER_ID, ACTIVE_BILLING_STATE)]);
    ok := db.Commit(commit);
  }

  /** The verification e-mail follows the commit and only the commit, and its failure, to get a link or to
      reach the broker, does not fail the registration. */
  method RegisterUser(db: Session, queue: NotificationQueue, email: string, displayName: string, signUp: SignUp,
                      subId: Id, commit: Fate, linkGenerated: bool, brokerUp: bool)
    returns (o: RegisterOutcome)
    requires db.Valid() && db as object != queue as object
    modifies db, queue
    ensures db.Valid()
    ensures (db.committed, o) == Register(old(db.committed), email, displayName, signUp, subId, commit)
    ensures queue.jobs == old(queue.jobs) +
      if o.Registered? && linkGenerated && brokerUp then [VerificationEmail(o.userId, email, displayName)] else []
  {
    if uid :| uid in db.pending.users && ActiveWithEmail(db.pending.users, uid, email) {
      return EmailAlreadyRegistered;
    }
    match signUp
    case LooksLikeDuplicate => return EmailAlreadyRegistered;
    case SignUpFailed => return SupabaseError;
    case SignedUpWithoutId => return BadUserId;
    case SignedUp(userId) =>
      var ok := Insert(db, userId, PasswordAccount(email, displayName), subId, commit);
      if !ok {
        return InsertFailed;
      }
      if linkGenerated {
        var sent := queue.Enqueue(VerificationEmail(userId, email, displayName), brokerUp);
      }
      return Registered(userId);
  }

  method OauthGoogle(db: Session, claims: Option<OauthClaims>, subId: Id, commit: Fate, auditWritten: bool)
    returns (o: OauthOutcome)
    requires db.Valid()
    modifies db
    ensures db.Valid()
    ensures (db.committed, o) == Oauth(old(db.committed), claims, subId, commit, auditWritten)
  {
    if claims.None? || claims.value.email == "" || claims.value.sub.MissingSubject? {
      return InvalidCredentials;
    }
    var OauthClaims(email, sub, displayName) := claims.value;
    if existing :| existing in db.pending.users && ActiveWithEmail(db.pending.users, existing, email) {
      ActiveUserIsUnique(db.committed.users, email);
      assert existing == ActiveUser(db.committed.users, email);
      if db.pending.users[existing].passwordHash.Some? {
        return AccountLinkRequired(email);
      }
      return SessionFor(existing);
    }
    if sub.MalformedSubject? {
      return BadSubject;
    }
    var ok := Insert(db, sub.id, OauthAccount(email, displayName), subId, commit);
    if !ok {
      return OauthInsertFailed;
    }
    WriteAudit(db, "login_success", Some(sub.id), auditWritten);
    return SessionFor(sub.id);
  }

  /** With fresh keys and a working database, a signup gives an account exactly when no row holds the
      address; a soft-deleted row that has not been purged yet still blocks it, and then nothing
      is stored. */
  lemma RegistrationSucceedsIffAddressUnheld(t: Tables, email: string, displayName: string, uid: Id, subId: Id)
    requires Constraints(t) && uid !in t.users && subId !in t.subscriptions
    ensures var (t1, o) := Register(t, email, displayName, SignedUp(uid), subId, Answered);
            && (o == Registered(uid) <==> forall v | v in t.users :: t.users[v].email != email)
            && (o != Registered(uid) ==> t1 == t)
            && (o == Registered(uid) ==>
                  && t1.users == t.users[uid :=
                       User(email, displayName, Some("<SUPABASE_MANAGED>"), false, None, None, None, None)]
                  && t1.subscriptions == t.subscriptions[subId := Subscription(uid, "free", "Active")])
            && ((exists v | v in t.users :: t.users[v].email == email && t.users[v].deletedAt.Some?) ==>
                  o == InsertFailed)
  {
    ActiveUserIsUnique(t.users, email);
    if EmailActive(t.users, email) {
      var v :| ActiveWithEmail(t.users, v, email);
      assert t.users[v].email == email;
    }
  }

  // ---- What the two sign-ups promise --------------------------------------------------------

  /** Some row with this address is not deleted. */
  predicate Active(t: Tables, email: string) {
    exists v | v in t.users :: t.users[v].email == email && t.users[v].deletedAt == None
  }

  /** The database takes a new user and subscription: neither key and not the address is there. */
  predicate Takes(t: Tables, uid: Id, email: string, subId: Id) {
    uid !in t.users && subId !in t.subscriptions && forall v | v in t.users :: t.users[v].email != email
  }

  /** `t1` is `t` with this user, and with a free, active subscription of the user. */
  predicate Joined(t: Tables, t1: Tables, uid: Id, user: User, subId: Id) {
    t1 == t.(users := t.users[uid := user],
             subscriptions := t.subscriptions[subId := Subscription(uid, "free", "Active")])
  }

  /** When each outcome of a registration occurs. */
  predicate KeepsRegisterPolicy(t: Tables, email: string, signUp: SignUp, subId: Id, commit: Fate, o: RegisterOutcome) {
    && (o.EmailAlreadyRegistered? <==> Active(t, email) || signUp == LooksLikeDuplicate)
    && (o.SupabaseError? <==> !Active(t, email) && signUp == SignUpFailed)
    && (o.BadUserId? <==> !Active(t, email) && signUp == SignedUpWithoutId)
    && (o.Registered? <==>
          signUp.SignedUp? && !Active(t, email) && Takes(t, signUp.userId, email, subId) && commit == Answered)
    && (o.Registered? ==> o.userId == signUp.userId)
  }

  /** A registration adds its user or changes nothing. */
  lemma RegisterKeepsPolicy(t: Tables, email: string, displayName: string, signUp: SignUp, subId: Id, commit: Fate)
    ensures var (t1, o) := Register(t, email, displayName, signUp, subId, commit);
            && KeepsRegisterPolicy(t, email, signUp, subId, commit, o)
            && if signUp.SignedUp? && !Active(t, email) && Takes(t, signUp.userId, email, subId)
                  && commit != NotExecuted
               then Joined(t, t1, signUp.userId,
                           User(email, displayName, Some("<SUPABASE_MANAGED>"), false, None, None, None, None), subId)
               else t1 == t
  {
    ActiveMeans(t, email);
  }

  lemma ActiveMeans(t: Tables, email: string)
    ensures EmailActive(t.users, email) <==> Active(t, email)
  {
    if EmailActive(t.users, email) {
      var v :| v in t.users && ActiveWithEmail(t.users, v, email);
      assert t.users[v].email == email;
    }
    if Active(t, email) {
      var v :| v in t.users && t.users[v].email == email && t.users[v].deletedAt == None;
      assert ActiveWithEmail(t.users, v, email);
    }
  }

  /** The token verifies and names an address and a subject. */
  predicate Identifies(claims: Option<OauthClaims>) {
    claims.Some? && claims.value.email != "" && claims.value.sub != MissingSubject
  }

  /** A token for an address that is not active yet, and that the database takes. */
  predicate SignsUp(t: Tables, claims: Option<OauthClaims>, subId: Id) {
    && Identifies(claims) && !Active(t, claims.value.email) && claims.value.sub.SubjectId?
    && Takes(t, claims.value.sub.id, claims.value.email, subId)
  }

  /** When each outcome of a Google sign-in occurs. */
  predicate KeepsOauthPolicy(t: Tables, claims: Option<OauthClaims>, subId: Id, commit: Fate, o: OauthOutcome) {
    && (o.InvalidCredentials? <==> !Identifies(claims))
    && (o.BadSubject? <==> Identifies(claims) && !Active(t, claims.value.email) && claims.value.sub == MalformedSubject)
    && (o.AccountLinkRequired? ==> Identifies(claims) && o.email == claims.value.email && Active(t, o.email))
    && (o.OauthInsertFailed? <==>
          && Identifies(claims) && !Active(t, claims.value.email) && claims.value.sub.SubjectId?
          && !(SignsUp(t, claims, subId) && commit == Answered))
    && (o.SessionFor? && !Active(t, claims.value.email) ==>
          SignsUp(t, claims, subId) && commit == Answered && o.userId == claims.value.sub.id)
  }

  /** A sign-in with a new address adds a verified account without a password flag, and after an answered
      commit its audit entry; with a known address it changes nothing. */
  lemma OauthKeepsPolicy(t: Tables, claims: Option<OauthClaims>, subId: Id, commit: Fate, auditWritten: bool)
    ensures var (t1, o) := Oauth(t, claims, subId, commit, auditWritten);
            && KeepsOauthPolicy(t, claims, subId, commit, o)
            && if SignsUp(t, claims, subId) && commit != NotExecuted then
                 var user := User(claims.value.email, claims.value.displayName, None, true, None, None, None, None);
                 && Joined(t, t1.(audit := t.audit), claims.value.sub.id, user, subId)
                 && t1.audit == t.audit + if commit == Answered && auditWritten
                                          then [AuditRow(Some(claims.value.sub.id), "login_success")] else []
               else t1 == t
  {
    if Identifies(claims) {
      ActiveMeans(t, claims.value.email);
    }
    assert t.audit + [] == t.audit;
  }

  // ---- One subscription per user ---------------------------------------------------

  predicate OwnsSubscription(t: Tables, uid: Id, s: Id) {
    s in t.subscriptions && t.subscriptions[s].userId == uid
  }

  /** Every user has exactly one subscription and no subscription lacks its user. */
  ghost predicate OneSubscriptionEach(t: Tables) {
    && (forall uid | uid in t.users :: exists s :: OwnsSubscription(t, uid, s))
    && (forall uid, s, r | OwnsSubscription(t, uid, s) && OwnsSubscription(t, uid, r) :: s == r)
    && (forall uid, s | OwnsSubscription(t, uid, s) :: uid in t.users)
  }

  lemma InsertKeepsOneSubscriptionEach(t: Tables, uid: Id, user: User, subId: Id)
    requires OneSubscriptionEach(t) && uid !in t.users && subId !in t.subscriptions
    ensures OneSubscriptionEach(InsertAccount(t, uid, user, subId))
  {
    var t1 := InsertAccount(t, uid, user, subId);
    forall v | v in t1.users ensures exists s :: OwnsSubscription(t1, v, s) {
      if v == uid {
        assert OwnsSubscription(t1, uid, subId);
      } else {
        var s :| OwnsSubscription(t, v, s);
        assert OwnsSubscription(t1, v, s);
      }
    }
    forall v, s | OwnsSubscription(t1, v, s)
      ensures if s == subId then v == uid else OwnsSubscription(t, v, s) && v != uid
    {
      if s != subId {
        assert OwnsSubscription(t, v, s);
      }
    }
  }

  /** A Google sign-in changes no existing row, and never opens a session for one that carries the
      password flag: for such an address it asks for the accounts to be linked. */
  lemma OauthNeverTouchesPasswordAccounts(
      t: Tables, claims: Option<OauthClaims>, subId: Id, commit: Fate, auditWritten: bool)
    requires Constraints(t)
    ensures var (t1, o) := Oauth(t, claims, subId, commit, auditWritten);
            && (forall v | v in t.users :: v in t1.users && t1.users[v] == t.users[v])
            && (o.SessionFor? ==>
                  && o.userId in t1.users && t1.users[o.userId].passwordHash.None?
                  && t1.users[o.userId].deletedAt.None? && t1.users[o.userId].email == claims.value.email)
            && (claims.Some? && claims.value.email != "" && !claims.value.sub.MissingSubject? ==>
                  forall v | ActiveWithEmail(t.users, v, claims.value.email) ::
                    && t1 == t
                    && o == if t.users[v].passwordHash.Some? then AccountLinkRequired(claims.value.email)
                            else SessionFor(v))
  {
    if claims.Some? && EmailActive(t.users, claims.value.email) {
      ActiveUserIsUnique(t.users, claims.value.email);
      assert ActiveWithEmail(t.users, ActiveUser(t.users, claims.value.email), claims.value.email);
    }
  }
}
