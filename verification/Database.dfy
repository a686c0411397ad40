/** The relational tables the services write, and the session through which they write them.
    Only the columns that some modelled operation reads or writes are present. */
module Database {
  import opened Prelude

  /** UUID keys. Only equality matters, except for symbols, which are listed in key order. */
  type Id = nat

  /** A UTC instant in microseconds, the resolution of a Python datetime. */
  type Instant = int

  datatype User = User(
    email: string,
    displayName: string,
    passwordHash: Option<string>,
    emailVerified: bool,
    teamId: Option<Id>,
    deletedAt: Option<Instant>,
    anonymousId: Option<string>,
    tokenInvalidatedAt: Option<Instant>)

  datatype Subscription = Subscription(userId: Id, tierId: string, billingState: string)

  datatype AuditRow = AuditRow(userId: Option<Id>, actionType: string)

  datatype Consent = Consent(userId: Option<Id>, teamId: Option<Id>, optedIn: bool)

  datatype ProcessingState =
    Pending | Queued | Scanning | Processing | Complete | UnderReview | Failed | ScanFailed

  datatype Owner = UserOwner(userId: Id) | TeamOwner(teamId: Id)

  datatype Drawing = Drawing(owner: Owner, state: ProcessingState)

  /** `detected_symbol_confidence_range`. */
  type Confidence = c: real | 0.0 <= c <= 1.0 witness 0.0

  datatype BoundingBox = BoundingBox(x: real, y: real, w: real, h: real)

  datatype Symbol = Symbol(
    drawingId: Id,
    entityClass: string,
    subtype: Option<string>,
    tagLabel: Option<string>,
    confidence: Confidence,
    bbox: BoundingBox,
    manual: bool,
    rejected: bool,
    pageNumber: int)

  datatype CorrectionType = Reclassify | Reject | Restore | ManualAdd

  datatype Correction = Correction(
    id: Id,
    createdAt: Instant,
    symbolId: Id,
    userId: Id,
    kind: CorrectionType,
    newClass: Option<string>,
    trainingConsent: bool)

  datatype Tables = Tables(
    users: map<Id, User>,
    subscriptions: map<Id, Subscription>,
    audit: seq<AuditRow>,
    consents: seq<Consent>,
    drawings: map<Id, Drawing>,
    symbols: map<Id, Symbol>,
    corrections: seq<Correction>,
    entityClasses: set<string>)

  predicate SameEmail(users: map<Id, User>, a: Id, b: Id)
    requires a in users && b in users
  {
    users[a].email == users[b].email
  }

  /** `user_email_unique`. */
  predicate UniqueEmails(users: map<Id, User>) {
    forall a, b {:trigger SameEmail(users, a, b)} | a in users && b in users && a != b :: !SameEmail(users, a, b)
  }

  /** Rewriting users without touching an address keeps addresses unique. */
  lemma SameEmailsStayUnique(users: map<Id, User>, after: map<Id, User>)
    requires UniqueEmails(users) && users.Keys == after.Keys
    requires forall v | v in users :: after[v].email == users[v].email
    ensures UniqueEmails(after)
  {
    forall a, b | a in after && b in after && a != b ensures !SameEmail(after, a, b) {
      assert !SameEmail(users, a, b);
    }
  }

  /** Giving one user, old or new, an address keeps addresses unique exactly when it is free. */
  lemma UniqueIffAddressFree(users: map<Id, User>, uid: Id, user: User)
    requires UniqueEmails(users)
    ensures UniqueEmails(users[uid := user]) <==> AddressFree(users, uid, user.email)
  {
    var after := users[uid := user];
    if AddressFree(users, uid, user.email) {
      forall a, b | a in after && b in after && a != b ensures !SameEmail(after, a, b) {
        assert a in users && b in users ==> !SameEmail(users, a, b);
      }
    } else {
      var v :| v in users && v != uid && users[v].email == user.email;
      assert SameEmail(after, v, uid);
    }
  }

  /** The foreign keys of the tables above. */
  predicate ForeignKeys(t: Tables) {
    && (forall s | s in t.subscriptions :: t.subscriptions[s].userId in t.users)
    && (forall i | 0 <= i < |t.audit| && t.audit[i].userId.Some? :: t.audit[i].userId.value in t.users)
    && (forall s | s in t.symbols ::
          t.symbols[s].drawingId in t.drawings && t.symbols[s].entityClass in t.entityClasses)
    && (forall i | 0 <= i < |t.corrections| ::
          && t.corrections[i].symbolId in t.symbols
          && t.corrections[i].userId in t.users
          && (t.corrections[i].newClass.Some? ==> t.corrections[i].newClass.value in t.entityClasses))
  }

  predicate SameRow(rows: seq<Correction>, i: int, j: int)
    requires 0 <= i < |rows| && 0 <= j < |rows|
  {
    rows[i].id == rows[j].id
  }

  /** The primary key of the correction log. */
  predicate DistinctRows(rows: seq<Correction>) {
    forall i, j {:trigger SameRow(rows, i, j)} | 0 <= i < j < |rows| :: !SameRow(rows, i, j)
  }

  predicate Constraints(t: Tables) {
    UniqueEmails(t.users) && ForeignKeys(t) && DistinctRows(t.corrections)
  }

  /** No row other than `uid` holds the address `email`. */
  predicate AddressFree(users: map<Id, User>, uid: Id, email: string) {
    forall v | v in users && v != uid :: users[v].email != email
  }

  /** One SQLAlchemy session: `pending` is what the current transaction sees,
      `committed` what survives if it goes no further. */
  class Session {
    var committed: Tables
    var pending: Tables

    /** The database is consistent and the session has no uncommitted change. */
    predicate Valid()
      reads this
    {
      Constraints(committed) && pending == committed
    }

    constructor (t: Tables)
      requires Constraints(t)
      ensures Valid() && committed == t
    {
      committed, pending := t, t;
    }

    /** Commits when the server executes the command and no constraint is violated; otherwise the
        transaction is rolled back as a whole. A commit whose answer is lost has happened, and raises. */
    method Commit(fate: Fate) returns (ok: bool)
      modifies this
      ensures var done := !fate.NotExecuted? && Constraints(old(pending));
              ok == (done && fate.Answered?) && committed == if done then old(pending) else old(committed)
      ensures pending == committed
    {
      if !fate.NotExecuted? && Constraints(pending) {
        committed := pending;
        ok := fate.Answered?;
      } else {
        pending := committed;
        ok := false;
      }
    }

    /** A rollback, or the session being closed with work pending. */
    method Rollback()
      modifies this`pending
      ensures pending == committed
    {
      pending := committed;
    }
  }
}
