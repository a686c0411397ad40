/** Training consent of backend/app/services/consent_service.py, and the resolution that
    backend/app/services/correction_service.py makes for itself. */
module Consents {
  import opened Prelude
  import opened Database

  predicate OfUser(c: Consent, uid: Id) {
    c.userId == Some(uid)
  }

  predicate OfTeam(c: Consent, team: Id) {
    c.teamId == Some(team)
  }

  /** The first row of a user, if any. */
  function UserConsent(rows: seq<Consent>, uid: Id): Option<bool> {
    if rows == [] then None
    else if OfUser(rows[0], uid) then Some(rows[0].optedIn)
    else UserConsent(rows[1..], uid)
  }

  function TeamConsent(rows: seq<Consent>, team: Id): Option<bool> {
    if rows == [] then None
    else if OfTeam(rows[0], team) then Some(rows[0].optedIn)
    else TeamConsent(rows[1..], team)
  }

  function OrFalse(o: Option<bool>): bool {
    o.Some? && o.value
  }

  datatype Source = FromUser | FromTeam

  /** What the account page shows: a team record wins over the personal one. */
  function Resolve(t: Tables, uid: Id): (bool, Source)
    requires uid in t.users
  {
    var team := t.users[uid].teamId;
    if team.Some? && TeamConsent(t.consents, team.value).Some?
    then (TeamConsent(t.consents, team.value).value, FromTeam)
    else (OrFalse(UserConsent(t.consents, uid)), FromUser)
  }

  /** What a correction records: the consent of the drawing's owner, a team or a user. */
  function ResolveForDrawing(t: Tables, drawing: Drawing): bool {
    match drawing.owner
    case TeamOwner(team) => OrFalse(TeamConsent(t.consents, team))
    case UserOwner(uid) => OrFalse(UserConsent(t.consents, uid))
  }

  // ---- What the resolutions mean on the rows ------------------------------------------------

  predicate BelongsTo(c: Consent, owner: Owner) {
    match owner
    case UserOwner(uid) => c.userId == Some(uid)
    case TeamOwner(team) => c.teamId == Some(team)
  }

  predicate NoRowOf(rows: seq<Consent>, owner: Owner) {
    forall i | 0 <= i < |rows| :: !BelongsTo(rows[i], owner)
  }

  /** Row `i` is the first of its owner, and says `optedIn`. */
  predicate SaysAt(rows: seq<Consent>, owner: Owner, i: nat, optedIn: bool) {
    i < |rows| && BelongsTo(rows[i], owner) && NoRowOf(rows[..i], owner) && rows[i].optedIn == optedIn
  }

  /** The first row of the owner says `optedIn`. */
  ghost predicate Says(rows: seq<Consent>, owner: Owner, optedIn: bool) {
    exists i: nat :: SaysAt(rows, owner, i, optedIn)
  }

  lemma {:induction false} UserConsentMeans(rows: seq<Consent>, uid: Id)
    ensures UserConsent(rows, uid) == None <==> NoRowOf(rows, UserOwner(uid))
    ensures forall b :: UserConsent(rows, uid) == Some(b) <==> Says(rows, UserOwner(uid), b)
  {
    if rows != [] {
      UserConsentMeans(rows[1..], uid);
      FirstRowDecides(rows, UserOwner(uid));
    }
  }

  lemma {:induction false} TeamConsentMeans(rows: seq<Consent>, team: Id)
    ensures TeamConsent(rows, team) == None <==> NoRowOf(rows, TeamOwner(team))
    ensures forall b :: TeamConsent(rows, team) == Some(b) <==> Says(rows, TeamOwner(team), b)
  {
    if rows != [] {
      TeamConsentMeans(rows[1..], team);
      FirstRowDecides(rows, TeamOwner(team));
    }
  }

  /** A row of the owner at the front decides; any other is passed over. */
  lemma FirstRowDecides(rows: seq<Consent>, owner: Owner)
    requires rows != []
    ensures NoRowOf(rows, owner) <==> !BelongsTo(rows[0], owner) && NoRowOf(rows[1..], owner)
    ensures forall b :: Says(rows, owner, b) <==>
              if BelongsTo(rows[0], owner) then rows[0].optedIn == b else Says(rows[1..], owner, b)
  {
    assert forall i | 0 < i < |rows| :: rows[i] == rows[1..][i - 1];
    forall b ensures Says(rows, owner, b) <==>
                if BelongsTo(rows[0], owner) then rows[0].optedIn == b else Says(rows[1..], owner, b)
    {
      SaysFromFront(rows, owner, b);
    }
  }

  lemma SaysFromFront(rows: seq<Consent>, owner: Owner, b: bool)
    requires rows != []
    ensures Says(rows, owner, b) <==>
              if BelongsTo(rows[0], owner) then rows[0].optedIn == b else Says(rows[1..], owner, b)
  {
    if Says(rows, owner, b) {
      var i: nat :| SaysAt(rows, owner, i, b);
      if i > 0 {
        assert rows[..i][0] == rows[0];
        assert rows[1..][..i - 1] == rows[..i][1..];
        assert SaysAt(rows[1..], owner, i - 1, b);
      }
    }
    if BelongsTo(rows[0], owner) {
      if rows[0].optedIn == b {
        assert SaysAt(rows, owner, 0, b);
      }
    } else if Says(rows[1..], owner, b) {
      var i: nat :| SaysAt(rows[1..], owner, i, b);
      assert rows[..i + 1] == [rows[0]] + rows[1..][..i];
      assert SaysAt(rows, owner, i + 1, b);
    }
  }

  /** A correction records true exactly when the first row of the drawing's owner, team or user, is opted in. */
  lemma RecordedIffOwnerSaysSo(t: Tables, drawing: Drawing)
    ensures ResolveForDrawing(t, drawing) <==> Says(t.consents, drawing.owner, true)
  {
    match drawing.owner
    case TeamOwner(team) => TeamConsentMeans(t.consents, team);
    case UserOwner(uid) => UserConsentMeans(t.consents, uid);
  }

  /** The account page shows the first row of the user's team if there is one, else whether the first row of
      the user is opted in. */
  lemma ShownIs(t: Tables, uid: Id, b: bool)
    requires uid in t.users
    ensures var team := t.users[uid].teamId;
            var fromTeam := team.Some? && !NoRowOf(t.consents, TeamOwner(team.value));
            && (Resolve(t, uid).1 == FromTeam <==> fromTeam)
            && (fromTeam ==> (Resolve(t, uid).0 == b <==> Says(t.consents, TeamOwner(team.value), b)))
            && (!fromTeam ==> (Resolve(t, uid).0 <==> Says(t.consents, UserOwner(uid), true)))
  {
    UserConsentMeans(t.consents, uid);
    if t.users[uid].teamId.Some? {
      TeamConsentMeans(t.consents, t.users[uid].teamId.value);
    }
  }

  /** On a drawing of a team: without a row of the team false is recorded, else what its first row says,
      whatever the rows of its members say. */
  lemma TeamDrawingRecords(t: Tables, team: Id, drawing: Drawing, row: Consent, rest: seq<Consent>)
    requires drawing.owner == TeamOwner(team)
    ensures t.consents == [] ==> !ResolveForDrawing(t, drawing)
    ensures t.consents == [row] + rest && row.teamId == Some(team) ==> ResolveForDrawing(t, drawing) == row.optedIn
  {
    RecordedIffOwnerSaysSo(t, drawing);
    if t.consents != [] {
      FirstRowDecides(t.consents, drawing.owner);
    }
  }

  /** The two resolutions differ on a personal drawing exactly when its owner is in a team whose
      record says otherwise than the owner's own, so the flag shown and the flag recorded can
      contradict each other. */
  lemma ResolutionsDifferIff(t: Tables, uid: Id, drawing: Drawing)
    requires uid in t.users && drawing.owner == UserOwner(uid)
    ensures ResolveForDrawing(t, drawing) != Resolve(t, uid).0 <==>
      && t.users[uid].teamId.Some?
      && Says(t.consents, TeamOwner(t.users[uid].teamId.value), !Says(t.consents, UserOwner(uid), true))
  {
    UserConsentMeans(t.consents, uid);
    if t.users[uid].teamId.Some? {
      TeamConsentMeans(t.consents, t.users[uid].teamId.value);
    }
  }

  lemma ResolutionsDiffer(t: Tables, uid: Id, team: Id, drawing: Drawing)
    requires uid in t.users && drawing.owner == UserOwner(uid) && t.users[uid].teamId == Some(team)
    requires t.consents == [Consent(None, Some(team), true)]
    ensures Resolve(t, uid) == (true, FromTeam) && !ResolveForDrawing(t, drawing)
  {
    assert t.consents[1..] == [] && !OfUser(t.consents[0], uid) && OfTeam(t.consents[0], team);
    assert UserConsent(t.consents[1..], uid) == None;
  }

  /** The personal record is updated if there is one, else inserted. */
  function SetConsentRows(rows: seq<Consent>, uid: Id, optedIn: bool): seq<Consent> {
    if rows == [] then [Consent(Some(uid), None, optedIn)]
    else if OfUser(rows[0], uid) then [rows[0].(optedIn := optedIn)] + rows[1..]
    else [rows[0]] + SetConsentRows(rows[1..], uid, optedIn)
  }

  function SetConsent(t: Tables, uid: Id, optedIn: bool, commit: Fate): Tables {
    if !commit.NotExecuted? && uid in t.users then t.(consents := SetConsentRows(t.consents, uid, optedIn)) else t
  }

  lemma {:induction false} SetConsentRowsSplit(rows: seq<Consent>, uid: Id, optedIn: bool, i: nat)
    requires i <= |rows| && forall k | 0 <= k < i :: !OfUser(rows[k], uid)
    ensures i == |rows| ==> SetConsentRows(rows, uid, optedIn) == rows + [Consent(Some(uid), None, optedIn)]
    ensures i < |rows| && OfUser(rows[i], uid) ==>
              SetConsentRows(rows, uid, optedIn) == rows[i := rows[i].(optedIn := optedIn)]
    decreases i
  {
    if i == 0 {
      assert rows != [] ==> [rows[0].(optedIn := optedIn)] + rows[1..] == rows[0 := rows[0].(optedIn := optedIn)];
    } else {
      SetConsentRowsSplit(rows[1..], uid, optedIn, i - 1);
      if i < |rows| {
        assert [rows[0]] + rows[1..][i - 1 := rows[i].(optedIn := optedIn)] == rows[i := rows[i].(optedIn := optedIn)];
      }
      var added := [Consent(Some(uid), None, optedIn)];
      assert [rows[0]] + (rows[1..] + added) == rows + added;
    }
  }

  /** `after` is `rows` with the user's first row set to `optedIn`, or with such a row added when there was none. */
  ghost predicate ConsentWritten(rows: seq<Consent>, after: seq<Consent>, uid: Id, optedIn: bool) {
    if NoRowOf(rows, UserOwner(uid)) then after == rows + [Consent(Some(uid), None, optedIn)]
    else exists i: nat, before ::
      SaysAt(rows, UserOwner(uid), i, before) && after == rows[i := rows[i].(optedIn := optedIn)]
  }

  lemma RowsAreWritten(rows: seq<Consent>, uid: Id, optedIn: bool, i: nat)
    requires i <= |rows| && NoRowOf(rows[..i], UserOwner(uid)) && (i < |rows| ==> OfUser(rows[i], uid))
    ensures ConsentWritten(rows, SetConsentRows(rows, uid, optedIn), uid, optedIn)
  {
    assert forall k | 0 <= k < i :: rows[..i][k] == rows[k];
    SetConsentRowsSplit(rows, uid, optedIn, i);
    if i < |rows| {
      assert SaysAt(rows, UserOwner(uid), i, rows[i].optedIn);
    } else {
      assert rows[..i] == rows;
    }
  }

  lemma FirstRowExists(rows: seq<Consent>, uid: Id) returns (i: nat)
    ensures i <= |rows| && NoRowOf(rows[..i], UserOwner(uid)) && (i < |rows| ==> OfUser(rows[i], uid))
  {
    i := 0;
    while i < |rows| && !OfUser(rows[i], uid)
      invariant i <= |rows| && NoRowOf(rows[..i], UserOwner(uid))
    {
      i := i + 1;
    }
  }

  /** An executed write for an existing user stores the flag it was given, in the user's own row, and changes
      nothing else; any other write changes nothing at all. */
  lemma ConsentIsWritten(t: Tables, uid: Id, optedIn: bool, commit: Fate)
    ensures var after := SetConsent(t, uid, optedIn, commit);
            if uid in t.users && !commit.NotExecuted? then
              && after == t.(consents := after.consents)
              && ConsentWritten(t.consents, after.consents, uid, optedIn)
            else after == t
  {
    var i := FirstRowExists(t.consents, uid);
    RowsAreWritten(t.consents, uid, optedIn, i);
  }

  method SetUserConsent(db: Session, uid: Id, optedIn: bool, commit: Fate)
    requires db.Valid()
    modifies db
    ensures db.Valid()
    ensures db.committed == SetConsent(old(db.committed), uid, optedIn, commit)
  {
    if uid !in db.pending.users {
      db.Rollback();
      return;
    }
    var rows := db.pending.consents;
    var i := 0;
    while i < |rows| && !OfUser(rows[i], uid)
      invariant 0 <= i <= |rows|
      invariant forall k | 0 <= k < i :: !OfUser(rows[k], uid)
    {
      i := i + 1;
    }
    SetConsentRowsSplit(rows, uid, optedIn, i);
    if i == |rows| {
      rows := rows + [Consent(Some(uid), None, optedIn)];
    } else {
      rows := rows[i := rows[i].(optedIn := optedIn)];
    }
    db.pending := db.pending.(consents := rows);
    var ok := db.Commit(commit);
  }

  /** How many personal records a user has. */
  function Records(rows: seq<Consent>, uid: Id): nat {
    if rows == [] then 0 else (if OfUser(rows[0], uid) then 1 else 0) + Records(rows[1..], uid)
  }

  /** A write leaves the user with a record (one, if there was at most one) holding the new value,
      and touches nobody else's. */
  lemma {:induction false} SetConsentKeepsOneRecord(rows: seq<Consent>, uid: Id, optedIn: bool, v: Id, team: Id)
    ensures var after := SetConsentRows(rows, uid, optedIn);
            && UserConsent(after, uid) == Some(optedIn)
            && Records(after, uid) == (if Records(rows, uid) == 0 then 1 else Records(rows, uid))
            && (v != uid ==> Records(after, v) == Records(rows, v) && UserConsent(after, v) == UserConsent(rows, v))
            && ((forall i | 0 <= i < |rows| :: rows[i].userId.Some? ==> rows[i].teamId.None?) ==>
                  TeamConsent(after, team) == TeamConsent(rows, team))
  {
    if rows != [] {
      SetConsentKeepsOneRecord(rows[1..], uid, optedIn, v, team);
      var rest := SetConsentRows(rows[1..], uid, optedIn);
      assert ([rows[0]] + rest)[1..] == rest;
      assert ([rows[0].(optedIn := optedIn)] + rows[1..])[1..] == rows[1..];
    } else {
      assert SetConsentRows(rows, uid, optedIn)[1..] == [];
    }
  }
}
