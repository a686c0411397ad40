/** Whole runs of corrections, manual additions, consent changes and purges, with failures anywhere:
    what the correction log then says about the symbols, the consent and the drawings. */
module CorrectionRuns {
  import opened Prelude
  import opened Database
  import opened Erasure
  import opened ErasureRuns
  import opened Consents
  import opened Corrections

  datatype Event =
    | CorrectEvent(
        symbolId: Option<Id>, request: CorrectionRequest, userId: Id, allowed: bool, key: RowKey, commit: Fate)
    | ManualEvent(
        drawingId: Option<Id>, manual: ManualRequest, userId: Id, allowed: bool, newId: Id, key: RowKey, commit: Fate)
    | ConsentEvent(uid: Id, optedIn: bool, commit: Fate)
    | PurgeEvent(job: Job)

  function Next(t: Tables, hmac: Hmac, e: Event): Tables {
    match e
    case CorrectEvent(symbolId, request, userId, allowed, key, commit) =>
      Correct(t, symbolId, request, userId, allowed, key, commit).0
    case ManualEvent(drawingId, manual, userId, allowed, newId, key, commit) =>
      AddManual(t, drawingId, manual, userId, allowed, newId, key, commit).0
    case ConsentEvent(uid, optedIn, commit) => SetConsent(t, uid, optedIn, commit)
    case PurgeEvent(job) => Step(t, hmac, job).0
  }

  function Exec(t: Tables, hmac: Hmac, events: seq<Event>): Tables {
    if events == [] then t else Next(Exec(t, hmac, events[..|events| - 1]), hmac, events[|events| - 1])
  }

  /** The event is a successful write, of this row. */
  predicate Writes(t: Tables, hmac: Hmac, e: Event) {
    |Next(t, hmac, e).corrections| > |t.corrections|
  }

  /** `t1` is `t` after one write that adds `row`: the symbol changes as the row says, and the consent in
      the row is that of the drawing's owner at this moment. */
  ghost predicate IsWrite(t: Tables, t1: Tables, row: Correction) {
    && row.symbolId in t1.symbols
    && var symbol := t1.symbols[row.symbolId];
    && t1 == Write(t, row.symbolId, symbol, row)
    && symbol.drawingId in t.drawings
    && (row.trainingConsent <==> Says(t.consents, t.drawings[symbol.drawingId].owner, true))
    && (row.kind.Reclassify? <==> row.newClass.Some?)
    && (row.symbolId in t.symbols ==>
          && symbol.drawingId == t.symbols[row.symbolId].drawingId
          && Show(symbol) == ApplyRow(Show(t.symbols[row.symbolId]), row))
    && (row.symbolId !in t.symbols ==> row.kind.ManualAdd?)
  }

  /** The only two ways an event changes the tables of this module. */
  lemma WriteOrNot(t: Tables, hmac: Hmac, e: Event)
    ensures !Writes(t, hmac, e) ==>
      var t1 := Next(t, hmac, e);
      t1.symbols == t.symbols && t1.corrections == t.corrections && t1.drawings == t.drawings
    ensures Writes(t, hmac, e) ==>
      && |Next(t, hmac, e).corrections| == |t.corrections| + 1
      && var row := Next(t, hmac, e).corrections[|t.corrections|];
      && IsWrite(t, Next(t, hmac, e), row)
      && (row.symbolId !in t.symbols ==>
            && e.ManualEvent? && row.symbolId == e.newId
            && Show(Next(t, hmac, e).symbols[row.symbolId]) == Shown(e.manual.entityClass, false))
  {
    match e
    case CorrectEvent(symbolId, request, userId, allowed, key, commit) =>
      if symbolId.Some? && symbolId.value in t.symbols && t.symbols[symbolId.value].drawingId in t.drawings {
        RecordedIffOwnerSaysSo(t, t.drawings[t.symbols[symbolId.value].drawingId]);
      }
    case ManualEvent(drawingId, manual, userId, allowed, newId, key, commit) =>
      if drawingId.Some? && drawingId.value in t.drawings {
        RecordedIffOwnerSaysSo(t, t.drawings[drawingId.value]);
      }
    case ConsentEvent(uid, optedIn, commit) =>
    case PurgeEvent(job) =>
      if Erases(t, hmac, job) {
        ErasingStep(t, hmac, job);
      } else {
        NothingErasedBeforeIdStored(t, hmac, job);
      }
  }

  // ---- The log determines the symbols -------------------------------------------------

  /** The part of a symbol that corrections change. */
  datatype Shown = Shown(entityClass: string, rejected: bool)

  function Show(s: Symbol): Shown {
    Shown(s.entityClass, s.rejected)
  }

  function ApplyRow(v: Shown, row: Correction): Shown {
    match row.kind
    case Reclassify => if row.newClass.Some? then v.(entityClass := row.newClass.value) else v
    case Reject => v.(rejected := true)
    case Restore => v.(rejected := false)
    case ManualAdd => v
  }

  /** The log replayed for one symbol. */
  function Replay(v: Shown, rows: seq<Correction>, id: Id): Shown {
    if rows == [] then v
    else
      var w := Replay(v, rows[..|rows| - 1], id);
      if rows[|rows| - 1].symbolId == id then ApplyRow(w, rows[|rows| - 1]) else w
  }

  lemma ReplayOne(v: Shown, rows: seq<Correction>, row: Correction, id: Id)
    ensures Replay(v, rows + [row], id) ==
              if row.symbolId == id then ApplyRow(Replay(v, rows, id), row) else Replay(v, rows, id)
  {
    assert (rows + [row])[..|rows|] == rows;
  }

  lemma {:induction false} ReplayForeign(v: Shown, rows: seq<Correction>, id: Id)
    requires forall i | 0 <= i < |rows| :: rows[i].symbolId != id
    ensures Replay(v, rows, id) == v
  {
    if rows != [] {
      ReplayForeign(v, rows[..|rows| - 1], id);
    }
  }

  /** How each symbol looked when the run first saw it: at the start, or when it was added. */
  function Births(t: Tables, hmac: Hmac, events: seq<Event>): map<Id, Shown> {
    var end := Exec(t, hmac, events);
    if events == [] then map id | id in t.symbols :: Show(t.symbols[id])
    else
      var births := Births(t, hmac, events[..|events| - 1]);
      map id | id in end.symbols :: if id in births then births[id] else Show(end.symbols[id])
  }

  /** Log rows refer to symbols that exist. */
  predicate LogRefersToSymbols(t: Tables) {
    forall i | 0 <= i < |t.corrections| :: t.corrections[i].symbolId in t.symbols
  }

  /** The symbols of `t` are what the log rows written since the first `n` make of `births`. */
  predicate Explained(t: Tables, n: nat, births: map<Id, Shown>) {
    && n <= |t.corrections| && births.Keys == t.symbols.Keys
    && forall id | id in t.symbols :: Show(t.symbols[id]) == Replay(births[id], t.corrections[n..], id)
  }

  /** In every commit state, replaying the rows of a symbol over how it first looked gives its class
      and its rejected flag; the log only ever grows, and no symbol is removed. */
  lemma {:induction false} LogIsComplete(t: Tables, hmac: Hmac, events: seq<Event>)
    requires LogRefersToSymbols(t)
    ensures var end := Exec(t, hmac, events); var births := Births(t, hmac, events);
      && Explained(end, |t.corrections|, births)
      && LogRefersToSymbols(end) && t.corrections <= end.corrections
      && (forall id | id in t.symbols :: id in births && births[id] == Show(t.symbols[id]))
    decreases |events|
  {
    if events != [] {
      var before, e := events[..|events| - 1], events[|events| - 1];
      LogIsComplete(t, hmac, before);
      var mid := Exec(t, hmac, before);
      WriteOrNot(mid, hmac, e);
      if Writes(mid, hmac, e) {
        var end := Next(mid, hmac, e);
        WriteKeepsExplained(mid, end, end.corrections[|mid.corrections|], |t.corrections|,
                            Births(t, hmac, before), Births(t, hmac, events));
      }
    }
  }

  lemma WriteKeepsExplained(mid: Tables, end: Tables, row: Correction, n: nat,
                            earlier: map<Id, Shown>, births: map<Id, Shown>)
    requires IsWrite(mid, end, row) && LogRefersToSymbols(mid) && Explained(mid, n, earlier)
    requires births == map id | id in end.symbols :: if id in earlier then earlier[id] else Show(end.symbols[id])
    ensures Explained(end, n, births) && LogRefersToSymbols(end)
  {
    WriteExtendsLog(mid, end, row, mid.corrections[n..], earlier, births);
    assert end.corrections[n..] == mid.corrections[n..] + [row];
  }

  lemma WriteExtendsLog(mid: Tables, end: Tables, row: Correction, rows: seq<Correction>,
                        earlier: map<Id, Shown>, births: map<Id, Shown>)
    requires IsWrite(mid, end, row) && earlier.Keys == mid.symbols.Keys
    requires forall i | 0 <= i < |rows| :: rows[i].symbolId in mid.symbols
    requires births == map id | id in end.symbols :: if id in earlier then earlier[id] else Show(end.symbols[id])
    requires forall id | id in mid.symbols :: Show(mid.symbols[id]) == Replay(earlier[id], rows, id)
    ensures forall id | id in end.symbols :: Show(end.symbols[id]) == Replay(births[id], rows + [row], id)
  {
    forall id | id in end.symbols ensures Show(end.symbols[id]) == Replay(births[id], rows + [row], id) {
      ReplayOne(births[id], rows, row, id);
      if id !in mid.symbols {
        ReplayForeign(births[id], rows, id);
        assert id == row.symbolId && ApplyRow(births[id], row) == births[id];
      }
    }
  }

  /** The closed form of a replay: the last reclassification gives the class, the last
      reject or restore gives the flag. */
  lemma {:induction false} ReplayIsLastWins(v: Shown, rows: seq<Correction>, id: Id, i: nat, j: nat)
    requires forall k | 0 <= k < |rows| :: rows[k].kind.Reclassify? <==> rows[k].newClass.Some?
    requires i <= |rows| && forall k | i <= k < |rows| :: !(rows[k].symbolId == id && rows[k].kind.Reclassify?)
    requires i > 0 ==> rows[i - 1].symbolId == id && rows[i - 1].kind.Reclassify?
    requires j <= |rows|
    requires forall k | j <= k < |rows| :: !(rows[k].symbolId == id && (rows[k].kind.Reject? || rows[k].kind.Restore?))
    requires j > 0 ==> rows[j - 1].symbolId == id && (rows[j - 1].kind.Reject? || rows[j - 1].kind.Restore?)
    ensures Replay(v, rows, id).entityClass == if i == 0 then v.entityClass else rows[i - 1].newClass.value
    ensures Replay(v, rows, id).rejected == if j == 0 then v.rejected else rows[j - 1].kind.Reject?
  {
    LastClass(v, rows, id, i);
    LastVerdict(v, rows, id, j);
  }

  lemma {:induction false} LastClass(v: Shown, rows: seq<Correction>, id: Id, i: nat)
    requires forall k | 0 <= k < |rows| :: rows[k].kind.Reclassify? <==> rows[k].newClass.Some?
    requires i <= |rows| && forall k | i <= k < |rows| :: !(rows[k].symbolId == id && rows[k].kind.Reclassify?)
    requires i > 0 ==> rows[i - 1].symbolId == id && rows[i - 1].kind.Reclassify?
    ensures Replay(v, rows, id).entityClass == if i == 0 then v.entityClass else rows[i - 1].newClass.value
  {
    if i < |rows| {
      LastClass(v, rows[..|rows| - 1], id, i);
    }
  }

  lemma {:induction false} LastVerdict(v: Shown, rows: seq<Correction>, id: Id, j: nat)
    requires j <= |rows|
    requires forall k | j <= k < |rows| :: !(rows[k].symbolId == id && (rows[k].kind.Reject? || rows[k].kind.Restore?))
    requires j > 0 ==> rows[j - 1].symbolId == id && (rows[j - 1].kind.Reject? || rows[j - 1].kind.Restore?)
    ensures Replay(v, rows, id).rejected == if j == 0 then v.rejected else rows[j - 1].kind.Reject?
  {
    if j < |rows| {
      LastVerdict(v, rows[..|rows| - 1], id, j);
    }
  }

  // ---- The consent snapshot -----------------------------------------------------------

  lemma {:induction false} LogOnlyGrows(t: Tables, hmac: Hmac, events: seq<Event>, k: nat)
    requires k <= |events|
    ensures Exec(t, hmac, events[..k]).corrections <= Exec(t, hmac, events).corrections
    decreases |events|
  {
    if k == |events| {
      assert events[..k] == events;
    } else {
      var before := events[..|events| - 1];
      LogOnlyGrows(t, hmac, before, k);
      assert before[..k] == events[..k];
      WriteOrNot(Exec(t, hmac, before), hmac, events[|events| - 1]);
    }
  }

  /** `row` is the `i`-th of the log, was written between these two states, and holds the consent that the
      owner of its drawing had in the first. */
  ghost predicate TakenBetween(at: Tables, after: Tables, row: Correction, i: nat) {
    && |at.corrections| == i && after.corrections == at.corrections + [row]
    && row.symbolId in after.symbols && after.symbols[row.symbolId].drawingId in at.drawings
    && (row.trainingConsent <==> Says(at.consents, at.drawings[after.symbols[row.symbolId].drawingId].owner, true))
  }

  lemma WriteTakes(t: Tables, hmac: Hmac, e: Event)
    requires Writes(t, hmac, e)
    ensures |Next(t, hmac, e).corrections| == |t.corrections| + 1
    ensures TakenBetween(t, Next(t, hmac, e), Next(t, hmac, e).corrections[|t.corrections|], |t.corrections|)
  {
    WriteOrNot(t, hmac, e);
  }

  lemma LogGrowsByStep(t: Tables, hmac: Hmac, e: Event)
    ensures t.corrections <= Next(t, hmac, e).corrections
  {
    WriteOrNot(t, hmac, e);
  }

  /** Which event of the run wrote the row. */
  lemma {:induction false} WrittenAt(t: Tables, hmac: Hmac, events: seq<Event>, i: nat) returns (k: nat)
    requires |t.corrections| <= i < |Exec(t, hmac, events).corrections|
    ensures k < |events|
    ensures var at := Exec(t, hmac, events[..k]);
            && |at.corrections| == i && Writes(at, hmac, events[k])
            && Next(at, hmac, events[k]).corrections <= Exec(t, hmac, events).corrections
    decreases |events|
  {
    var before, e := events[..|events| - 1], events[|events| - 1];
    var mid := Exec(t, hmac, before);
    LogGrowsByStep(mid, hmac, e);
    if i < |mid.corrections| {
      k := WrittenAt(t, hmac, before, i);
      assert before[..k] == events[..k];
    } else {
      k := |events| - 1;
      WriteTakes(mid, hmac, e);
    }
  }

  lemma ExecOneMore(t: Tables, hmac: Hmac, events: seq<Event>, k: nat)
    requires k < |events|
    ensures Exec(t, hmac, events[..k + 1]) == Next(Exec(t, hmac, events[..k]), hmac, events[k])
  {
    var first := events[..k + 1];
    assert first[..|first| - 1] == events[..k] && first[|first| - 1] == events[k];
  }

  /** Every row written during the run holds, at the end, the consent its drawing's owner had when it
      was committed, whatever consent writes and purges came later. */
  lemma ConsentIsSnapshot(t: Tables, hmac: Hmac, events: seq<Event>, i: nat) returns (k: nat)
    requires |t.corrections| <= i < |Exec(t, hmac, events).corrections|
    ensures k < |events|
    ensures TakenBetween(Exec(t, hmac, events[..k]), Exec(t, hmac, events[..k + 1]),
                         Exec(t, hmac, events).corrections[i], i)
  {
    k := WrittenAt(t, hmac, events, i);
    var at := Exec(t, hmac, events[..k]);
    WriteTakes(at, hmac, events[k]);
    ExecOneMore(t, hmac, events, k);
    assert Next(at, hmac, events[k]).corrections[i] == Exec(t, hmac, events).corrections[i];
  }

  lemma {:induction false} DroppingConsentsAddsNone(rows: seq<Consent>, uids: set<Id>, uid: Id)
    ensures Records(DropConsents(rows, uids), uid) <= Records(rows, uid)
  {
    if rows != [] {
      DroppingConsentsAddsNone(rows[1..], uids, uid);
      assert ([rows[0]] + DropConsents(rows[1..], uids))[1..] == DropConsents(rows[1..], uids);
    }
  }

  /** Serial consent writes keep at most one personal record per user. */
  lemma {:induction false} OneConsentRecordEach(t: Tables, hmac: Hmac, events: seq<Event>, uid: Id)
    requires Records(t.consents, uid) <= 1
    ensures Records(Exec(t, hmac, events).consents, uid) <= 1
    decreases |events|
  {
    if events != [] {
      var before, e := events[..|events| - 1], events[|events| - 1];
      OneConsentRecordEach(t, hmac, before, uid);
      var mid := Exec(t, hmac, before);
      match e
      case ConsentEvent(v, optedIn, commit) => SetConsentKeepsOneRecord(mid.consents, v, optedIn, uid, 0);
      case PurgeEvent(job) =>
        if Erases(mid, hmac, job) {
          ErasingStep(mid, hmac, job);
          DroppingConsentsAddsNone(mid.consents, {job.uid}, uid);
        } else {
          NothingErasedBeforeIdStored(mid, hmac, job);
        }
      case _ =>
    }
  }

  // ---- The consent a user last gave ------------------------------------------------------

  /** What the user's record should say after the run: what the last executed write for the user gave, nothing
      after a purge that no write follows, and else what it said at the start. */
  function LastGiven(t: Tables, hmac: Hmac, events: seq<Event>, uid: Id, start: Option<bool>): Option<bool> {
    if events == [] then start
    else
      var before, e := events[..|events| - 1], events[|events| - 1];
      match e
      case ConsentEvent(v, optedIn, commit) =>
        if v == uid && !commit.NotExecuted? && uid in Exec(t, hmac, before).users then Some(optedIn)
        else LastGiven(t, hmac, before, uid, start)
      case PurgeEvent(job) =>
        if job.uid == uid && Erases(Exec(t, hmac, before), hmac, job) then None
        else LastGiven(t, hmac, before, uid, start)
      case _ => LastGiven(t, hmac, before, uid, start)
  }

  /** The first row of the user says this, or the user has none. */
  ghost predicate RecordSays(rows: seq<Consent>, uid: Id, flag: Option<bool>) {
    match flag
    case None => NoRowOf(rows, UserOwner(uid))
    case Some(b) => Says(rows, UserOwner(uid), b)
  }

  lemma RecordSaysIff(rows: seq<Consent>, uid: Id, flag: Option<bool>)
    ensures RecordSays(rows, uid, flag) <==> UserConsent(rows, uid) == flag
  {
    UserConsentMeans(rows, uid);
  }

  lemma {:induction false} DropDecides(rows: seq<Consent>, u: Id, uid: Id)
    ensures UserConsent(DropConsents(rows, {u}), uid) == if u == uid then None else UserConsent(rows, uid)
  {
    if rows != [] {
      DropDecides(rows[1..], u, uid);
      assert ([rows[0]] + DropConsents(rows[1..], {u}))[1..] == DropConsents(rows[1..], {u});
    }
  }

  /** What one event does to the record. */
  lemma RecordStep(t: Tables, hmac: Hmac, e: Event, uid: Id)
    ensures UserConsent(Next(t, hmac, e).consents, uid) ==
      if e.ConsentEvent? && e.uid == uid && !e.commit.NotExecuted? && uid in t.users then Some(e.optedIn)
      else if e.PurgeEvent? && e.job.uid == uid && Erases(t, hmac, e.job) then None
      else UserConsent(t.consents, uid)
  {
    match e
    case ConsentEvent(v, optedIn, commit) => SetConsentKeepsOneRecord(t.consents, v, optedIn, uid, 0);
    case PurgeEvent(job) =>
      if Erases(t, hmac, job) {
        ErasingStep(t, hmac, job);
        DropDecides(t.consents, job.uid, uid);
      } else {
        NothingErasedBeforeIdStored(t, hmac, job);
      }
    case _ =>
  }

  /** At every point of every serial run a user's personal record says what the user last gave. */
  lemma {:induction false} RecordIsLastGiven(t: Tables, hmac: Hmac, events: seq<Event>, uid: Id, start: Option<bool>)
    requires RecordSays(t.consents, uid, start)
    ensures RecordSays(Exec(t, hmac, events).consents, uid, LastGiven(t, hmac, events, uid, start))
    decreases |events|
  {
    if events != [] {
      var before := events[..|events| - 1];
      RecordIsLastGiven(t, hmac, before, uid, start);
      RecordStep(Exec(t, hmac, before), hmac, events[|events| - 1], uid);
      RecordSaysIff(Exec(t, hmac, before).consents, uid, LastGiven(t, hmac, before, uid, start));
      RecordSaysIff(Exec(t, hmac, events).consents, uid, LastGiven(t, hmac, events, uid, start));
    }
  }

  // ---- The review state ---------------------------------------------------------------

  /** Some row written since the first `n` is about a symbol of drawing `d`. */
  predicate CorrectedSince(t: Tables, n: nat, d: Id) {
    exists i | n <= i < |t.corrections| ::
      t.corrections[i].symbolId in t.symbols && t.symbols[t.corrections[i].symbolId].drawingId == d
  }

  lemma CorrectedByWrite(t: Tables, t1: Tables, row: Correction, n: nat, d: Id)
    requires LogRefersToSymbols(t) && n <= |t.corrections| && IsWrite(t, t1, row)
    ensures CorrectedSince(t1, n, d) <==> CorrectedSince(t, n, d) || t1.symbols[row.symbolId].drawingId == d
  {
    assert t1.corrections[|t.corrections|] == row;
    forall i | 0 <= i < |t.corrections|
      ensures t1.corrections[i] == t.corrections[i]
      ensures t1.symbols[t.corrections[i].symbolId].drawingId == t.symbols[t.corrections[i].symbolId].drawingId
    {
    }
  }

  /** How a drawing looks that first looked like `first`, once it has been corrected or not. */
  function Reviewed(first: Drawing, corrected: bool): Drawing {
    if first.state.Complete? && corrected then first.(state := UnderReview) else first
  }

  /** A write moves the drawing of its symbol, and no other. */
  lemma DrawingByWrite(t: Tables, t1: Tables, row: Correction, first: Drawing, corrected: bool, d: Id)
    requires IsWrite(t, t1, row) && d in t.drawings && t.drawings[d] == Reviewed(first, corrected)
    ensures t1.drawings.Keys == t.drawings.Keys
    ensures t1.drawings[d] == Reviewed(first, corrected || t1.symbols[row.symbolId].drawingId == d)
  {
  }

  /** A drawing is moved from Complete to Under_Review by its first successful correction, and
      nothing else happens to it: its state is a function of its first state and the log. */
  lemma {:induction false} ReviewState(t: Tables, hmac: Hmac, events: seq<Event>, d: Id)
    requires LogRefersToSymbols(t) && d in t.drawings
    ensures var end := Exec(t, hmac, events);
      && end.drawings.Keys == t.drawings.Keys
      && end.drawings[d] == Reviewed(t.drawings[d], CorrectedSince(end, |t.corrections|, d))
    decreases |events|
  {
    if events != [] {
      var before, e := events[..|events| - 1], events[|events| - 1];
      ReviewState(t, hmac, before, d);
      LogIsComplete(t, hmac, before);
      var mid, n := Exec(t, hmac, before), |t.corrections|;
      WriteOrNot(mid, hmac, e);
      if Writes(mid, hmac, e) {
        var end := Next(mid, hmac, e);
        var row := end.corrections[|mid.corrections|];
        CorrectedByWrite(mid, end, row, n, d);
        DrawingByWrite(mid, end, row, t.drawings[d], CorrectedSince(mid, n, d), d);
      }
    }
  }

  /** No successful correction leaves its drawing in Complete. */
  lemma CorrectedDrawingIsNotComplete(t: Tables, hmac: Hmac, e: Event, row: Correction)
    requires Writes(t, hmac, e) && Next(t, hmac, e).corrections == t.corrections + [row]
    ensures row.symbolId in Next(t, hmac, e).symbols
    ensures var t1 := Next(t, hmac, e); var d := t1.symbols[row.symbolId].drawingId;
            d in t1.drawings && !t1.drawings[d].state.Complete?
  {
    WriteOrNot(t, hmac, e);
  }
}
