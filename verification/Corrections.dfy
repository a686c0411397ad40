/** The write path of backend/app/services/correction_service.py. */
module Corrections {
  import opened Prelude
  import opened Database
  import opened Consents

  datatype CorrectionRequest = CorrectionRequest(
    kind: CorrectionType,
    newClass: Option<string>,
    tableCellId: Option<string>)

  datatype ManualRequest = ManualRequest(
    entityClass: string,
    subtype: string,
    tagLabel: Option<string>,
    bbox: BoundingBox,
    pageNumber: int)

  /** The symbol as the API returns it. */
  datatype SymbolRecord = SymbolRecord(
    id: Id,
    drawingId: Id,
    entityClass: string,
    subtype: string,
    tagLabel: Option<string>,
    confidence: Confidence,
    bbox: BoundingBox,
    manual: bool,
    rejected: bool,
    pageNumber: int)

  datatype Outcome =
    | Written(record: SymbolRecord)
    | NotImplemented
    | NotFound
    | Forbidden
    | WriteFailed

  function ToSymbolRecord(id: Id, s: Symbol): SymbolRecord {
    SymbolRecord(id, s.drawingId, s.entityClass, if s.subtype.Some? then s.subtype.value else "", s.tagLabel,
                 s.confidence, s.bbox, s.manual, s.rejected, s.pageNumber)
  }

  /** UPDATE drawing SET processing_state = 'Under_Review' WHERE id = d AND processing_state = 'Complete'. */
  function TransitionToUnderReview(drawings: map<Id, Drawing>, d: Id): map<Id, Drawing> {
    if d in drawings && drawings[d].state.Complete? then drawings[d := drawings[d].(state := UnderReview)] else drawings
  }

  /** The class recorded with a correction. */
  function RecordedClass(r: CorrectionRequest): Option<string> {
    if r.kind.Reclassify? then r.newClass else None
  }

  function Corrected(s: Symbol, r: CorrectionRequest): Symbol {
    match r.kind
    case Reclassify => if r.newClass.Some? then s.(entityClass := r.newClass.value) else s
    case Reject => s.(rejected := true)
    case Restore => s.(rejected := false)
    case ManualAdd => s
  }

  function ManualSymbol(d: Id, r: ManualRequest): Symbol {
    Symbol(d, r.entityClass, Some(r.subtype), r.tagLabel, 1.0, r.bbox, true, false, r.pageNumber)
  }

  /** Everything one write changes: the symbol, one log row, and the drawing's state. */
  function Write(t: Tables, symbolId: Id, symbol: Symbol, row: Correction): Tables {
    t.(symbols := t.symbols[symbolId := symbol],
       corrections := t.corrections + [row],
       drawings := TransitionToUnderReview(t.drawings, symbol.drawingId))
  }

  /** What the database generates for a new log row. */
  datatype RowKey = RowKey(id: Id, createdAt: Instant)

  predicate FreshRow(rows: seq<Correction>, id: Id) {
    forall i | 0 <= i < |rows| :: rows[i].id != id
  }

  /** The keys of the new rows, the NOT NULL class and the foreign keys. */
  predicate Storable(t: Tables, key: RowKey, userId: Id, entityClass: string, recorded: Option<string>) {
    && FreshRow(t.corrections, key.id)
    && userId in t.users && entityClass in t.entityClasses
    && (recorded.Some? ==> recorded.value in t.entityClasses)
  }

  function CorrectionRow(t: Tables, key: RowKey, symbolId: Id, d: Id, r: CorrectionRequest, userId: Id): Correction
    requires d in t.drawings
  {
    Correction(key.id, key.createdAt, symbolId, userId, r.kind, RecordedClass(r), ResolveForDrawing(t, t.drawings[d]))
  }

  /** PATCH /symbols/{id}. `symbolId` is None when it is not a UUID. */
  function Correct(
      t: Tables, symbolId: Option<Id>, r: CorrectionRequest, userId: Id, allowed: bool, key: RowKey, commit: Fate)
    : (Tables, Outcome)
  {
    if r.tableCellId.Some? then (t, NotImplemented)
    else if symbolId.None? || symbolId.value !in t.symbols then (t, NotFound)
    else
      var id := symbolId.value;
      var d := t.symbols[id].drawingId;
      if d !in t.drawings then (t, NotFound)
      else if !allowed then (t, Forbidden)
      else
        var symbol := Corrected(t.symbols[id], r);
        if !commit.NotExecuted? && !(r.kind.Reclassify? && r.newClass.None?)
           && Storable(t, key, userId, symbol.entityClass, RecordedClass(r))
        then (Write(t, id, symbol, CorrectionRow(t, key, id, d, r, userId)),
              if commit.Answered? then Written(ToSymbolRecord(id, symbol)) else WriteFailed)
        else (t, WriteFailed)
  }

  /** POST /drawings/{id}/symbols. `newId` is the key the database generates for the symbol. */
  function AddManual(t: Tables, drawingId: Option<Id>, r: ManualRequest, userId: Id, allowed: bool, newId: Id,
                     key: RowKey, commit: Fate)
    : (Tables, Outcome)
  {
    if drawingId.None? || drawingId.value !in t.drawings then (t, NotFound)
    else if !allowed then (t, Forbidden)
    else
      var d := drawingId.value;
      var symbol := ManualSymbol(d, r);
      if !commit.NotExecuted? && newId !in t.symbols && Storable(t, key, userId, r.entityClass, None) then
        (Write(t, newId, symbol, Correction(key.id, key.createdAt, newId, userId, ManualAdd, None,
                                            ResolveForDrawing(t, t.drawings[d]))),
         if commit.Answered? then Written(ToSymbolRecord(newId, symbol)) else WriteFailed)
      else (t, WriteFailed)
  }

  lemma AppendKeepsRowsDistinctIffFresh(rows: seq<Correction>, row: Correction)
    requires DistinctRows(rows)
    ensures DistinctRows(rows + [row]) <==> FreshRow(rows, row.id)
  {
    var after := rows + [row];
    if FreshRow(rows, row.id) {
      forall i, j | 0 <= i < j < |after| ensures !SameRow(after, i, j) {
        assert j < |rows| ==> !SameRow(rows, i, j);
      }
    } else {
      var i :| 0 <= i < |rows| && rows[i].id == row.id;
      assert SameRow(after, i, |rows|);
    }
  }

  lemma WriteCommitsIffStorable(t: Tables, symbolId: Id, symbol: Symbol, row: Correction)
    requires Constraints(t) && symbol.drawingId in t.drawings && row.symbolId == symbolId
    ensures Constraints(Write(t, symbolId, symbol, row)) <==>
              Storable(t, RowKey(row.id, row.createdAt), row.userId, symbol.entityClass, row.newClass)
  {
    AppendKeepsRowsDistinctIffFresh(t.corrections, row);
    var t1 := Write(t, symbolId, symbol, row);
    assert t1.corrections[|t.corrections|] == row;
    assert t1.symbols[symbolId] == symbol;
    assert forall s | s in t.symbols && s != symbolId :: t1.symbols[s] == t.symbols[s];
    assert forall i | 0 <= i < |t.corrections| :: t1.corrections[i] == t.corrections[i];
  }

  // ---- What the two writes promise ----------------------------------------------------------

  /** The record shows the row, field by field; a missing subtype is shown as "". */
  predicate Describes(r: SymbolRecord, id: Id, s: Symbol) {
    && r.id == id && r.drawingId == s.drawingId && r.entityClass == s.entityClass
    && r.subtype == (if s.subtype.Some? then s.subtype.value else "")
    && r.tagLabel == s.tagLabel && r.confidence == s.confidence && r.bbox == s.bbox
    && (r.manual <==> s.manual) && (r.rejected <==> s.rejected) && r.pageNumber == s.pageNumber
  }

  /** The tables after a write of symbol `s1` under `id` with this log row: nothing else changes but the state of
      the symbol's drawing, and that only from Complete to Under_Review. */
  predicate Stored(t: Tables, t1: Tables, id: Id, s1: Symbol, row: Correction) {
    && t1 == t.(symbols := t1.symbols, corrections := t.corrections + [row], drawings := t1.drawings)
    && t1.symbols == t.symbols[id := s1]
    && t1.drawings.Keys == t.drawings.Keys
    && forall d | d in t.drawings ::
         && t1.drawings[d].owner == t.drawings[d].owner
         && t1.drawings[d].state ==
              if d == s1.drawingId && t.drawings[d].state == Complete then UnderReview else t.drawings[d].state
  }

  /** The log row of a write: who, what, the class named, and whether the drawing's owner has opted in. */
  ghost predicate Logged(t: Tables, row: Correction, key: RowKey, id: Id, d: Id, userId: Id, kind: CorrectionType,
                         newClass: Option<string>)
    requires d in t.drawings
  {
    && row == Correction(key.id, key.createdAt, id, userId, kind, newClass, row.trainingConsent)
    && (row.trainingConsent <==> Says(t.consents, t.drawings[d].owner, true))
  }

  /** The database takes the new rows. */
  predicate Accepted(t: Tables, key: RowKey, userId: Id, entityClass: string) {
    && userId in t.users && entityClass in t.entityClasses
    && forall i | 0 <= i < |t.corrections| :: t.corrections[i].id != key.id
  }

  /** The symbol exists, on a drawing that exists. */
  predicate Known(t: Tables, symbolId: Option<Id>) {
    symbolId.Some? && symbolId.value in t.symbols && t.symbols[symbolId.value].drawingId in t.drawings
  }

  /** The symbol as a request asks for it: a new class, rejected, or not rejected any more. */
  predicate Asked(s: Symbol, r: CorrectionRequest, s1: Symbol) {
    && s1 == s.(entityClass := s1.entityClass, rejected := s1.rejected)
    && (r.kind == Reclassify ==> r.newClass == Some(s1.entityClass) && s1.rejected == s.rejected)
    && (r.kind != Reclassify ==> s1.entityClass == s.entityClass)
    && (r.kind == Reject ==> s1.rejected) && (r.kind == Restore ==> !s1.rejected)
    && (r.kind == ManualAdd ==> s1 == s)
  }

  /** The class the symbol will have, if the request names one where it must. */
  function ClassAsked(s: Symbol, r: CorrectionRequest): Option<string> {
    if r.kind == Reclassify then r.newClass else Some(s.entityClass)
  }

  /** Nothing stands in the way of the correction but the fate of its commit. */
  predicate CanCorrect(t: Tables, symbolId: Option<Id>, r: CorrectionRequest, userId: Id, allowed: bool, key: RowKey) {
    && r.tableCellId.None? && Known(t, symbolId) && allowed
    && var asked := ClassAsked(t.symbols[symbolId.value], r);
       asked.Some? && Accepted(t, key, userId, asked.value)
  }

  /** When each outcome of a correction occurs. */
  predicate KeepsCorrectionPolicy(t: Tables, symbolId: Option<Id>, r: CorrectionRequest, userId: Id, allowed: bool,
                                  key: RowKey, commit: Fate, o: Outcome)
  {
    && (o.NotImplemented? <==> r.tableCellId.Some?)
    && (o.NotFound? <==> r.tableCellId.None? && !Known(t, symbolId))
    && (o.Forbidden? <==> r.tableCellId.None? && Known(t, symbolId) && !allowed)
    && (o.Written? <==> CanCorrect(t, symbolId, r, userId, allowed, key) && commit.Answered?)
  }

  /** What a correction that can be made and whose commit is executed leaves. */
  ghost predicate Corrects(t: Tables, t1: Tables, id: Id, r: CorrectionRequest, userId: Id, key: RowKey, o: Outcome)
    requires Known(t, Some(id))
  {
    && |t1.corrections| > 0 && id in t1.symbols
    && var row := t1.corrections[|t1.corrections| - 1];
    && Asked(t.symbols[id], r, t1.symbols[id])
    && Stored(t, t1, id, t1.symbols[id], row)
    && Logged(t, row, key, id, t.symbols[id].drawingId, userId, r.kind,
              if r.kind == Reclassify then r.newClass else None)
    && (o.Written? ==> Describes(o.record, id, t1.symbols[id]))
  }

  lemma CorrectionKeepsPolicy(t: Tables, symbolId: Option<Id>, r: CorrectionRequest, userId: Id, allowed: bool,
                              key: RowKey, commit: Fate)
    ensures KeepsCorrectionPolicy(t, symbolId, r, userId, allowed, key, commit,
                                  Correct(t, symbolId, r, userId, allowed, key, commit).1)
  {
  }

  lemma CorrectedAsAsked(s: Symbol, r: CorrectionRequest)
    requires r.kind == Reclassify ==> r.newClass.Some?
    ensures Asked(s, r, Corrected(s, r)) && Corrected(s, r).drawingId == s.drawingId
  {
  }

  lemma WriteStores(t: Tables, id: Id, s1: Symbol, row: Correction)
    ensures Stored(t, Write(t, id, s1, row), id, s1, row)
  {
  }

  lemma RowIsLogged(t: Tables, key: RowKey, id: Id, d: Id, r: CorrectionRequest, userId: Id)
    requires d in t.drawings
    ensures Logged(t, CorrectionRow(t, key, id, d, r, userId), key, id, d, userId, r.kind,
                   if r.kind == Reclassify then r.newClass else None)
  {
    RecordedIffOwnerSaysSo(t, t.drawings[d]);
  }

  /** What every correction leaves: the change that was asked for, logged, or the tables as they were. */
  lemma CorrectionDoesWhatIsAsked(t: Tables, symbolId: Option<Id>, r: CorrectionRequest, userId: Id, allowed: bool,
                                  key: RowKey, commit: Fate)
    ensures var (t1, o) := Correct(t, symbolId, r, userId, allowed, key, commit);
            if CanCorrect(t, symbolId, r, userId, allowed, key) && !commit.NotExecuted?
            then Corrects(t, t1, symbolId.value, r, userId, key, o) else t1 == t
  {
    if CanCorrect(t, symbolId, r, userId, allowed, key) && !commit.NotExecuted? {
      var id := symbolId.value;
      var s1, d := Corrected(t.symbols[id], r), t.symbols[id].drawingId;
      CorrectedAsAsked(t.symbols[id], r);
      RowIsLogged(t, key, id, d, r, userId);
      WriteStores(t, id, s1, CorrectionRow(t, key, id, d, r, userId));
      assert Correct(t, symbolId, r, userId, allowed, key, commit).0
          == Write(t, id, s1, CorrectionRow(t, key, id, d, r, userId));
    }
  }

  /** The same for a manual addition. */
  ghost predicate KeepsAdditionPolicy(
      t: Tables, t1: Tables, drawingId: Option<Id>, r: ManualRequest, userId: Id, allowed: bool, newId: Id, key: RowKey,
      commit: Fate, o: Outcome)
  {
    var known := drawingId.Some? && drawingId.value in t.drawings;
    var accepted := newId !in t.symbols && Accepted(t, key, userId, r.entityClass);
    && !o.NotImplemented?
    && (o.NotFound? <==> !known)
    && (o.Forbidden? <==> known && !allowed)
    && (o.Written? <==> known && allowed && accepted && commit.Answered?)
    && (o.Written? ==> newId in t1.symbols && Describes(o.record, newId, t1.symbols[newId]))
    && if known && allowed && accepted && !commit.NotExecuted? then
         && |t1.corrections| > 0
         && var row := t1.corrections[|t1.corrections| - 1];
         && Stored(t, t1, newId, Symbol(drawingId.value, r.entityClass, Some(r.subtype), r.tagLabel, 1.0, r.bbox, true,
                                        false, r.pageNumber), row)
         && Logged(t, row, key, newId, drawingId.value, userId, ManualAdd, None)
       else t1 == t
  }

  lemma AdditionKeepsPolicy(t: Tables, drawingId: Option<Id>, r: ManualRequest, userId: Id, allowed: bool, newId: Id,
                            key: RowKey, commit: Fate)
    ensures var (t1, o) := AddManual(t, drawingId, r, userId, allowed, newId, key, commit);
            KeepsAdditionPolicy(t, t1, drawingId, r, userId, allowed, newId, key, commit, o)
  {
    if drawingId.Some? && drawingId.value in t.drawings {
      RecordedIffOwnerSaysSo(t, t.drawings[drawingId.value]);
    }
  }

  /** The `correction_action` events sent after the commit. */
  class Analytics {
    var emitted: seq<(Id, Id, Id)>

    constructor ()
      ensures emitted == []
    {
      emitted := [];
    }

    method EmitCorrectionAction(userId: Id, drawingId: Id, symbolId: Id)
      modifies this
      ensures emitted == old(emitted) + [(userId, drawingId, symbolId)]
    {
      emitted := emitted + [(userId, drawingId, symbolId)];
    }
  }

  /** What both writes do: store the symbol, add the log row, move the drawing, commit all of it at once; the
      event follows only if the commit was answered. */
  method StoreWrite(db: Session, analytics: Analytics, id: Id, symbol: Symbol, row: Correction, commit: Fate)
    returns (ok: bool)
    requires db.Valid() && db as object != analytics as object
    requires row.symbolId == id && symbol.drawingId in db.committed.drawings
    modifies db, analytics
    ensures db.Valid()
    ensures var storable :=
              Storable(old(db.committed), RowKey(row.id, row.createdAt), row.userId, symbol.entityClass, row.newClass);
            && ok == (commit.Answered? && storable)
            && db.committed ==
                 if !commit.NotExecuted? && storable then Write(old(db.committed), id, symbol, row)
                 else old(db.committed)
    ensures analytics.emitted == old(analytics.emitted) + if ok then [(row.userId, symbol.drawingId, id)] else []
  {
    db.pending := db.pending.(symbols := db.pending.symbols[id := symbol]);
    db.pending := db.pending.(corrections := db.pending.corrections + [row]);
    db.pending := db.pending.(drawings := TransitionToUnderReview(db.pending.drawings, symbol.drawingId));
    assert db.pending == Write(db.committed, id, symbol, row);
    WriteCommitsIffStorable(db.committed, id, symbol, row);
    ok := db.Commit(commit);
    if ok {
      analytics.EmitCorrectionAction(row.userId, symbol.drawingId, id);
    }
  }

  /** The change itself; None for a reclassification without a class, which the NOT NULL column refuses. */
  method ApplyCorrection(symbol: Symbol, r: CorrectionRequest) returns (changed: Option<Symbol>)
    ensures changed == if r.kind.Reclassify? && r.newClass.None? then None else Some(Corrected(symbol, r))
  {
    match r.kind
    case Reclassify =>
      if r.newClass.None? {
        return None;
      }
      return Some(symbol.(entityClass := r.newClass.value));
    case Reject => return Some(symbol.(rejected := true));
    case Restore => return Some(symbol.(rejected := false));
    case ManualAdd => return Some(symbol);
  }

  method CreateCorrection(db: Session, analytics: Analytics, symbolId: Option<Id>, r: CorrectionRequest, userId: Id,
                          allowed: bool, key: RowKey, commit: Fate)
    returns (o: Outcome)
    requires db.Valid() && db as object != analytics as object
    modifies db, analytics
    ensures db.Valid()
    ensures (db.committed, o) == Correct(old(db.committed), symbolId, r, userId, allowed, key, commit)
    ensures analytics.emitted == old(analytics.emitted) +
      if o.Written? then [(userId, o.record.drawingId, o.record.id)] else []
  {
    if r.tableCellId.Some? {
      return NotImplemented;
    }
    if symbolId.None? || symbolId.value !in db.pending.symbols {
      return NotFound;
    }
    var id := symbolId.value;
    var d := db.pending.symbols[id].drawingId;
    if d !in db.pending.drawings {
      return NotFound;
    }
    if !allowed {
      return Forbidden;
    }
    var changed := ApplyCorrection(db.pending.symbols[id], r);
    if changed.None? {
      db.Rollback();
      return WriteFailed;
    }
    var row := CorrectionRow(db.pending, key, id, d, r, userId);
    var ok := StoreWrite(db, analytics, id, changed.value, row, commit);
    return if ok then Written(ToSymbolRecord(id, changed.value)) else WriteFailed;
  }

  method CreateManualSymbol(db: Session, analytics: Analytics, drawingId: Option<Id>, r: ManualRequest, userId: Id,
                            allowed: bool, newId: Id, key: RowKey, commit: Fate)
    returns (o: Outcome)
    requires db.Valid() && db as object != analytics as object
    modifies db, analytics
    ensures db.Valid()
    ensures (db.committed, o) == AddManual(old(db.committed), drawingId, r, userId, allowed, newId, key, commit)
    ensures analytics.emitted == old(analytics.emitted) +
      if o.Written? then [(userId, o.record.drawingId, o.record.id)] else []
  {
    if drawingId.None? || drawingId.value !in db.pending.drawings {
      return NotFound;
    }
    if !allowed {
      return Forbidden;
    }
    var d := drawingId.value;
    var symbol := Symbol(d, r.entityClass, Some(r.subtype), r.tagLabel, 1.0, r.bbox, true, false, r.pageNumber);
    if newId in db.pending.symbols {
      db.Rollback();
      return WriteFailed;
    }
    var row := Correction(key.id, key.createdAt, newId, userId, ManualAdd, None,
                          ResolveForDrawing(db.pending, db.pending.drawings[d]));
    var ok := StoreWrite(db, analytics, newId, symbol, row, commit);
    return if ok then Written(ToSymbolRecord(newId, symbol)) else WriteFailed;
  }
}
