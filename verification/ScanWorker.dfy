/** The scan job of backend/app/workers/scan/tasks.py: delivered at least once, and it may die or
    raise between any two of commit, publish and enqueue. */
module ScanWorker {
  import opened Prelude
  import opened Database

  /** What clamd and the retry machinery answer. `Unreadable` is any exception before the scan result;
      an unreachable clamd either leaves a retry or has used them up. */
  datatype Scan = Clean | Infected | Unreachable(retriesLeft: bool) | Unreadable

  /** How far a delivery that has a state to commit gets. */
  datatype Reach = NotCommitted | CommittedOnly | PublishedOnly | Finished

  datatype Delivery = Delivery(
    drawingId: Id,
    storageReference: string,
    userId: string,
    scan: Scan,
    reach: Reach)

  datatype MlJob = MlJob(storageReference: string, drawingId: Id, userId: string)

  datatype StatusEvent = StatusEvent(drawingId: Id, state: ProcessingState)

  /** `committed` records the states this worker has committed. */
  datatype World = World(
    drawings: map<Id, ProcessingState>,
    committed: seq<StatusEvent>,
    published: seq<StatusEvent>,
    mlJobs: seq<MlJob>)

  /** The state a scan result leads to, if any. */
  function Verdict(scan: Scan): Option<ProcessingState> {
    match scan
    case Clean => Some(Processing)
    case Infected => Some(ScanFailed)
    case Unreachable(retriesLeft) => if retriesLeft then None else Some(Failed)
    case Unreadable => None
  }

  predicate InScanning(w: World, id: Id) {
    id in w.drawings && w.drawings[id] == Scanning
  }

  function Deliver(w: World, d: Delivery): World {
    if !InScanning(w, d.drawingId) || Verdict(d.scan).None? || d.reach.NotCommitted? then w
    else
      var e := StatusEvent(d.drawingId, Verdict(d.scan).value);
      World(
        w.drawings[d.drawingId := e.state],
        w.committed + [e],
        if d.reach.CommittedOnly? then w.published else w.published + [e],
        if d.scan.Clean? && d.reach.Finished?
        then w.mlJobs + [MlJob(d.storageReference, d.drawingId, d.userId)] else w.mlJobs)
  }

  class Worker {
    var drawings: map<Id, ProcessingState>
    var published: seq<StatusEvent>
    var mlJobs: seq<MlJob>
    ghost var committed: seq<StatusEvent>

    ghost function Contents(): World
      reads this
    {
      World(drawings, committed, published, mlJobs)
    }

    constructor (drawings: map<Id, ProcessingState>)
      ensures Contents() == World(drawings, [], [], [])
    {
      this.drawings, published, mlJobs, committed := drawings, [], [], [];
    }

    /** Commit first, then publish. */
    method CommitStateAndPublish(id: Id, state: ProcessingState, reach: Reach) returns (raised: bool)
      modifies this
      ensures raised == (reach.NotCommitted? || reach.CommittedOnly?)
      ensures mlJobs == old(mlJobs)
      ensures if reach.NotCommitted? then Contents() == old(Contents()) else
                && drawings == old(drawings)[id := state]
                && committed == old(committed) + [StatusEvent(id, state)]
                && published == old(published) + if raised then [] else [StatusEvent(id, state)]
    {
      if reach.NotCommitted? {
        return true;
      }
      drawings := drawings[id := state];
      committed := committed + [StatusEvent(id, state)];
      if reach.CommittedOnly? {
        return true;
      }
      published := published + [StatusEvent(id, state)];
      return false;
    }

    method ScanDrawing(d: Delivery)
      modifies this
      ensures Contents() == Deliver(old(Contents()), d)
    {
      if d.drawingId !in drawings {
        return;
      }
      if drawings[d.drawingId] != Scanning {
        return;
      }
      match d.scan
      case Unreadable => return;
      case Unreachable(retriesLeft) =>
        if retriesLeft {
          return;
        }
        var raised := CommitStateAndPublish(d.drawingId, Failed, d.reach);
      case Clean =>
        var raised := CommitStateAndPublish(d.drawingId, Processing, d.reach);
        if raised || d.reach.PublishedOnly? {
          return;
        }
        mlJobs := mlJobs + [MlJob(d.storageReference, d.drawingId, d.userId)];
      case Infected =>
        var raised := CommitStateAndPublish(d.drawingId, ScanFailed, d.reach);
    }
  }

  // ---- Whole runs -------------------------------------------------------------------------

  /** Deliveries for any drawings, one at a time, and whatever later stages do to drawings that have
      left Scanning. */
  datatype Event = DeliveryEvent(delivery: Delivery) | LaterStage(drawingId: Id, state: ProcessingState)

  function Next(w: World, e: Event): World {
    match e
    case DeliveryEvent(d) => Deliver(w, d)
    case LaterStage(id, state) =>
      if id !in w.drawings || w.drawings[id] == Scanning || state == Scanning then w
      else w.(drawings := w.drawings[id := state])
  }

  function Exec(w: World, events: seq<Event>): World
    decreases |events|
  {
    if events == [] then w else Exec(Next(w, events[0]), events[1..])
  }

  function StatesOf(es: seq<StatusEvent>, id: Id): seq<ProcessingState> {
    if es == [] then []
    else
      var last := es[|es| - 1];
      StatesOf(es[..|es| - 1], id) + if last.drawingId == id then [last.state] else []
  }

  function JobsOf(jobs: seq<MlJob>, id: Id): seq<MlJob> {
    if jobs == [] then []
    else
      var last := jobs[|jobs| - 1];
      JobsOf(jobs[..|jobs| - 1], id) + if last.drawingId == id then [last] else []
  }

  /** The worker takes the drawing out of Scanning at most once; it publishes at most one event, and only
      the state it committed; it enqueues at most one ML job, and only after publishing
      Processing, which it had committed before. */
  predicate SafeRecord(
      scanning: bool, committed: seq<ProcessingState>, published: seq<ProcessingState>, jobs: seq<MlJob>)
  {
    && |committed| <= 1
    && published <= committed
    && |jobs| <= 1
    && (jobs != [] ==> published == committed == [Processing])
    && (scanning ==> committed == [])
  }

  predicate ScanSafe(w: World, id: Id) {
    SafeRecord(InScanning(w, id), StatesOf(w.committed, id), StatesOf(w.published, id), JobsOf(w.mlJobs, id))
  }

  lemma StatesOfAppend(es: seq<StatusEvent>, e: StatusEvent, id: Id)
    ensures StatesOf(es + [e], id) == StatesOf(es, id) + if e.drawingId == id then [e.state] else []
  {
    assert (es + [e])[..|es|] == es;
  }

  lemma JobsOfAppend(jobs: seq<MlJob>, j: MlJob, id: Id)
    ensures JobsOf(jobs + [j], id) == JobsOf(jobs, id) + if j.drawingId == id then [j] else []
  {
    assert (jobs + [j])[..|jobs|] == jobs;
  }

  /** The state a delivery commits for `id`, if any. */
  function CommittedBy(w: World, d: Delivery, id: Id): seq<ProcessingState> {
    if d.drawingId == id && InScanning(w, id) && Verdict(d.scan).Some? && !d.reach.NotCommitted?
    then [Verdict(d.scan).value] else []
  }

  /** The delivery takes its drawing out of Scanning. */
  predicate Commits(w: World, d: Delivery) {
    InScanning(w, d.drawingId) && Verdict(d.scan).Some? && !d.reach.NotCommitted?
  }

  lemma DeliverCommits(w: World, d: Delivery, id: Id)
    ensures StatesOf(Deliver(w, d).committed, id) == StatesOf(w.committed, id) + CommittedBy(w, d, id)
  {
    if Commits(w, d) {
      StatesOfAppend(w.committed, StatusEvent(d.drawingId, Verdict(d.scan).value), id);
    }
  }

  lemma DeliverPublishes(w: World, d: Delivery, id: Id)
    ensures StatesOf(Deliver(w, d).published, id) ==
              StatesOf(w.published, id) + (if d.reach.CommittedOnly? then [] else CommittedBy(w, d, id))
  {
    if Commits(w, d) {
      StatesOfAppend(w.published, StatusEvent(d.drawingId, Verdict(d.scan).value), id);
    }
  }

  /** The ML job a delivery enqueues for `id`, if any. */
  function EnqueuedBy(w: World, d: Delivery, id: Id): seq<MlJob> {
    if CommittedBy(w, d, id) != [] && d.scan.Clean? && d.reach.Finished?
    then [MlJob(d.storageReference, id, d.userId)] else []
  }

  lemma DeliverEnqueues(w: World, d: Delivery, id: Id)
    ensures JobsOf(Deliver(w, d).mlJobs, id) == JobsOf(w.mlJobs, id) + EnqueuedBy(w, d, id)
  {
    if Commits(w, d) {
      JobsOfAppend(w.mlJobs, MlJob(d.storageReference, d.drawingId, d.userId), id);
    }
  }

  /** What one delivery adds for one drawing. */
  lemma DeliverAdds(w: World, d: Delivery, id: Id)
    ensures StatesOf(Deliver(w, d).committed, id) == StatesOf(w.committed, id) + CommittedBy(w, d, id)
    ensures StatesOf(Deliver(w, d).published, id) ==
              StatesOf(w.published, id) + (if d.reach.CommittedOnly? then [] else CommittedBy(w, d, id))
    ensures JobsOf(Deliver(w, d).mlJobs, id) == JobsOf(w.mlJobs, id) + EnqueuedBy(w, d, id)
  {
    DeliverCommits(w, d, id);
    DeliverPublishes(w, d, id);
    DeliverEnqueues(w, d, id);
  }

  lemma DeliveryMovesOn(w: World, d: Delivery, id: Id)
    ensures InScanning(Deliver(w, d), id) <==> InScanning(w, id) && CommittedBy(w, d, id) == []
  {
  }

  lemma RecordStays(
      scanning: bool, committed: seq<ProcessingState>, published: seq<ProcessingState>, jobs: seq<MlJob>)
    requires SafeRecord(scanning, committed, published, jobs)
    ensures SafeRecord(scanning, committed + [], published + [], jobs + [])
  {
    assert committed + [] == committed && published + [] == published && jobs + [] == jobs;
  }

  lemma RecordGrows(committed: seq<ProcessingState>, published: seq<ProcessingState>, jobs: seq<MlJob>,
                    state: ProcessingState, alsoPublished: bool, more: seq<MlJob>)
    requires SafeRecord(true, committed, published, jobs)
    requires |more| <= 1 && (more != [] ==> state == Processing && alsoPublished)
    ensures SafeRecord(false, committed + [state], published + (if alsoPublished then [state] else []), jobs + more)
  {
    assert committed == published == [] && jobs == [];
    assert [] + [state] == [state] && [] + more == more;
  }

  lemma DeliveryIsScanSafe(w: World, d: Delivery, id: Id)
    requires ScanSafe(w, id)
    ensures ScanSafe(Deliver(w, d), id)
  {
    var committed, published, jobs := StatesOf(w.committed, id), StatesOf(w.published, id), JobsOf(w.mlJobs, id);
    DeliverAdds(w, d, id);
    DeliveryMovesOn(w, d, id);
    if CommittedBy(w, d, id) == [] {
      RecordStays(InScanning(w, id), committed, published, jobs);
    } else {
      RecordGrows(committed, published, jobs, CommittedBy(w, d, id)[0], !d.reach.CommittedOnly?, EnqueuedBy(w, d, id));
    }
  }

  lemma {:induction false} RunIsScanSafe(w: World, events: seq<Event>, id: Id)
    requires ScanSafe(w, id)
    ensures ScanSafe(Exec(w, events), id)
    decreases |events|
  {
    if events != [] {
      match events[0] {
        case DeliveryEvent(d) => DeliveryIsScanSafe(w, d, id);
        case LaterStage(other, state) => assert ScanSafe(Next(w, events[0]), id);
      }
      RunIsScanSafe(Next(w, events[0]), events[1..], id);
    }
  }

  /** Once a drawing has left Scanning, no delivery does anything for it any more. */
  lemma {:induction false} NothingAfterScanning(w: World, events: seq<Event>, id: Id)
    requires id in w.drawings && !InScanning(w, id)
    ensures var end := Exec(w, events);
            && id in end.drawings && !InScanning(end, id)
            && StatesOf(end.committed, id) == StatesOf(w.committed, id)
            && StatesOf(end.published, id) == StatesOf(w.published, id)
            && JobsOf(end.mlJobs, id) == JobsOf(w.mlJobs, id)
    decreases |events|
  {
    if events != [] {
      if events[0].DeliveryEvent? {
        DeliverAdds(w, events[0].delivery, id);
      }
      NothingAfterScanning(Next(w, events[0]), events[1..], id);
    }
  }

  /** What is on record for the drawing of `d` when `d` committed Processing: how far that delivery got. */
  predicate AsFarAs(w: World, d: Delivery) {
    && StatesOf(w.committed, d.drawingId) == [Processing]
    && StatesOf(w.published, d.drawingId) == (if d.reach.CommittedOnly? then [] else [Processing])
    && JobsOf(w.mlJobs, d.drawingId) ==
         (if d.reach.Finished? then [MlJob(d.storageReference, d.drawingId, d.userId)] else [])
  }

  /** A delivery that is about to commit Processing. */
  predicate Committing(w: World, d: Delivery) {
    ScanSafe(w, d.drawingId) && InScanning(w, d.drawingId) && d.scan.Clean? && !d.reach.NotCommitted?
  }

  lemma NothingYet(w: World, id: Id)
    requires ScanSafe(w, id) && InScanning(w, id)
    ensures StatesOf(w.committed, id) == [] && StatesOf(w.published, id) == [] && JobsOf(w.mlJobs, id) == []
  {
  }

  lemma CommittingLeavesScanning(w: World, d: Delivery)
    requires Committing(w, d)
    ensures CommittedBy(w, d, d.drawingId) == [Processing]
    ensures d.drawingId in Deliver(w, d).drawings && !InScanning(Deliver(w, d), d.drawingId)
  {
  }

  lemma CommittingGoesAsFar(w: World, d: Delivery)
    requires Committing(w, d)
    ensures AsFarAs(Deliver(w, d), d)
  {
    NothingYet(w, d.drawingId);
    CommittingLeavesScanning(w, d);
    DeliverAdds(w, d, d.drawingId);
    assert [] + [Processing] == [Processing];
  }

  /** At-least-once delivery does not make the later steps happen: after the delivery that commits Processing,
      whatever is delivered again, the state is ever published if and only if that very delivery got
      past the publish, and the ML job is ever enqueued if and only if it got to the end. */
  lemma EnqueuedIffCommittingDeliveryFinished(w: World, d: Delivery, after: seq<Event>)
    requires Committing(w, d)
    ensures AsFarAs(Exec(Deliver(w, d), after), d)
  {
    CommittingGoesAsFar(w, d);
    CommittingLeavesScanning(w, d);
    NothingAfterScanning(Deliver(w, d), after, d.drawingId);
  }

  // ---- Which state, and because of which delivery -------------------------------------------

  /** The delivery has a state to commit for the drawing and gets through that commit: the file is clean or
      infected, or clamd stayed unreachable and no retry is left. */
  predicate TakesOut(d: Delivery, id: Id) {
    && d.drawingId == id && d.reach != NotCommitted
    && (d.scan == Clean || d.scan == Infected || d.scan == Unreachable(false))
  }

  /** The first delivery of the run that takes the drawing out of Scanning. */
  function Taker(events: seq<Event>, id: Id): Option<Delivery>
    decreases |events|
  {
    if events == [] then None
    else if events[0].DeliveryEvent? && TakesOut(events[0].delivery, id) then Some(events[0].delivery)
    else Taker(events[1..], id)
  }

  /** What is on record for the drawing after that delivery: Processing for a clean file, Scan_Failed for an
      infected one, Failed for one that could not be scanned; published as far as the delivery got; an ML job
      for a clean file alone, and only at the very end. */
  predicate RecordedBy(
      d: Delivery, id: Id, committed: seq<ProcessingState>, published: seq<ProcessingState>, jobs: seq<MlJob>)
  {
    && |committed| == 1
    && (committed[0] == Processing <==> d.scan == Clean)
    && (committed[0] == ScanFailed <==> d.scan == Infected)
    && (committed[0] == Failed <==> d.scan == Unreachable(false))
    && published == (if d.reach == CommittedOnly then [] else committed)
    && jobs == if d.scan == Clean && d.reach == Finished then [MlJob(d.storageReference, id, d.userId)] else []
  }

  predicate RecordOf(w: World, id: Id, d: Delivery) {
    RecordedBy(d, id, StatesOf(w.committed, id), StatesOf(w.published, id), JobsOf(w.mlJobs, id))
  }

  predicate Empty(committed: seq<ProcessingState>, published: seq<ProcessingState>, jobs: seq<MlJob>) {
    committed == [] && published == [] && jobs == []
  }

  predicate NothingOnRecord(w: World, id: Id) {
    Empty(StatesOf(w.committed, id), StatesOf(w.published, id), JobsOf(w.mlJobs, id))
  }

  lemma NothingAdded(committed: seq<ProcessingState>, published: seq<ProcessingState>, jobs: seq<MlJob>)
    requires Empty(committed, published, jobs)
    ensures Empty(committed + [], published + [], jobs + [])
  {
  }

  /** Not Processing, and no job, if the file was not clean. */
  lemma NotProcessed(d: Delivery, id: Id, committed: seq<ProcessingState>, published: seq<ProcessingState>,
                     jobs: seq<MlJob>)
    requires RecordedBy(d, id, committed, published, jobs) && d.scan != Clean
    ensures Processing !in committed && Processing !in published && jobs == []
  {
  }

  lemma TakingOut(w: World, d: Delivery, id: Id)
    requires InScanning(w, id) && NothingOnRecord(w, id) && TakesOut(d, id)
    ensures RecordOf(Deliver(w, d), id, d)
    ensures id in Deliver(w, d).drawings && !InScanning(Deliver(w, d), id)
    ensures Deliver(w, d).drawings[id] == StatesOf(Deliver(w, d).committed, id)[0]
  {
    var state := CommittedBy(w, d, id);
    DeliverAdds(w, d, id);
    assert [] + state == state && [] + EnqueuedBy(w, d, id) == EnqueuedBy(w, d, id);
  }

  lemma NotTaking(w: World, d: Delivery, id: Id)
    requires !TakesOut(d, id)
    ensures CommittedBy(w, d, id) == [] && EnqueuedBy(w, d, id) == []
  {
  }

  lemma NotTakingOut(w: World, e: Event, id: Id)
    requires InScanning(w, id) && NothingOnRecord(w, id)
    requires e.DeliveryEvent? ==> !TakesOut(e.delivery, id)
    ensures InScanning(Next(w, e), id) && NothingOnRecord(Next(w, e), id)
  {
    if e.DeliveryEvent? {
      DeliverAdds(w, e.delivery, id);
      DeliveryMovesOn(w, e.delivery, id);
      NotTaking(w, e.delivery, id);
      NothingAdded(StatesOf(w.committed, id), StatesOf(w.published, id), JobsOf(w.mlJobs, id));
    }
  }

  /** Over every run of a drawing that starts in Scanning: it stays there with nothing on record until a delivery
      takes it out, and then what is on record is what that delivery found and how far it got, whatever
      is delivered later. */
  lemma {:induction false} TakerDecides(w: World, events: seq<Event>, id: Id)
    requires InScanning(w, id) && NothingOnRecord(w, id)
    ensures var end := Exec(w, events);
            match Taker(events, id)
            case None => InScanning(end, id) && NothingOnRecord(end, id)
            case Some(d) => !InScanning(end, id) && RecordOf(end, id, d)
    decreases |events|
  {
    if events != [] {
      var w1 := Next(w, events[0]);
      if events[0].DeliveryEvent? && TakesOut(events[0].delivery, id) {
        TakingOut(w, events[0].delivery, id);
        NothingAfterScanning(w1, events[1..], id);
      } else {
        NotTakingOut(w, events[0], id);
        TakerDecides(w1, events[1..], id);
      }
    }
  }

  lemma {:induction false} TakerIsDelivered(events: seq<Event>, id: Id)
    ensures Taker(events, id).Some? ==>
              DeliveryEvent(Taker(events, id).value) in events && TakesOut(Taker(events, id).value, id)
  {
    if events != [] {
      TakerIsDelivered(events[1..], id);
    }
  }

  /** Unless some delivery finds it clean, a drawing is never committed or published as Processing and gets no
      ML job. */
  lemma OnlyCleanFilesAreProcessed(w: World, events: seq<Event>, id: Id)
    requires InScanning(w, id) && NothingOnRecord(w, id)
    requires forall i | 0 <= i < |events| ::
               events[i].DeliveryEvent? && events[i].delivery.drawingId == id ==> events[i].delivery.scan != Clean
    ensures var end := Exec(w, events);
            && Processing !in StatesOf(end.committed, id) && Processing !in StatesOf(end.published, id)
            && JobsOf(end.mlJobs, id) == []
  {
    var end := Exec(w, events);
    TakerDecides(w, events, id);
    TakerIsDelivered(events, id);
    if Taker(events, id).Some? {
      NotProcessed(Taker(events, id).value, id, StatesOf(end.committed, id), StatesOf(end.published, id),
                   JobsOf(end.mlJobs, id));
    }
  }
}
