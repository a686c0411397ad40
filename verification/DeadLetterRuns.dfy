/** Whole runs of the dead-letter queue: nothing is lost unaccounted for, nothing is delivered twice,
    and when a drain visits every entry exactly once. */
module DeadLetterRuns {
  import opened Prelude
  import opened DeadLetter

  // ---- Conservation -----------------------------------------------------------------------

  /** Everything that is somewhere. */
  function Somewhere(l: Ledger): multiset<Raw> {
    multiset(l.queue) + multiset(l.delivered) + multiset(l.capped) + multiset(l.lost) + multiset(l.discarded)
  }

  datatype Event =
    | Configure(enabled: bool)
    | EmitEvent(emission: Emission)
    | DrainEvent(lengthRead: bool, turns: nat -> Turn)

  function Next(l: Ledger, e: Event): Ledger {
    match e
    case Configure(enabled) => l.(enabled := enabled)
    case EmitEvent(emission) => Emit(l, emission)
    case DrainEvent(lengthRead, turns) => Drain(l, lengthRead, turns).ledger
  }

  function Exec(l: Ledger, events: seq<Event>): Ledger
    decreases |events|
  {
    if events == [] then l else Exec(Next(l, events[0]), events[1..])
  }

  /** Events enter the books only by being emitted, and only text that does not parse is discarded. */
  predicate Conserves(a: Ledger, b: Ledger) {
    && a.emitted <= b.emitted
    && Somewhere(b) == Somewhere(a) + multiset(b.emitted[|a.emitted|..])
    && (forall raw | raw in b.discarded :: raw in a.discarded || raw.Malformed?)
  }

  lemma ConservesTransitive(a: Ledger, b: Ledger, c: Ledger)
    requires Conserves(a, b) && Conserves(b, c)
    ensures Conserves(a, c)
  {
    assert c.emitted[|a.emitted|..] == b.emitted[|a.emitted|..] + c.emitted[|b.emitted|..];
  }

  lemma ConcatCounts(a: seq<Raw>, b: seq<Raw>)
    ensures multiset(a + b) == multiset(a) + multiset(b)
  {
  }

  lemma Rearranged(q: multiset<Raw>, c: multiset<Raw>, q1: multiset<Raw>, c1: multiset<Raw>,
                   d: multiset<Raw>, l: multiset<Raw>, x: multiset<Raw>, raw: Raw)
    requires q1 + c1 == q + c + multiset{raw}
    ensures q1 + d + c1 + l + x == q + d + c + l + x + multiset{raw}
  {
    assert q1 + d + c1 + l + x == (q1 + c1) + (d + l + x);
    assert (q + c + multiset{raw}) + (d + l + x) == q + d + c + l + x + multiset{raw};
  }

  lemma PushConserves(l: Ledger, raw: Raw, push: Push)
    ensures Somewhere(PushToDeadLetter(l, raw, push)) == Somewhere(l) + multiset{raw}
    ensures PushToDeadLetter(l, raw, push).discarded == l.discarded
  {
    match push
    case NotStored => ConcatCounts(l.lost, [raw]);
    case StoredUntrimmed => ConcatCounts(l.queue, [raw]);
    case Stored =>
      var l1 := PushToDeadLetter(l, raw, push);
      ConcatCounts(l.queue, [raw]);
      TrimCounts(l.queue + [raw], l.capped);
      Rearranged(multiset(l.queue), multiset(l.capped), multiset(l1.queue), multiset(l1.capped),
                 multiset(l.delivered), multiset(l.lost), multiset(l.discarded), raw);
  }

  /** What a trim moves from the list to the dropped entries stays accounted for. */
  lemma TrimCounts(q: seq<Raw>, capped: seq<Raw>)
    ensures multiset(q[Excess(q)..]) + multiset(capped + q[..Excess(q)]) == multiset(q) + multiset(capped)
  {
    var n := Excess(q);
    ConcatCounts(q[..n], q[n..]);
    ConcatCounts(capped, q[..n]);
    assert q[..n] + q[n..] == q;
  }

  /** A trimmed write keeps the newest entries, at most as many as the cap allows, in order; what it
      drops is older than all of them. */
  lemma TrimKeepsNewest(l: Ledger, raw: Raw)
    ensures var l1 := PushToDeadLetter(l, raw, Stored);
            && |l1.queue| == (if |l.queue| < 10_000 then |l.queue| + 1 else 10_000)
            && l1.queue[|l1.queue| - 1] == raw
            && l.capped <= l1.capped
            && l.queue + [raw] == l1.capped[|l.capped|..] + l1.queue
  {
    var q := l.queue + [raw];
    assert q == q[..Excess(q)] + q[Excess(q)..];
  }

  /** What a write does: RPUSH alone appends; with LTRIM the oldest go beyond the cap; else the event is lost. */
  predicate Queued(l: Ledger, l1: Ledger, raw: Raw, push: Push) {
    match push
    case NotStored => l1 == l.(lost := l.lost + [raw])
    case StoredUntrimmed => l1 == l.(queue := l.queue + [raw])
    case Stored =>
      && l1 == l.(queue := l1.queue, capped := l1.capped)
      && l.capped <= l1.capped && l.queue + [raw] == l1.capped[|l.capped|..] + l1.queue
      && |l1.queue| == (if |l.queue| + 1 <= 10_000 then |l.queue| + 1 else 10_000)
  }

  /** What an emission does: nothing while analytics is disabled; else the event is on the books, and delivered
      if the send succeeds or written to the queue if it does not. */
  predicate Emitted(l: Ledger, l1: Ledger, e: Emission) {
    var raw := Envelope(e.event);
    if !l.enabled then l1 == l
    else if e.sent then l1 == l.(emitted := l.emitted + [raw], delivered := l.delivered + [raw])
    else Queued(l.(emitted := l.emitted + [raw]), l1, raw, e.push)
  }

  lemma EmissionMeans(l: Ledger, e: Emission)
    ensures Emitted(l, Emit(l, e), e)
  {
    if l.enabled && !e.sent && e.push.Stored? {
      TrimKeepsNewest(l, Envelope(e.event));
    }
  }

  /** What a turn does with the entry it has popped: discarded if it does not parse, else delivered, back at the
      end of the list, or lost. */
  predicate DealtWith(l: Ledger, l1: Ledger, raw: Raw, sent: bool, requeued: bool) {
    match raw
    case Malformed(text) => l1 == l.(discarded := l.discarded + [raw])
    case Envelope(event) =>
      l1 == if sent then l.(delivered := l.delivered + [raw])
            else if requeued then l.(queue := l.queue + [raw]) else l.(lost := l.lost + [raw])
  }

  lemma RetryMeans(l: Ledger, raw: Raw, turn: Turn)
    ensures DealtWith(l, Retry(l, raw, turn), raw, turn.sent, turn.requeued)
  {
  }

  /** How a turn ends. An LPOP without an answer raises, and takes the head of the list with it if it was
      executed; an answered one finds the list empty or hands over its head. */
  lemma TurnMeans(l: Ledger, turn: Turn)
    ensures var l1, taken := EmitAll(l, turn.before), TakeTurn(l, turn);
            && (taken.LpopRaised? <==> turn.lpop == NotExecuted || turn.lpop == Unanswered)
            && (taken.ListEmpty? <==> turn.lpop == Answered && l1.queue == [])
            && (turn.lpop == NotExecuted || l1.queue == [] ==> taken.ledger == l1)
            && (turn.lpop == Unanswered && l1.queue != [] ==>
                  taken.ledger == l1.(queue := l1.queue[1..], lost := l1.lost + [l1.queue[0]]))
            && (taken.Popped? ==>
                  && l1.queue != [] && taken.raw == l1.queue[0]
                  && DealtWith(EmitAll(l1.(queue := l1.queue[1..]), turn.during), taken.ledger, taken.raw,
                               turn.sent, turn.requeued))
  {
  }

  /** A drain raises only because of an LPOP without an answer, and one that comes to such an LPOP raises. */
  lemma {:induction false} DrainRaises(l: Ledger, turns: nat -> Turn, i: nat, n: nat)
    ensures DrainFrom(l, turns, i, n).raised ==> exists k | i <= k < n :: !turns(k).lpop.Answered?
    ensures i < n && !turns(i).lpop.Answered? ==>
              DrainFrom(l, turns, i, n) == Drained(TakeTurn(l, turns(i)).ledger, 0, [], true)
    decreases n - i
  {
    if i < n && TakeTurn(l, turns(i)).Popped? {
      DrainRaises(TakeTurn(l, turns(i)).ledger, turns, i + 1, n);
    }
  }

  /** With analytics disabled, or the length unread, a drain does nothing and returns 0. */
  lemma DrainNeedsAnalyticsAndRedis(l: Ledger, turns: nat -> Turn)
    ensures !l.enabled ==> Drain(l, true, turns) == Drained(l, 0, [], false)
    ensures Drain(l, false, turns) == Drained(l, 0, [], false)
  {
  }

  lemma EmitConserves(l: Ledger, e: Emission)
    ensures Conserves(l, Emit(l, e))
  {
    if l.enabled {
      var raw := Envelope(e.event);
      assert (l.emitted + [raw])[|l.emitted|..] == [raw];
      PushConserves(l.(emitted := l.emitted + [raw]), raw, e.push);
    } else {
      assert l.emitted[|l.emitted|..] == [];
    }
  }

  lemma {:induction false} EmitAllConserves(l: Ledger, es: seq<Emission>)
    ensures Conserves(l, EmitAll(l, es))
  {
    if es == [] {
      assert l.emitted[|l.emitted|..] == [];
    } else {
      var before := EmitAll(l, es[..|es| - 1]);
      EmitAllConserves(l, es[..|es| - 1]);
      EmitConserves(before, es[|es| - 1]);
      ConservesTransitive(l, before, EmitAll(l, es));
    }
  }

  lemma RetryKeeps(l: Ledger, raw: Raw, turn: Turn)
    ensures Retry(l, raw, turn).emitted == l.emitted
    ensures forall r | r in Retry(l, raw, turn).discarded :: r in l.discarded || r.Malformed?
  {
  }

  lemma RetryAccounts(l: Ledger, raw: Raw, turn: Turn)
    ensures Somewhere(Retry(l, raw, turn)) == Somewhere(l) + multiset{raw}
  {
    if raw.Malformed? {
      ConcatCounts(l.discarded, [raw]);
    } else if turn.sent {
      ConcatCounts(l.delivered, [raw]);
    } else if turn.requeued {
      ConcatCounts(l.queue, [raw]);
    } else {
      ConcatCounts(l.lost, [raw]);
    }
  }

  /** Popping an entry, emitting meanwhile, and then dealing with the entry. */
  lemma PoppedConserves(l: Ledger, turn: Turn)
    requires l.queue != []
    ensures Conserves(l, Retry(EmitAll(l.(queue := l.queue[1..]), turn.during), l.queue[0], turn))
  {
    var raw, rest := l.queue[0], l.queue[1..];
    var held := l.(queue := rest);
    assert l.queue == [raw] + rest;
    assert multiset(l.queue) == multiset{raw} + multiset(rest);
    assert Somewhere(l) == Somewhere(held) + multiset{raw};
    EmitAllConserves(held, turn.during);
    RetryAccounts(EmitAll(held, turn.during), raw, turn);
    RetryKeeps(EmitAll(held, turn.during), raw, turn);
  }

  lemma LosingConserves(l: Ledger)
    ensures Conserves(l, HeadLost(l))
  {
    assert l.emitted[|l.emitted|..] == [];
    if l.queue != [] {
      assert l.queue == [l.queue[0]] + l.queue[1..];
      ConcatCounts(l.lost, [l.queue[0]]);
    }
  }

  lemma TurnConserves(l: Ledger, turn: Turn)
    ensures Conserves(l, TakeTurn(l, turn).ledger)
  {
    var l1 := EmitAll(l, turn.before);
    EmitAllConserves(l, turn.before);
    if turn.lpop.Answered? && l1.queue != [] {
      PoppedConserves(l1, turn);
      ConservesTransitive(l, l1, TakeTurn(l, turn).ledger);
    } else if turn.lpop.Unanswered? {
      LosingConserves(l1);
      ConservesTransitive(l, l1, HeadLost(l1));
    }
  }

  lemma {:induction false} DrainConserves(l: Ledger, turns: nat -> Turn, i: nat, n: nat)
    ensures Conserves(l, DrainFrom(l, turns, i, n).ledger)
    decreases n - i
  {
    if i >= n {
      assert l.emitted[|l.emitted|..] == [];
    } else {
      var taken := TakeTurn(l, turns(i));
      TurnConserves(l, turns(i));
      if taken.Popped? {
        DrainConserves(taken.ledger, turns, i + 1, n);
        ConservesTransitive(l, taken.ledger, DrainFrom(taken.ledger, turns, i + 1, n).ledger);
      }
    }
  }

  /** Over every run of emits and drains, with interleaved emits and with failures anywhere. */
  lemma {:induction false} RunConserves(l: Ledger, events: seq<Event>)
    ensures Conserves(l, Exec(l, events))
    decreases |events|
  {
    if events == [] {
      assert l.emitted[|l.emitted|..] == [];
    } else {
      var l1 := Next(l, events[0]);
      match events[0] {
        case Configure(enabled) => assert l.emitted[|l.emitted|..] == [];
        case EmitEvent(emission) => EmitConserves(l, emission);
        case DrainEvent(lengthRead, turns) =>
          assert l.emitted[|l.emitted|..] == [];
          DrainConserves(l, turns, 0, |l.queue|);
      }
      RunConserves(l1, events[1..]);
      ConservesTransitive(l, l1, Exec(l1, events[1..]));
    }
  }

  /** An event emitted once while analytics was enabled is in exactly one place: delivered, queued, dropped
      by the cap, or dropped by a Redis failure. In particular it is not delivered twice. */
  lemma EveryEventInExactlyOnePlace(enabled: bool, events: seq<Event>, event: nat)
    requires multiset(Exec(Ledger(enabled, [], [], [], [], [], []), events).emitted)[Envelope(event)] == 1
    ensures var l := Exec(Ledger(enabled, [], [], [], [], [], []), events); var e := Envelope(event);
            multiset(l.delivered)[e] + multiset(l.queue)[e] + multiset(l.capped)[e] + multiset(l.lost)[e] == 1
  {
    var start := Ledger(enabled, [], [], [], [], [], []);
    RunConserves(start, events);
    var l := Exec(start, events);
    assert l.emitted[0..] == l.emitted && Somewhere(start) == multiset{};
    assert Somewhere(l)[Envelope(event)] == 1;
    assert Envelope(event) !in l.discarded;
  }

  // ---- A drain while events keep arriving --------------------------------------------------

  /** Writes attempted by these emissions. */
  function Writes(es: seq<Emission>): nat {
    if es == [] then 0 else Writes(es[..|es| - 1]) + if es[|es| - 1].sent then 0 else 1
  }

  function WritesDuring(turns: nat -> Turn, i: nat, n: nat): nat
    decreases n - i
  {
    if i >= n then 0
    else Writes(turns(i).before) + Writes(turns(i).during) + WritesDuring(turns, i + 1, n)
  }

  lemma {:induction false} NoLaterWrites(turns: nat -> Turn, i: nat, n: nat)
    requires forall j | i <= j < n :: turns(j).before == [] && turns(j).during == []
    ensures WritesDuring(turns, i, n) == 0
    decreases n - i
  {
    if i < n {
      NoLaterWrites(turns, i + 1, n);
    }
  }

  /** The entries these emissions add to the list, in order. */
  function Added(es: seq<Emission>): seq<Raw> {
    if es == [] then []
    else Added(es[..|es| - 1]) +
         if es[|es| - 1].sent || es[|es| - 1].push.NotStored? then [] else [Envelope(es[|es| - 1].event)]
  }

  /** The dropped entries only ever grow at the end. */
  lemma {:induction false} EmitAllCaps(l: Ledger, es: seq<Emission>)
    ensures l.capped <= EmitAll(l, es).capped
  {
    if es != [] {
      EmitAllCaps(l, es[..|es| - 1]);
    }
  }

  lemma {:induction false} EmitAllUntrimmed(l: Ledger, es: seq<Emission>)
    requires l.enabled && EmitAll(l, es).capped == l.capped
    ensures EmitAll(l, es).enabled && EmitAll(l, es).queue == l.queue + Added(es)
  {
    if es == [] {
      assert l.queue + [] == l.queue;
    } else {
      var before := EmitAll(l, es[..|es| - 1]);
      EmitAllCaps(l, es[..|es| - 1]);
      assert before.capped == l.capped;
      EmitAllUntrimmed(l, es[..|es| - 1]);
      EmitUntrimmed(before, es[|es| - 1]);
    }
  }

  lemma EmitUntrimmed(l: Ledger, e: Emission)
    requires l.enabled && Emit(l, e).capped == l.capped
    ensures Emit(l, e).enabled
    ensures Emit(l, e).queue == l.queue + if e.sent || e.push.NotStored? then [] else [Envelope(e.event)]
  {
  }

  /** A failed original goes back behind what arrived before its turn. */
  function Requeued(raw: Raw, turn: Turn): seq<Raw> {
    if raw.Envelope? && !turn.sent && turn.requeued then [raw] else []
  }

  /** What one turn leaves at the end of the list. */
  function Arrived(raw: Raw, turn: Turn): seq<Raw> {
    Added(turn.before) + Added(turn.during) + Requeued(raw, turn)
  }

  /** The originals that failed and the new entries, merged in the order of the turns. */
  function Merged(original: seq<Raw>, turns: nat -> Turn, i: nat): seq<Raw> {
    if original == [] then []
    else Arrived(original[0], turns(i)) + Merged(original[1..], turns, i + 1)
  }

  function WellFormed(original: seq<Raw>): seq<Raw> {
    if original == [] then []
    else (if original[0].Envelope? then [original[0]] else []) + WellFormed(original[1..])
  }

  function Successes(original: seq<Raw>, turns: nat -> Turn, i: nat): nat {
    if original == [] then 0
    else (if original[0].Envelope? && turns(i).sent then 1 else 0) + Successes(original[1..], turns, i + 1)
  }

  lemma RetryQueue(l: Ledger, raw: Raw, turn: Turn)
    ensures var l1 := Retry(l, raw, turn);
            l1.queue == l.queue + Requeued(raw, turn) && l1.enabled == l.enabled && l1.capped == l.capped
  {
  }

  lemma TurnCaps(l: Ledger, turn: Turn)
    ensures l.capped <= EmitAll(l, turn.before).capped <= TakeTurn(l, turn).ledger.capped
  {
    var l1 := EmitAll(l, turn.before);
    EmitAllCaps(l, turn.before);
    if turn.lpop.Answered? && l1.queue != [] {
      EmitAllCaps(l1.(queue := l1.queue[1..]), turn.during);
      RetryQueue(EmitAll(l1.(queue := l1.queue[1..]), turn.during), l1.queue[0], turn);
    }
  }

  lemma {:induction false} DrainCaps(l: Ledger, turns: nat -> Turn, i: nat, n: nat)
    ensures l.capped <= DrainFrom(l, turns, i, n).ledger.capped
    decreases n - i
  {
    if i < n {
      TurnCaps(l, turns(i));
      if TakeTurn(l, turns(i)).Popped? {
        DrainCaps(TakeTurn(l, turns(i)).ledger, turns, i + 1, n);
      }
    }
  }

  /** From the pop to the end of the turn; `tail` is the list without the popped entry. */
  lemma HeldUntrimmed(l: Ledger, raw: Raw, tail: seq<Raw>, turn: Turn)
    requires l.enabled && Retry(EmitAll(l.(queue := tail), turn.during), raw, turn).capped == l.capped
    ensures var l2 := Retry(EmitAll(l.(queue := tail), turn.during), raw, turn);
            l2.enabled && l2.queue == tail + Added(turn.during) + Requeued(raw, turn)
  {
    RetryQueue(EmitAll(l.(queue := tail), turn.during), raw, turn);
    EmitAllUntrimmed(l.(queue := tail), turn.during);
  }

  lemma Regroup(rest: seq<Raw>, raw: Raw, turn: Turn)
    ensures rest + Added(turn.before) + Added(turn.during) + Requeued(raw, turn) == rest + Arrived(raw, turn)
  {
  }

  lemma TurnUntrimmed(l: Ledger, raw: Raw, rest: seq<Raw>, turn: Turn)
    requires l.enabled && turn.lpop.Answered? && l.queue == [raw] + rest && TakeTurn(l, turn).ledger.capped == l.capped
    ensures TakeTurn(l, turn).Popped? && TakeTurn(l, turn).raw == raw
    ensures TakeTurn(l, turn).ledger.enabled && TakeTurn(l, turn).ledger.queue == rest + Arrived(raw, turn)
  {
    TurnCaps(l, turn);
    EmitAllUntrimmed(l, turn.before);
    var l1, tail := EmitAll(l, turn.before), rest + Added(turn.before);
    assert l1.queue == [raw] + tail;
    assert l1.queue[0] == raw && l1.queue[1..] == tail;
    HeldUntrimmed(l1, raw, tail, turn);
    Regroup(rest, raw, turn);
  }

  /** What an untrimmed drain does, from the turn of the first of `original` on: `arrived` is behind them
      in the list already. */
  predicate AsPlanned(d: Drained, original: seq<Raw>, arrived: seq<Raw>, turns: nat -> Turn, i: nat) {
    && !d.raised && d.attempted == WellFormed(original) && d.resent == Successes(original, turns, i)
    && d.ledger.queue == arrived + Merged(original, turns, i)
  }

  lemma ConcatAssociates(a: seq<Raw>, b: seq<Raw>, c: seq<Raw>)
    ensures (a + b) + c == a + (b + c)
  {
  }

  lemma CountedAsPlanned(d: Drained, original: seq<Raw>, arrived: seq<Raw>, turns: nat -> Turn, i: nat)
    requires original != []
    requires AsPlanned(d, original[1..], arrived + Arrived(original[0], turns(i)), turns, i + 1)
    ensures AsPlanned(Counted(original[0], turns(i).sent, d), original, arrived, turns, i)
  {
    ConcatAssociates(arrived, Arrived(original[0], turns(i)), Merged(original[1..], turns, i + 1));
  }

  /** If the turns from i on trim nothing, neither does turn i, nor do the later ones. */
  lemma UntrimmedSplits(l: Ledger, turns: nat -> Turn, i: nat, n: nat)
    requires i < n && DrainFrom(l, turns, i, n).ledger.capped == l.capped
    ensures TakeTurn(l, turns(i)).ledger.capped == l.capped
    ensures TakeTurn(l, turns(i)).Popped? ==>
      DrainFrom(TakeTurn(l, turns(i)).ledger, turns, i + 1, n).ledger.capped == l.capped
  {
    TurnCaps(l, turns(i));
    DrainCaps(TakeTurn(l, turns(i)).ledger, turns, i + 1, n);
  }

  lemma {:induction false} DrainUntrimmed(l: Ledger, original: seq<Raw>, arrived: seq<Raw>, turns: nat -> Turn, i: nat)
    requires l.enabled && l.queue == original + arrived
    requires DrainFrom(l, turns, i, i + |original|).ledger.capped == l.capped
    requires forall k | i <= k < i + |original| :: turns(k).lpop.Answered?
    ensures AsPlanned(DrainFrom(l, turns, i, i + |original|), original, arrived, turns, i)
    decreases |original|
  {
    if original == [] {
      assert arrived + [] == arrived;
    } else {
      var raw, rest, n := original[0], original[1..], i + |original|;
      var l2, arrived1 := TakeTurn(l, turns(i)).ledger, arrived + Arrived(raw, turns(i));
      UntrimmedSplits(l, turns, i, n);
      ConcatAssociates([raw], rest, arrived);
      TurnUntrimmed(l, raw, rest + arrived, turns(i));
      ConcatAssociates(rest, arrived, Arrived(raw, turns(i)));
      assert i + 1 + |rest| == n;
      DrainUntrimmed(l2, rest, arrived1, turns, i + 1);
      CountedAsPlanned(DrainFrom(l2, turns, i + 1, n), original, arrived, turns, i);
    }
  }

  // ---- What such a drain delivers ----------------------------------------------------------

  /** The events of these emissions that are sent at once. */
  function SentAtOnce(es: seq<Emission>): seq<Raw> {
    if es == [] then []
    else SentAtOnce(es[..|es| - 1]) + if es[|es| - 1].sent then [Envelope(es[|es| - 1].event)] else []
  }

  function DeliveredInTurn(raw: Raw, turn: Turn): seq<Raw> {
    SentAtOnce(turn.before) + SentAtOnce(turn.during) + if raw.Envelope? && turn.sent then [raw] else []
  }

  /** The originals whose send succeeds, and the new events sent at once, in the order of the turns. */
  function Deliveries(original: seq<Raw>, turns: nat -> Turn, i: nat): seq<Raw> {
    if original == [] then []
    else DeliveredInTurn(original[0], turns(i)) + Deliveries(original[1..], turns, i + 1)
  }

  lemma {:induction false} EmitAllDelivers(l: Ledger, es: seq<Emission>)
    requires l.enabled
    ensures EmitAll(l, es).enabled && EmitAll(l, es).delivered == l.delivered + SentAtOnce(es)
  {
    if es == [] {
      assert l.delivered + [] == l.delivered;
    } else {
      EmitAllDelivers(l, es[..|es| - 1]);
      EmitDelivers(EmitAll(l, es[..|es| - 1]), es[|es| - 1]);
    }
  }

  lemma EmitDelivers(l: Ledger, e: Emission)
    requires l.enabled
    ensures Emit(l, e).enabled
    ensures Emit(l, e).delivered == l.delivered + if e.sent then [Envelope(e.event)] else []
  {
  }

  lemma TurnDelivers(l: Ledger, raw: Raw, turn: Turn)
    requires l.enabled && TakeTurn(l, turn).Popped? && TakeTurn(l, turn).raw == raw
    ensures TakeTurn(l, turn).ledger.enabled
    ensures TakeTurn(l, turn).ledger.delivered == l.delivered + DeliveredInTurn(raw, turn)
  {
    var l1 := EmitAll(l, turn.before);
    var held := l1.(queue := l1.queue[1..]);
    EmitAllDelivers(l, turn.before);
    EmitAllDelivers(held, turn.during);
    RetryDelivers(EmitAll(held, turn.during), raw, turn);
  }

  lemma RetryDelivers(l: Ledger, raw: Raw, turn: Turn)
    ensures var l1 := Retry(l, raw, turn);
            l1.enabled == l.enabled && l1.delivered == l.delivered + if raw.Envelope? && turn.sent then [raw] else []
  {
  }

  lemma {:induction false} DrainDelivers(l: Ledger, original: seq<Raw>, arrived: seq<Raw>, turns: nat -> Turn, i: nat)
    requires l.enabled && l.queue == original + arrived
    requires DrainFrom(l, turns, i, i + |original|).ledger.capped == l.capped
    requires forall k | i <= k < i + |original| :: turns(k).lpop.Answered?
    ensures DrainFrom(l, turns, i, i + |original|).ledger.delivered == l.delivered + Deliveries(original, turns, i)
    decreases |original|
  {
    if original == [] {
      assert l.delivered + [] == l.delivered;
    } else {
      var raw, rest, n := original[0], original[1..], i + |original|;
      var l2 := TakeTurn(l, turns(i)).ledger;
      UntrimmedSplits(l, turns, i, n);
      ConcatAssociates([raw], rest, arrived);
      TurnUntrimmed(l, raw, rest + arrived, turns(i));
      TurnDelivers(l, raw, turns(i));
      ConcatAssociates(rest, arrived, Arrived(raw, turns(i)));
      assert i + 1 + |rest| == n;
      DrainDelivers(l2, rest, arrived + Arrived(raw, turns(i)), turns, i + 1);
      ConcatAssociates(l.delivered, DeliveredInTurn(raw, turns(i)), Deliveries(rest, turns, i + 1));
    }
  }

  /** If no write drops an entry meanwhile, a drain attempts every well-formed entry present at its start
      exactly once and in order, delivers those whose send succeeds, in order, and returns their number, and
      leaves the failed originals and the new entries merged in order. */
  lemma DrainVisitsEachOnce(l: Ledger, turns: nat -> Turn)
    requires l.enabled && Drain(l, true, turns).ledger.capped == l.capped
    requires forall k | 0 <= k < |l.queue| :: turns(k).lpop.Answered?
    ensures var d := Drain(l, true, turns);
            && !d.raised && d.attempted == WellFormed(l.queue) && d.resent == Successes(l.queue, turns, 0)
            && d.ledger.queue == Merged(l.queue, turns, 0)
            && d.ledger.delivered == l.delivered + Deliveries(l.queue, turns, 0)
  {
    assert l.queue + [] == l.queue;
    DrainUntrimmed(l, l.queue, [], turns, 0);
    DrainDelivers(l, l.queue, [], turns, 0);
  }

  // ---- When nothing can be dropped ----------------------------------------------------------

  /** Whatever the turns do, no write can trim the list: there are none, or all of them fit. */
  predicate Room(length: nat, writes: nat) {
    writes == 0 || length + writes <= 10_000
  }

  lemma {:induction false} EmitAllWithRoom(l: Ledger, es: seq<Emission>)
    requires l.enabled && Room(|l.queue|, Writes(es))
    ensures EmitAll(l, es).enabled && EmitAll(l, es).capped == l.capped
    ensures |EmitAll(l, es).queue| <= |l.queue| + Writes(es)
  {
    if es != [] {
      EmitAllWithRoom(l, es[..|es| - 1]);
    }
  }

  lemma TurnWithRoom(l: Ledger, turn: Turn)
    requires l.enabled && Room(|l.queue|, Writes(turn.before) + Writes(turn.during))
    ensures TakeTurn(l, turn).ledger.enabled && TakeTurn(l, turn).ledger.capped == l.capped
    ensures |TakeTurn(l, turn).ledger.queue| <= |l.queue| + Writes(turn.before) + Writes(turn.during)
  {
    var l1 := EmitAll(l, turn.before);
    EmitAllWithRoom(l, turn.before);
    if turn.lpop.Answered? && l1.queue != [] {
      EmitAllWithRoom(l1.(queue := l1.queue[1..]), turn.during);
      RetryQueue(EmitAll(l1.(queue := l1.queue[1..]), turn.during), l1.queue[0], turn);
    }
  }

  lemma {:induction false} RoomMeansUntrimmed(l: Ledger, turns: nat -> Turn, i: nat, n: nat)
    requires l.enabled && Room(|l.queue|, WritesDuring(turns, i, n))
    ensures DrainFrom(l, turns, i, n).ledger.capped == l.capped
    decreases n - i
  {
    if i < n {
      TurnWithRoom(l, turns(i));
      if TakeTurn(l, turns(i)).Popped? {
        RoomMeansUntrimmed(TakeTurn(l, turns(i)).ledger, turns, i + 1, n);
      }
    }
  }

  /** The turn delivers the first entry, and one event arrives while it does. */
  lemma ReplacingTurn(l: Ledger, turn: Turn, e: Emission)
    requires l.enabled && 0 < |l.queue| <= MAX_DEAD_LETTER_ENTRIES && l.queue[0].Envelope?
    requires !e.sent && e.push.Stored? && turn == Turn([], Answered, [e], true, false)
    ensures var taken := TakeTurn(l, turn);
            taken.Popped? && taken.ledger.enabled && taken.ledger.capped == l.capped
  {
    var held := l.(queue := l.queue[1..]);
    assert EmitAll(l, turn.before) == l && EmitAll(held, [e][..0]) == held;
    assert Excess(held.queue + [Envelope(e.event)]) == 0;
    assert (held.queue + [Envelope(e.event)])[..0] == [];
    assert EmitAll(held, turn.during) == Emit(held, e) && Emit(held, e).capped == l.capped;
  }

  /** Room is not necessary: on a full list, one delivered entry makes place for one that arrives. */
  lemma FullListNeedNotTrim(l: Ledger, turns: nat -> Turn, e: Emission)
    requires l.enabled && |l.queue| == MAX_DEAD_LETTER_ENTRIES && l.queue[0].Envelope?
    requires !e.sent && e.push.Stored? && turns(0) == Turn([], Answered, [e], true, false)
    requires forall j | 1 <= j < |l.queue| :: turns(j) == Turn([], Answered, [], true, false)
    ensures !Room(|l.queue|, WritesDuring(turns, 0, |l.queue|))
    ensures Drain(l, true, turns).ledger.capped == l.capped
  {
    NoLaterWrites(turns, 1, |l.queue|);
    OneWriteInAll(turns, e, |l.queue|);
    ReplacingTurn(l, turns(0), e);
    RoomMeansUntrimmed(TakeTurn(l, turns(0)).ledger, turns, 1, |l.queue|);
  }

  lemma OneWriteInAll(turns: nat -> Turn, e: Emission, n: nat)
    requires n > 0 && !e.sent && turns(0).before == [] && turns(0).during == [e] && WritesDuring(turns, 1, n) == 0
    ensures WritesDuring(turns, 0, n) == 1
  {
    assert [e][..0] == [];
    assert Writes([e]) == 1;
  }

  // ---- When trimming breaks that promise ----------------------------------------------------

  predicate AllNew(original: seq<Raw>, es: seq<Emission>) {
    forall i | 0 <= i < |es| :: Envelope(es[i].event) !in original
  }

  /** `turns` interleaves only new events with the drain of `original`, and every LPOP works. */
  predicate OrdinaryTurns(original: seq<Raw>, turns: nat -> Turn) {
    forall k | 0 <= k < |original| ::
      turns(k).lpop.Answered? && AllNew(original, turns(k).before) && AllNew(original, turns(k).during)
  }

  predicate DistinctEvents(q: seq<Raw>) {
    && (forall i | 0 <= i < |q| :: q[i].Envelope?)
    && (forall i, j | 0 <= i < j < |q| :: q[i] != q[j])
  }

  /** Draining a list of `length` distinct events during which at most `writes` others are written
      never attempts one of its entries twice. */
  ghost predicate NeverTwice(length: nat, writes: nat) {
    forall l: Ledger, turns: nat -> Turn
      | l.enabled && |l.queue| == length && DistinctEvents(l.queue) && OrdinaryTurns(l.queue, turns)
        && WritesDuring(turns, 0, length) <= writes ::
      forall raw | raw in l.queue :: multiset(Drain(l, true, turns).attempted)[raw] <= 1
  }

  lemma {:induction false} AllWellFormed(q: seq<Raw>)
    requires forall i | 0 <= i < |q| :: q[i].Envelope?
    ensures WellFormed(q) == q
  {
    if q != [] {
      AllWellFormed(q[1..]);
      assert q == [q[0]] + q[1..];
    }
  }

  lemma {:induction false} DistinctOnce(q: seq<Raw>, raw: Raw)
    requires forall i, j | 0 <= i < j < |q| :: q[i] != q[j]
    ensures multiset(q)[raw] <= 1
  {
    if q != [] {
      var rest := q[1..];
      DistinctOnce(rest, raw);
      assert q == [q[0]] + rest && q[0] !in rest;
      assert multiset(q)[raw] == multiset(rest)[raw] + (if raw == q[0] then 1 else 0);
    }
  }

  lemma {:induction false} AttemptsPerTurn(l: Ledger, turns: nat -> Turn, i: nat, n: nat)
    requires i <= n
    ensures |DrainFrom(l, turns, i, n).attempted| <= n - i
    decreases n - i
  {
    if i < n && TakeTurn(l, turns(i)).Popped? {
      AttemptsPerTurn(TakeTurn(l, turns(i)).ledger, turns, i + 1, n);
    }
  }

  function Last(s: seq<Raw>): seq<Raw> {
    s[Excess(s)..]
  }

  /** The emissions all fail to send and are all stored. */
  predicate AllStored(es: seq<Emission>) {
    forall i | 0 <= i < |es| :: !es[i].sent && es[i].push.Stored?
  }

  lemma {:induction false} StoredAreAdded(es: seq<Emission>)
    requires AllStored(es)
    ensures Writes(es) == |es| == |Added(es)|
  {
    if es != [] {
      StoredAreAdded(es[..|es| - 1]);
    }
  }

  lemma LastAppend(q: seq<Raw>, raw: Raw)
    ensures Last(Last(q) + [raw]) == Last(q + [raw])
  {
  }

  lemma {:induction false} EmitAllTrims(l: Ledger, es: seq<Emission>)
    requires l.enabled && es != [] && AllStored(es)
    ensures EmitAll(l, es).enabled && EmitAll(l, es).queue == Last(l.queue + Added(es))
  {
    var before, raw := es[..|es| - 1], Envelope(es[|es| - 1].event);
    if before == [] {
      assert EmitAll(l, before) == l && Added(before) == [];
    } else {
      EmitAllTrims(l, before);
      LastAppend(l.queue + Added(before), raw);
    }
    assert l.queue + Added(es) == (l.queue + Added(before)) + [raw];
  }

  /** With nothing arriving and every send working, the turns attempt the list from the front. */
  lemma {:induction false} SendingTurns(l: Ledger, turns: nat -> Turn, i: nat, n: nat, k: nat)
    requires forall j | i <= j < n :: turns(j) == Turn([], Answered, [], true, false)
    requires k < |l.queue| && i + k < n && l.queue[k].Envelope?
    ensures l.queue[k] in DrainFrom(l, turns, i, n).attempted
    decreases k
  {
    if k > 0 {
      SendingTurns(TakeTurn(l, turns(i)).ledger, turns, i + 1, n, k - 1);
    }
  }

  /** The first entry fails and goes to the back; then just enough events arrive to push the oldest out;
      from there every send works, and the drain gets to the first entry again. */
  function OverflowTurns(length: nat, arriving: nat): nat -> Turn {
    (i: nat) =>
      if i == 0 then Turn([], Answered, [], false, true)
      else if i == 1 then Turn(NewEvents(length, arriving), Answered, [], true, false)
      else Turn([], Answered, [], true, false)
  }

  function Events(n: nat): seq<Raw> {
    seq(n, (i: nat) => Envelope(i))
  }

  function NewEvents(from: nat, n: nat): seq<Emission> {
    seq(n, (i: nat) => Emission(from + i, false, Stored))
  }

  lemma OverflowTurnsAreOrdinary(length: nat, arriving: nat)
    requires length >= 2 && arriving > 0
    ensures var turns := OverflowTurns(length, arriving);
            WritesDuring(turns, 0, length) == arriving && OrdinaryTurns(Events(length), turns)
  {
    var turns := OverflowTurns(length, arriving);
    NoLaterWrites(turns, 2, length);
    StoredAreAdded(NewEvents(length, arriving));
    assert WritesDuring(turns, 1, length) == arriving;
  }

  /** The first turn moves the first entry to the back. */
  lemma FirstTurn(l: Ledger, turn: Turn, length: nat)
    requires length >= 2 && l.enabled && l.queue == Events(length) && turn == Turn([], Answered, [], false, true)
    ensures var taken := TakeTurn(l, turn);
            taken.Popped? && taken.raw == Envelope(0) && taken.ledger.enabled
            && taken.ledger.queue == Events(length)[1..] + [Envelope(0)]
  {
    assert EmitAll(l, []) == l;
  }

  lemma OverflowAttemptsTwice(l: Ledger, length: nat, arriving: nat)
    requires length >= 2 && l.enabled && l.queue == Events(length)
    requires 0 < arriving < MAX_DEAD_LETTER_ENTRIES && MAX_DEAD_LETTER_ENTRIES < length + arriving
    ensures multiset(Drain(l, true, OverflowTurns(length, arriving)).attempted)[Envelope(0)] >= 2
  {
    var turns := OverflowTurns(length, arriving);
    FirstTurn(l, turns(0), length);
    var l1 := TakeTurn(l, turns(0)).ledger;
    StoredAreAdded(turns(1).before);
    EmitAllTrims(l1, turns(1).before);
    var all := l1.queue + Added(turns(1).before);
    var at := MAX_DEAD_LETTER_ENTRIES - 1 - arriving;
    assert |all| == length + arriving && all[length - 1] == Envelope(0);
    assert Last(all)[at] == Envelope(0);
    SecondVisit(l1, turns, length, at);
    var later := DrainFrom(l1, turns, 1, length).attempted;
    assert Drain(l, true, turns).attempted == [Envelope(0)] + later;
    assert multiset(later)[Envelope(0)] >= 1;
  }

  lemma SecondVisit(l1: Ledger, turns: nat -> Turn, length: nat, at: nat)
    requires length >= 2 && at < length - 1
    requires turns(1).lpop.Answered? && turns(1).sent && turns(1).during == []
    requires forall j | 2 <= j < length :: turns(j) == Turn([], Answered, [], true, false)
    requires var q := EmitAll(l1, turns(1).before).queue; at < |q| && q[at].Envelope?
    ensures EmitAll(l1, turns(1).before).queue[at] in DrainFrom(l1, turns, 1, length).attempted
  {
    var q, l2 := EmitAll(l1, turns(1).before).queue, TakeTurn(l1, turns(1)).ledger;
    if at > 0 {
      assert l2.queue == q[1..];
      SendingTurns(l2, turns, 2, length, at - 1);
    }
  }

  /** "Each entry at most once per call" holds exactly when the list has at most one entry, or nothing is
      written meanwhile, or all of it fits below the cap. */
  lemma NeverTwiceIffRoom(length: nat, writes: nat)
    ensures NeverTwice(length, writes) <==> length <= 1 || Room(length, writes)
  {
    if length <= 1 || Room(length, writes) {
      forall l: Ledger, turns: nat -> Turn, raw
        | l.enabled && |l.queue| == length && DistinctEvents(l.queue) && OrdinaryTurns(l.queue, turns)
          && WritesDuring(turns, 0, length) <= writes && raw in l.queue
        ensures multiset(Drain(l, true, turns).attempted)[raw] <= 1
      {
        if length <= 1 {
          AttemptsPerTurn(l, turns, 0, length);
        } else {
          RoomMeansUntrimmed(l, turns, 0, length);
          DrainVisitsEachOnce(l, turns);
          AllWellFormed(l.queue);
          DistinctOnce(l.queue, raw);
        }
      }
    } else {
      var arriving := if length >= MAX_DEAD_LETTER_ENTRIES then 1 else MAX_DEAD_LETTER_ENTRIES - length + 1;
      var l := Ledger(true, Events(length), [], [], [], [], []);
      OverflowTurnsAreOrdinary(length, arriving);
      OverflowAttemptsTwice(l, length, arriving);
      assert l.queue[0] == Envelope(0) && DistinctEvents(l.queue);
    }
  }
}
