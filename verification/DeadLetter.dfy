/** The analytics dead-letter queue: backend/app/analytics/dead_letter.py and the emit path of
    backend/app/analytics/events.py. */
module DeadLetter {
  import opened Prelude

  const MAX_DEAD_LETTER_ENTRIES: nat := 10_000

  /** A list member: the JSON of an envelope (one per emitted event), or text that does not parse. */
  datatype Raw = Envelope(event: nat) | Malformed(text: string)

  /** How far a write to the queue gets: RPUSH and LTRIM, RPUSH only, or nothing. */
  datatype Push = Stored | StoredUntrimmed | NotStored

  datatype Emission = Emission(event: nat, sent: bool, push: Push)

  /** The Redis list, and where every event emitted while analytics was enabled has gone. */
  datatype Ledger = Ledger(
    enabled: bool,
    queue: seq<Raw>,
    emitted: seq<Raw>,
    delivered: seq<Raw>,
    capped: seq<Raw>,
    lost: seq<Raw>,
    discarded: seq<Raw>)

  function Excess(q: seq<Raw>): (n: nat)
    ensures n <= |q|
  {
    if |q| > MAX_DEAD_LETTER_ENTRIES then |q| - MAX_DEAD_LETTER_ENTRIES else 0
  }

  function PushToDeadLetter(l: Ledger, raw: Raw, push: Push): Ledger {
    match push
    case NotStored => l.(lost := l.lost + [raw])
    case StoredUntrimmed => l.(queue := l.queue + [raw])
    case Stored =>
      var q := l.queue + [raw];
      l.(queue := q[Excess(q)..], capped := l.capped + q[..Excess(q)])
  }

  function Emit(l: Ledger, e: Emission): Ledger {
    if !l.enabled then l
    else
      var l1 := l.(emitted := l.emitted + [Envelope(e.event)]);
      if e.sent then l1.(delivered := l1.delivered + [Envelope(e.event)])
      else PushToDeadLetter(l1, Envelope(e.event), e.push)
  }

  function EmitAll(l: Ledger, es: seq<Emission>): Ledger {
    if es == [] then l else Emit(EmitAll(l, es[..|es| - 1]), es[|es| - 1])
  }

  /** One turn of the drain loop: what other requests emit before its LPOP, the fate of that command, what
      they emit while it sends, whether the send succeeds, and whether a failed entry gets back. */
  datatype Turn = Turn(before: seq<Emission>, lpop: Fate, during: seq<Emission>, sent: bool, requeued: bool)

  /** `raised`: LPOP is outside any handler, so its failure ends the drain with an exception. */
  datatype Drained = Drained(ledger: Ledger, resent: nat, attempted: seq<Raw>, raised: bool)

  /** What one turn does with the entry it has popped. */
  function Retry(l: Ledger, raw: Raw, turn: Turn): Ledger {
    if raw.Malformed? then l.(discarded := l.discarded + [raw])
    else if turn.sent then l.(delivered := l.delivered + [raw])
    else if turn.requeued then l.(queue := l.queue + [raw])
    else l.(lost := l.lost + [raw])
  }

  /** How a turn ends: LPOP raised, the list was empty, or an entry was popped and dealt with. */
  datatype Taken = LpopRaised(ledger: Ledger) | ListEmpty(ledger: Ledger) | Popped(ledger: Ledger, raw: Raw)

  /** An LPOP whose answer does not arrive: the entry is out of the list and in nobody's hands. */
  function HeadLost(l: Ledger): Ledger {
    if l.queue == [] then l else l.(queue := l.queue[1..], lost := l.lost + [l.queue[0]])
  }

  function TakeTurn(l: Ledger, turn: Turn): Taken {
    var l1 := EmitAll(l, turn.before);
    if !turn.lpop.Answered? then LpopRaised(if turn.lpop.Unanswered? then HeadLost(l1) else l1)
    else if l1.queue == [] then ListEmpty(l1)
    else Popped(Retry(EmitAll(l1.(queue := l1.queue[1..]), turn.during), l1.queue[0], turn), l1.queue[0])
  }

  /** The result of the turns from one that popped `raw` on, given the result of the later ones. */
  function Counted(raw: Raw, sent: bool, d: Drained): Drained {
    if raw.Malformed? then d
    else d.(attempted := [raw] + d.attempted, resent := (if sent then 1 else 0) + d.resent)
  }

  /** Turns i to n - 1. */
  function DrainFrom(l: Ledger, turns: nat -> Turn, i: nat, n: nat): Drained
    decreases n - i
  {
    if i >= n then Drained(l, 0, [], false)
    else match TakeTurn(l, turns(i))
      case LpopRaised(l1) => Drained(l1, 0, [], true)
      case ListEmpty(l1) => Drained(l1, 0, [], false)
      case Popped(l2, raw) => Counted(raw, turns(i).sent, DrainFrom(l2, turns, i + 1, n))
  }

  /** retry_dead_letter: as many turns as the list is long at the start. */
  function Drain(l: Ledger, lengthRead: bool, turns: nat -> Turn): Drained {
    if !l.enabled || !lengthRead then Drained(l, 0, [], false) else DrainFrom(l, turns, 0, |l.queue|)
  }

  // ---- The service -----------------------------------------------------------------------

  class AnalyticsQueue {
    var enabled: bool
    var queue: seq<Raw>
    ghost var emitted: seq<Raw>
    ghost var delivered: seq<Raw>
    ghost var capped: seq<Raw>
    ghost var lost: seq<Raw>
    ghost var discarded: seq<Raw>

    ghost function Contents(): Ledger
      reads this
    {
      Ledger(enabled, queue, emitted, delivered, capped, lost, discarded)
    }

    constructor (enabled: bool)
      ensures Contents() == Ledger(enabled, [], [], [], [], [], [])
    {
      this.enabled, queue := enabled, [];
      emitted, delivered, capped, lost, discarded := [], [], [], [], [];
    }

    method Push(raw: Raw, push: Push)
      modifies this
      ensures Contents() == PushToDeadLetter(old(Contents()), raw, push)
    {
      if push.NotStored? {
        lost := lost + [raw];
        return;
      }
      queue := queue + [raw];
      if push.StoredUntrimmed? {
        return;
      }
      if |queue| > MAX_DEAD_LETTER_ENTRIES {
        capped := capped + queue[..|queue| - MAX_DEAD_LETTER_ENTRIES];
        queue := queue[|queue| - MAX_DEAD_LETTER_ENTRIES..];
      }
    }

    method EmitEvent(e: Emission)
      modifies this
      ensures Contents() == Emit(old(Contents()), e)
    {
      if !enabled {
        return;
      }
      emitted := emitted + [Envelope(e.event)];
      if e.sent {
        delivered := delivered + [Envelope(e.event)];
      } else {
        Push(Envelope(e.event), e.push);
      }
    }

    /** Emissions of other requests between two commands of a drain. */
    method Interleave(es: seq<Emission>)
      modifies this
      ensures Contents() == EmitAll(old(Contents()), es)
    {
      for i := 0 to |es|
        invariant Contents() == EmitAll(old(Contents()), es[..i])
      {
        EmitEvent(es[i]);
        assert es[..i + 1][..i] == es[..i];
      }
      assert es[..|es|] == es;
    }

    /** One turn: LPOP, then send, then maybe RPUSH. */
    method PopAndRetry(turn: Turn) returns (taken: Option<Raw>, raised: bool)
      modifies this
      ensures match TakeTurn(old(Contents()), turn)
              case LpopRaised(l) => Contents() == l && taken == None && raised
              case ListEmpty(l) => Contents() == l && taken == None && !raised
              case Popped(l, raw) => Contents() == l && taken == Some(raw) && !raised
    {
      Interleave(turn.before);
      if !turn.lpop.Answered? {
        if turn.lpop.Unanswered? && queue != [] {
          lost := lost + [queue[0]];
          queue := queue[1..];
        }
        return None, true;
      }
      if queue == [] {
        return None, false;
      }
      var raw := queue[0];
      queue := queue[1..];
      Interleave(turn.during);
      if raw.Malformed? {
        discarded := discarded + [raw];
      } else if turn.sent {
        delivered := delivered + [raw];
      } else if turn.requeued {
        queue := queue + [raw];
      } else {
        lost := lost + [raw];
      }
      return Some(raw), false;
    }

    method RetryDeadLetter(lengthRead: bool, turns: nat -> Turn)
      returns (resent: nat, ghost attempted: seq<Raw>, raised: bool)
      modifies this
      ensures Drained(Contents(), resent, attempted, raised) == Drain(old(Contents()), lengthRead, turns)
    {
      resent, attempted, raised := 0, [], false;
      if !enabled || !lengthRead {
        return;
      }
      var pending := |queue|;
      ghost var all := DrainFrom(Contents(), turns, 0, pending);
      var i := 0;
      while i < pending
        invariant 0 <= i <= pending
        invariant all == Joined(resent, attempted, DrainFrom(Contents(), turns, i, pending))
      {
        ghost var before := Contents();
        var taken, broken := PopAndRetry(turns(i));
        if taken.None? {
          return resent, attempted, broken;
        }
        JoinedCounted(resent, attempted, taken.value, turns(i).sent, DrainFrom(Contents(), turns, i + 1, pending));
        if taken.value.Envelope? {
          attempted := attempted + [taken.value];
          if turns(i).sent {
            resent := resent + 1;
          }
        }
        i := i + 1;
      }
    }
  }

  /** Earlier turns sent `resent` entries and attempted `attempted`; `d` is what the later ones do. */
  function Joined(resent: nat, attempted: seq<Raw>, d: Drained): Drained {
    d.(resent := resent + d.resent, attempted := attempted + d.attempted)
  }

  lemma JoinedCounted(resent: nat, attempted: seq<Raw>, raw: Raw, sent: bool, d: Drained)
    ensures Joined(resent, attempted, Counted(raw, sent, d)) ==
      if raw.Malformed? then Joined(resent, attempted, d)
      else Joined(resent + (if sent then 1 else 0), attempted + [raw], d)
  {
    assert attempted + ([raw] + d.attempted) == attempted + [raw] + d.attempted;
  }
}
