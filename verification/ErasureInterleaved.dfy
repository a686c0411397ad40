/** Purge jobs whose transactions interleave: several workers, possibly on the same user, each
    loading the row, committing the id and committing the purge in separate steps. */
module ErasureInterleaved {
  import opened Prelude
  import opened Database
  import opened Erasure
  import opened ErasureRuns

  /** Where a worker is: not started, holding a digest it has not committed yet, or holding
      the id it will erase with. */
  datatype Phase = Begin | Derived(id: string) | Ready(id: string)

  datatype Worker = Worker(uid: Id, phase: Phase)

  datatype World = World(tables: Tables, workers: seq<Worker>)

  /** `Load` reads the row (and the secret of that worker process), the two commits are atomic, and
      `Die` is a crash; a dead job is delivered again. */
  datatype Move = Load(i: nat, secret: string) | CommitId(i: nat) | CommitPurge(i: nat) | Die(i: nat)

  function SetPhase(w: World, i: nat, phase: Phase): World
    requires i < |w.workers|
  {
    w.(workers := w.workers[i := w.workers[i].(phase := phase)])
  }

  function Apply(w: World, hmac: Hmac, m: Move): World {
    if m.i >= |w.workers| then w else
    var worker := w.workers[m.i];
    match (m, worker.phase)
    case (Load(i, secret), Begin) =>
      if worker.uid !in w.tables.users then w
      else if HasAnonymousId(w.tables.users[worker.uid]) then
        SetPhase(w, i, Ready(w.tables.users[worker.uid].anonymousId.value))
      else if secret == "" then w
      else SetPhase(w, i, Derived(hmac(secret, worker.uid)))
    case (CommitId(i), Derived(id)) =>
      if worker.uid !in w.tables.users then w
      else SetPhase(w, i, Ready(id)).(tables := StoreAnonymousId(w.tables, worker.uid, id))
    case (CommitPurge(i), Ready(id)) =>
      if worker.uid !in w.tables.users then w
      else SetPhase(w, i, Begin).(tables := SecondTransaction(w.tables, worker.uid, id, NoFault).0)
    case (Die(i), _) => SetPhase(w, i, Begin)
    case (_, _) => w
  }

  function Exec(w: World, hmac: Hmac, moves: seq<Move>): World
    decreases |moves|
  {
    if moves == [] then w else Exec(Apply(w, hmac, moves[0]), hmac, moves[1..])
  }

  /** A worker whose load and two commits have nothing in between leaves what one uninterrupted attempt
      leaves. */
  lemma UninterruptedMoves(w: World, hmac: Hmac, i: nat, secret: string)
    requires FullLengthDigests(hmac) && i < |w.workers| && w.workers[i].phase.Begin?
    ensures var loaded := Apply(w, hmac, Load(i, secret));
            var stored := Apply(loaded, hmac, CommitId(i));
            var end := Apply(stored, hmac, CommitPurge(i));
            end.tables == Attempt(w.tables, w.workers[i].uid, hmac, secret, NoFault).0
  {
    assert |hmac(secret, w.workers[i].uid)| == 64;
  }

  predicate AllBegin(w: World) {
    forall i | 0 <= i < |w.workers| :: w.workers[i].phase.Begin?
  }

  predicate SecretsFrom(moves: seq<Move>, secrets: set<string>) {
    forall k | 0 <= k < |moves| :: moves[k].Load? ==> moves[k].secret in secrets
  }

  /** The secrets in use all give the same digests: the secret was not changed between attempts. */
  ghost predicate Agree(hmac: Hmac, secrets: set<string>) {
    forall s, r, u: Id | s in secrets && r in secrets && s != "" && r != "" :: hmac(s, u) == hmac(r, u)
  }

  ghost predicate Canonical(hmac: Hmac, secrets: set<string>, u: Id, id: string) {
    exists s :: s in secrets && s != "" && id == hmac(s, u)
  }

  /** What a worker holds fits the tables. */
  ghost predicate Fits(t0: Tables, tables: Tables, hmac: Hmac, secrets: set<string>, worker: Worker) {
    match worker.phase
    case Begin => true
    case Derived(id) =>
      worker.uid in t0.users && !HasAnonymousId(t0.users[worker.uid]) && Canonical(hmac, secrets, worker.uid, id)
    case Ready(id) =>
      && worker.uid in t0.users && worker.uid in tables.users
      && id != "" && tables.users[worker.uid].anonymousId == Some(id)
  }

  /** The tables are in the closed form of a serial run, and every id a worker holds is the one
      that form gives its user, or will. */
  ghost predicate Coherent(t0: Tables, p: Progress, hmac: Hmac, secrets: set<string>, w: World) {
    && Plausible(t0, p)
    && w.tables == Closed(t0, p)
    && (forall u | u in p.ids :: Canonical(hmac, secrets, u, p.ids[u]))
    && (forall i | 0 <= i < |w.workers| :: Fits(t0, w.tables, hmac, secrets, w.workers[i]))
  }

  lemma FollowCommitId(t0: Tables, p: Progress, hmac: Hmac, secrets: set<string>, tables: Tables, uid: Id, id: string)
    returns (q: Progress)
    requires FullLengthDigests(hmac) && Agree(hmac, secrets) && Plausible(t0, p) && tables == Closed(t0, p)
    requires forall u | u in p.ids :: Canonical(hmac, secrets, u, p.ids[u])
    requires Fits(t0, tables, hmac, secrets, Worker(uid, Derived(id)))
    ensures Plausible(t0, q) && StoreAnonymousId(tables, uid, id) == Closed(t0, q)
    ensures q == p.(ids := p.ids[uid := id])
    ensures forall u | u in q.ids :: Canonical(hmac, secrets, u, q.ids[u])
    ensures forall worker | Fits(t0, tables, hmac, secrets, worker) :: Fits(t0, Closed(t0, q), hmac, secrets, worker)
    ensures Fits(t0, Closed(t0, q), hmac, secrets, Worker(uid, Ready(id)))
  {
    q := p.(ids := p.ids[uid := id]);
    StoreClosed(t0, p, uid, id);
    forall worker | Fits(t0, tables, hmac, secrets, worker)
      ensures Fits(t0, Closed(t0, q), hmac, secrets, worker)
    {
      if worker.phase.Ready? && worker.uid == uid {
        assert uid in p.ids && p.ids[uid] == worker.phase.id;
      }
    }
  }

  lemma FollowCommitPurge(
      t0: Tables, p: Progress, hmac: Hmac, secrets: set<string>, tables: Tables, uid: Id, id: string)
    returns (q: Progress)
    requires Plausible(t0, p) && tables == Closed(t0, p)
    requires Fits(t0, tables, hmac, secrets, Worker(uid, Ready(id)))
    ensures Plausible(t0, q) && PurgeRows(tables, uid, id) == Closed(t0, q)
    ensures q == p.(erased := p.erased + {uid})
    ensures forall worker | Fits(t0, tables, hmac, secrets, worker) :: Fits(t0, Closed(t0, q), hmac, secrets, worker)
  {
    q := p.(erased := p.erased + {uid});
    PurgeClosed(t0, p, uid, id);
  }

  /** The move commits a purge. */
  predicate CommitsPurge(w: World, m: Move) {
    && m.CommitPurge? && m.i < |w.workers|
    && w.workers[m.i].phase.Ready? && w.workers[m.i].uid in w.tables.users
    && AddressFree(w.tables.users, w.workers[m.i].uid, ErasedEmail(w.workers[m.i].phase.id))
  }

  lemma CoherentAfter(t0: Tables, q: Progress, hmac: Hmac, secrets: set<string>, w: World, i: nat, phase: Phase,
                      tables: Tables)
    requires i < |w.workers| && Plausible(t0, q) && tables == Closed(t0, q)
    requires forall u | u in q.ids :: Canonical(hmac, secrets, u, q.ids[u])
    requires forall j | 0 <= j < |w.workers| :: Fits(t0, tables, hmac, secrets, w.workers[j])
    requires Fits(t0, tables, hmac, secrets, w.workers[i].(phase := phase))
    ensures Coherent(t0, q, hmac, secrets, SetPhase(w, i, phase).(tables := tables))
  {
  }

  lemma FollowLoad(t0: Tables, p: Progress, hmac: Hmac, secrets: set<string>, w: World, m: Move)
    requires Coherent(t0, p, hmac, secrets, w) && m.Load? && m.secret in secrets && FullLengthDigests(hmac)
    requires m.i < |w.workers| && w.workers[m.i].phase.Begin? && w.workers[m.i].uid in w.tables.users
    ensures Coherent(t0, p, hmac, secrets, Apply(w, hmac, m))
  {
    var uid := w.workers[m.i].uid;
    assert uid in t0.users;
    if HasAnonymousId(w.tables.users[uid]) {
      CoherentAfter(t0, p, hmac, secrets, w, m.i, Ready(w.tables.users[uid].anonymousId.value), w.tables);
    } else if m.secret != "" {
      assert Canonical(hmac, secrets, uid, hmac(m.secret, uid));
      CoherentAfter(t0, p, hmac, secrets, w, m.i, Derived(hmac(m.secret, uid)), w.tables);
    }
  }

  lemma Follow(t0: Tables, p: Progress, hmac: Hmac, secrets: set<string>, w: World, m: Move)
    returns (q: Progress)
    requires FullLengthDigests(hmac) && Agree(hmac, secrets) && Coherent(t0, p, hmac, secrets, w)
    requires m.Load? ==> m.secret in secrets
    ensures Coherent(t0, q, hmac, secrets, Apply(w, hmac, m))
    ensures p.ids.Keys <= q.ids.Keys && p.erased <= q.erased
    ensures CommitsPurge(w, m) ==> w.workers[m.i].uid in q.erased
  {
    q := p;
    if m.i < |w.workers| {
      var uid, phase := w.workers[m.i].uid, w.workers[m.i].phase;
      assert Fits(t0, w.tables, hmac, secrets, w.workers[m.i]) && w.workers[m.i] == Worker(uid, phase);
      if m.Die? {
        CoherentAfter(t0, p, hmac, secrets, w, m.i, Begin, w.tables);
      } else if m.Load? && phase.Begin? && uid in w.tables.users {
        FollowLoad(t0, p, hmac, secrets, w, m);
      } else if m.CommitId? && phase.Derived? {
        q := FollowCommitId(t0, p, hmac, secrets, w.tables, uid, phase.id);
        CoherentAfter(t0, q, hmac, secrets, w, m.i, Ready(phase.id), Closed(t0, q));
      } else if m.CommitPurge? && phase.Ready? {
        if CommitsPurge(w, m) {
          q := FollowCommitPurge(t0, p, hmac, secrets, w.tables, uid, phase.id);
        }
        CoherentAfter(t0, q, hmac, secrets, w, m.i, Begin, Closed(t0, q));
      }
    }
  }

  /** While the secret stays the same, any interleaving leaves the tables of some serial run. */
  lemma {:induction false} InterleavedRunIsClosed(
      t0: Tables, p: Progress, hmac: Hmac, secrets: set<string>, w: World, moves: seq<Move>)
    returns (q: Progress)
    requires FullLengthDigests(hmac) && Agree(hmac, secrets) && Coherent(t0, p, hmac, secrets, w)
    requires SecretsFrom(moves, secrets)
    ensures Coherent(t0, q, hmac, secrets, Exec(w, hmac, moves))
    ensures p.ids.Keys <= q.ids.Keys && p.erased <= q.erased
    decreases |moves|
  {
    q := p;
    if moves != [] {
      q := Follow(t0, p, hmac, secrets, w, moves[0]);
      q := InterleavedRunIsClosed(t0, q, hmac, secrets, Apply(w, hmac, moves[0]), moves[1..]);
    }
  }

  /** Once any worker has committed its purge of a user, the rows of that user are, and stay, those
      of one uninterrupted purge with the first stored id. */
  lemma InterleavedErasureConverges(
      hmac: Hmac, secrets: set<string>, w: World, before: seq<Move>, m: Move, after: seq<Move>, uid: Id)
    requires FullLengthDigests(hmac) && Agree(hmac, secrets) && AllBegin(w)
    requires SecretsFrom(before + [m] + after, secrets)
    requires CommitsPurge(Exec(w, hmac, before), m) && Exec(w, hmac, before).workers[m.i].uid == uid
    ensures AsPurgedOnce(w.tables, Exec(Apply(Exec(w, hmac, before), hmac, m), hmac, after).tables, uid)
  {
    var t0, all := w.tables, before + [m] + after;
    assert forall k | 0 <= k < |before| :: before[k] == all[k];
    assert forall k | 0 <= k < |after| :: after[k] == all[|before| + 1 + k];
    assert all[|before|] == m;
    ClosedNothing(t0);
    var p := InterleavedRunIsClosed(t0, NOTHING_YET, hmac, secrets, w, before);
    p := Follow(t0, p, hmac, secrets, Exec(w, hmac, before), m);
    p := InterleavedRunIsClosed(t0, p, hmac, secrets, Apply(Exec(w, hmac, before), hmac, m), after);
    ClosedAsPurgedOnce(t0, p, uid);
  }

  predicate IdsKept(before: Tables, after: Tables) {
    forall u | u in before.users && HasAnonymousId(before.users[u]) ::
      u in after.users && after.users[u].anonymousId == before.users[u].anonymousId
  }

  /** In every interleaving with these secrets, every committed id stays what it is. */
  ghost predicate IdsStable(hmac: Hmac, secrets: set<string>) {
    forall w: World, before: seq<Move>, after: seq<Move>
      | AllBegin(w) && SecretsFrom(before, secrets) && SecretsFrom(after, secrets) ::
      IdsKept(Exec(w, hmac, before).tables, Exec(Exec(w, hmac, before), hmac, after).tables)
  }

  /** Two closed forms of one start keep the ids of the first if they are made from one secret. */
  lemma ClosedKeepsIds(t0: Tables, p: Progress, q: Progress, hmac: Hmac, secrets: set<string>)
    requires Agree(hmac, secrets) && Plausible(t0, p) && Plausible(t0, q) && p.ids.Keys <= q.ids.Keys
    requires forall u | u in p.ids :: Canonical(hmac, secrets, u, p.ids[u])
    requires forall u | u in q.ids :: Canonical(hmac, secrets, u, q.ids[u])
    ensures IdsKept(Closed(t0, p), Closed(t0, q))
  {
    forall u | u in p.ids ensures q.ids[u] == p.ids[u] {
      assert Canonical(hmac, secrets, u, p.ids[u]) && Canonical(hmac, secrets, u, q.ids[u]);
    }
  }

  lemma SameSecretKeepsIds(hmac: Hmac, secrets: set<string>, w: World, before: seq<Move>, after: seq<Move>)
    requires FullLengthDigests(hmac) && Agree(hmac, secrets)
    requires AllBegin(w) && SecretsFrom(before, secrets) && SecretsFrom(after, secrets)
    ensures IdsKept(Exec(w, hmac, before).tables, Exec(Exec(w, hmac, before), hmac, after).tables)
  {
    var t0 := w.tables;
    ClosedNothing(t0);
    var p := InterleavedRunIsClosed(t0, NOTHING_YET, hmac, secrets, w, before);
    var q := InterleavedRunIsClosed(t0, p, hmac, secrets, Exec(w, hmac, before), after);
    ClosedKeepsIds(t0, p, q, hmac, secrets);
  }

  lemma ExecThree(w: World, hmac: Hmac, a: Move, b: Move, c: Move)
    ensures Exec(w, hmac, [a, b, c]) == Apply(Apply(Apply(w, hmac, a), hmac, b), hmac, c)
  {
    assert [a, b, c][1..] == [b, c] && [b, c][1..] == [c];
    assert Exec(w, hmac, [a, b, c]) == Exec(Apply(w, hmac, a), hmac, [b, c]);
    assert Exec(Apply(w, hmac, a), hmac, [b, c]) == Exec(Apply(Apply(w, hmac, a), hmac, b), hmac, [c]);
  }

  /** Two workers for one user, started together. */
  predicate Racing(w: World, u: Id) {
    w.workers == [Worker(u, Begin), Worker(u, Begin)] && u in w.tables.users && w.tables.users[u].anonymousId.None?
  }

  /** Both load the user before either commits; the second commit overwrites the first. */
  lemma RaceOverwrites(hmac: Hmac, w: World, s: string, r: string, u: Id)
    requires Racing(w, u) && s != "" && r != "" && hmac(s, u) != hmac(r, u) && hmac(s, u) != ""
    ensures var w3 := Apply(Apply(Apply(w, hmac, Load(0, s)), hmac, Load(1, r)), hmac, CommitId(0));
            !IdsKept(w3.tables, Apply(w3, hmac, CommitId(1)).tables)
  {
    var w2 := Apply(Apply(w, hmac, Load(0, s)), hmac, Load(1, r));
    assert w2.tables == w.tables && w2.workers == [Worker(u, Derived(hmac(s, u))), Worker(u, Derived(hmac(r, u)))];
    var w3 := Apply(w2, hmac, CommitId(0));
    assert w3.tables.users[u].anonymousId == Some(hmac(s, u)) && w3.workers[1] == w2.workers[1];
    assert Apply(w3, hmac, CommitId(1)).tables.users[u].anonymousId == Some(hmac(r, u));
  }

  lemma DifferentSecretsRace(hmac: Hmac, secrets: set<string>, s: string, r: string, u: Id)
    requires FullLengthDigests(hmac) && s in secrets && r in secrets && s != "" && r != ""
    requires hmac(s, u) != hmac(r, u)
    ensures !IdsStable(hmac, secrets)
  {
    var user := User("a", "a", None, false, None, None, None, None);
    var w := World(Tables(map[u := user], map[], [], [], map[], map[], [], {}), [Worker(u, Begin), Worker(u, Begin)]);
    assert |hmac(s, u)| == 64;
    RaceOverwrites(hmac, w, s, r, u);
    ExecThree(w, hmac, Load(0, s), Load(1, r), CommitId(0));
    var before, after := [Load(0, s), Load(1, r), CommitId(0)], [CommitId(1)];
    assert Exec(Exec(w, hmac, before), hmac, after) == Apply(Exec(w, hmac, before), hmac, CommitId(1));
    assert SecretsFrom(before, secrets) && SecretsFrom(after, secrets) && AllBegin(w);
  }

  /** Interleaved jobs keep every committed id exactly when the secrets they run with agree. */
  lemma IdsStableIffSecretsAgree(hmac: Hmac, secrets: set<string>)
    requires FullLengthDigests(hmac)
    ensures IdsStable(hmac, secrets) <==> Agree(hmac, secrets)
  {
    if Agree(hmac, secrets) {
      forall w: World, before: seq<Move>, after: seq<Move>
        | AllBegin(w) && SecretsFrom(before, secrets) && SecretsFrom(after, secrets)
        ensures IdsKept(Exec(w, hmac, before).tables, Exec(Exec(w, hmac, before), hmac, after).tables)
      {
        SameSecretKeepsIds(hmac, secrets, w, before, after);
      }
    } else {
      var s, r, u: Id :| s in secrets && r in secrets && s != "" && r != "" && hmac(s, u) != hmac(r, u);
      DifferentSecretsRace(hmac, secrets, s, r, u);
    }
  }
}
