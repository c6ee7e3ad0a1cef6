/** The worker loop of the rewrite queue against the shared admission control
    (backend/handlers/articles.go): every worker reserves a start, tries to claim a
    job, and hands the reservation back unless the claim succeeded. */
module RewriteWorkers {
  import opened RewriteAdmission

  datatype Phase = Waiting | Admitted(id: nat) | Processing(start: nat)

  /** Workers not in the map are waiting. `claimed` holds the reservations that ended in a claim. */
  datatype Pool = Pool(world: World, phase: map<nat, Phase>, claimed: set<nat>)

  datatype Action =
    | Admit(worker: nat, now: Time)                     // WaitForJobStart, one attempt
    | ClaimFound(worker: nat)                           // a job was claimed
    | ClaimMissed(worker: nat)                          // no job, or the claim failed
    | ProviderLimited(now: Time, retryAfter: Duration, pick: nat)
    | ProviderSucceeded
    | BreakerChecked(now: Time)
    | Finished(worker: nat)

  function PhaseOf(p: Pool, worker: nat): Phase {
    if worker in p.phase then p.phase[worker] else Waiting
  }

  predicate Enabled(cfg: Config, p: Pool, a: Action) {
    match a
    case Admit(w, now) => PhaseOf(p, w).Waiting? && now >= p.world.clock
    case ClaimFound(w) => PhaseOf(p, w).Admitted?
    case ClaimMissed(w) => PhaseOf(p, w).Admitted?
    case ProviderLimited(now, _, _) => now >= p.world.clock
    case ProviderSucceeded => true
    case BreakerChecked(now) => now >= p.world.clock
    case Finished(w) => PhaseOf(p, w).Processing?
  }

  function Next(cfg: Config, p: Pool, a: Action): Pool
    requires cfg.Valid() && Enabled(cfg, p, a)
  {
    match a
    case Admit(w, now) =>
      var id := TryReserve(cfg, p.world.control, now).reservation;
      p.(world := Step(cfg, p.world, Reserving(now)),
         phase := if id == 0 then p.phase else p.phase[w := Admitted(id)])
    case ClaimFound(w) =>
      p.(phase := p.phase[w := Processing(PhaseOf(p, w).id)], claimed := p.claimed + {PhaseOf(p, w).id})
    case ClaimMissed(w) =>
      p.(world := Step(cfg, p.world, Releasing(PhaseOf(p, w).id)), phase := p.phase[w := Waiting])
    case ProviderLimited(now, retryAfter, pick) =>
      p.(world := Step(cfg, p.world, Limiting(now, retryAfter, pick)))
    case ProviderSucceeded => p.(world := Step(cfg, p.world, Succeeding))
    case BreakerChecked(now) => p.(world := Step(cfg, p.world, Checking(now)))
    case Finished(w) => p.(phase := p.phase[w := Waiting])
  }

  /** Every interleaving of the workers. */
  ghost predicate Reachable(cfg: Config, p: Pool, trace: seq<Action>, q: Pool)
    requires cfg.Valid()
    decreases |trace|
  {
    if trace == [] then p == q
    else Enabled(cfg, p, trace[0]) && Reachable(cfg, Next(cfg, p, trace[0]), trace[1..], q)
  }

  /** A held reservation belongs to one worker and has neither been claimed nor handed back. */
  ghost predicate PoolInv(cfg: Config, p: Pool) {
    && Inv(cfg, p.world)
    && p.claimed !! p.world.released
    && (forall id :: id in p.claimed ==> id <= |p.world.issued|)
    && (forall w :: w in p.phase && p.phase[w].Admitted? ==>
          1 <= p.phase[w].id <= |p.world.issued| &&
          p.phase[w].id !in p.claimed && p.phase[w].id !in p.world.released)
    && (forall v, w :: v in p.phase && w in p.phase && v != w && p.phase[v].Admitted? && p.phase[w].Admitted? ==>
          p.phase[v].id != p.phase[w].id)
  }

  lemma NextKeepsInv(cfg: Config, p: Pool, a: Action)
    requires cfg.Valid() && PoolInv(cfg, p) && Enabled(cfg, p, a)
    ensures PoolInv(cfg, Next(cfg, p, a))
  {
    if a.Admit? {
      StepKeepsInv(cfg, p.world, Reserving(a.now));
      WaitIffNoReservation(cfg, p.world, a.now);
    } else if a.ClaimMissed? {
      StepKeepsInv(cfg, p.world, Releasing(PhaseOf(p, a.worker).id));
    } else if a.ProviderLimited? {
      StepKeepsInv(cfg, p.world, Limiting(a.now, a.retryAfter, a.pick));
    } else if a.ProviderSucceeded? {
      StepKeepsInv(cfg, p.world, Succeeding);
    } else if a.BreakerChecked? {
      StepKeepsInv(cfg, p.world, Checking(a.now));
    }
  }

  lemma {:induction false} TraceKeepsInv(cfg: Config, p: Pool, trace: seq<Action>, q: Pool)
    requires cfg.Valid() && PoolInv(cfg, p) && Reachable(cfg, p, trace, q)
    ensures PoolInv(cfg, q)
    decreases |trace|
  {
    if trace != [] {
      NextKeepsInv(cfg, p, trace[0]);
      TraceKeepsInv(cfg, Next(cfg, p, trace[0]), trace[1..], q);
    }
  }

  /** How many reservations admitted in [lo, hi) ended in a claim. */
  function Claims(issued: seq<Start>, claimed: set<nat>, lo: Time, hi: Time): nat {
    if issued == [] then 0
    else
      var last := issued[|issued| - 1];
      Claims(issued[..|issued| - 1], claimed, lo, hi) +
      if last.id in claimed && lo <= last.at < hi then 1 else 0
  }

  lemma {:induction false} ClaimsAreKept(issued: seq<Start>, claimed: set<nat>, released: set<nat>, lo: Time, hi: Time)
    requires claimed !! released
    ensures Claims(issued, claimed, lo, hi) <= Kept(issued, released, lo, hi)
  {
    if issued != [] { ClaimsAreKept(issued[..|issued| - 1], claimed, released, lo, hi); }
  }

  /** Under every interleaving of any number of workers, at most `startLimit` jobs
      admitted within one window are claimed, and a refused or failed claim always
      gives its slot back: the only starts still counted are claims and slots in hand. */
  lemma ClaimsPerWindow(cfg: Config, clock: Time, trace: seq<Action>, q: Pool, lo: Time)
    requires cfg.Valid() && Reachable(cfg, Pool(Initial(cfg, clock), map[], {}), trace, q)
    ensures Claims(q.world.issued, q.claimed, lo, lo + cfg.startWindow) <= cfg.startLimit
  {
    var p := Pool(Initial(cfg, clock), map[], {});
    TraceKeepsInv(cfg, p, trace, q);
    ClaimsAreKept(q.world.issued, q.claimed, q.world.released, lo, lo + cfg.startWindow);
    assert KeptFrom(cfg, q.world, lo) <= cfg.startLimit;
  }

  /** No slot leaks: every issued reservation was claimed, was handed back, or is in the
      hands of exactly one worker. */
  ghost predicate Accounted(p: Pool) {
    forall id :: 1 <= id <= |p.world.issued| ==>
      id in p.claimed || id in p.world.released || exists w :: w in p.phase && p.phase[w] == Admitted(id)
  }

  lemma NextKeepsAccounted(cfg: Config, p: Pool, a: Action)
    requires cfg.Valid() && PoolInv(cfg, p) && Enabled(cfg, p, a) && Accounted(p)
    ensures Accounted(Next(cfg, p, a))
  {
    var q := Next(cfg, p, a);
    if a.Admit? { WaitIffNoReservation(cfg, p.world, a.now); }
    forall id | 1 <= id <= |q.world.issued| && id !in q.claimed && id !in q.world.released
      ensures exists w :: w in q.phase && q.phase[w] == Admitted(id)
    {
      if id <= |p.world.issued| {
        var w :| w in p.phase && p.phase[w] == Admitted(id);
        assert w in q.phase && q.phase[w] == Admitted(id);
      } else {
        assert a.Admit? && q.phase[a.worker] == Admitted(id);
      }
    }
  }

  lemma {:induction false} NoSlotLeaks(cfg: Config, p: Pool, trace: seq<Action>, q: Pool)
    requires cfg.Valid() && PoolInv(cfg, p) && Accounted(p) && Reachable(cfg, p, trace, q)
    ensures Accounted(q)
    decreases |trace|
  {
    if trace != [] {
      NextKeepsInv(cfg, p, trace[0]);
      NextKeepsAccounted(cfg, p, trace[0]);
      NoSlotLeaks(cfg, Next(cfg, p, trace[0]), trace[1..], q);
    }
  }
}
