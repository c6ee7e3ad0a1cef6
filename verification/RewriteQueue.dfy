/** The durable rewrite queue (backend/handlers/articles.go, table article_rewrite_jobs).

    Each SQL statement or transaction on the table is one step. The second half runs
    any number of workers over the table in any interleaving. */
module RewriteQueue {
  import opened Common

  type Time = int
  type ArticleId = nat

  const LEASE: int := 600 * SECOND

  datatype Status = Pending | Running | Completed | Failed

  datatype Job = Job(status: Status, attempts: nat, availableAt: Time, lockedAt: Option<Time>, createdAt: Time)

  type Jobs = map<ArticleId, Job>

  // ---------- statements ----------

  /** Inserts a job, or restarts one that completed or failed. */
  function EnqueueJob(jobs: Jobs, a: ArticleId, now: Time): Jobs {
    if a !in jobs then jobs[a := Job(Pending, 0, now, None, now)]
    else if jobs[a].status.Completed? || jobs[a].status.Failed?
    then jobs[a := Job(Pending, 0, now, None, jobs[a].createdAt)]
    else jobs
  }

  predicate Claimable(job: Job, now: Time) {
    || (job.status.Pending? && job.availableAt <= now)
    || (job.status.Running? && job.lockedAt.Some? && job.lockedAt.value < now - LEASE)
  }

  function ClaimJob(jobs: Jobs, a: ArticleId, now: Time): Jobs
    requires a in jobs
  {
    jobs[a := jobs[a].(status := Running, attempts := jobs[a].attempts + 1, lockedAt := Some(now))]
  }

  function CompleteJob(jobs: Jobs, a: ArticleId): Jobs {
    if a !in jobs then jobs else jobs[a := jobs[a].(status := Completed, lockedAt := None)]
  }

  /** Why a rewrite did not finish. */
  datatype JobError = RateLimited(retryAt: Time) | OtherError

  /** The budget and the instant a rate-limited job goes back with. */
  function RateLimitedRetry(attempts: nat, retryAt: Time, now: Time): (nat, Time) {
    (if attempts >= 1 then attempts - 1 else 0, Max(retryAt, now))
  }

  function FailJob(jobs: Jobs, a: ArticleId, attempts: nat, err: JobError, now: Time, maxAttempts: nat): Jobs {
    if a !in jobs then jobs
    else if err.RateLimited? then
      var (left, at) := RateLimitedRetry(attempts, err.retryAt, now);
      jobs[a := jobs[a].(status := Pending, attempts := left, availableAt := at, lockedAt := None)]
    else if attempts >= maxAttempts then
      jobs[a := jobs[a].(status := Failed, lockedAt := None)]
    else
      jobs[a := jobs[a].(status := Pending, availableAt := now + attempts * attempts * 5 * SECOND, lockedAt := None)]
  }

  // ---------- workers ----------

  /** A live worker and the job it claimed. */
  datatype Holding = Holding(article: ArticleId, attempts: nat, claimedAt: Time)

  /** What happened to a job since it was last enqueued. */
  datatype Ledger = Ledger(claims: nat, limited: nat, failures: nat, expired: nat)

  /** `clock` is the latest instant of any statement. A statement's NOW() is fixed when its
      transaction begins, so statements need not come in the order of their instants. */
  datatype System = System(jobs: Jobs, held: map<nat, Holding>, ledger: map<ArticleId, Ledger>, clock: Time)

  datatype Event =
    | Enqueue(article: ArticleId, now: Time)
    | Claim(worker: nat, article: ArticleId, now: Time)
    | Publish(worker: nat, now: Time)
    | Fail(worker: nat, err: JobError, now: Time)
    | Lose(worker: nat, now: Time)     // the worker died, or its last update failed

  /** SKIP LOCKED may pass over rows, so a claim may take any claimable job. An expired
      lease means a dead worker: no live worker outlasts its lease. */
  predicate Enabled(s: System, e: Event) {
    && (forall w :: w in s.held ==> e.now <= s.held[w].claimedAt + LEASE)
    && match e
       case Enqueue(_, _) => true
       case Claim(w, a, now) => w !in s.held && a in s.jobs && Claimable(s.jobs[a], now)
       case _ => e.worker in s.held
  }

  predicate Restarts(jobs: Jobs, a: ArticleId) {
    a !in jobs || jobs[a].status.Completed? || jobs[a].status.Failed?
  }

  function LedgerOf(s: System, a: ArticleId): Ledger {
    if a in s.ledger then s.ledger[a] else Ledger(0, 0, 0, 0)
  }

  function Next(s: System, e: Event, maxAttempts: nat): System
    requires Enabled(s, e)
  {
    var t := s.(clock := Max(s.clock, e.now));
    match e
    case Enqueue(a, now) =>
      t.(jobs := EnqueueJob(s.jobs, a, now),
         ledger := if Restarts(s.jobs, a) then s.ledger[a := Ledger(0, 0, 0, 0)] else s.ledger)
    case Claim(w, a, now) =>
      var l := LedgerOf(s, a);
      t.(jobs := ClaimJob(s.jobs, a, now),
         held := s.held[w := Holding(a, s.jobs[a].attempts + 1, now)],
         ledger := s.ledger[a := l.(claims := l.claims + 1,
                                    expired := l.expired + if s.jobs[a].status.Running? then 1 else 0)])
    case Publish(w, now) =>
      t.(jobs := CompleteJob(s.jobs, s.held[w].article), held := s.held - {w})
    case Fail(w, err, now) =>
      var h := s.held[w];
      var l := LedgerOf(s, h.article);
      t.(jobs := FailJob(s.jobs, h.article, h.attempts, err, now, maxAttempts),
         held := s.held - {w},
         ledger := s.ledger[h.article := if err.RateLimited? then l.(limited := l.limited + 1)
                                         else l.(failures := l.failures + 1)])
    case Lose(w, now) => t.(held := s.held - {w})
  }

  ghost predicate Reachable(s: System, trace: seq<Event>, t: System, maxAttempts: nat)
    decreases |trace|
  {
    if trace == [] then s == t
    else Enabled(s, trace[0]) && Reachable(Next(s, trace[0], maxAttempts), trace[1..], t, maxAttempts)
  }

  const EMPTY := System(map[], map[], map[], 0)

  /** The row, its ledger and the retry budget agree. */
  predicate JobInv(job: Job, l: Ledger, maxAttempts: nat) {
    && job.attempts == l.claims - l.limited
    && l.claims == l.limited + l.failures + l.expired + (if job.status.Running? || job.status.Completed? then 1 else 0)
    && (job.status.Failed? ==> l.failures <= maxAttempts <= l.failures + l.expired)
    && (!job.status.Failed? ==> l.failures < maxAttempts)
    && (job.status.Running? <==> job.lockedAt.Some?)
  }

  /** A live worker's claim is the one recorded in the row, and no two workers share a job. */
  ghost predicate Inv(s: System, maxAttempts: nat) {
    && (forall a :: a in s.jobs ==> JobInv(s.jobs[a], LedgerOf(s, a), maxAttempts))
    && (forall a :: a in s.jobs && s.jobs[a].lockedAt.Some? ==> s.jobs[a].lockedAt.value <= s.clock)
    && (forall w :: w in s.held ==>
          var h := s.held[w];
          h.article in s.jobs && s.jobs[h.article].lockedAt == Some(h.claimedAt) &&
          s.jobs[h.article].attempts == h.attempts)
    && (forall v, w :: v in s.held && w in s.held && v != w ==> s.held[v].article != s.held[w].article)
  }

  /** A step that changes one job keeps the invariant when the job agrees with its ledger and
      with whoever holds it, and everything else stays. */
  lemma ChangeKeepsInv(s: System, t: System, a: ArticleId, maxAttempts: nat)
    requires Inv(s, maxAttempts) && s.clock <= t.clock && a in t.jobs && t.jobs == s.jobs[a := t.jobs[a]]
    requires forall b :: b != a ==> LedgerOf(t, b) == LedgerOf(s, b)
    requires JobInv(t.jobs[a], LedgerOf(t, a), maxAttempts)
    requires t.jobs[a].lockedAt.Some? ==> t.jobs[a].lockedAt.value <= t.clock
    requires forall w :: w in t.held && t.held[w].article != a ==> w in s.held && s.held[w] == t.held[w]
    requires forall w :: w in t.held && t.held[w].article == a ==>
               t.jobs[a].lockedAt == Some(t.held[w].claimedAt) && t.jobs[a].attempts == t.held[w].attempts
    requires forall v, w :: v in t.held && w in t.held && t.held[v].article == a == t.held[w].article ==> v == w
    ensures Inv(t, maxAttempts)
  {
    forall b | b in t.jobs
      ensures JobInv(t.jobs[b], LedgerOf(t, b), maxAttempts)
      ensures t.jobs[b].lockedAt.Some? ==> t.jobs[b].lockedAt.value <= t.clock
    {
      if b != a { assert t.jobs[b] == s.jobs[b] && LedgerOf(t, b) == LedgerOf(s, b); }
    }
  }

  lemma ClaimKeepsInv(s: System, e: Event, maxAttempts: nat)
    requires maxAttempts >= 1 && Inv(s, maxAttempts) && Enabled(s, e) && e.Claim?
    ensures Inv(Next(s, e, maxAttempts), maxAttempts)
  {
    assert JobInv(s.jobs[e.article], LedgerOf(s, e.article), maxAttempts);
    assert forall w :: w in s.held ==> s.held[w].article != e.article;
    ChangeKeepsInv(s, Next(s, e, maxAttempts), e.article, maxAttempts);
  }

  lemma FailKeepsInv(s: System, e: Event, maxAttempts: nat)
    requires maxAttempts >= 1 && Inv(s, maxAttempts) && Enabled(s, e) && e.Fail?
    ensures Inv(Next(s, e, maxAttempts), maxAttempts)
  {
    ChangeKeepsInv(s, Next(s, e, maxAttempts), s.held[e.worker].article, maxAttempts);
  }

  lemma PublishKeepsInv(s: System, e: Event, maxAttempts: nat)
    requires maxAttempts >= 1 && Inv(s, maxAttempts) && Enabled(s, e) && e.Publish?
    ensures Inv(Next(s, e, maxAttempts), maxAttempts)
  {
    ChangeKeepsInv(s, Next(s, e, maxAttempts), s.held[e.worker].article, maxAttempts);
  }

  lemma LoseKeepsInv(s: System, e: Event, maxAttempts: nat)
    requires Inv(s, maxAttempts) && Enabled(s, e) && e.Lose?
    ensures Inv(Next(s, e, maxAttempts), maxAttempts)
  {
    assert forall a :: LedgerOf(Next(s, e, maxAttempts), a) == LedgerOf(s, a);
  }

  lemma NextKeepsInv(s: System, e: Event, maxAttempts: nat)
    requires maxAttempts >= 1 && Inv(s, maxAttempts) && Enabled(s, e)
    ensures Inv(Next(s, e, maxAttempts), maxAttempts)
  {
    match e
    case Enqueue(_, _) => {}
    case Claim(_, _, _) => ClaimKeepsInv(s, e, maxAttempts);
    case Publish(_, _) => PublishKeepsInv(s, e, maxAttempts);
    case Fail(_, _, _) => FailKeepsInv(s, e, maxAttempts);
    case Lose(_, _) => LoseKeepsInv(s, e, maxAttempts);
  }

  lemma {:induction false} ReachableInv(s: System, trace: seq<Event>, t: System, maxAttempts: nat)
    requires maxAttempts >= 1 && Inv(s, maxAttempts) && Reachable(s, trace, t, maxAttempts)
    ensures Inv(t, maxAttempts)
    decreases |trace|
  {
    if trace != [] {
      NextKeepsInv(s, trace[0], maxAttempts);
      ReachableInv(Next(s, trace[0], maxAttempts), trace[1..], t, maxAttempts);
    }
  }

  /** In every reachable state at most one live worker holds an article, and the row
      carries that worker's claim. */
  lemma ExclusiveHolder(trace: seq<Event>, t: System, maxAttempts: nat, v: nat, w: nat)
    requires maxAttempts >= 1 && Reachable(EMPTY, trace, t, maxAttempts)
    requires v in t.held && w in t.held && t.held[v].article == t.held[w].article
    ensures v == w && t.held[v].article in t.jobs && t.jobs[t.held[v].article].status.Running?
    ensures t.jobs[t.held[v].article].attempts == t.held[v].attempts
  {
    ReachableInv(EMPTY, trace, t, maxAttempts);
  }

  /** The retry budget: attempts count exactly the claims that were not rate limited, never
      exceed the maximum by more than the expired leases, and a job fails only
      after ordinary failures and expired leases have used the whole budget. */
  lemma RetryBudget(trace: seq<Event>, t: System, maxAttempts: nat, a: ArticleId)
    requires maxAttempts >= 1 && Reachable(EMPTY, trace, t, maxAttempts) && a in t.jobs
    ensures var job, l := t.jobs[a], LedgerOf(t, a);
            && job.attempts == l.claims - l.limited <= maxAttempts + l.expired
            && l.failures <= maxAttempts
            && (job.status.Pending? ==> job.attempts == l.failures + l.expired)
            && (job.status.Failed? ==> l.failures + l.expired == job.attempts >= maxAttempts)
            && (job.status.Failed? && l.expired == 0 ==> l.failures == maxAttempts)
  {
    ReachableInv(EMPTY, trace, t, maxAttempts);
  }

  /** A claim answered with a rate limit leaves the budget as it was and does not run
      again before the breaker allows. */
  lemma RateLimitedClaimIsFree(s: System, w: nat, a: ArticleId, now: Time, later: Time, retryAt: Time, maxAttempts: nat)
    requires maxAttempts >= 1 && Inv(s, maxAttempts)
    requires Enabled(s, Claim(w, a, now)) && s.jobs[a].status.Pending?
    requires Enabled(Next(s, Claim(w, a, now), maxAttempts), Fail(w, RateLimited(retryAt), later))
    ensures var t := Next(Next(s, Claim(w, a, now), maxAttempts), Fail(w, RateLimited(retryAt), later), maxAttempts);
            && t.jobs[a] == s.jobs[a].(availableAt := Max(retryAt, later))
            && t.jobs == s.jobs[a := t.jobs[a]]
            && (forall at :: at < retryAt ==> !Claimable(t.jobs[a], at))
  {
    var t1 := Next(s, Claim(w, a, now), maxAttempts);
    NextKeepsInv(s, Claim(w, a, now), maxAttempts);
    assert t1.held[w] == Holding(a, s.jobs[a].attempts + 1, now);
  }

  // ---------- when a job can be claimed ----------

  /** A new job, and one that is restarted, can be claimed from the moment it is enqueued, with its
      whole budget; any other job is left alone. */
  lemma EnqueuedIsClaimable(jobs: Jobs, a: ArticleId, now: Time, at: Time)
    ensures var after := EnqueueJob(jobs, a, now);
            && after.Keys == jobs.Keys + {a}
            && (forall b :: b in jobs && b != a ==> after[b] == jobs[b])
            && (a in jobs && (jobs[a].status.Pending? || jobs[a].status.Running?) ==> after[a] == jobs[a])
            && (a !in jobs || jobs[a].status.Completed? || jobs[a].status.Failed? ==>
                  after[a].attempts == 0 && after[a].status.Pending? && (Claimable(after[a], at) <==> at >= now))
  {
  }

  /** After an ordinary failure below the limit the job can be claimed again once five seconds times
      the square of the attempts have passed, and not before; at the limit never again. */
  lemma FailureDelays(jobs: Jobs, a: ArticleId, attempts: nat, now: Time, maxAttempts: nat, at: Time)
    requires a in jobs
    ensures var job := FailJob(jobs, a, attempts, OtherError, now, maxAttempts)[a];
            && job.attempts == jobs[a].attempts
            && (attempts < maxAttempts ==>
                  job.status.Pending? && (Claimable(job, at) <==> at >= now + 5_000_000_000 * (attempts * attempts)))
            && (attempts >= maxAttempts ==> job.status.Failed? && !Claimable(job, at))
  {
  }

  /** The rows a claim may take: pending and due, or running for more than ten minutes. */
  lemma ClaimableIff(job: Job, now: Time)
    ensures Claimable(job, now) <==>
            || (job.status == Pending && job.availableAt <= now)
            || (job.status == Running && job.lockedAt.Some? && job.lockedAt.value + 600_000_000_000 < now)
  {
  }

  /** Some live worker holds the article. */
  ghost predicate Held(s: System, a: ArticleId) { exists w :: w in s.held && s.held[w].article == a }

  /** From when on a job that nobody holds can be claimed. */
  function DueAt(job: Job): Time {
    if job.lockedAt.Some? then job.lockedAt.value + LEASE + 1 else job.availableAt
  }

  /** The earliest end of a lease, or the instant given if that is earlier. */
  lemma EarliestLease(held: map<nat, Holding>, upTo: Time) returns (now: Time)
    ensures now <= upTo && forall w :: w in held ==> now <= held[w].claimedAt + LEASE
  {
    now := upTo;
    var rest := held.Keys;
    while rest != {}
      invariant rest <= held.Keys && now <= upTo
      invariant forall w :: w in held && w !in rest ==> now <= held[w].claimedAt + LEASE
      decreases |rest|
    {
      var w :| w in rest;
      now := Min(now, held[w].claimedAt + LEASE);
      rest := rest - {w};
    }
  }

  /** Every live worker is lost; the jobs stay as they are. */
  lemma {:induction false} EveryoneLost(s: System, maxAttempts: nat) returns (trace: seq<Event>, t: System)
    requires Inv(s, maxAttempts)
    ensures Reachable(s, trace, t, maxAttempts) && t.held == map[] && t.jobs == s.jobs && t.clock == s.clock
    decreases |s.held|
  {
    if s.held == map[] {
      trace, t := [], s;
    } else {
      var w :| w in s.held;
      var now := EarliestLease(s.held, s.clock);
      var e := Lose(w, now);
      var n := Next(s, e, maxAttempts);
      LoseKeepsInv(s, e, maxAttempts);
      assert n.held.Keys == s.held.Keys - {w};
      var rest;
      rest, t := EveryoneLost(n, maxAttempts);
      trace := [e] + rest;
      assert trace[1..] == rest;
    }
  }

  /** No job is lost with its worker: from every reachable state with a job neither completed nor
      failed, even if every worker dies, any new worker can claim it from a certain instant on,
      and its claim is recorded. */
  lemma AbandonedJobIsReclaimed(before: seq<Event>, s: System, a: ArticleId, idle: nat, maxAttempts: nat)
    returns (trace: seq<Event>, t: System)
    requires maxAttempts >= 1 && Reachable(EMPTY, before, s, maxAttempts) && a in s.jobs
    requires s.jobs[a].status.Pending? || s.jobs[a].status.Running?
    ensures Reachable(s, trace, t, maxAttempts) && t.jobs == s.jobs && t.held == map[]
    ensures forall now :: now >= Max(t.clock, DueAt(s.jobs[a])) ==>
              && Enabled(t, Claim(idle, a, now))
              && var n := Next(t, Claim(idle, a, now), maxAttempts);
                 && n.jobs[a].status.Running? && n.jobs[a].attempts == s.jobs[a].attempts + 1
                 && n.held == map[idle := Holding(a, s.jobs[a].attempts + 1, now)]
  {
    ReachableInv(EMPTY, before, s, maxAttempts);
    trace, t := EveryoneLost(s, maxAttempts);
    ReachableInv(s, trace, t, maxAttempts);
    forall now | now >= Max(t.clock, DueAt(s.jobs[a])) { IdleClaims(t, a, idle, now, maxAttempts); }
  }

  lemma IdleClaims(t: System, a: ArticleId, idle: nat, now: Time, maxAttempts: nat)
    requires Inv(t, maxAttempts) && t.held == map[] && a in t.jobs && now >= DueAt(t.jobs[a])
    requires t.jobs[a].status.Pending? || t.jobs[a].status.Running?
    ensures Enabled(t, Claim(idle, a, now))
    ensures var n := Next(t, Claim(idle, a, now), maxAttempts);
            && n.jobs[a].status.Running? && n.jobs[a].attempts == t.jobs[a].attempts + 1
            && n.held == map[idle := Holding(a, t.jobs[a].attempts + 1, now)]
  {
  }

  // ---------- every job comes to rest ----------

  /** A worker's step without a rate limit. */
  predicate Working(s: System, e: Event) {
    match e
    case Claim(_, _, _) => true
    case Publish(_, _) => true
    case Fail(_, err, _) => err.OtherError?
    case _ => false
  }

  /** Such a step, the loss of a worker, or an enqueue that restarts no finished job. */
  predicate Calm(s: System, e: Event) {
    Working(s, e) || e.Lose? || (e.Enqueue? && (e.article in s.jobs ==> !Restarts(s.jobs, e.article)))
  }

  predicate AtRest(job: Job) { job.status.Completed? || job.status.Failed? }

  /** How many more steps a job can take. */
  function Rank(job: Job, maxAttempts: nat): nat {
    match job.status
    case Pending => 2 * Max(maxAttempts - job.attempts, 1)
    case Running => 2 * Max(maxAttempts - job.attempts, 0) + 1
    case _ => 0
  }

  ghost function TotalRank(jobs: Jobs, maxAttempts: nat): nat
    decreases |jobs|
  {
    if jobs == map[] then 0
    else
      var a :| a in jobs;
      Rank(jobs[a], maxAttempts) + TotalRank(jobs - {a}, maxAttempts)
  }

  lemma {:induction false} TotalRankSplit(jobs: Jobs, a: ArticleId, maxAttempts: nat)
    requires a in jobs
    ensures TotalRank(jobs, maxAttempts) == Rank(jobs[a], maxAttempts) + TotalRank(jobs - {a}, maxAttempts)
    decreases |jobs|
  {
    var b :| b in jobs &&
             TotalRank(jobs, maxAttempts) == Rank(jobs[b], maxAttempts) + TotalRank(jobs - {b}, maxAttempts);
    if a != b {
      TotalRankSplit(jobs - {b}, a, maxAttempts);
      TotalRankSplit(jobs - {a}, b, maxAttempts);
      assert jobs - {a} - {b} == jobs - {b} - {a};
    }
  }

  /** The running jobs whose worker is lost. */
  ghost function Abandoned(s: System): set<ArticleId> {
    set a | a in s.jobs && s.jobs[a].status.Running? && !Held(s, a)
  }

  /** The steps that the jobs can still take, one more for every job to be taken over. */
  ghost function Potential(s: System, maxAttempts: nat): nat {
    TotalRank(s.jobs, maxAttempts) + |Abandoned(s)|
  }

  /** The job a worker's step is about. */
  function Subject(s: System, e: Event): ArticleId
    requires e.Claim? || (!e.Enqueue? && e.worker in s.held)
  {
    if e.Claim? then e.article else s.held[e.worker].article
  }

  lemma WorkMovesOne(s: System, e: Event, maxAttempts: nat)
    requires maxAttempts >= 1 && Inv(s, maxAttempts) && Enabled(s, e) && Working(s, e)
    ensures var t, a := Next(s, e, maxAttempts), Subject(s, e);
            && a in s.jobs && a in t.jobs && t.jobs - {a} == s.jobs - {a}
            && Rank(t.jobs[a], maxAttempts) <= Rank(s.jobs[a], maxAttempts)
            && (!(e.Claim? && s.jobs[a].status.Running?) ==>
                  Rank(t.jobs[a], maxAttempts) < Rank(s.jobs[a], maxAttempts))
  {
    assert JobInv(s.jobs[Subject(s, e)], LedgerOf(s, Subject(s, e)), maxAttempts);
  }

  /** A worker's step takes its job off the abandoned ones, if it was one, and leaves the others. */
  lemma WorkKeepsAbandoned(s: System, e: Event, maxAttempts: nat)
    requires maxAttempts >= 1 && Inv(s, maxAttempts) && Enabled(s, e) && Working(s, e)
    ensures Abandoned(Next(s, e, maxAttempts)) == Abandoned(s) - {Subject(s, e)}
    ensures e.Claim? && s.jobs[e.article].status.Running? ==> e.article in Abandoned(s)
  {
    var t, a := Next(s, e, maxAttempts), Subject(s, e);
    WorkMovesOne(s, e, maxAttempts);
    forall b | b != a
      ensures Held(t, b) <==> Held(s, b)
    {
      if w :| w in s.held && s.held[w].article == b { assert w in t.held && t.held[w].article == b; }
      if w :| w in t.held && t.held[w].article == b { assert w in s.held && s.held[w].article == b; }
    }
    assert forall b :: b != a ==> (b in t.jobs <==> b in s.jobs) && (b in s.jobs ==> t.jobs[b] == s.jobs[b]);
    if e.Claim? { assert t.held[e.worker].article == a; }
  }

  lemma WorkLowersPotential(s: System, e: Event, maxAttempts: nat)
    requires maxAttempts >= 1 && Inv(s, maxAttempts) && Enabled(s, e) && Working(s, e)
    ensures Potential(Next(s, e, maxAttempts), maxAttempts) < Potential(s, maxAttempts)
  {
    WorkMovesOne(s, e, maxAttempts);
    WorkKeepsAbandoned(s, e, maxAttempts);
    TotalRankSplit(s.jobs, Subject(s, e), maxAttempts);
    TotalRankSplit(Next(s, e, maxAttempts).jobs, Subject(s, e), maxAttempts);
  }

  /** A lost worker abandons at most its one job. */
  lemma LossAbandonsOne(s: System, e: Event, maxAttempts: nat)
    requires Inv(s, maxAttempts) && Enabled(s, e) && e.Lose?
    ensures Potential(Next(s, e, maxAttempts), maxAttempts) <= Potential(s, maxAttempts) + 1
  {
    var t, a := Next(s, e, maxAttempts), s.held[e.worker].article;
    forall b | b in Abandoned(t) && b != a
      ensures b in Abandoned(s)
    {
      if w :| w in s.held && s.held[w].article == b { assert w in t.held && t.held[w].article == b; }
    }
    SubsetSize(Abandoned(t), Abandoned(s) + {a});
  }

  /** An enqueue that restarts nothing adds at most the rank of one new job. */
  lemma EnqueueAddsRank(s: System, e: Event, maxAttempts: nat)
    requires maxAttempts >= 1 && Enabled(s, e) && Calm(s, e) && e.Enqueue?
    ensures Potential(Next(s, e, maxAttempts), maxAttempts) ==
            Potential(s, maxAttempts) + if e.article in s.jobs then 0 else 2 * maxAttempts
  {
    var t := Next(s, e, maxAttempts);
    assert forall b :: Held(t, b) <==> Held(s, b);
    assert Abandoned(t) == Abandoned(s);
    if e.article !in s.jobs {
      TotalRankSplit(t.jobs, e.article, maxAttempts);
      assert t.jobs - {e.article} == s.jobs;
    }
  }

  /** The steps that enqueues and losses add to a run: one for each enqueue and two for each attempt
      of a new job; for a loss itself and the claim that takes the job over. */
  function Additions(s: System, trace: seq<Event>, maxAttempts: nat): nat
    requires CalmRunFrom(s, trace, maxAttempts)
    decreases |trace|
  {
    if trace == [] then 0
    else Addition(s, trace[0], maxAttempts) + Additions(Next(s, trace[0], maxAttempts), trace[1..], maxAttempts)
  }

  function Addition(s: System, e: Event, maxAttempts: nat): nat {
    if e.Lose? then 2
    else if !e.Enqueue? then 0
    else if e.article in s.jobs then 1 else 1 + 2 * maxAttempts
  }

  predicate CalmRunFrom(s: System, trace: seq<Event>, maxAttempts: nat)
    decreases |trace|
  {
    trace == [] ||
    (Enabled(s, trace[0]) && Calm(s, trace[0]) && trace[0].now >= s.clock &&
     CalmRunFrom(Next(s, trace[0], maxAttempts), trace[1..], maxAttempts))
  }

  ghost predicate CalmRun(s: System, trace: seq<Event>, t: System, maxAttempts: nat) {
    CalmRunFrom(s, trace, maxAttempts) && Reachable(s, trace, t, maxAttempts)
  }

  /** While any job is not at rest, a worker that holds a job or an idle one can go on working, also
      when every other worker is lost. */
  lemma SomeStepEnabled(s: System, a: ArticleId, idle: nat, maxAttempts: nat) returns (e: Event)
    requires maxAttempts >= 1 && Inv(s, maxAttempts)
    requires a in s.jobs && !AtRest(s.jobs[a])
    requires forall w :: w in s.held ==> s.clock <= s.held[w].claimedAt + LEASE
    ensures Enabled(s, e) && Working(s, e) && e.now >= s.clock
    ensures e.worker == idle || e.worker in s.held
  {
    if s.held != map[] {
      var w :| w in s.held;
      e := Publish(w, s.clock);
    } else {
      e := Claim(idle, a, Max(s.clock, DueAt(s.jobs[a])));
    }
  }

  lemma {:induction false} CalmRunIsBounded(s: System, trace: seq<Event>, t: System, maxAttempts: nat)
    requires maxAttempts >= 1 && Inv(s, maxAttempts) && CalmRun(s, trace, t, maxAttempts)
    requires forall w :: w in s.held ==> s.clock <= s.held[w].claimedAt + LEASE
    ensures |trace| + Potential(t, maxAttempts) <= Potential(s, maxAttempts) + Additions(s, trace, maxAttempts)
    ensures Inv(t, maxAttempts) && forall w :: w in t.held ==> t.clock <= t.held[w].claimedAt + LEASE
    decreases |trace|
  {
    if trace != [] {
      CalmStep(s, trace[0], maxAttempts);
      CalmRunIsBounded(Next(s, trace[0], maxAttempts), trace[1..], t, maxAttempts);
    }
  }

  /** A calm run in time order takes at most as many steps as the jobs' potential, the arrivals and
      the losses allow, and when no worker can go on working every job is completed or failed. */
  lemma CalmRunsComeToRest(s: System, trace: seq<Event>, t: System, idle: nat, maxAttempts: nat)
    requires maxAttempts >= 1 && Inv(s, maxAttempts) && CalmRun(s, trace, t, maxAttempts)
    requires forall w :: w in s.held ==> s.clock <= s.held[w].claimedAt + LEASE
    ensures |trace| + Potential(t, maxAttempts) <= Potential(s, maxAttempts) + Additions(s, trace, maxAttempts)
    ensures (forall e :: Working(t, e) && (e.worker == idle || e.worker in t.held) && e.now >= t.clock ==>
               !Enabled(t, e)) ==>
              forall a :: a in t.jobs ==> AtRest(t.jobs[a])
  {
    CalmRunIsBounded(s, trace, t, maxAttempts);
    if a :| a in t.jobs && !AtRest(t.jobs[a]) {
      var e := SomeStepEnabled(t, a, idle, maxAttempts);
    }
  }

  lemma CalmStep(s: System, e: Event, maxAttempts: nat)
    requires maxAttempts >= 1 && Inv(s, maxAttempts) && Enabled(s, e) && Calm(s, e)
    requires e.now >= s.clock
    ensures Inv(Next(s, e, maxAttempts), maxAttempts)
    ensures 1 + Potential(Next(s, e, maxAttempts), maxAttempts) <=
            Potential(s, maxAttempts) + Addition(s, e, maxAttempts)
    ensures forall w :: w in Next(s, e, maxAttempts).held ==> e.now <= Next(s, e, maxAttempts).held[w].claimedAt + LEASE
  {
    NextKeepsInv(s, e, maxAttempts);
    if e.Enqueue? {
      EnqueueAddsRank(s, e, maxAttempts);
    } else if e.Lose? {
      LossAbandonsOne(s, e, maxAttempts);
    } else {
      WorkLowersPotential(s, e, maxAttempts);
    }
  }
}
