/** Admission control and the shared 429 circuit breaker
    (backend/services/rewrite_control.go).

    Instants and durations are integers in nanoseconds. The clock reading and the
    random jitter of each call are arguments. The first half of the module is a
    pure transition system; the class at the end runs the loops of the source and
    is proved equal to it. */
module RewriteAdmission {
  import opened Common

  type Time = int
  type Duration = int

  const MINUTE: Duration := 60 * SECOND
  const DEFAULT_STARTS := 10
  const DEFAULT_INTERVAL: Duration := MINUTE
  const DEFAULT_429_BASE: Duration := MINUTE
  const DEFAULT_429_MAX: Duration := 15 * MINUTE

  /** The zero value of a Go time. */
  const ZERO_TIME: Time := 0

  datatype Start = Start(id: nat, at: Time)

  datatype Config = Config(startLimit: int, startWindow: Duration,
                           backoffBase: Duration, backoffMax: Duration)
  {
    predicate Valid() {
      startLimit >= 1 && startWindow > 0 && backoffBase > 0 && backoffMax > 0
    }
  }

  datatype Control = Control(starts: seq<Start>, nextStartID: nat,
                             openUntil: Time, consecutive: nat, breakerOpen: bool)

  datatype Admission = Admission(control: Control, reservation: nat, wait: Duration)

  // ---------- transitions ----------

  function CloseExpired(c: Control, now: Time): Control {
    if c.breakerOpen && now >= c.openUntil
    then c.(breakerOpen := false, openUntil := ZERO_TIME)
    else c
  }

  /** Drops the leading entries that are not after the cutoff. */
  function Prune(starts: seq<Start>, cutoff: Time): (r: seq<Start>)
    ensures |r| <= |starts| && (r != [] ==> r[0].at > cutoff)
  {
    if starts != [] && starts[0].at <= cutoff then Prune(starts[1..], cutoff) else starts
  }

  function TryReserve(cfg: Config, c: Control, now: Time): Admission
    requires cfg.Valid()
  {
    var open := CloseExpired(c, now);
    if open.breakerOpen then Admission(open, 0, open.openUntil - now)
    else
      var current := Prune(open.starts, now - cfg.startWindow);
      if |current| >= cfg.startLimit
      then Admission(open.(starts := current), 0, current[0].at + cfg.startWindow - now)
      else
        var id := open.nextStartID + 1;
        Admission(open.(starts := current + [Start(id, now)], nextStartID := id), id, 0)
  }

  /** Removes the first entry with the given id. */
  function Without(starts: seq<Start>, id: nat): seq<Start> {
    if starts == [] then []
    else if starts[0].id == id then starts[1..]
    else [starts[0]] + Without(starts[1..], id)
  }

  function Release(c: Control, id: nat): Control {
    if id == 0 then c else c.(starts := Without(c.starts, id))
  }

  /** The base doubled once for every 429 after the first. */
  function Doubled(cfg: Config, n: nat): Duration
    requires n >= 1
  {
    if n == 1 then cfg.backoffBase else 2 * Doubled(cfg, n - 1)
  }

  lemma {:induction false} DoubledIsPower(cfg: Config, n: nat)
    requires n >= 1
    ensures Doubled(cfg, n) == cfg.backoffBase * Pow2(n - 1)
  {
    if n > 1 {
      DoubledIsPower(cfg, n - 1);
      assert Pow2(n - 1) == 2 * Pow2(n - 2);
    }
  }

  lemma {:induction false} DoubledGrows(cfg: Config, m: nat, n: nat)
    requires cfg.Valid() && 1 <= m <= n
    ensures 0 < cfg.backoffBase <= Doubled(cfg, m) <= Doubled(cfg, n)
    decreases n
  {
    if m < n {
      DoubledGrows(cfg, m, n - 1);
    } else if m > 1 {
      DoubledGrows(cfg, m - 1, m - 1);
    }
  }

  /** The delay after n turns of the doubling loop: a turn doubles it while it is below half the
      cap, rounded down, and otherwise sets it to the cap. */
  function Delay(cfg: Config, n: nat): Duration
    requires n >= 1
  {
    if n == 1 then cfg.backoffBase
    else
      var delay := Delay(cfg, n - 1);
      if delay >= cfg.backoffMax then delay
      else if delay >= cfg.backoffMax / 2 then cfg.backoffMax
      else 2 * delay
  }

  /** The cooldown that n consecutive 429 answers ask for. */
  function Backoff(cfg: Config, n: nat): Duration
    requires cfg.Valid() && n >= 1
  {
    Min(Delay(cfg, n), cfg.backoffMax)
  }

  function JitterCap(cfg: Config, delay: Duration): Duration {
    Min(delay / 5, cfg.backoffMax - delay)
  }

  /** One draw of the jitter function: uniform over 0..cap, with `pick` as the random source. */
  function Jitter(cap: Duration, pick: nat): Duration {
    if cap <= 0 then 0 else pick % (cap + 1)
  }

  function Cooldown(cfg: Config, n: nat, retryAfter: Duration, pick: nat): Duration
    requires cfg.Valid() && n >= 1
  {
    var delay := Min(Max(Backoff(cfg, n), retryAfter), cfg.backoffMax);
    if cfg.backoffMax - delay > 0 then delay + Jitter(JitterCap(cfg, delay), pick) else delay
  }

  function RateLimited(cfg: Config, c: Control, now: Time, retryAfter: Duration, pick: nat): Control
    requires cfg.Valid()
  {
    var until := now + Cooldown(cfg, c.consecutive + 1, retryAfter, pick);
    c.(consecutive := c.consecutive + 1,
       openUntil := if c.breakerOpen then Max(c.openUntil, until) else until,
       breakerOpen := true)
  }

  function Succeeded(c: Control): Control {
    if c.breakerOpen then c else c.(consecutive := 0)
  }

  // ---------- exponential backoff ----------

  /** Once the loop has turned, its delay is the doubled base while that is more than one below
      the cap, and the cap from then on. */
  lemma {:induction false} DelayIs(cfg: Config, n: nat)
    requires cfg.Valid() && n >= 1
    ensures Delay(cfg, n) ==
            if n == 1 || cfg.backoffBase >= cfg.backoffMax then cfg.backoffBase
            else if Doubled(cfg, n) >= cfg.backoffMax - 1 then cfg.backoffMax
            else Doubled(cfg, n)
  {
    if n > 1 {
      DelayIs(cfg, n - 1);
      DoubledGrows(cfg, 1, n - 1);
    }
  }

  /** The halving loop computes the capped doubling for every count, except that it is one
      nanosecond longer exactly when the doubled base falls one short of the cap. With an
      even cap, as whole seconds give, that never happens. */
  lemma {:induction false} BackoffExactIff(cfg: Config, n: nat)
    requires cfg.Valid() && n >= 1
    ensures Backoff(cfg, n) ==
            Min(cfg.backoffMax, Doubled(cfg, n)) + if n >= 2 && Doubled(cfg, n) == cfg.backoffMax - 1 then 1 else 0
    ensures Doubled(cfg, n) == cfg.backoffBase * Pow2(n - 1)
    ensures Backoff(cfg, n) == Min(cfg.backoffMax, Doubled(cfg, n)) <==>
            !(n >= 2 && Doubled(cfg, n) == cfg.backoffMax - 1)
    ensures cfg.backoffMax % 2 == 0 ==> Backoff(cfg, n) == Min(cfg.backoffMax, Doubled(cfg, n))
  {
    DelayIs(cfg, n);
    DoubledIsPower(cfg, n);
    DoubledGrows(cfg, 1, n);
  }

  /** A delay that has reached the cap stays. */
  lemma {:induction false} DelayStays(cfg: Config, m: nat, n: nat)
    requires 1 <= m <= n && (m < n ==> Delay(cfg, m) >= cfg.backoffMax)
    ensures Delay(cfg, n) == Delay(cfg, m)
    decreases n
  {
    if m < n { DelayStays(cfg, m, n - 1); }
  }

  lemma BackoffInRange(cfg: Config, n: nat)
    requires cfg.Valid() && n >= 1
    ensures 0 < Backoff(cfg, n) <= cfg.backoffMax
  {
    DelayIs(cfg, n);
    DoubledGrows(cfg, n, n);
  }

  /** With a cap of 5 and a base of 2 the second answer waits 5, not 4. */
  lemma OddCapOvershoots()
    ensures var cfg := Config(1, 1, 2, 5);
            cfg.Valid() && Backoff(cfg, 2) == 5 && cfg.backoffBase * Pow2(1) == 4
  {
    assert Delay(Config(1, 1, 2, 5), 1) == 2 && Pow2(1) == 2 * Pow2(0);
  }

  /** Successive counts never shorten the backoff. */
  lemma BackoffMonotone(cfg: Config, m: nat, n: nat)
    requires cfg.Valid() && 1 <= m <= n
    ensures Backoff(cfg, m) <= Backoff(cfg, n)
  {
    DelayIs(cfg, m);
    DelayIs(cfg, n);
    DoubledGrows(cfg, 1, m);
    DoubledGrows(cfg, m, n);
    if m < n { DoubledGrows(cfg, m + 1, n); }
  }

  /** For any Retry-After and any jitter draw the cooldown honours the backoff and the
      provider's hint up to the cap, and jitter adds at most a fifth. */
  lemma CooldownBounds(cfg: Config, n: nat, retryAfter: Duration, pick: nat)
    requires cfg.Valid() && n >= 1
    ensures var d := Cooldown(cfg, n, retryAfter, pick);
            var floor := Max(Backoff(cfg, n), Min(retryAfter, cfg.backoffMax));
            0 < floor <= d <= Min(cfg.backoffMax, floor + floor / 5)
  {
    BackoffInRange(cfg, n);
  }

  /** A Retry-After delay is honoured in full exactly when it is within the cap, or the
      breaker was already open that long. */
  lemma HintHonouredIff(cfg: Config, c: Control, now: Time, retryAfter: Duration, pick: nat)
    requires cfg.Valid()
    ensures RateLimited(cfg, c, now, retryAfter, pick).openUntil >= now + retryAfter <==>
            retryAfter <= cfg.backoffMax || (c.breakerOpen && c.openUntil >= now + retryAfter)
  {
    CooldownBounds(cfg, c.consecutive + 1, retryAfter, pick);
  }

  /** An hour asked for with the default cap of fifteen minutes is not honoured. */
  lemma LongHintIsCut(pick: nat)
    ensures var cfg := Config(DEFAULT_STARTS, DEFAULT_INTERVAL, DEFAULT_429_BASE, DEFAULT_429_MAX);
            RateLimited(cfg, Control([], 0, ZERO_TIME, 0, false), 0, 60 * MINUTE, pick).openUntil == DEFAULT_429_MAX
  {
    var cfg := Config(DEFAULT_STARTS, DEFAULT_INTERVAL, DEFAULT_429_BASE, DEFAULT_429_MAX);
    CooldownBounds(cfg, 1, 60 * MINUTE, pick);
  }

  /** Jitter draws every value from none up to a fifth of the floor, as far as the cap leaves room. */
  lemma JitterReachesAll(cfg: Config, n: nat, retryAfter: Duration, extra: nat)
    requires cfg.Valid() && n >= 1
    ensures var floor := Max(Backoff(cfg, n), Min(retryAfter, cfg.backoffMax));
            extra <= floor / 5 && floor + extra <= cfg.backoffMax ==>
              Cooldown(cfg, n, retryAfter, extra) == floor + extra
  {
    BackoffInRange(cfg, n);
    var floor := Max(Backoff(cfg, n), Min(retryAfter, cfg.backoffMax));
    if extra <= floor / 5 && floor + extra <= cfg.backoffMax {
      assert Min(Max(Backoff(cfg, n), retryAfter), cfg.backoffMax) == floor;
      assert 0 <= extra <= JitterCap(cfg, floor);
      assert extra % (JitterCap(cfg, floor) + 1) == extra;
    }
  }

  // ---------- whole runs ----------

  datatype Event =
    | Reserving(now: Time)
    | Releasing(id: nat)
    | Limiting(now: Time, retryAfter: Duration, pick: nat)
    | Succeeding
    | Checking(now: Time)

  /** A control with the history of its run: every reservation ever issued, the ids
      handed back, and the cutoff of the latest pruning. */
  datatype World = World(control: Control, clock: Time, issued: seq<Start>,
                         released: set<nat>, horizon: Time)

  function Initial(cfg: Config, clock: Time): World {
    World(Control([], 0, ZERO_TIME, 0, false), clock, [], {}, clock - cfg.startWindow)
  }

  function EventTime(w: World, e: Event): Time {
    match e
    case Reserving(now) => now
    case Limiting(now, _, _) => now
    case Checking(now) => now
    case _ => w.clock
  }

  function Step(cfg: Config, w: World, e: Event): World
    requires cfg.Valid()
  {
    var w1 := w.(clock := EventTime(w, e));
    match e
    case Reserving(now) =>
      var a := TryReserve(cfg, w.control, now);
      w1.(control := a.control,
          issued := if a.reservation != 0 then w.issued + [Start(a.reservation, now)] else w.issued,
          horizon := if CloseExpired(w.control, now).breakerOpen then w.horizon else now - cfg.startWindow)
    case Releasing(id) =>
      w1.(control := Release(w.control, id),
          released := if 1 <= id <= |w.issued| then w.released + {id} else w.released)
    case Limiting(now, retryAfter, pick) =>
      w1.(control := RateLimited(cfg, w.control, now, retryAfter, pick))
    case Succeeding => w1.(control := Succeeded(w.control))
    case Checking(now) => w1.(control := CloseExpired(w.control, now))
  }

  function Run(cfg: Config, w: World, es: seq<Event>): World
    requires cfg.Valid()
    decreases |es|
  {
    if es == [] then w else Run(cfg, Step(cfg, w, es[0]), es[1..])
  }

  /** The clock readings never go back, in the order the lock is taken. */
  predicate Timely(cfg: Config, w: World, es: seq<Event>)
    requires cfg.Valid()
    decreases |es|
  {
    es == [] || (EventTime(w, es[0]) >= w.clock && Timely(cfg, Step(cfg, w, es[0]), es[1..]))
  }

  /** The reservations after `horizon` that were not handed back. */
  function Live(issued: seq<Start>, released: set<nat>, horizon: Time): seq<Start> {
    if issued == [] then []
    else
      var last := issued[|issued| - 1];
      Live(issued[..|issued| - 1], released, horizon) +
      if last.id !in released && last.at > horizon then [last] else []
  }

  /** How many reservations in [lo, hi) were not handed back. */
  function Kept(issued: seq<Start>, released: set<nat>, lo: Time, hi: Time): nat {
    if issued == [] then 0
    else
      var last := issued[|issued| - 1];
      Kept(issued[..|issued| - 1], released, lo, hi) +
      if last.id !in released && lo <= last.at < hi then 1 else 0
  }

  predicate Numbered(issued: seq<Start>, clock: Time) {
    && (forall k :: 0 <= k < |issued| ==> issued[k].id == k + 1 && issued[k].at <= clock)
    && (forall j, k :: 0 <= j < k < |issued| ==> issued[j].at <= issued[k].at)
  }

  /** The reservations of the window that starts at lo and were never handed back. */
  function KeptFrom(cfg: Config, w: World, lo: Time): nat {
    Kept(w.issued, w.released, lo, lo + cfg.startWindow)
  }

  ghost predicate Windowed(cfg: Config, w: World) {
    forall lo: Time :: KeptFrom(cfg, w, lo) <= cfg.startLimit
  }

  ghost predicate Inv(cfg: Config, w: World) {
    && Numbered(w.issued, w.clock)
    && w.control.nextStartID == |w.issued|
    && (forall id :: id in w.released ==> 1 <= id <= |w.issued|)
    && w.horizon <= w.clock - cfg.startWindow
    && w.control.starts == Live(w.issued, w.released, w.horizon)
    && Windowed(cfg, w)
    && (w.control.breakerOpen ==> w.control.openUntil <= w.clock + cfg.backoffMax)
  }

  lemma {:induction false} LiveMembers(issued: seq<Start>, released: set<nat>, horizon: Time)
    ensures forall s :: s in Live(issued, released, horizon) ==>
              s in issued && s.id !in released && s.at > horizon
  {
    if issued != [] { LiveMembers(issued[..|issued| - 1], released, horizon); }
  }

  lemma {:induction false} PruneAll(starts: seq<Start>, cutoff: Time)
    requires forall s :: s in starts ==> s.at <= cutoff
    ensures Prune(starts, cutoff) == []
  {
    if starts != [] { PruneAll(starts[1..], cutoff); }
  }

  lemma {:induction false} PruneAppend(starts: seq<Start>, x: Start, cutoff: Time)
    requires forall s :: s in starts ==> s.at <= x.at
    ensures Prune(starts + [x], cutoff) == Prune(starts, cutoff) + if x.at > cutoff then [x] else []
  {
    if starts == [] {
    } else if starts[0].at <= cutoff {
      assert (starts + [x])[1..] == starts[1..] + [x];
      PruneAppend(starts[1..], x, cutoff);
    }
  }

  /** On a log in time order, dropping the expired prefix keeps exactly the recent entries. */
  lemma {:induction false} PruneLive(issued: seq<Start>, released: set<nat>, clock: Time,
                                     horizon: Time, cutoff: Time)
    requires Numbered(issued, clock) && horizon <= cutoff
    ensures Prune(Live(issued, released, horizon), cutoff) == Live(issued, released, cutoff)
  {
    if issued != [] {
      var front, last := issued[..|issued| - 1], issued[|issued| - 1];
      var kept := Live(front, released, horizon);
      PruneLive(front, released, clock, horizon, cutoff);
      LiveMembers(front, released, horizon);
      if last.id !in released && last.at > horizon {
        PruneAppend(kept, last, cutoff);
      } else {
        assert kept + [] == kept;
      }
    }
  }

  lemma {:induction false} WithoutAppend(starts: seq<Start>, x: Start, id: nat)
    requires x.id == id ==> forall s :: s in starts ==> s.id != id
    ensures Without(starts + [x], id) == Without(starts, id) + if x.id == id then [] else [x]
  {
    if starts != [] {
      assert (starts + [x])[1..] == starts[1..] + [x];
      WithoutAppend(starts[1..], x, id);
    }
  }

  lemma {:induction false} WithoutUnless(starts: seq<Start>, id: nat)
    requires forall s :: s in starts ==> s.id != id
    ensures Without(starts, id) == starts
  {
    if starts != [] { WithoutUnless(starts[1..], id); }
  }

  lemma {:induction false} WithoutAt(starts: seq<Start>, i: nat, id: nat)
    requires i < |starts| && starts[i].id == id && forall k :: 0 <= k < i ==> starts[k].id != id
    ensures Without(starts, id) == starts[..i] + starts[i + 1..]
  {
    if i > 0 {
      WithoutAt(starts[1..], i - 1, id);
      assert starts[..i] == [starts[0]] + starts[1..][..i - 1];
    }
  }

  /** Handing an id back removes exactly that id from the log. */
  lemma {:induction false} WithoutLive(issued: seq<Start>, released: set<nat>, clock: Time,
                                       horizon: Time, id: nat)
    requires Numbered(issued, clock)
    ensures Without(Live(issued, released, horizon), id) == Live(issued, released + {id}, horizon)
  {
    if issued != [] {
      var front, last := issued[..|issued| - 1], issued[|issued| - 1];
      var kept := Live(front, released, horizon);
      WithoutLive(front, released, clock, horizon, id);
      LiveMembers(front, released, horizon);
      if last.id !in released && last.at > horizon {
        WithoutAppend(kept, last, id);
      } else {
        assert kept + [] == kept;
      }
    }
  }

  lemma {:induction false} KeptShrinks(issued: seq<Start>, released: set<nat>, more: set<nat>, lo: Time, hi: Time)
    requires released <= more
    ensures Kept(issued, more, lo, hi) <= Kept(issued, released, lo, hi)
  {
    if issued != [] { KeptShrinks(issued[..|issued| - 1], released, more, lo, hi); }
  }

  lemma {:induction false} KeptAreLive(issued: seq<Start>, released: set<nat>, lo: Time, hi: Time, horizon: Time)
    requires horizon < lo
    ensures Kept(issued, released, lo, hi) <= |Live(issued, released, horizon)|
  {
    if issued != [] { KeptAreLive(issued[..|issued| - 1], released, lo, hi, horizon); }
  }

  /** A new reservation keeps every window within the limit. */
  lemma AdmitKeepsWindow(cfg: Config, w: World, now: Time)
    requires cfg.Valid() && Inv(cfg, w) && now >= w.clock
    requires TryReserve(cfg, w.control, now).reservation != 0
    ensures Windowed(cfg, Step(cfg, w, Reserving(now)))
  {
    var w1 := Step(cfg, w, Reserving(now));
    var cutoff := now - cfg.startWindow;
    PruneLive(w.issued, w.released, w.clock, w.horizon, cutoff);
    assert w1.issued[..|w1.issued| - 1] == w.issued;
    forall lo: Time
      ensures KeptFrom(cfg, w1, lo) <= cfg.startLimit
    {
      assert KeptFrom(cfg, w, lo) <= cfg.startLimit;
      if now < lo + cfg.startWindow {
        KeptAreLive(w.issued, w.released, lo, lo + cfg.startWindow, cutoff);
      }
    }
  }

  /** Whether it closes the breaker, prunes the log or does neither, a refusal keeps the rest. */
  lemma RefusalKeepsInv(cfg: Config, w: World, now: Time)
    requires cfg.Valid() && Inv(cfg, w) && now >= w.clock
    requires TryReserve(cfg, w.control, now).reservation == 0
    ensures Inv(cfg, Step(cfg, w, Reserving(now)))
  {
    var w1 := Step(cfg, w, Reserving(now));
    PruneLive(w.issued, w.released, w.clock, w.horizon, now - cfg.startWindow);
    assert w1.issued == w.issued;
    assert forall lo: Time :: KeptFrom(cfg, w1, lo) == KeptFrom(cfg, w, lo);
  }

  lemma LiveGrows(issued: seq<Start>, released: set<nat>, horizon: Time, x: Start)
    requires x.id !in released && x.at > horizon
    ensures Live(issued + [x], released, horizon) == Live(issued, released, horizon) + [x]
  {
    assert (issued + [x])[..|issued|] == issued;
  }

  lemma AdmissionKeepsInv(cfg: Config, w: World, now: Time)
    requires cfg.Valid() && Inv(cfg, w) && now >= w.clock
    requires TryReserve(cfg, w.control, now).reservation != 0
    ensures Inv(cfg, Step(cfg, w, Reserving(now)))
  {
    var cutoff := now - cfg.startWindow;
    PruneLive(w.issued, w.released, w.clock, w.horizon, cutoff);
    LiveGrows(w.issued, w.released, cutoff, Start(|w.issued| + 1, now));
    AdmitKeepsWindow(cfg, w, now);
  }

  lemma ReserveKeepsInv(cfg: Config, w: World, now: Time)
    requires cfg.Valid() && Inv(cfg, w) && now >= w.clock
    ensures Inv(cfg, Step(cfg, w, Reserving(now)))
  {
    if TryReserve(cfg, w.control, now).reservation != 0 {
      AdmissionKeepsInv(cfg, w, now);
    } else {
      RefusalKeepsInv(cfg, w, now);
    }
  }

  lemma ReleaseKeepsInv(cfg: Config, w: World, id: nat)
    requires cfg.Valid() && Inv(cfg, w)
    ensures Inv(cfg, Step(cfg, w, Releasing(id)))
  {
    var w1 := Step(cfg, w, Releasing(id));
    if 1 <= id <= |w.issued| {
      WithoutLive(w.issued, w.released, w.clock, w.horizon, id);
    } else {
      LiveMembers(w.issued, w.released, w.horizon);
      WithoutUnless(w.control.starts, id);
    }
    forall lo: Time
      ensures KeptFrom(cfg, w1, lo) <= cfg.startLimit
    {
      KeptShrinks(w.issued, w.released, w1.released, lo, lo + cfg.startWindow);
      assert KeptFrom(cfg, w, lo) <= cfg.startLimit;
    }
  }

  lemma StepKeepsInv(cfg: Config, w: World, e: Event)
    requires cfg.Valid() && Inv(cfg, w) && EventTime(w, e) >= w.clock
    ensures Inv(cfg, Step(cfg, w, e))
  {
    if e.Reserving? {
      ReserveKeepsInv(cfg, w, e.now);
    } else if e.Releasing? {
      ReleaseKeepsInv(cfg, w, e.id);
    } else {
      if e.Limiting? { CooldownBounds(cfg, w.control.consecutive + 1, e.retryAfter, e.pick); }
      var w1 := Step(cfg, w, e);
      assert forall lo: Time :: KeptFrom(cfg, w1, lo) == KeptFrom(cfg, w, lo);
    }
  }

  lemma {:induction false} RunKeepsInv(cfg: Config, w: World, es: seq<Event>)
    requires cfg.Valid() && Inv(cfg, w) && Timely(cfg, w, es)
    ensures Inv(cfg, Run(cfg, w, es))
    decreases |es|
  {
    if es != [] {
      StepKeepsInv(cfg, w, es[0]);
      RunKeepsInv(cfg, Step(cfg, w, es[0]), es[1..]);
    }
  }

  /** Over any run with a nondecreasing clock, every half-open interval of one window
      holds at most `startLimit` reservations that were never handed back. */
  lemma WindowLimit(cfg: Config, clock: Time, es: seq<Event>, lo: Time)
    requires cfg.Valid() && Timely(cfg, Initial(cfg, clock), es)
    ensures var w := Run(cfg, Initial(cfg, clock), es);
            KeptFrom(cfg, w, lo) <= cfg.startLimit
  {
    RunKeepsInv(cfg, Initial(cfg, clock), es);
  }

  /** In every reachable state a call yields a reservation exactly when it asks for no wait. */
  lemma WaitIffNoReservation(cfg: Config, w: World, now: Time)
    requires cfg.Valid() && Inv(cfg, w) && now >= w.clock
    ensures var a := TryReserve(cfg, w.control, now);
            (a.wait <= 0 <==> a.reservation != 0) && (a.reservation != 0 ==> a.reservation == |w.issued| + 1)
  {
    PruneLive(w.issued, w.released, w.clock, w.horizon, now - cfg.startWindow);
  }

  /** A caller is admitted exactly when the breaker is closed or its instant has come, and fewer
      than `startLimit` reservations of the window that ends now were kept. */
  lemma AdmittedIff(cfg: Config, w: World, now: Time)
    requires cfg.Valid() && Inv(cfg, w) && now >= w.clock
    ensures TryReserve(cfg, w.control, now).reservation != 0 <==>
            && (w.control.breakerOpen ==> w.control.openUntil <= now)
            && Kept(w.issued, w.released, now - cfg.startWindow + 1, now + 1) < cfg.startLimit
  {
    PruneLive(w.issued, w.released, w.clock, w.horizon, now - cfg.startWindow);
    LiveCounted(w.issued, w.released, now - cfg.startWindow, now);
  }

  // ---------- consecutive 429 answers ----------

  /** How many 429 answers a run has recorded since its last success on a closed breaker, counting
      on from k. */
  function Streak(cfg: Config, w: World, es: seq<Event>, k: nat): nat
    requires cfg.Valid()
    decreases |es|
  {
    if es == [] then k
    else Streak(cfg, Step(cfg, w, es[0]), es[1..],
                if es[0].Limiting? then k + 1 else if es[0].Succeeding? && !w.control.breakerOpen then 0 else k)
  }

  lemma {:induction false} StreakIsCounted(cfg: Config, w: World, es: seq<Event>)
    requires cfg.Valid()
    ensures Run(cfg, w, es).control.consecutive == Streak(cfg, w, es, w.control.consecutive)
    decreases |es|
  {
    if es != [] { StreakIsCounted(cfg, Step(cfg, w, es[0]), es[1..]); }
  }

  /** What the k-th 429 answer in a row waits without jitter and hint: the base times two to the
      power k - 1, capped, or one more in the one case of an odd cap. */
  function CappedPower(cfg: Config, k: nat): Duration
    requires k >= 1
  {
    Min(cfg.backoffMax, cfg.backoffBase * Pow2(k - 1)) +
    if k >= 2 && cfg.backoffBase * Pow2(k - 1) == cfg.backoffMax - 1 then 1 else 0
  }

  /** Over any run the next 429 opens the breaker for as long as the number of 429 answers in a row
      asks for: at least that long, and without a hint, from a closed breaker, at most a fifth
      longer. */
  lemma RepeatedLimitsBackOff(cfg: Config, clock: Time, es: seq<Event>, now: Time, retryAfter: Duration, pick: nat)
    requires cfg.Valid()
    ensures var w := Run(cfg, Initial(cfg, clock), es);
            var k := Streak(cfg, Initial(cfg, clock), es, 0) + 1;
            var until := Step(cfg, w, Limiting(now, retryAfter, pick)).control.openUntil;
            && until >= now + CappedPower(cfg, k)
            && (retryAfter <= 0 && !w.control.breakerOpen ==>
                  until <= now + Min(cfg.backoffMax, CappedPower(cfg, k) + CappedPower(cfg, k) / 5))
  {
    var k := Streak(cfg, Initial(cfg, clock), es, 0) + 1;
    StreakIsCounted(cfg, Initial(cfg, clock), es);
    CappedPowerIsBackoff(cfg, k);
    LimitBounds(cfg, Run(cfg, Initial(cfg, clock), es).control, now, retryAfter, pick);
  }

  lemma LimitBounds(cfg: Config, c: Control, now: Time, retryAfter: Duration, pick: nat)
    requires cfg.Valid()
    ensures var until, pause := RateLimited(cfg, c, now, retryAfter, pick).openUntil, Backoff(cfg, c.consecutive + 1);
            && until >= now + pause
            && (retryAfter <= 0 && !c.breakerOpen ==> until <= now + Min(cfg.backoffMax, pause + pause / 5))
  {
    CooldownBounds(cfg, c.consecutive + 1, retryAfter, pick);
  }

  lemma CappedPowerIsBackoff(cfg: Config, k: nat)
    requires cfg.Valid() && k >= 1
    ensures Backoff(cfg, k) == CappedPower(cfg, k)
  {
    BackoffExactIff(cfg, k);
  }

  function Limits(es: seq<Event>): nat {
    if es == [] then 0 else Limits(es[1..]) + if es[0].Limiting? then 1 else 0
  }

  /** Without a success every 429 counts, whatever reservations, hand-backs and checks come between. */
  lemma {:induction false} EveryLimitCounts(cfg: Config, w: World, es: seq<Event>, k: nat)
    requires cfg.Valid() && forall i :: 0 <= i < |es| ==> !es[i].Succeeding?
    ensures Streak(cfg, w, es, k) == k + Limits(es)
    decreases |es|
  {
    if es != [] {
      EveryLimitCounts(cfg, Step(cfg, w, es[0]), es[1..], if es[0].Limiting? then k + 1 else k);
    }
  }

  lemma {:induction false} StreakOnward(cfg: Config, w: World, es: seq<Event>, e: Event, k: nat)
    requires cfg.Valid()
    ensures Run(cfg, w, es + [e]) == Step(cfg, Run(cfg, w, es), e)
    ensures Streak(cfg, w, es + [e], k) ==
            if e.Limiting? then Streak(cfg, w, es, k) + 1
            else if e.Succeeding? && !Run(cfg, w, es).control.breakerOpen then 0 else Streak(cfg, w, es, k)
    decreases |es|
  {
    if es == [] {
      assert es + [e] == [e] && [e][1..] == [];
    } else {
      assert (es + [e])[1..] == es[1..] + [e];
      StreakOnward(cfg, Step(cfg, w, es[0]), es[1..], e,
                   if es[0].Limiting? then k + 1 else if es[0].Succeeding? && !w.control.breakerOpen then 0 else k);
    }
  }

  /** A success on a closed breaker starts the backoff again: the next 429 waits the base, and at
      most a fifth more. A success while the breaker is open changes nothing. */
  lemma SuccessResetsBackoff(cfg: Config, clock: Time, es: seq<Event>, now: Time, pick: nat)
    requires cfg.Valid()
    ensures var w := Run(cfg, Initial(cfg, clock), es);
            var next := Step(cfg, Run(cfg, Initial(cfg, clock), es + [Succeeding]), Limiting(now, 0, pick));
            if w.control.breakerOpen then Run(cfg, Initial(cfg, clock), es + [Succeeding]).control == w.control
            else var base := Min(cfg.backoffBase, cfg.backoffMax);
                 now + base <= next.control.openUntil <= now + Min(cfg.backoffMax, base + base / 5)
  {
    StreakOnward(cfg, Initial(cfg, clock), es, Succeeding, 0);
    RepeatedLimitsBackOff(cfg, clock, es + [Succeeding], now, 0, pick);
  }

  /** Two 429 answers at the default settings, the second one after the first pause is over: the
      second pause is two minutes. */
  lemma SecondPauseIsDouble()
    ensures var cfg := Config(DEFAULT_STARTS, DEFAULT_INTERVAL, DEFAULT_429_BASE, DEFAULT_429_MAX);
            var es := [Limiting(0, 0, 0), Checking(61 * SECOND), Limiting(61 * SECOND, 0, 0)];
            Run(cfg, Initial(cfg, 0), es).control.openUntil == 61 * SECOND + 2 * MINUTE
  {
    var cfg := Config(DEFAULT_STARTS, DEFAULT_INTERVAL, DEFAULT_429_BASE, DEFAULT_429_MAX);
    var es := [Limiting(0, 0, 0), Checking(61 * SECOND), Limiting(61 * SECOND, 0, 0)];
    assert Delay(cfg, 1) == MINUTE && Delay(cfg, 2) == 2 * MINUTE;
    JitterReachesAll(cfg, 1, 0, 0);
    JitterReachesAll(cfg, 2, 0, 0);
    var w1 := Step(cfg, Initial(cfg, 0), Limiting(0, 0, 0));
    var w2 := Step(cfg, w1, Checking(61 * SECOND));
    assert w1.control.openUntil == MINUTE && w2.control.consecutive == 1 && !w2.control.breakerOpen;
    assert es[1..] == [Checking(61 * SECOND), Limiting(61 * SECOND, 0, 0)];
    assert es[1..][1..] == [Limiting(61 * SECOND, 0, 0)] && es[1..][1..][1..] == [];
    assert Run(cfg, w2, [Limiting(61 * SECOND, 0, 0)]) == Step(cfg, w2, Limiting(61 * SECOND, 0, 0));
  }

  // ---------- how long a refused caller waits ----------

  /** Nothing can be admitted before `until` unless a reservation is handed back. */
  predicate BlockedUntil(cfg: Config, c: Control, until: Time)
    requires cfg.Valid()
  {
    || (c.breakerOpen && c.openUntil >= until)
    || (|c.starts| >= cfg.startLimit && c.starts[0].at + cfg.startWindow >= until)
  }

  predicate NoRelease(es: seq<Event>) { forall e :: e in es ==> !e.Releasing? }

  lemma {:induction false} BlockedRun(cfg: Config, w: World, es: seq<Event>, until: Time)
    requires cfg.Valid() && Timely(cfg, w, es)
    requires BlockedUntil(cfg, w.control, until)
    requires NoRelease(es) || (w.control.breakerOpen && w.control.openUntil >= until)
    requires Run(cfg, w, es).clock < until
    ensures Run(cfg, w, es).issued == w.issued && BlockedUntil(cfg, Run(cfg, w, es).control, until)
    ensures w.control.breakerOpen && w.control.openUntil >= until ==>
              Run(cfg, w, es).control.breakerOpen && Run(cfg, w, es).control.openUntil >= w.control.openUntil
    decreases |es|
  {
    if es != [] {
      var w1 := Step(cfg, w, es[0]);
      ClockAdvances(cfg, w1, es[1..]);
      if NoRelease(es) { assert es[0] in es; assert NoRelease(es[1..]); }
      BlockedRun(cfg, w1, es[1..], until);
    }
  }

  lemma {:induction false} ClockAdvances(cfg: Config, w: World, es: seq<Event>)
    requires cfg.Valid() && Timely(cfg, w, es)
    ensures Run(cfg, w, es).clock >= w.clock
    decreases |es|
  {
    if es != [] { ClockAdvances(cfg, Step(cfg, w, es[0]), es[1..]); }
  }

  /** A refused caller cannot be admitted earlier than told: whatever happens before
      now + wait, short of a hand-back, no reservation is issued. */
  lemma WaitIsLowerBound(cfg: Config, w: World, now: Time, es: seq<Event>)
    requires cfg.Valid() && now >= w.clock
    requires TryReserve(cfg, w.control, now).wait > 0
    requires var w1 := Step(cfg, w, Reserving(now));
             Timely(cfg, w1, es) && NoRelease(es) &&
             Run(cfg, w1, es).clock < now + TryReserve(cfg, w.control, now).wait
    ensures Run(cfg, Step(cfg, w, Reserving(now)), es).issued == w.issued
  {
    BlockedRun(cfg, Step(cfg, w, Reserving(now)), es, now + TryReserve(cfg, w.control, now).wait);
  }

  /** When the window is what blocks, retrying after exactly the wait succeeds, even
      if other callers retried and successes were recorded in between. */
  lemma {:induction false} WindowWaitIsExact(cfg: Config, w: World, now: Time, es: seq<Event>)
    requires cfg.Valid() && Inv(cfg, w) && now >= w.clock
    requires TryReserve(cfg, w.control, now).wait > 0 && !CloseExpired(w.control, now).breakerOpen
    requires var w1 := Step(cfg, w, Reserving(now));
             Timely(cfg, w1, es) && Run(cfg, w1, es).clock < now + TryReserve(cfg, w.control, now).wait
    requires forall e :: e in es ==> !e.Releasing? && !e.Limiting?
    ensures var w2 := Run(cfg, Step(cfg, w, Reserving(now)), es);
            var again := TryReserve(cfg, w2.control, now + TryReserve(cfg, w.control, now).wait);
            again.reservation == |w.issued| + 1 && again.wait == 0
  {
    var w1 := Step(cfg, w, Reserving(now));
    var until := now + TryReserve(cfg, w.control, now).wait;
    StepKeepsInv(cfg, w, Reserving(now));
    LimitReached(cfg, w1);
    QuietRun(cfg, w1, es, until);
    var starts := w1.control.starts;
    assert Prune(starts, until - cfg.startWindow) == Prune(starts[1..], until - cfg.startWindow);
  }

  /** When the breaker is what blocks, it opens at exactly the wait, and a retry then, after any other
      retries and successes, is admitted exactly when the window has room by that time. */
  lemma {:induction false} BreakerWaitExactIff(cfg: Config, w: World, now: Time, es: seq<Event>)
    requires cfg.Valid() && now >= w.clock && CloseExpired(w.control, now).breakerOpen
    requires var w1 := Step(cfg, w, Reserving(now));
             Timely(cfg, w1, es) && Run(cfg, w1, es).clock < now + TryReserve(cfg, w.control, now).wait
    requires forall e :: e in es ==> !e.Releasing? && !e.Limiting?
    ensures var until := now + TryReserve(cfg, w.control, now).wait;
            var again := TryReserve(cfg, Run(cfg, Step(cfg, w, Reserving(now)), es).control, until);
            && until == w.control.openUntil > now && !again.control.breakerOpen
            && (again.reservation != 0 <==> |Prune(w.control.starts, until - cfg.startWindow)| < cfg.startLimit)
  {
    OpenRun(cfg, Step(cfg, w, Reserving(now)), es);
  }

  /** Retries and successes change nothing while the breaker is open. */
  lemma {:induction false} OpenRun(cfg: Config, w: World, es: seq<Event>)
    requires cfg.Valid() && Timely(cfg, w, es) && w.control.breakerOpen
    requires Run(cfg, w, es).clock < w.control.openUntil
    requires forall e :: e in es ==> !e.Releasing? && !e.Limiting?
    ensures Run(cfg, w, es).control == w.control
    decreases |es|
  {
    if es != [] {
      assert es[0] in es;
      ClockAdvances(cfg, Step(cfg, w, es[0]), es[1..]);
      OpenRun(cfg, Step(cfg, w, es[0]), es[1..]);
    }
  }

  /** The pruned log is never longer than the limit. */
  lemma LimitReached(cfg: Config, w: World)
    requires cfg.Valid() && Inv(cfg, w)
    requires w.horizon == w.clock - cfg.startWindow
    ensures |w.control.starts| <= cfg.startLimit
  {
    LiveCounted(w.issued, w.released, w.horizon, w.clock);
    assert KeptFrom(cfg, w, w.horizon + 1) <= cfg.startLimit;
  }

  lemma {:induction false} LiveCounted(issued: seq<Start>, released: set<nat>, horizon: Time, clock: Time)
    requires Numbered(issued, clock)
    ensures |Live(issued, released, horizon)| == Kept(issued, released, horizon + 1, clock + 1)
  {
    if issued != [] { LiveCounted(issued[..|issued| - 1], released, horizon, clock); }
  }

  lemma {:induction false} QuietRun(cfg: Config, w: World, es: seq<Event>, until: Time)
    requires cfg.Valid() && Timely(cfg, w, es) && !w.control.breakerOpen
    requires |w.control.starts| == cfg.startLimit && w.control.starts[0].at + cfg.startWindow == until
    requires Run(cfg, w, es).clock < until
    requires forall e :: e in es ==> !e.Releasing? && !e.Limiting?
    ensures Run(cfg, w, es).control.starts == w.control.starts && !Run(cfg, w, es).control.breakerOpen
    ensures Run(cfg, w, es).control.nextStartID == w.control.nextStartID
    decreases |es|
  {
    if es != [] {
      assert es[0] in es;
      ClockAdvances(cfg, Step(cfg, w, es[0]), es[1..]);
      QuietRun(cfg, Step(cfg, w, es[0]), es[1..], until);
    }
  }

  // ---------- the breaker over a run ----------

  /** After a 429 is recorded, nothing is admitted before the returned instant, the
      instant only moves later while it lies ahead, and it stays within the cap. */
  lemma BreakerHolds(cfg: Config, w: World, now: Time, retryAfter: Duration, pick: nat, es: seq<Event>)
    requires cfg.Valid() && Inv(cfg, w) && now >= w.clock
    requires var w1 := Step(cfg, w, Limiting(now, retryAfter, pick));
             Timely(cfg, w1, es) && Run(cfg, w1, es).clock < w1.control.openUntil
    ensures var w1 := Step(cfg, w, Limiting(now, retryAfter, pick));
            var w2 := Run(cfg, w1, es);
            && w2.issued == w.issued
            && w2.control.breakerOpen
            && now < w1.control.openUntil <= w2.control.openUntil <= w2.clock + cfg.backoffMax
            && (w.control.breakerOpen ==> w.control.openUntil <= w1.control.openUntil)
  {
    var w1 := Step(cfg, w, Limiting(now, retryAfter, pick));
    CooldownBounds(cfg, w.control.consecutive + 1, retryAfter, pick);
    StepKeepsInv(cfg, w, Limiting(now, retryAfter, pick));
    BlockedRun(cfg, w1, es, w1.control.openUntil);
    RunKeepsInv(cfg, w1, es);
  }

  // ---------- the class of the source ----------

  /** Configured keys and limits, the reservation log and the breaker. */
  class RewriteControl {
    const apiKeys: seq<string>
    const cfg: Config
    var nextKey: nat
    var starts: seq<Start>
    var nextStartID: nat
    var openUntil: Time
    var consecutive: nat
    var breakerOpen: bool

    ghost predicate Valid()
      reads this
    {
      cfg.Valid() && (apiKeys != [] ==> nextKey < |apiKeys|)
    }

    ghost function View(): Control
      reads this
    {
      Control(starts, nextStartID, openUntil, consecutive, breakerOpen)
    }

    /** Falls back to the defaults. The cap can only end below the base when the given
        cap is below a base that is itself above the default cap. */
    constructor (apiKeys: seq<string>, startLimit: int, startWindow: Duration,
                 backoffBase: Duration, backoffMax: Duration)
      ensures Valid() && this.apiKeys == apiKeys && nextKey == 0
      ensures forall clock :: View() == Initial(cfg, clock).control
      ensures cfg.startLimit == if startLimit >= 1 then startLimit else 10
      ensures cfg.startWindow == if startWindow > 0 then startWindow else 60 * SECOND
      ensures cfg.backoffBase == if backoffBase > 0 then backoffBase else 60 * SECOND
      ensures cfg.backoffMax == if backoffMax >= cfg.backoffBase then backoffMax else 900 * SECOND
      ensures 0 < backoffBase <= backoffMax ==> cfg.backoffBase == backoffBase && cfg.backoffMax == backoffMax
      ensures cfg.backoffBase > cfg.backoffMax <==> backoffBase > backoffMax && backoffBase > DEFAULT_429_MAX
    {
      var limit, window, base, max := startLimit, startWindow, backoffBase, backoffMax;
      if limit < 1 { limit := DEFAULT_STARTS; }
      if window <= 0 { window := DEFAULT_INTERVAL; }
      if base <= 0 { base := DEFAULT_429_BASE; }
      if max < base { max := DEFAULT_429_MAX; }
      this.apiKeys := apiKeys;
      this.cfg := Config(limit, window, base, max);
      nextKey, starts, nextStartID := 0, [], 0;
      openUntil, consecutive, breakerOpen := ZERO_TIME, 0, false;
    }

    /** Round robin over the pool: key k is handed out with its one-based slot, and the
        turn passes to the next key. */
    method NextAPIKey() returns (r: Option<(string, nat)>)
      requires Valid()
      modifies this`nextKey
      ensures Valid()
      ensures r.None? <==> apiKeys == []
      ensures apiKeys != [] ==>
                r == Some((apiKeys[old(nextKey)], old(nextKey) + 1)) && nextKey == (old(nextKey) + 1) % |apiKeys|
      ensures apiKeys == [] ==> nextKey == old(nextKey)
    {
      if |apiKeys| == 0 { return None; }
      var slot := nextKey % |apiKeys|;
      nextKey := (nextKey + 1) % |apiKeys|;
      return Some((apiKeys[slot], slot + 1));
    }

    method CloseExpiredBreaker(now: Time)
      requires Valid()
      modifies this`openUntil, this`breakerOpen
      ensures Valid() && View() == CloseExpired(old(View()), now)
      ensures breakerOpen <==> old(breakerOpen) && now < old(openUntil)
      ensures openUntil == if old(breakerOpen) && old(openUntil) <= now then ZERO_TIME else old(openUntil)
    {
      if breakerOpen && !(now < openUntil) {
        breakerOpen := false;
        openUntil := ZERO_TIME;
      }
    }

    method TryReserveJobStart(now: Time) returns (reservation: nat, wait: Duration)
      requires Valid()
      modifies this
      ensures Valid() && nextKey == old(nextKey)
      ensures Admission(View(), reservation, wait) == TryReserve(cfg, old(View()), now)
    {
      CloseExpiredBreaker(now);
      if breakerOpen { return 0, openUntil - now; }
      var cutoff := now - cfg.startWindow;
      var firstCurrent := 0;
      while firstCurrent < |starts| && starts[firstCurrent].at <= cutoff
        invariant 0 <= firstCurrent <= |starts|
        invariant Prune(starts, cutoff) == Prune(starts[firstCurrent..], cutoff)
      {
        firstCurrent := firstCurrent + 1;
      }
      if firstCurrent > 0 { starts := starts[firstCurrent..]; }
      if |starts| >= cfg.startLimit { return 0, starts[0].at + cfg.startWindow - now; }
      nextStartID := nextStartID + 1;
      starts := starts + [Start(nextStartID, now)];
      return nextStartID, 0;
    }

    method CooldownUntil(now: Time) returns (until: Time, open: bool)
      requires Valid()
      modifies this`openUntil, this`breakerOpen
      ensures Valid() && View() == CloseExpired(old(View()), now)
      ensures open <==> old(breakerOpen) && now < old(openUntil)
      ensures until == if open then old(openUntil) else openUntil
    {
      CloseExpiredBreaker(now);
      return openUntil, breakerOpen;
    }

    method ReleaseJobStart(reservation: nat)
      requires Valid()
      modifies this`starts
      ensures Valid() && View() == Release(old(View()), reservation)
    {
      if reservation == 0 { return; }
      var i := 0;
      while i < |starts|
        invariant 0 <= i <= |starts| && starts == old(starts)
        invariant forall k :: 0 <= k < i ==> starts[k].id != reservation
      {
        if starts[i].id == reservation {
          WithoutAt(starts, i, reservation);
          starts := starts[..i] + starts[i + 1..];
          return;
        }
        i := i + 1;
      }
      WithoutUnless(starts, reservation);
    }

    /** The doubling loop. Clamped, its result is the capped power of the base, or one more when
        the doubled base falls one short of the cap; no delay passes the base or the cap. */
    method BackoffDelay(n: nat) returns (delay: Duration)
      requires cfg.Valid() && n >= 1
      ensures Min(delay, cfg.backoffMax) ==
              Min(cfg.backoffMax, Doubled(cfg, n)) + if n >= 2 && Doubled(cfg, n) == cfg.backoffMax - 1 then 1 else 0
      ensures Min(delay, cfg.backoffMax) == Backoff(cfg, n)
      ensures delay <= Max(cfg.backoffBase, cfg.backoffMax)
    {
      delay := cfg.backoffBase;
      var i := 1;
      BackoffExactIff(cfg, n);
      while i < n && delay < cfg.backoffMax
        invariant 1 <= i <= n && delay == Delay(cfg, i) && delay <= Max(cfg.backoffBase, cfg.backoffMax)
        invariant delay > 0
      {
        if delay >= cfg.backoffMax / 2 {
          DelayStays(cfg, i + 1, n);
          return cfg.backoffMax;
        }
        delay := delay * 2;
        i := i + 1;
      }
      DelayStays(cfg, i, n);
    }

    /** The larger of backoff and hint, clamped, with jitter as far as the cap leaves room. */
    method CooldownDelay(n: nat, retryAfter: Duration, pick: nat) returns (delay: Duration)
      requires cfg.Valid() && n >= 1
      ensures delay == Cooldown(cfg, n, retryAfter, pick)
    {
      delay := BackoffDelay(n);
      if retryAfter > delay { delay := retryAfter; }
      if delay > cfg.backoffMax { delay := cfg.backoffMax; }
      var remaining := cfg.backoffMax - delay;
      if remaining > 0 {
        var jitterMax := delay / 5;
        if jitterMax > remaining { jitterMax := remaining; }
        delay := delay + Jitter(jitterMax, pick);
      }
    }

    method RecordRateLimit(now: Time, retryAfter: Duration, pick: nat) returns (until: Time)
      requires Valid()
      modifies this`consecutive, this`openUntil, this`breakerOpen
      ensures Valid() && View() == RateLimited(cfg, old(View()), now, retryAfter, pick)
      ensures until == openUntil
    {
      consecutive := consecutive + 1;
      var delay := CooldownDelay(consecutive, retryAfter, pick);
      var proposed := now + delay;
      if !(breakerOpen && proposed <= openUntil) { openUntil := proposed; }
      breakerOpen := true;
      return openUntil;
    }

    method RecordSuccess()
      requires Valid()
      modifies this`consecutive
      ensures Valid() && View() == Succeeded(old(View()))
    {
      if !breakerOpen { consecutive := 0; }
    }
  }
}
