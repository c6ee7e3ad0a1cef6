/** The fixed-window request limiter (backend/middleware/ratelimit.go). */
module RequestLimiter {
  import opened Common

  type Time = int

  /** The zero value of a Go time, which marks a key without a window. */
  const ZERO_TIME: Time := 0

  datatype Entry = Entry(count: int, windowStart: Time)

  type Entries = map<string, Entry>

  datatype Config = Config(limit: int, window: int)

  function Lookup(entries: Entries, key: string): Entry {
    if key in entries then entries[key] else Entry(0, ZERO_TIME)
  }

  predicate Expired(cfg: Config, e: Entry, now: Time) { now - e.windowStart >= cfg.window }

  /** Deciding one request, without the sweep. */
  function Decide(cfg: Config, entries: Entries, key: string, now: Time): (Entries, bool) {
    var e := Lookup(entries, key);
    if e.windowStart == ZERO_TIME || Expired(cfg, e, now) then (entries[key := Entry(1, now)], true)
    else if e.count >= cfg.limit then (entries, false)
    else (entries[key := Entry(e.count + 1, e.windowStart)], true)
  }

  function Sweep(cfg: Config, entries: Entries, now: Time): Entries {
    map k | k in entries && !Expired(cfg, entries[k], now) :: entries[k]
  }

  const SWEEP_EVERY := 1000

  /** Deciding request number calls + 1, which sweeps on every thousandth call. */
  function Answer(cfg: Config, entries: Entries, calls: nat, key: string, now: Time): (Entries, bool) {
    Decide(cfg, if (calls + 1) % SWEEP_EVERY == 0 then Sweep(cfg, entries, now) else entries, key, now)
  }

  datatype Request = Request(key: string, now: Time)

  predicate Timely(clock: Time, rs: seq<Request>)
    decreases |rs|
  {
    rs == [] || (rs[0].now >= clock && Timely(rs[0].now, rs[1..]))
  }

  function Answers(cfg: Config, entries: Entries, calls: nat, rs: seq<Request>): (r: seq<bool>)
    ensures |r| == |rs|
    decreases |rs|
  {
    if rs == [] then []
    else
      var (next, allowed) := Answer(cfg, entries, calls, rs[0].key, rs[0].now);
      [allowed] + Answers(cfg, next, calls + 1, rs[1..])
  }

  function UnsweptAnswers(cfg: Config, entries: Entries, rs: seq<Request>): (r: seq<bool>)
    ensures |r| == |rs|
    decreases |rs|
  {
    if rs == [] then []
    else
      var (next, allowed) := Decide(cfg, entries, rs[0].key, rs[0].now);
      [allowed] + UnsweptAnswers(cfg, next, rs[1..])
  }

  // ---------- the sweep is invisible ----------

  /** The window of a key, if it still matters. */
  function Current(cfg: Config, entries: Entries, key: string, now: Time): Option<Entry> {
    var e := Lookup(entries, key);
    if e.windowStart == ZERO_TIME || Expired(cfg, e, now) then None else Some(e)
  }

  ghost predicate Similar(cfg: Config, s: Entries, t: Entries, clock: Time) {
    forall k :: Current(cfg, s, k, clock) == Current(cfg, t, k, clock)
  }

  lemma SimilarLater(cfg: Config, s: Entries, t: Entries, clock: Time, now: Time)
    requires Similar(cfg, s, t, clock) && clock <= now
    ensures Similar(cfg, s, t, now)
  {
    forall k
      ensures Current(cfg, s, k, now) == Current(cfg, t, k, now)
    {
      assert Current(cfg, s, k, clock) == Current(cfg, t, k, clock);
    }
  }

  lemma DecideAgrees(cfg: Config, s: Entries, t: Entries, key: string, now: Time)
    requires Similar(cfg, s, t, now)
    ensures Decide(cfg, s, key, now).1 == Decide(cfg, t, key, now).1
    ensures Similar(cfg, Decide(cfg, s, key, now).0, Decide(cfg, t, key, now).0, now)
  {
    assert Current(cfg, s, key, now) == Current(cfg, t, key, now);
    var s1, t1 := Decide(cfg, s, key, now).0, Decide(cfg, t, key, now).0;
    forall k
      ensures Current(cfg, s1, k, now) == Current(cfg, t1, k, now)
    {
      assert Current(cfg, s, k, now) == Current(cfg, t, k, now);
    }
  }

  lemma {:induction false} SimilarRuns(cfg: Config, s: Entries, calls: nat, t: Entries, clock: Time, rs: seq<Request>)
    requires Similar(cfg, s, t, clock) && Timely(clock, rs)
    ensures Answers(cfg, s, calls, rs) == UnsweptAnswers(cfg, t, rs)
    decreases |rs|
  {
    if rs != [] {
      var key, now := rs[0].key, rs[0].now;
      SimilarLater(cfg, s, t, clock, now);
      var swept := if (calls + 1) % SWEEP_EVERY == 0 then Sweep(cfg, s, now) else s;
      assert Similar(cfg, swept, t, now) by {
        forall k
          ensures Current(cfg, swept, k, now) == Current(cfg, t, k, now)
        {
          assert Current(cfg, s, k, now) == Current(cfg, t, k, now);
          assert Current(cfg, Sweep(cfg, s, now), k, now) == Current(cfg, s, k, now);
        }
      }
      DecideAgrees(cfg, swept, t, key, now);
      SimilarRuns(cfg, Decide(cfg, swept, key, now).0, calls + 1, Decide(cfg, t, key, now).0, now, rs[1..]);
    }
  }

  /** With a nondecreasing clock the sweep never changes an answer: the limiter answers as
      one that never forgets a key. */
  lemma SweepInvisible(cfg: Config, entries: Entries, calls: nat, clock: Time, rs: seq<Request>)
    requires Timely(clock, rs)
    ensures Answers(cfg, entries, calls, rs) == UnsweptAnswers(cfg, entries, rs)
  {
    SimilarRuns(cfg, entries, calls, entries, clock, rs);
  }

  /** The sweep leaves exactly the keys whose window is not over. */
  lemma SweepLeaves(cfg: Config, entries: Entries, now: Time, key: string)
    ensures key in Sweep(cfg, entries, now) <==> key in entries && now < entries[key].windowStart + cfg.window
    ensures key in Sweep(cfg, entries, now) ==> Sweep(cfg, entries, now)[key] == entries[key]
  {
  }

  // ---------- how many requests a window lets through ----------

  /** The instants at which one key was served, given the answers to all requests. */
  function Served(rs: seq<Request>, answers: seq<bool>, key: string): seq<Time>
    requires |rs| == |answers|
    decreases |rs|
  {
    if rs == [] then []
    else (if rs[0].key == key && answers[0] then [rs[0].now] else []) + Served(rs[1..], answers[1..], key)
  }

  /** The same, computed while deciding the requests without sweeps. */
  function ServedBy(cfg: Config, entries: Entries, rs: seq<Request>, key: string): seq<Time>
    decreases |rs|
  {
    if rs == [] then []
    else
      var (next, allowed) := Decide(cfg, entries, rs[0].key, rs[0].now);
      (if rs[0].key == key && allowed then [rs[0].now] else []) + ServedBy(cfg, next, rs[1..], key)
  }

  lemma {:induction false} ServedByAnswers(cfg: Config, entries: Entries, rs: seq<Request>, key: string)
    ensures Served(rs, UnsweptAnswers(cfg, entries, rs), key) == ServedBy(cfg, entries, rs, key)
    decreases |rs|
  {
    if rs != [] {
      var next := Decide(cfg, entries, rs[0].key, rs[0].now).0;
      ServedByAnswers(cfg, next, rs[1..], key);
      assert UnsweptAnswers(cfg, entries, rs)[1..] == UnsweptAnswers(cfg, next, rs[1..]);
    }
  }

  function CountIn(times: seq<Time>, lo: Time, hi: Time): nat {
    if times == [] then 0
    else CountIn(times[..|times| - 1], lo, hi) + if lo <= times[|times| - 1] < hi then 1 else 0
  }

  function CountAfter(times: seq<Time>, lo: Time): nat {
    if times == [] then 0
    else CountAfter(times[..|times| - 1], lo) + if lo < times[|times| - 1] then 1 else 0
  }

  /** The first request of a window is always served, so a limit below one acts as one. */
  function Burst(cfg: Config): nat { Max(1, cfg.limit) }

  /** Served requests in the window starting at lo. */
  function ServedFrom(cfg: Config, times: seq<Time>, lo: Time): nat { CountIn(times, lo, lo + cfg.window) }

  ghost predicate Within(cfg: Config, times: seq<Time>) {
    forall lo: Time :: ServedFrom(cfg, times, lo) <= 2 * Burst(cfg) - 1
  }

  predicate Sorted(times: seq<Time>, clock: Time) {
    && (forall i :: 0 <= i < |times| ==> ZERO_TIME < times[i] <= clock)
    && (forall i, j :: 0 <= i < j < |times| ==> times[i] <= times[j])
  }

  /** The entry of a key describes the tail of its served requests, and few of the earlier
      ones lie within one window before it. */
  ghost predicate KeyInv(cfg: Config, entries: Entries, key: string, times: seq<Time>, clock: Time) {
    && Sorted(times, clock) && Within(cfg, times)
    && if key !in entries then times == []
       else
         var e := entries[key];
         && 1 <= e.count <= Min(|times|, Burst(cfg))
         && e.windowStart == times[|times| - e.count]
         && CountAfter(times[..|times| - e.count], e.windowStart - cfg.window) <= Burst(cfg) - 1
  }

  lemma {:induction false} CountSplit(times: seq<Time>, k: nat, lo: Time, hi: Time)
    requires k <= |times|
    ensures CountIn(times, lo, hi) <= CountIn(times[..k], lo, hi) + |times| - k
    ensures CountAfter(times, lo) <= CountAfter(times[..k], lo) + |times| - k
  {
    if k < |times| {
      CountSplit(times[..|times| - 1], k, lo, hi);
      assert times[..|times| - 1][..k] == times[..k];
    } else {
      assert times[..k] == times;
    }
  }

  lemma {:induction false} CountInAfter(times: seq<Time>, lo: Time, hi: Time, cutoff: Time)
    requires cutoff < lo
    ensures CountIn(times, lo, hi) <= CountAfter(times, cutoff)
  {
    if times != [] { CountInAfter(times[..|times| - 1], lo, hi, cutoff); }
  }

  lemma {:induction false} NoneAfter(times: seq<Time>, cutoff: Time)
    requires forall i :: 0 <= i < |times| ==> times[i] <= cutoff
    ensures CountAfter(times, cutoff) == 0
  {
    if times != [] { NoneAfter(times[..|times| - 1], cutoff); }
  }

  /** A further request in the current window. */
  lemma SameWindow(cfg: Config, entries: Entries, key: string, times: seq<Time>, clock: Time, now: Time)
    requires KeyInv(cfg, entries, key, times, clock) && now >= clock && now > ZERO_TIME
    requires key in entries && !Expired(cfg, entries[key], now) && entries[key].count < cfg.limit
    ensures KeyInv(cfg, Decide(cfg, entries, key, now).0, key, times + [now], now)
  {
    var e := entries[key];
    var k := |times| - e.count;
    assert (times + [now])[..k] == times[..k];
    forall lo: Time
      ensures ServedFrom(cfg, times + [now], lo) <= 2 * Burst(cfg) - 1
    {
      assert ServedFrom(cfg, times, lo) <= 2 * Burst(cfg) - 1;
      if lo <= now < lo + cfg.window {
        CountSplit(times, k, lo, lo + cfg.window);
        CountInAfter(times[..k], lo, lo + cfg.window, e.windowStart - cfg.window);
      }
    }
  }

  lemma NewWindowWithin(cfg: Config, times: seq<Time>, now: Time)
    requires Within(cfg, times) && CountAfter(times, now - cfg.window) <= Burst(cfg) - 1
    ensures Within(cfg, times + [now])
  {
    forall lo: Time
      ensures ServedFrom(cfg, times + [now], lo) <= 2 * Burst(cfg) - 1
    {
      assert ServedFrom(cfg, times, lo) <= 2 * Burst(cfg) - 1;
      if lo <= now < lo + cfg.window {
        CountInAfter(times, lo, lo + cfg.window, now - cfg.window);
      }
    }
  }

  /** The first request of a new window. */
  lemma NewWindow(cfg: Config, entries: Entries, key: string, times: seq<Time>, clock: Time, now: Time)
    requires KeyInv(cfg, entries, key, times, clock) && now >= clock && now > ZERO_TIME
    requires key !in entries || Expired(cfg, entries[key], now)
    ensures KeyInv(cfg, Decide(cfg, entries, key, now).0, key, times + [now], now)
  {
    RecentBeforeNew(cfg, entries, key, times, clock, now);
    NewWindowWithin(cfg, times, now);
    assert (times + [now])[..|times|] == times;
  }

  lemma RecentBeforeNew(cfg: Config, entries: Entries, key: string, times: seq<Time>, clock: Time, now: Time)
    requires KeyInv(cfg, entries, key, times, clock)
    requires key !in entries || Expired(cfg, entries[key], now)
    ensures CountAfter(times, now - cfg.window) <= Burst(cfg) - 1
  {
    if key in entries {
      var e := entries[key];
      var k := |times| - e.count;
      NoneAfter(times[..k + 1], now - cfg.window);
      CountSplit(times, k + 1, now - cfg.window, 0);
    }
  }

  /** One request: either the key was served once more or nothing about it changed. */
  lemma DecideKeepsKey(cfg: Config, entries: Entries, key: string, times: seq<Time>, clock: Time, r: Request)
    requires KeyInv(cfg, entries, key, times, clock) && r.now >= clock && r.now > ZERO_TIME
    ensures var (next, allowed) := Decide(cfg, entries, r.key, r.now);
            KeyInv(cfg, next, key, if r.key == key && allowed then times + [r.now] else times, r.now)
  {
    if r.key == key && Decide(cfg, entries, r.key, r.now).1 {
      if key !in entries || Expired(cfg, entries[key], r.now) {
        NewWindow(cfg, entries, key, times, clock, r.now);
      } else {
        SameWindow(cfg, entries, key, times, clock, r.now);
      }
    }
  }

  lemma {:induction false} RunWithin(cfg: Config, entries: Entries, key: string, times: seq<Time>, clock: Time,
                                     rs: seq<Request>)
    requires KeyInv(cfg, entries, key, times, clock) && Timely(clock, rs) && clock > ZERO_TIME
    ensures Within(cfg, times + ServedBy(cfg, entries, rs, key))
    decreases |rs|
  {
    if rs == [] {
      assert times + ServedBy(cfg, entries, rs, key) == times;
    } else {
      var r := rs[0];
      DecideKeepsKey(cfg, entries, key, times, clock, r);
      var (next, allowed) := Decide(cfg, entries, r.key, r.now);
      var later := ServedBy(cfg, next, rs[1..], key);
      if r.key == key && allowed {
        RunWithin(cfg, next, key, times + [r.now], r.now, rs[1..]);
        Regroup(times, [r.now], later);
      } else {
        RunWithin(cfg, next, key, times, r.now, rs[1..]);
        assert [] + later == later;
      }
    }
  }

  /** From an empty limiter, over any requests of any keys with a nondecreasing clock, any
      half-open interval of one window serves a key at most 2 * limit - 1 times. */
  lemma WindowBound(cfg: Config, clock: Time, rs: seq<Request>, key: string, lo: Time)
    requires Timely(clock, rs) && clock > ZERO_TIME
    ensures ServedFrom(cfg, Served(rs, Answers(cfg, map[], 0, rs), key), lo) <= 2 * Burst(cfg) - 1
  {
    SweepInvisible(cfg, map[], 0, clock, rs);
    ServedByAnswers(cfg, map[], rs, key);
    RunWithin(cfg, map[], key, [], clock, rs);
    assert [] + ServedBy(cfg, map[], rs, key) == ServedBy(cfg, map[], rs, key);
  }

  // ---------- each key on its own ----------

  /** The requests of one key. */
  function Own(rs: seq<Request>, key: string): seq<Request>
    decreases |rs|
  {
    if rs == [] then [] else (if rs[0].key == key then [rs[0]] else []) + Own(rs[1..], key)
  }

  lemma {:induction false} OwnRequestsDecide(cfg: Config, s: Entries, t: Entries, rs: seq<Request>, key: string)
    requires Lookup(s, key) == Lookup(t, key)
    ensures ServedBy(cfg, s, rs, key) == ServedBy(cfg, t, Own(rs, key), key)
    decreases |rs|
  {
    if rs != [] {
      var s1 := Decide(cfg, s, rs[0].key, rs[0].now).0;
      if rs[0].key == key {
        assert Own(rs, key)[1..] == Own(rs[1..], key);
        OwnRequestsDecide(cfg, s1, Decide(cfg, t, key, rs[0].now).0, rs[1..], key);
      } else {
        assert [] + Own(rs[1..], key) == Own(rs[1..], key);
        OwnRequestsDecide(cfg, s1, t, rs[1..], key);
        assert [] + ServedBy(cfg, s1, rs[1..], key) == ServedBy(cfg, s1, rs[1..], key);
      }
    }
  }

  lemma {:induction false} OwnTimely(clock: Time, rs: seq<Request>, key: string)
    requires Timely(clock, rs)
    ensures Timely(clock, Own(rs, key))
    decreases |rs|
  {
    if rs != [] {
      OwnTimely(rs[0].now, rs[1..], key);
      if rs[0].key == key {
        assert Own(rs, key)[1..] == Own(rs[1..], key);
      } else {
        assert Own(rs, key) == Own(rs[1..], key);
      }
    }
  }

  /** A key is served exactly as if no other key ever asked. */
  lemma KeysAreIndependent(cfg: Config, clock: Time, rs: seq<Request>, key: string)
    requires Timely(clock, rs)
    ensures Served(rs, Answers(cfg, map[], 0, rs), key) ==
            Served(Own(rs, key), Answers(cfg, map[], 0, Own(rs, key)), key)
  {
    OwnTimely(clock, rs, key);
    SweepInvisible(cfg, map[], 0, clock, rs);
    SweepInvisible(cfg, map[], 0, clock, Own(rs, key));
    ServedByAnswers(cfg, map[], rs, key);
    ServedByAnswers(cfg, map[], Own(rs, key), key);
    OwnRequestsDecide(cfg, map[], map[], rs, key);
  }

  // ---------- who is refused ----------

  lemma {:induction false} CountTail(times: seq<Time>, k: nat, lo: Time, hi: Time)
    requires k <= |times| && forall i :: k <= i < |times| ==> lo <= times[i] < hi
    ensures CountIn(times, lo, hi) >= |times| - k
  {
    if k < |times| { CountTail(times[..|times| - 1], k, lo, hi); }
  }

  /** A refused request finds the limit already served in the window that ends with it. */
  lemma RefusedIsFull(cfg: Config, entries: Entries, times: seq<Time>, clock: Time, r: Request)
    requires KeyInv(cfg, entries, r.key, times, clock) && r.now >= clock
    requires !Decide(cfg, entries, r.key, r.now).1
    ensures CountIn(times, r.now - cfg.window + 1, r.now + 1) >= cfg.limit
  {
    var e := entries[r.key];
    var k := |times| - e.count;
    assert forall i :: k <= i < |times| ==> times[k] <= times[i] <= clock;
    CountTail(times, k, r.now - cfg.window + 1, r.now + 1);
  }

  function EntriesAfter(cfg: Config, entries: Entries, rs: seq<Request>): Entries
    decreases |rs|
  {
    if rs == [] then entries else EntriesAfter(cfg, Decide(cfg, entries, rs[0].key, rs[0].now).0, rs[1..])
  }

  lemma TimesGrow(cfg: Config, entries: Entries, rs: seq<Request>, key: string, times: seq<Time>)
    requires rs != []
    ensures var (next, allowed) := Decide(cfg, entries, rs[0].key, rs[0].now);
            times + ServedBy(cfg, entries, rs, key) ==
            (if rs[0].key == key && allowed then times + [rs[0].now] else times) + ServedBy(cfg, next, rs[1..], key)
  {
    var next := Decide(cfg, entries, rs[0].key, rs[0].now).0;
    Regroup(times, [rs[0].now], ServedBy(cfg, next, rs[1..], key));
    assert [] + ServedBy(cfg, next, rs[1..], key) == ServedBy(cfg, next, rs[1..], key);
  }

  lemma {:induction false} RunKeepsKey(cfg: Config, entries: Entries, key: string, times: seq<Time>, clock: Time,
                                       rs: seq<Request>, upTo: Time) returns (c: Time)
    requires KeyInv(cfg, entries, key, times, clock) && Timely(clock, rs) && clock > ZERO_TIME && clock <= upTo
    requires forall i :: 0 <= i < |rs| ==> rs[i].now <= upTo
    ensures c <= upTo && KeyInv(cfg, EntriesAfter(cfg, entries, rs), key, times + ServedBy(cfg, entries, rs, key), c)
    decreases |rs|
  {
    if rs == [] {
      c := clock;
      assert times + [] == times;
    } else {
      var x := rs[0];
      DecideKeepsKey(cfg, entries, key, times, clock, x);
      TimesGrow(cfg, entries, rs, key, times);
      var (next, allowed) := Decide(cfg, entries, x.key, x.now);
      var grown := if x.key == key && allowed then times + [x.now] else times;
      c := RunKeepsKey(cfg, next, key, grown, x.now, rs[1..], upTo);
    }
  }

  lemma {:induction false} TimelyFront(clock: Time, rs: seq<Request>, r: Request)
    requires Timely(clock, rs + [r])
    ensures Timely(clock, rs) && clock <= r.now && forall i :: 0 <= i < |rs| ==> rs[i].now <= r.now
    decreases |rs|
  {
    if rs == [] {
      assert rs + [r] == [r];
    } else {
      assert (rs + [r])[1..] == rs[1..] + [r] && (rs + [r])[0] == rs[0];
      TimelyFront(rs[0].now, rs[1..], r);
      assert forall i :: 1 <= i < |rs| ==> rs[i] == rs[1..][i - 1];
    }
  }

  lemma {:induction false} LastAnswer(cfg: Config, entries: Entries, rs: seq<Request>, r: Request)
    ensures UnsweptAnswers(cfg, entries, rs + [r]) ==
            UnsweptAnswers(cfg, entries, rs) + [Decide(cfg, EntriesAfter(cfg, entries, rs), r.key, r.now).1]
    decreases |rs|
  {
    if rs == [] {
      assert rs + [r] == [r] && [r][1..] == [];
    } else {
      assert (rs + [r])[1..] == rs[1..] + [r];
      LastAnswer(cfg, Decide(cfg, entries, rs[0].key, rs[0].now).0, rs[1..], r);
    }
  }

  /** No request is refused without need: after any requests of any keys, a refused one finds at least the
      limit of its key's requests served within one window's length, up to its own instant. */
  lemma RefusedOnlyWhenFull(cfg: Config, clock: Time, rs: seq<Request>, r: Request)
    requires Timely(clock, rs + [r]) && clock > ZERO_TIME
    requires !Answers(cfg, map[], 0, rs + [r])[|rs|]
    ensures CountIn(Served(rs, UnsweptAnswers(cfg, map[], rs), r.key), r.now - cfg.window + 1, r.now + 1) >= cfg.limit
  {
    SweepInvisible(cfg, map[], 0, clock, rs + [r]);
    LastAnswer(cfg, map[], rs, r);
    TimelyFront(clock, rs, r);
    var c := RunKeepsKey(cfg, map[], r.key, [], clock, rs, r.now);
    ServedByAnswers(cfg, map[], rs, r.key);
    assert [] + ServedBy(cfg, map[], rs, r.key) == ServedBy(cfg, map[], rs, r.key);
    RefusedIsFull(cfg, EntriesAfter(cfg, map[], rs), ServedBy(cfg, map[], rs, r.key), c, r);
  }

  // ---------- the bound is reached ----------

  function Repeat(key: string, now: Time, n: nat): seq<Request> {
    if n == 0 then [] else [Request(key, now)] + Repeat(key, now, n - 1)
  }

  function Copies(now: Time, n: nat): seq<Time> { if n == 0 then [] else [now] + Copies(now, n - 1) }

  /** While the window has room, every repeated request is served. */
  lemma {:induction false} RoomServes(cfg: Config, key: string, e: Entry, now: Time, n: nat, rest: seq<Request>)
    requires e.windowStart != ZERO_TIME && !Expired(cfg, e, now) && e.count + n <= cfg.limit
    ensures ServedBy(cfg, map[key := e], Repeat(key, now, n) + rest, key) ==
            Copies(now, n) + ServedBy(cfg, map[key := e.(count := e.count + n)], rest, key)
    decreases n
  {
    var rs := Repeat(key, now, n) + rest;
    if n == 0 {
      assert rs == rest;
    } else {
      assert rs[0] == Request(key, now) && rs[1..] == Repeat(key, now, n - 1) + rest;
      assert map[key := e][key := e.(count := e.count + 1)] == map[key := e.(count := e.count + 1)];
      assert Decide(cfg, map[key := e], key, now) == (map[key := e.(count := e.count + 1)], true);
      RoomServes(cfg, key, e.(count := e.count + 1), now, n - 1, rest);
    }
  }

  /** The first request of a window and as many more as the limit allows. */
  lemma FullWindow(cfg: Config, entries: Entries, key: string, first: Time, now: Time, n: nat, rest: seq<Request>)
    requires entries == map[] || (exists e :: entries == map[key := e] && Expired(cfg, e, first))
    requires ZERO_TIME < first && now - first < cfg.window && 1 + n <= cfg.limit
    ensures ServedBy(cfg, entries, [Request(key, first)] + (Repeat(key, now, n) + rest), key) ==
            [first] + (Copies(now, n) + ServedBy(cfg, map[key := Entry(1 + n, first)], rest, key))
  {
    var rs := [Request(key, first)] + (Repeat(key, now, n) + rest);
    assert rs[1..] == Repeat(key, now, n) + rest;
    assert Decide(cfg, entries, key, first).0 == map[key := Entry(1, first)];
    RoomServes(cfg, key, Entry(1, first), now, n, rest);
  }

  lemma {:induction false} CountCopies(before: seq<Time>, now: Time, n: nat, lo: Time, hi: Time)
    requires lo <= now < hi
    ensures CountIn(before + Copies(now, n), lo, hi) == CountIn(before, lo, hi) + n
    decreases n
  {
    if n == 0 {
      assert before + Copies(now, n) == before;
    } else {
      assert before + Copies(now, n) == before + [now] + Copies(now, n - 1);
      assert (before + [now])[..|before|] == before;
      CountCopies(before + [now], now, n - 1, lo, hi);
    }
  }

  /** One early request, the rest of the first window just before it ends, and a full
      second window right after it. */
  function Burstiest(cfg: Config, key: string): seq<Request>
    requires cfg.limit >= 1
  {
    var w := cfg.window;
    [Request(key, 1)] + (Repeat(key, w, cfg.limit - 1) +
    ([Request(key, w + 1)] + (Repeat(key, w + 1, cfg.limit - 1) + [])))
  }

  lemma BurstiestServed(cfg: Config, key: string)
    requires cfg.limit >= 1 && cfg.window >= 2
    ensures var w, n := cfg.window, cfg.limit - 1;
            ServedBy(cfg, map[], Burstiest(cfg, key), key) == [1] + (Copies(w, n) + ([w + 1] + (Copies(w + 1, n) + [])))
  {
    var w, n := cfg.window, cfg.limit - 1;
    var second := [Request(key, w + 1)] + (Repeat(key, w + 1, n) + []);
    FullWindow(cfg, map[], key, 1, w, n, second);
    FullWindow(cfg, map[key := Entry(1 + n, 1)], key, w + 1, w + 1, n, []);
  }

  lemma CountBurst(w: int, n: nat)
    requires w >= 2
    ensures CountIn([1] + (Copies(w, n) + ([w + 1] + (Copies(w + 1, n) + []))), w, w + w) == 2 * n + 1
  {
    var first := [1] + Copies(w, n);
    CountCopies([1], w, n, w, w + w);
    assert (first + [w + 1])[..|first|] == first;
    CountCopies(first + [w + 1], w + 1, n, w, w + w);
    assert [1] + (Copies(w, n) + ([w + 1] + (Copies(w + 1, n) + []))) == first + [w + 1] + Copies(w + 1, n);
  }

  lemma {:induction false} RepeatTimely(key: string, now: Time, n: nat, rest: seq<Request>, clock: Time)
    requires clock <= now && Timely(now, rest)
    ensures Timely(clock, Repeat(key, now, n) + rest)
    decreases n
  {
    if n == 0 {
      assert Repeat(key, now, n) + rest == rest;
    } else {
      RepeatTimely(key, now, n - 1, rest, now);
      assert (Repeat(key, now, n) + rest)[1..] == Repeat(key, now, n - 1) + rest;
    }
  }

  lemma BurstiestTimely(cfg: Config, key: string)
    requires cfg.limit >= 1 && cfg.window >= 2
    ensures Timely(1, Burstiest(cfg, key))
  {
    var w, n := cfg.window, cfg.limit - 1;
    var second := [Request(key, w + 1)] + (Repeat(key, w + 1, n) + []);
    RepeatTimely(key, w + 1, n, [], w + 1);
    assert second[1..] == Repeat(key, w + 1, n) + [];
    RepeatTimely(key, w, n, second, 1);
    assert Burstiest(cfg, key)[1..] == Repeat(key, w, n) + second;
  }

  /** The bound is tight: those requests serve 2 * limit - 1 within one window's length. */
  lemma BoundIsReached(cfg: Config, key: string)
    requires cfg.limit >= 1 && cfg.window >= 2
    ensures var rs := Burstiest(cfg, key);
            && Timely(1, rs)
            && ServedFrom(cfg, Served(rs, Answers(cfg, map[], 0, rs), key), cfg.window) == 2 * cfg.limit - 1
  {
    BurstiestTimely(cfg, key);
    SweepInvisible(cfg, map[], 0, 1, Burstiest(cfg, key));
    BurstiestServed(cfg, key);
    CountBurst(cfg.window, cfg.limit - 1);
    ServedByAnswers(cfg, map[], Burstiest(cfg, key), key);
  }

  // ---------- the class ----------

  class RateLimiter {
    var entries: Entries
    var calls: nat
    const cfg: Config

    constructor (limit: int, window: int)
      ensures cfg == Config(limit, window) && entries == map[] && calls == 0
    {
      cfg, entries, calls := Config(limit, window), map[], 0;
    }

    /** Deletes every key whose window is over. */
    method DeleteExpired(now: Time)
      modifies this`entries
      ensures entries == Sweep(cfg, old(entries), now)
    {
      var rest := entries.Keys;
      ghost var expired := set k | k in entries && Expired(cfg, entries[k], now);
      while rest != {}
        invariant rest <= old(entries).Keys && entries == old(entries) - (expired - rest)
        decreases |rest|
      {
        var candidate :| candidate in rest;
        if now - entries[candidate].windowStart >= cfg.window {
          entries := entries - {candidate};
        }
        rest := rest - {candidate};
      }
      assert expired - {} == expired;
    }

    method Allow(key: string, now: Time) returns (allowed: bool)
      modifies this
      ensures (entries, allowed) == Answer(cfg, old(entries), old(calls), key, now)
      ensures calls == old(calls) + 1
    {
      calls := calls + 1;
      if calls % SWEEP_EVERY == 0 { DeleteExpired(now); }
      var entry := Lookup(entries, key);
      if entry.windowStart == ZERO_TIME || now - entry.windowStart >= cfg.window {
        entries := entries[key := Entry(1, now)];
        return true;
      }
      if entry.count >= cfg.limit { return false; }
      entries := entries[key := entry.(count := entry.count + 1)];
      return true;
    }
  }
}
