/** Reading a Retry-After header (backend/services/llm_rewriter.go, section 10.2.3
    of RFC 9110): a number of seconds or an HTTP date. */
module RetryAfter {
  import opened Common
  import opened RewriteAdmission

  const MAX_INT64: int := 0x7FFF_FFFF_FFFF_FFFF

  /** What the trimmed header text reads as. A number is one that fits 64 bits. */
  datatype Header = Absent | Seconds(n: int) | Date(when: Time) | Unreadable
  {
    predicate Valid() { Seconds? ==> -MAX_INT64 - 1 <= n <= MAX_INT64 }
  }

  /** Two's complement wrap-around of 64-bit arithmetic. */
  function Wrap64(x: int): int { (x + MAX_INT64 + 1) % (2 * (MAX_INT64 + 1)) - MAX_INT64 - 1 }

  function ParseRetryAfter(h: Header, now: Time): Duration {
    match h
    case Absent => 0
    case Seconds(n) => if n > 0 then Wrap64(n * SECOND) else 0
    case Date(when) => if when > now then Min(when - now, MAX_INT64) else 0
    case Unreadable => 0
  }

  /** A number of seconds is read as that delay exactly when the nanoseconds fit 64
      bits; every larger number wraps to some other delay. */
  lemma SecondsReadExactlyIff(n: int, now: Time)
    requires Seconds(n).Valid() && n > 0
    ensures ParseRetryAfter(Seconds(n), now) == n * SECOND <==> n <= 9_223_372_036
  {
    var x := n * SECOND;
    if n <= 9_223_372_036 {
      assert 0 < x <= MAX_INT64;
      assert (x + MAX_INT64 + 1) % (2 * (MAX_INT64 + 1)) == x + MAX_INT64 + 1;
    } else {
      assert x > MAX_INT64;
      assert Wrap64(x) <= MAX_INT64;
    }
  }

  /** One second more than fits is read as a negative delay, so the cooldown falls back
      to the plain backoff. */
  lemma OverflowingSecondsIgnored()
    ensures ParseRetryAfter(Seconds(9_223_372_037), 0) < 0
  {
    var modulus := 2 * (MAX_INT64 + 1);
    assert 9_223_372_037 * SECOND + MAX_INT64 + 1 == modulus + 145_224_192;
    assert (modulus + 145_224_192) % modulus == 145_224_192;
  }

  /** The end-to-end promise, with the header read at one instant and the 429 recorded at another:
      a future date, or a number of seconds that fits, keeps the breaker open for the delay it
      asks for, up to the cap. */
  lemma HeaderHonoured(cfg: Config, c: Control, h: Header, parsed: Time, now: Time, pick: nat)
    requires cfg.Valid() && cfg.backoffMax <= MAX_INT64 && h.Valid()
    ensures var until := RateLimited(cfg, c, now, ParseRetryAfter(h, parsed), pick).openUntil;
            && (h.Date? ==> until >= now + Min(h.when - parsed, cfg.backoffMax))
            && (h.Date? && parsed <= now ==> until >= Min(h.when, now + cfg.backoffMax))
            && (h.Seconds? && h.n <= 9_223_372_036 ==> until >= now + Min(h.n * SECOND, cfg.backoffMax))
            && (!c.breakerOpen ==> until <= now + cfg.backoffMax)
  {
    CooldownBounds(cfg, c.consecutive + 1, ParseRetryAfter(h, parsed), pick);
    if h.Seconds? && h.n > 0 { SecondsReadExactlyIff(h.n, parsed); }
  }

  function OpenUntil(cfg: Config, c: Control, n: int, now: Time, pick: nat): Time
    requires cfg.Valid()
  {
    RateLimited(cfg, c, now, ParseRetryAfter(Seconds(n), now), pick).openUntil
  }

  /** For every number of seconds: the breaker is sure to stay open that long, up to the cap,
      exactly when the number fits, or the wrapped delay, the backoff or the instant
      already recorded reaches the cap without it. */
  lemma {:induction false} SecondsHonouredIff(cfg: Config, c: Control, n: int, now: Time)
    requires cfg.Valid() && cfg.backoffMax <= MAX_INT64 && Seconds(n).Valid() && n > 0
    ensures (forall pick: nat :: OpenUntil(cfg, c, n, now, pick) >= now + Min(n * SECOND, cfg.backoffMax)) <==>
            || n <= 9_223_372_036
            || Wrap64(n * SECOND) >= cfg.backoffMax
            || Backoff(cfg, c.consecutive + 1) == cfg.backoffMax
            || (c.breakerOpen && c.openUntil >= now + cfg.backoffMax)
  {
    var hint := ParseRetryAfter(Seconds(n), now);
    BackoffInRange(cfg, c.consecutive + 1);
    SecondsReadExactlyIff(n, now);
    forall pick: nat
      ensures OpenUntil(cfg, c, n, now, pick) >= now + Max(Backoff(cfg, c.consecutive + 1), Min(hint, cfg.backoffMax))
    {
      CooldownBounds(cfg, c.consecutive + 1, hint, pick);
    }
    var least := OpenUntil(cfg, c, n, now, 0);
  }

  /** The first number that does not fit: after a first 429 with the default settings the breaker
      reopens after a minute, as if the header were missing. */
  lemma OverflowShortensPause()
    ensures var cfg := Config(DEFAULT_STARTS, DEFAULT_INTERVAL, DEFAULT_429_BASE, DEFAULT_429_MAX);
            OpenUntil(cfg, Control([], 0, ZERO_TIME, 0, false), 9_223_372_037, 0, 0) == MINUTE
  {
    OverflowingSecondsIgnored();
  }

  /** The wrapped value is the one in the 64-bit range that differs by a multiple of two to the 64. */
  lemma WrapIsCongruent(x: int)
    ensures -0x8000_0000_0000_0000 <= Wrap64(x) <= 0x7FFF_FFFF_FFFF_FFFF
    ensures (x - Wrap64(x)) % 0x1_0000_0000_0000_0000 == 0
  {
    var m := 2 * (MAX_INT64 + 1);
    assert x + MAX_INT64 + 1 == m * ((x + MAX_INT64 + 1) / m) + (x + MAX_INT64 + 1) % m;
    assert x - Wrap64(x) == m * ((x + MAX_INT64 + 1) / m);
  }

  /** The delay that a header asks for, when it asks for one that fits. */
  predicate Asks(h: Header, parsed: Time, delay: Duration) {
    match h
    case Absent => delay == 0
    case Unreadable => delay == 0
    case Seconds(n) => n <= 9_223_372_036 && delay == Max(n, 0) * SECOND
    case Date(when) => when - parsed <= MAX_INT64 && delay == Max(when - parsed, 0)
  }

  /** Nor does the breaker stay open longer than asked: from a closed breaker at most a fifth above
      the larger of the backoff and the delay asked for, and never beyond the cap. A header
      that is missing, unreadable or in the past asks for nothing. */
  lemma HeaderNotExceeded(cfg: Config, c: Control, h: Header, delay: Duration, parsed: Time, now: Time, pick: nat)
    requires cfg.Valid() && h.Valid() && Asks(h, parsed, delay) && !c.breakerOpen
    ensures var until := RateLimited(cfg, c, now, ParseRetryAfter(h, parsed), pick).openUntil;
            var floor := Max(Backoff(cfg, c.consecutive + 1), Min(delay, cfg.backoffMax));
            now + floor <= until <= now + Min(cfg.backoffMax, floor + floor / 5)
  {
    if h.Seconds? && h.n > 0 { SecondsReadExactlyIff(h.n, parsed); }
    CooldownBounds(cfg, c.consecutive + 1, delay, pick);
    assert ParseRetryAfter(h, parsed) == delay;
  }
}
