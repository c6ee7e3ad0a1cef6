/** One call of the rewrite provider against the shared control
    (RewriteArticle in backend/services/llm_rewriter.go), and what a rate limit means
    for the job in the queue. */
module RewriteCalls {
  import opened Common
  import opened RewriteAdmission
  import Retry = RetryAfter
  import Queue = RewriteQueue

  const TOO_MANY_REQUESTS: int := 429

  /** What the provider answered: nothing, or a status, a Retry-After header and a body
      that holds a rewrite or not. */
  datatype Response = Unreachable | Answered(status: int, retryAfter: Retry.Header, rewrite: bool)

  datatype Outcome =
    | NotConfigured
    | BreakerOpen(reopens: Time)
    | NoKey
    | CallFailed
    | Rejected(status: int, keySlot: nat, retryAt: Option<Time>)
    | BadContent
    | Rewritten

  /** The instants at which the call reads the clock: before it starts, and twice after a 429. */
  datatype Clock = Clock(checked: Time, parsed: Time, limited: Time)

  predicate Success(status: int) { 200 <= status < 300 }

  /** How the queue sees an outcome that is not a rewrite (IsLLMRateLimitError). */
  function JobErrorOf(o: Outcome): Queue.JobError {
    match o
    case BreakerOpen(reopens) => Queue.RateLimited(reopens)
    case Rejected(status, _, retryAt) =>
      if status == TOO_MANY_REQUESTS && retryAt.Some? then Queue.RateLimited(retryAt.value) else Queue.OtherError
    case _ => Queue.OtherError
  }

  /** While the breaker is open the call stops before a key is taken. Otherwise the turn
      passes to the next key, a 429 opens the breaker, and only an accepted
      answer clears the count, even when its body turns out to be useless. */
  method RewriteArticle(control: RewriteControl, model: string, response: Response, clock: Clock, pick: nat)
    returns (o: Outcome)
    requires control.Valid()
    modifies control
    ensures control.Valid()
    ensures var before := CloseExpired(old(control.View()), clock.checked);
      && (o.NotConfigured? <==> model == "")
      && (model == "" ==> control.View() == old(control.View()))
      && (model != "" && before.breakerOpen <==> o == BreakerOpen(old(control.openUntil)) && clock.checked < o.reopens)
      && (o.NoKey? <==> model != "" && !before.breakerOpen && control.apiKeys == [])
      && (o.BreakerOpen? || o.NoKey? || o.CallFailed? ==> control.View() == before)
      && (o.NotConfigured? || o.BreakerOpen? || o.NoKey? ==> control.nextKey == old(control.nextKey))
      && (!(o.NotConfigured? || o.BreakerOpen? || o.NoKey?) ==>
            control.nextKey == (old(control.nextKey) + 1) % |control.apiKeys|)
      && (o.CallFailed? ==> response.Unreachable?)
      && (o.Rejected? ==>
            && response.Answered? && o.status == response.status && !Success(o.status)
            && o.keySlot == old(control.nextKey) + 1
            && (o.retryAt.Some? <==> o.status == TOO_MANY_REQUESTS)
            && (o.retryAt.None? ==> control.View() == before)
            && (o.retryAt.Some? ==>
                  && o.retryAt.value == control.openUntil
                  && control.View() == RateLimited(control.cfg, before, clock.limited,
                                                   Retry.ParseRetryAfter(response.retryAfter, clock.parsed), pick)))
      && (o.Rewritten? || o.BadContent? ==>
            response.Answered? && Success(response.status) && (o.Rewritten? <==> response.rewrite) &&
            control.View() == Succeeded(before))
  {
    if model == "" { return NotConfigured; }
    var reopens, open := control.CooldownUntil(clock.checked);
    if open { return BreakerOpen(reopens); }
    var key := control.NextAPIKey();
    if key.None? { return NoKey; }
    if response.Unreachable? { return CallFailed; }
    if response.status < 200 || response.status >= 300 {
      var retryAt := None;
      if response.status == TOO_MANY_REQUESTS {
        var hint := Retry.ParseRetryAfter(response.retryAfter, clock.parsed);
        var at := control.RecordRateLimit(clock.limited, hint, pick);
        retryAt := Some(at);
      }
      return Rejected(response.status, key.value.1, retryAt);
    }
    control.RecordSuccess();
    return if response.rewrite then Rewritten else BadContent;
  }

  /** Only an open breaker and a 429 count as rate limits, and the job then waits for the instant they
      name; every other outcome is an ordinary failure. */
  lemma RateLimitIff(o: Outcome)
    ensures JobErrorOf(o).RateLimited? <==> o.BreakerOpen? || (o.Rejected? && o.status == 429 && o.retryAt.Some?)
    ensures o.BreakerOpen? ==> JobErrorOf(o).retryAt == o.reopens
    ensures o.Rejected? && o.status == 429 && o.retryAt.Some? ==> JobErrorOf(o).retryAt == o.retryAt.value
  {
  }

  /** A 429 holds back everything it should. With the breaker's new instant as the job's retry
      time, until that instant no worker is admitted, whatever else happens, the
      job cannot be claimed, and its retry budget is what it was before the claim. */
  lemma RateLimitHoldsBack(cfg: Config, w: World, now: Time, retryAfter: Duration, pick: nat, es: seq<Event>,
                           jobs: Queue.Jobs, a: Queue.ArticleId, claimed: nat, failed: Queue.Time,
                           maxAttempts: nat, at: Time)
    requires cfg.Valid() && Inv(cfg, w) && now >= w.clock
    requires var w1 := Step(cfg, w, Limiting(now, retryAfter, pick));
             Timely(cfg, w1, es) && Run(cfg, w1, es).clock < w1.control.openUntil
    requires a in jobs && jobs[a].status.Running? && jobs[a].attempts == claimed >= 1
    ensures var until := Step(cfg, w, Limiting(now, retryAfter, pick)).control.openUntil;
            var err := JobErrorOf(Rejected(TOO_MANY_REQUESTS, 1, Some(until)));
            var after := Queue.FailJob(jobs, a, claimed, err, failed, maxAttempts);
            && Run(cfg, Step(cfg, w, Limiting(now, retryAfter, pick)), es).issued == w.issued
            && now < until
            && after[a].attempts == claimed - 1
            && (at < until ==> !Queue.Claimable(after[a], at))
            && (failed <= until <= at ==> Queue.Claimable(after[a], at))
  {
    BreakerHolds(cfg, w, now, retryAfter, pick, es);
  }
}
