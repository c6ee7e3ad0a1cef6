/** The crawler's jobs and insertion slots (backend/services/news_crawler.go):
    deduplication by URL, and slots claimed and refunded by concurrent workers. */
module NewsCrawler {
  import opened Common

  // ---------- deduplication ----------

  function Fresh(urls: seq<string>): seq<string> {
    if urls == [] then []
    else
      var rest, last := Fresh(urls[..|urls| - 1]), urls[|urls| - 1];
      if last == "" || last in rest then rest else rest + [last]
  }

  /** The jobs are the distinct non-empty URLs, each once. */
  lemma {:induction false} FreshIsDistinct(urls: seq<string>)
    ensures Distinct(Fresh(urls))
    ensures forall u :: u in Fresh(urls) <==> u in urls && u != ""
  {
    if urls != [] { FreshIsDistinct(urls[..|urls| - 1]); }
  }

  /** In the order in which they come first. */
  lemma {:induction false} FreshInOrder(urls: seq<string>, i: nat, j: nat)
    requires i < j < |Fresh(urls)|
    ensures FirstAt(urls, Fresh(urls)[i]) < FirstAt(urls, Fresh(urls)[j]) < |urls|
  {
    var front, last := urls[..|urls| - 1], urls[|urls| - 1];
    assert urls == front + [last];
    FreshIsDistinct(front);
    FirstAtLonger(front, Fresh(urls)[i], last);
    FirstAtLonger(front, Fresh(urls)[j], last);
    if j < |Fresh(front)| { FreshInOrder(front, i, j); }
  }

  /** The loop that feeds the workers. It stops early once the limit is reached or the
      context ends, here before article number `stop`. */
  method QueueJobs(urls: seq<string>, stop: nat) returns (jobs: seq<string>)
    ensures jobs == Fresh(urls[..Min(stop, |urls|)])
  {
    jobs := [];
    var seen: set<string> := {};
    for k := 0 to |urls|
      invariant k <= Min(stop, |urls|) && jobs == Fresh(urls[..k])
      invariant forall u :: u in seen <==> u in jobs
    {
      if k == stop { return; }
      assert urls[..k + 1][..k] == urls[..k];
      if urls[k] == "" { continue; }
      if urls[k] in seen { continue; }
      seen := seen + {urls[k]};
      jobs := jobs + [urls[k]];
    }
    assert urls[..|urls|] == urls;
  }

  // ---------- insertion slots ----------

  datatype Worker =
    | Loading(url: string)                  // about to load the counter
    | Swapping(url: string, current: int)   // about to compare and swap
    | Fetching(url: string)                 // holds a slot
    | Refunding                             // inserted nothing, about to give the slot back

  /** Workers not in the map wait for a job. `queue` are the jobs still in the channel, first come
      first served, `inserted` the URLs of the rows inserted, in order, and `existing` those
      stored before the run. */
  datatype Crawl = Crawl(limit: int, claimed: int, queue: seq<string>, workers: map<nat, Worker>,
                         inserted: seq<string>, existing: set<string>)

  datatype Step =
    | Take(worker: nat)
    | Load(worker: nat)
    | Swap(worker: nat)
    | Insert(worker: nat)
    | Miss(worker: nat)
    | Refund(worker: nat)

  predicate Enabled(c: Crawl, e: Step) {
    match e
    case Take(w) => w !in c.workers && c.queue != []
    case Load(w) => w in c.workers && c.workers[w].Loading?
    case Swap(w) => w in c.workers && c.workers[w].Swapping?
    case Insert(w) => w in c.workers && c.workers[w].Fetching? && c.workers[w].url !in c.existing
    case Miss(w) => w in c.workers && c.workers[w].Fetching?
    case Refund(w) => w in c.workers && c.workers[w].Refunding?
  }

  function Next(c: Crawl, e: Step): Crawl
    requires Enabled(c, e)
  {
    match e
    case Take(w) => c.(queue := c.queue[1..], workers := c.workers[w := Loading(c.queue[0])])
    case Load(w) =>
      if c.claimed >= c.limit then c.(workers := c.workers - {w})
      else c.(workers := c.workers[w := Swapping(c.workers[w].url, c.claimed)])
    case Swap(w) =>
      if c.claimed == c.workers[w].current
      then c.(claimed := c.claimed + 1, workers := c.workers[w := Fetching(c.workers[w].url)])
      else c.(workers := c.workers[w := Loading(c.workers[w].url)])
    case Insert(w) => c.(inserted := c.inserted + [c.workers[w].url], workers := c.workers - {w})
    case Miss(w) => c.(workers := c.workers[w := Refunding])
    case Refund(w) => c.(claimed := c.claimed - 1, workers := c.workers - {w})
  }

  ghost predicate Reachable(c: Crawl, trace: seq<Step>, d: Crawl)
    decreases |trace|
  {
    if trace == [] then c == d else Enabled(c, trace[0]) && Reachable(Next(c, trace[0]), trace[1..], d)
  }

  predicate Holds(x: Worker) { x.Fetching? || x.Refunding? }

  /** The workers that hold a slot. */
  function Holders(c: Crawl): set<nat> {
    set w | w in c.workers && Holds(c.workers[w])
  }

  predicate HasUrl(c: Crawl, w: nat) { w in c.workers && !c.workers[w].Refunding? }

  ghost predicate CountInv(c: Crawl) { c.claimed == |c.inserted| + |Holders(c)| <= c.limit }

  ghost predicate SlotsInv(c: Crawl) {
    && CountInv(c)
    && (forall w :: w in c.workers && c.workers[w].Swapping? ==> c.workers[w].current < c.limit)
  }

  /** A URL is queued once, with one worker, or inserted once. */
  ghost predicate UrlsInv(c: Crawl) {
    && Distinct(c.queue) && Distinct(c.inserted)
    && (forall u :: u in c.inserted ==> u !in c.queue && u !in c.existing)
    && (forall w :: HasUrl(c, w) ==> c.workers[w].url !in c.queue && c.workers[w].url !in c.inserted)
    && (forall v, w :: HasUrl(c, v) && HasUrl(c, w) && v != w ==> c.workers[v].url != c.workers[w].url)
  }

  ghost predicate Inv(c: Crawl) { SlotsInv(c) && UrlsInv(c) }

  lemma WorkerLeaves(c: Crawl, d: Crawl, w: nat)
    requires w in c.workers && d.workers == c.workers - {w}
    ensures Holders(d) == Holders(c) - {w}
    ensures w in Holders(c) <==> Holds(c.workers[w])
  {
  }

  lemma WorkerMoves(c: Crawl, d: Crawl, w: nat, x: Worker)
    requires d.workers == c.workers[w := x]
    ensures Holders(d) == if Holds(x) then Holders(c) + {w} else Holders(c) - {w}
    ensures w in Holders(c) <==> w in c.workers && Holds(c.workers[w])
  {
  }

  /** A successful swap takes one slot more, still within the limit. */
  lemma SwapKeepsCount(c: Crawl, w: nat)
    requires SlotsInv(c) && Enabled(c, Swap(w)) && c.claimed == c.workers[w].current
    ensures CountInv(Next(c, Swap(w)))
  {
    WorkerMoves(c, Next(c, Swap(w)), w, Fetching(c.workers[w].url));
  }

  /** No other move changes how many workers hold a slot. */
  lemma MoveKeepsCount(c: Crawl, e: Step)
    requires SlotsInv(c) && Enabled(c, e) && e.worker in Next(c, e).workers
    ensures CountInv(Next(c, e))
  {
    if e.Swap? && c.claimed == c.workers[e.worker].current {
      SwapKeepsCount(c, e.worker);
    } else {
      WorkerMoves(c, Next(c, e), e.worker, Next(c, e).workers[e.worker]);
      assert Holders(Next(c, e)) == Holders(c);
    }
  }

  lemma MoveKeepsSlots(c: Crawl, e: Step)
    requires Inv(c) && Enabled(c, e) && e.worker in Next(c, e).workers
    ensures SlotsInv(Next(c, e))
  {
    MoveKeepsCount(c, e);
  }

  lemma InsertKeepsSlots(c: Crawl, e: Step)
    requires Inv(c) && Enabled(c, e) && e.Insert?
    ensures SlotsInv(Next(c, e))
  {
    WorkerLeaves(c, Next(c, e), e.worker);
    assert HasUrl(c, e.worker);
  }

  lemma LeaveKeepsSlots(c: Crawl, e: Step)
    requires Inv(c) && Enabled(c, e) && e.worker !in Next(c, e).workers
    ensures SlotsInv(Next(c, e))
  {
    if e.Insert? {
      InsertKeepsSlots(c, e);
    } else {
      WorkerLeaves(c, Next(c, e), e.worker);
      if e.Load? { assert Holders(c) - {e.worker} == Holders(c); }
    }
  }

  /** The URLs of a crawl: queued, being worked on, or inserted. */
  ghost predicate Known(c: Crawl, url: string) {
    url in c.inserted || url in c.queue || exists w :: HasUrl(c, w) && c.workers[w].url == url
  }

  lemma NextKeepsInv(c: Crawl, e: Step)
    requires Inv(c) && Enabled(c, e)
    ensures Inv(Next(c, e))
  {
    if e.worker in Next(c, e).workers { MoveKeepsSlots(c, e); } else { LeaveKeepsSlots(c, e); }
  }

  lemma {:induction false} ReachableInv(c: Crawl, trace: seq<Step>, d: Crawl)
    requires Inv(c) && Reachable(c, trace, d)
    ensures Inv(d) && d.limit == c.limit && d.existing == c.existing
    ensures forall u :: Known(d, u) ==> Known(c, u)
    decreases |trace|
  {
    if trace != [] {
      NextKeepsInv(c, trace[0]);
      ReachableInv(Next(c, trace[0]), trace[1..], d);
      assert forall w :: HasUrl(Next(c, trace[0]), w) ==> Known(c, Next(c, trace[0]).workers[w].url);
    }
  }

  /** Under every interleaving of the workers, with retried swaps and refunds, the counter is
      the rows inserted plus the slots in use and never passes the limit. Because the queue
      holds each URL once, no two rows have the same URL; each is a non-empty URL of the
      feeds that was not stored before. */
  lemma SlotsConserved(limit: int, urls: seq<string>, existing: set<string>, trace: seq<Step>, d: Crawl)
    requires limit >= 1
    requires Reachable(Crawl(limit, 0, Fresh(urls), map[], [], existing), trace, d)
    ensures 0 <= d.claimed == |d.inserted| + |Holders(d)| <= limit
    ensures |d.inserted| <= limit && Distinct(d.inserted)
    ensures forall u :: u in d.inserted ==> u in urls && u != "" && u !in existing
    ensures d.workers == map[] ==> d.claimed == |d.inserted|
  {
    var c := Crawl(limit, 0, Fresh(urls), map[], [], existing);
    FreshIsDistinct(urls);
    assert Holders(c) == {};
    ReachableInv(c, trace, d);
    assert forall u :: u in d.inserted ==> Known(d, u);
    if d.workers == map[] { assert Holders(d) == {}; }
  }

  // ---------- nothing is left out without need ----------

  /** A worker drops its job only when the counter is at the limit at that moment; otherwise it goes on
      to swap with the value it read. */
  lemma DroppedOnlyAtLimit(c: Crawl, w: nat)
    requires Enabled(c, Load(w))
    ensures var d := Next(c, Load(w));
            && d == c.(workers := d.workers) && d.workers - {w} == c.workers - {w}
            && (w !in d.workers <==> c.claimed >= c.limit)
            && (w in d.workers ==> d.workers[w] == Swapping(c.workers[w].url, c.claimed))
  {
  }

  /** A swap takes a slot exactly when no other worker changed the counter in between, and is tried
      again otherwise. */
  lemma SwapTakesOrRetries(c: Crawl, w: nat)
    requires Enabled(c, Swap(w))
    ensures var d := Next(c, Swap(w));
            && w in d.workers && d.workers - {w} == c.workers - {w}
            && if c.claimed == c.workers[w].current
               then d.claimed == c.claimed + 1 && d.workers[w] == Fetching(c.workers[w].url)
               else d.claimed == c.claimed && d.workers[w] == Loading(c.workers[w].url)
  {
  }

  /** A slot is given back exactly when its fetch inserted nothing. */
  lemma MissGivesBack(c: Crawl, w: nat)
    requires Enabled(c, Miss(w))
    ensures var d := Next(Next(c, Miss(w)), Refund(w));
            Enabled(Next(c, Miss(w)), Refund(w)) && d == c.(claimed := c.claimed - 1, workers := c.workers - {w})
  {
    assert c.workers[w := Refunding] - {w} == c.workers - {w};
  }

  function HeldUrls(c: Crawl): set<string> {
    set w | w in c.workers && c.workers[w].Fetching? :: c.workers[w].url
  }

  lemma {:induction false} ImageCount(workers: map<nat, Worker>, holders: set<nat>)
    requires holders <= workers.Keys && forall w :: w in holders ==> workers[w].Fetching?
    requires forall v, w :: v in holders && w in holders && v != w ==> workers[v].url != workers[w].url
    ensures |set w | w in holders :: workers[w].url| == |holders|
    decreases |holders|
  {
    var urls := set w | w in holders :: workers[w].url;
    if holders == {} {
      assert urls == {};
    } else {
      var w :| w in holders;
      var rest := holders - {w};
      ImageCount(workers, rest);
      assert urls == (set v | v in rest :: workers[v].url) + {workers[w].url};
      assert workers[w].url !in (set v | v in rest :: workers[v].url);
    }
  }

  /** Without refunds the counter is the number of URLs inserted or being fetched. */
  lemma SlotsAreUrls(c: Crawl)
    requires Inv(c) && forall w :: w in c.workers ==> !c.workers[w].Refunding?
    ensures c.claimed == |Elements(c.inserted) + HeldUrls(c)|
  {
    ElementsCount(c.inserted);
    assert forall w :: w in Holders(c) ==> HasUrl(c, w);
    ImageCount(c.workers, Holders(c));
    assert HeldUrls(c) == set w | w in Holders(c) :: c.workers[w].url;
    assert Elements(c.inserted) !! HeldUrls(c);
  }

  /** Exactly these URLs are queued, being worked on, or inserted, and no slot is being given back. */
  ghost predicate KnownAre(c: Crawl, urls: set<string>) {
    && (forall u :: Known(c, u) <==> u in urls)
    && (forall w :: w in c.workers ==> !c.workers[w].Refunding?)
  }

  /** With a limit for all URLs the counter is below it whenever a worker is about to load it. */
  lemma RoomForAll(c: Crawl, urls: set<string>, w: nat)
    requires Inv(c) && KnownAre(c, urls) && |urls| <= c.limit && Enabled(c, Load(w))
    ensures c.claimed < c.limit
  {
    SlotsAreUrls(c);
    var url, taken := c.workers[w].url, Elements(c.inserted) + HeldUrls(c);
    assert HasUrl(c, w);
    forall u | u in taken + {url}
      ensures u in urls && (u in taken ==> u != url)
    {
      if u in HeldUrls(c) {
        var v :| v in c.workers && c.workers[v].Fetching? && c.workers[v].url == u;
        assert HasUrl(c, v) && v != w;
      }
      assert Known(c, u);
    }
    SubsetSize(taken + {url}, urls);
  }

  lemma StillKnown(c: Crawl, e: Step, u: string)
    requires Enabled(c, e) && !e.Miss? && !e.Refund? && (e.Load? ==> c.claimed < c.limit) && Known(c, u)
    ensures Known(Next(c, e), u)
  {
    var d := Next(c, e);
    if u in c.inserted {
      assert u in d.inserted;
    } else if u in c.queue {
      if e.Take? && u == c.queue[0] { assert HasUrl(d, e.worker) && d.workers[e.worker].url == u; }
    } else {
      var w :| HasUrl(c, w) && c.workers[w].url == u;
      if w != e.worker {
        assert HasUrl(d, w) && d.workers[w].url == u;
      } else if e.Insert? {
        assert u in d.inserted;
      } else {
        assert HasUrl(d, w) && d.workers[w].url == u;
      }
    }
  }

  lemma KnownStays(c: Crawl, e: Step, urls: set<string>)
    requires Inv(c) && KnownAre(c, urls) && |urls| <= c.limit && Enabled(c, e) && !e.Miss?
    ensures KnownAre(Next(c, e), urls)
  {
    if e.Load? { RoomForAll(c, urls, e.worker); }
    var d := Next(c, e);
    forall u
      ensures Known(d, u) <==> u in urls
    {
      if u in urls { StillKnown(c, e, u); }
    }
  }

  lemma {:induction false} KnownOverRun(c: Crawl, trace: seq<Step>, d: Crawl, urls: set<string>)
    requires Inv(c) && KnownAre(c, urls) && |urls| <= c.limit && Reachable(c, trace, d)
    requires forall i :: 0 <= i < |trace| ==> !trace[i].Miss?
    ensures KnownAre(d, urls)
    decreases |trace|
  {
    if trace != [] {
      NextKeepsInv(c, trace[0]);
      KnownStays(c, trace[0], urls);
      KnownOverRun(Next(c, trace[0]), trace[1..], d, urls);
    }
  }

  /** When the limit has room for every URL and every fetch inserts its row, then at the end, under every
      interleaving, exactly the distinct non-empty URLs are inserted, each once. */
  lemma EveryUrlIsInserted(limit: int, urls: seq<string>, existing: set<string>, trace: seq<Step>, d: Crawl)
    requires 1 <= limit && |Fresh(urls)| <= limit
    requires Reachable(Crawl(limit, 0, Fresh(urls), map[], [], existing), trace, d)
    requires forall i :: 0 <= i < |trace| ==> !trace[i].Miss?
    requires d.queue == [] && d.workers == map[]
    ensures forall u :: u in d.inserted <==> u in urls && u != ""
    ensures Distinct(d.inserted) && d.claimed == |d.inserted|
  {
    var c := Crawl(limit, 0, Fresh(urls), map[], [], existing);
    FreshIsDistinct(urls);
    ElementsCount(Fresh(urls));
    assert Holders(c) == {};
    assert forall u :: Known(c, u) <==> u in Elements(Fresh(urls));
    KnownOverRun(c, trace, d, Elements(Fresh(urls)));
    SlotsConserved(limit, urls, existing, trace, d);
    assert forall u :: Known(d, u) <==> u in d.inserted;
  }
}
