/** Publishing rewrites and deciding which articles are outdated
    (backend/handlers/articles.go, backend/services/llm_rewriter.go). */
module RewriteStore {
  import opened Common
  import opened RewriteQueue
  import opened Text

  const AGENT_VERSION: int := 4

  datatype RewriteState = NotQueued | PendingRewrite | CompleteRewrite | FailedRewrite

  /** The title and text that readers see, the title before the first publication, and the text that
      the article came with. */
  datatype Article = Article(title: string, originalTitle: Option<string>, content: Option<string>,
                             originalContent: Option<string>, rewriteVersion: int, state: RewriteState)

  /** What one model made of an article. */
  datatype Rewrite = Rewrite(title: string, content: string)

  /** Tables articles, article_rewrite_jobs, llm_models (slug to id, with the next
      serial) and the completed rows of article_rewrites. */
  datatype Db = Db(articles: map<ArticleId, Article>, jobs: Jobs, models: map<string, nat>,
                   nextModel: nat, rewrites: map<(ArticleId, nat), Rewrite>)
  {
    /** Model ids are unique and below the serial. */
    ghost predicate Valid() {
      && (forall m :: m in models ==> models[m] < nextModel)
      && (forall m, n :: m in models && n in models && models[m] == models[n] ==> m == n)
      && (forall r :: r in rewrites ==> r.1 < nextModel)
    }
  }

  // ---------- configured models ----------

  /** The non-empty trimmed values up to k, first occurrences only. */
  function Unique(values: seq<string>): seq<string> {
    if values == [] then []
    else
      var front := Unique(values[..|values| - 1]);
      var v := Trim(values[|values| - 1]);
      if v != "" && v !in front then front + [v] else front
  }

  function Trimmed(values: seq<string>): seq<string> {
    if values == [] then [] else Trimmed(values[..|values| - 1]) + [Trim(values[|values| - 1])]
  }

  lemma {:induction false} UniqueIsDistinct(values: seq<string>)
    ensures Distinct(Unique(values))
    ensures forall v :: v in Unique(values) <==> v != "" && v in Trimmed(values)
  {
    if values != [] { UniqueIsDistinct(values[..|values| - 1]); }
  }

  /** In the order in which they come first, so the first configured model stays the first. */
  lemma {:induction false} UniqueInOrder(values: seq<string>, i: nat, j: nat)
    requires i < j < |Unique(values)|
    ensures var trimmed := Trimmed(values);
            FirstAt(trimmed, Unique(values)[i]) < FirstAt(trimmed, Unique(values)[j]) < |trimmed|
  {
    var front, last := values[..|values| - 1], Trim(values[|values| - 1]);
    UniqueIsDistinct(front);
    FirstAtLonger(Trimmed(front), Unique(values)[i], last);
    FirstAtLonger(Trimmed(front), Unique(values)[j], last);
    if j < |Unique(front)| { UniqueInOrder(front, i, j); }
  }

  /** The loop of uniqueNonEmptyStrings with its seen map. */
  method UniqueNonEmptyStrings(values: seq<string>) returns (result: seq<string>)
    ensures result == Unique(values)
  {
    result := [];
    var seen: map<string, bool> := map[];
    for k := 0 to |values|
      invariant result == Unique(values[..k])
      invariant forall v :: v in result <==> v in seen && seen[v]
    {
      assert values[..k + 1][..k] == values[..k];
      var value := Trim(values[k]);
      if value != "" && !(value in seen && seen[value]) {
        seen := seen[value := true];
        result := result + [value];
      }
    }
    assert values[..|values|] == values;
  }

  // ---------- which articles are outdated ----------

  /** A completed rewrite of the article by the model. */
  predicate Covers(db: Db, a: ArticleId, slug: string) {
    slug in db.models && (a, db.models[slug]) in db.rewrites
  }

  /** The slugs counted by COUNT(DISTINCT lm.slug) over the completed rewrites of an
      article, restricted to the configured models. */
  function CoveredModels(db: Db, a: ArticleId, configured: seq<string>): set<string> {
    set m | m in db.models && Covers(db, a, m) && m in configured
  }

  /** The predicate of the stale scan. SQL's btrim strips blanks only. */
  predicate StaleScanSelects(db: Db, a: ArticleId, configured: seq<string>) {
    && a in db.articles
    && db.articles[a].originalContent.Some?
    && (exists c :: c in db.articles[a].originalContent.value && c != ' ')
    && (db.articles[a].rewriteVersion < AGENT_VERSION || |CoveredModels(db, a, configured)| < |configured|)
  }

  predicate HasText(db: Db, a: ArticleId) {
    && a in db.articles
    && db.articles[a].originalContent.Some?
    && Trim(db.articles[a].originalContent.value) != ""
  }

  /** Whether opening the article queues it again. */
  predicate OpensOutdated(db: Db, a: ArticleId, configured: seq<string>) {
    && HasText(db, a)
    && !(db.articles[a].rewriteVersion >= AGENT_VERSION && |CoveredModels(db, a, configured)| >= |configured|)
  }

  // ---------- the publishing transaction ----------

  function UpsertModel(db: Db, slug: string): Db {
    if slug in db.models then db else db.(models := db.models[slug := db.nextModel], nextModel := db.nextModel + 1)
  }

  /** A model with what it made of the article. */
  datatype Item = Item(slug: string, rewrite: Rewrite)

  function UpsertRewrite(db: Db, a: ArticleId, item: Item): Db {
    var d := UpsertModel(db, item.slug);
    d.(rewrites := d.rewrites[(a, d.models[item.slug]) := item.rewrite])
  }

  function UpsertRewrites(db: Db, a: ArticleId, items: seq<Item>): Db {
    if items == [] then db
    else UpsertRewrite(UpsertRewrites(db, a, items[..|items| - 1]), a, items[|items| - 1])
  }

  lemma UpsertsStep(db: Db, a: ArticleId, items: seq<Item>, k: nat)
    requires k < |items|
    ensures UpsertRewrites(db, a, items[..k + 1]) == UpsertRewrite(UpsertRewrites(db, a, items[..k]), a, items[k])
  {
    assert items[..k + 1][..k] == items[..k];
  }

  lemma {:induction false} UpsertsKeepRest(db: Db, a: ArticleId, items: seq<Item>)
    ensures UpsertRewrites(db, a, items).articles == db.articles && UpsertRewrites(db, a, items).jobs == db.jobs
  {
    if items != [] { UpsertsKeepRest(db, a, items[..|items| - 1]); }
  }

  /** The primary rewrite becomes what readers see; the first title is kept aside once. */
  function MarkArticle(db: Db, a: ArticleId, primary: Rewrite): Db
    requires a in db.articles
  {
    var x := db.articles[a];
    var first := if x.originalTitle.Some? then x.originalTitle else Some(x.title);
    var y := x.(originalTitle := first, title := primary.title, content := Some(primary.content),
                rewriteVersion := AGENT_VERSION, state := CompleteRewrite);
    db.(articles := db.articles[a := y])
  }

  function Published(db: Db, a: ArticleId, items: seq<Item>): (d: Db)
    requires a in db.articles && items != []
    ensures d.articles.Keys == db.articles.Keys
  {
    UpsertsKeepRest(MarkArticle(db, a, items[0].rewrite), a, items);
    var d := UpsertRewrites(MarkArticle(db, a, items[0].rewrite), a, items);
    d.(jobs := CompleteJob(d.jobs, a))
  }

  function Slugs(items: seq<Item>): (slugs: seq<string>)
    ensures |slugs| == |items|
  {
    seq(|items|, i requires 0 <= i < |items| => items[i].slug)
  }

  lemma UpsertKeepsValid(db: Db, a: ArticleId, item: Item)
    requires db.Valid()
    ensures UpsertRewrite(db, a, item).Valid()
    ensures item.slug !in db.models ==> forall b :: (b, db.nextModel) !in db.rewrites
  {
  }

  /** What a model made of an article, if it is stored. */
  function Stored(db: Db, a: ArticleId, slug: string): Option<Rewrite> {
    if Covers(db, a, slug) then Some(db.rewrites[(a, db.models[slug])]) else None
  }

  /** One upsert stores exactly one rewrite of one article. */
  lemma UpsertStoresOne(d: Db, a: ArticleId, item: Item, b: ArticleId, m: string)
    requires d.Valid()
    ensures Stored(UpsertRewrite(d, a, item), b, m) ==
            if b == a && m == item.slug then Some(item.rewrite) else Stored(d, b, m)
  {
    UpsertKeepsValid(d, a, item);
  }

  /** What the last item of a model says. */
  function LastOf(items: seq<Item>, m: string): Option<Rewrite> {
    if items == [] then None
    else if items[|items| - 1].slug == m then Some(items[|items| - 1].rewrite)
    else LastOf(items[..|items| - 1], m)
  }

  lemma {:induction false} LastOfDistinct(items: seq<Item>, k: nat)
    requires k < |items| && forall i, j :: 0 <= i < j < |items| ==> items[i].slug != items[j].slug
    ensures LastOf(items, items[k].slug) == Some(items[k].rewrite)
  {
    if k < |items| - 1 { LastOfDistinct(items[..|items| - 1], k); }
  }

  lemma {:induction false} LastOfOthers(items: seq<Item>, m: string)
    ensures LastOf(items, m).Some? <==> exists k :: 0 <= k < |items| && items[k].slug == m
  {
    if items != [] {
      var front := items[..|items| - 1];
      LastOfOthers(front, m);
      assert forall k :: 0 <= k < |front| ==> front[k] == items[k];
      if items[|items| - 1].slug != m && exists k :: 0 <= k < |items| && items[k].slug == m {
        var k :| 0 <= k < |items| && items[k].slug == m;
        assert front[k].slug == m;
      }
    }
  }

  /** After the upserts each model has its own rewrite stored, and nothing else changed. */
  lemma {:induction false} UpsertsStore(db: Db, a: ArticleId, items: seq<Item>, b: ArticleId, m: string)
    requires db.Valid()
    ensures UpsertRewrites(db, a, items).Valid()
    ensures Stored(UpsertRewrites(db, a, items), b, m) ==
            if b == a && LastOf(items, m).Some? then LastOf(items, m) else Stored(db, b, m)
  {
    if items != [] {
      var front, last := items[..|items| - 1], items[|items| - 1];
      UpsertsStore(db, a, front, b, m);
      UpsertKeepsValid(UpsertRewrites(db, a, front), a, last);
      UpsertStoresOne(UpsertRewrites(db, a, front), a, last, b, m);
    }
  }

  /** After a publication the rewritten models are covered for this article, and no
      other article and no other model gains or loses a rewrite. */
  lemma PublishedCoverage(db: Db, a: ArticleId, items: seq<Item>, b: ArticleId, configured: seq<string>)
    requires db.Valid() && a in db.articles && items != []
    ensures var d := Published(db, a, items);
            && d.Valid()
            && CoveredModels(d, b, configured) ==
               CoveredModels(db, b, configured) +
               (if a == b then Elements(Slugs(items)) * Elements(configured) else {})
            && (b != a && b in db.articles ==> b in d.articles && d.articles[b] == db.articles[b])
  {
    var marked := MarkArticle(db, a, items[0].rewrite);
    UpsertsKeepRest(marked, a, items);
    var d := Published(db, a, items);
    forall m
      ensures Covers(d, b, m) <==> (b == a && m in Slugs(items)) || Covers(db, b, m)
    {
      StoredAfter(db, a, items, b, m);
    }
    assert forall m :: m in CoveredModels(d, b, configured) <==> Covers(d, b, m) && m in configured;
    assert forall m :: m in CoveredModels(db, b, configured) <==> Covers(db, b, m) && m in configured;
    StoredAfter(db, a, items, b, "");
  }

  lemma StoredAfter(db: Db, a: ArticleId, items: seq<Item>, b: ArticleId, m: string)
    requires db.Valid() && a in db.articles && items != []
    ensures Published(db, a, items).Valid()
    ensures Stored(Published(db, a, items), b, m) ==
            if b == a && LastOf(items, m).Some? then LastOf(items, m) else Stored(db, b, m)
    ensures LastOf(items, m).Some? <==> m in Slugs(items)
  {
    var marked := MarkArticle(db, a, items[0].rewrite);
    UpsertsStore(marked, a, items, b, m);
    assert Stored(marked, b, m) == Stored(db, b, m);
    LastOfOthers(items, m);
    assert forall k :: 0 <= k < |items| ==> Slugs(items)[k] == items[k].slug;
  }

  /** What a publication leaves: each model's own rewrite, and no other rewrite changed; the article
      with the first model's title and text, complete and of the current version, its first title
      kept aside; its job completed and unlocked; every other article and job as it was. */
  lemma PublishedContents(db: Db, a: ArticleId, items: seq<Item>)
    requires db.Valid() && a in db.articles && items != [] && Distinct(Slugs(items))
    ensures var d := Published(db, a, items);
            && (forall k :: 0 <= k < |items| ==> Stored(d, a, items[k].slug) == Some(items[k].rewrite))
            && (forall b, m :: b != a || m !in Slugs(items) ==> Stored(d, b, m) == Stored(db, b, m))
            && d.articles.Keys == db.articles.Keys
            && (forall b :: b in db.articles && b != a ==> d.articles[b] == db.articles[b])
            && d.articles[a].title == items[0].rewrite.title
            && d.articles[a].content == Some(items[0].rewrite.content)
            && d.articles[a].originalTitle ==
               (if db.articles[a].originalTitle.Some? then db.articles[a].originalTitle else Some(db.articles[a].title))
            && d.articles[a].originalContent == db.articles[a].originalContent
            && d.articles[a].rewriteVersion == 4 && d.articles[a].state == CompleteRewrite
            && d.jobs.Keys == db.jobs.Keys
            && (forall b :: b in db.jobs && b != a ==> d.jobs[b] == db.jobs[b])
            && (a in db.jobs ==> d.jobs[a].status == Completed && d.jobs[a].lockedAt == None &&
                                 d.jobs[a].attempts == db.jobs[a].attempts)
  {
    UpsertsKeepRest(MarkArticle(db, a, items[0].rewrite), a, items);
    var d := Published(db, a, items);
    forall k | 0 <= k < |items|
      ensures Stored(d, a, items[k].slug) == Some(items[k].rewrite)
    {
      assert forall i :: 0 <= i < |items| ==> items[i].slug == Slugs(items)[i];
      LastOfDistinct(items, k);
      StoredAfter(db, a, items, a, items[k].slug);
    }
    forall b, m | b != a || m !in Slugs(items)
      ensures Stored(d, b, m) == Stored(db, b, m)
    {
      StoredAfter(db, a, items, b, m);
    }
  }

  /** The title before the first publication outlives every later one. */
  lemma FirstTitleIsKept(db: Db, a: ArticleId, first: seq<Item>, second: seq<Item>)
    requires db.Valid() && a in db.articles && first != [] && Distinct(Slugs(first))
    requires second != [] && Distinct(Slugs(second)) && db.articles[a].originalTitle == None
    ensures var d := Published(db, a, first);
            Published(d, a, second).articles[a].originalTitle == Some(db.articles[a].title)
  {
    PublishedContents(db, a, first);
    PublishedCoverage(db, a, first, a, []);
    PublishedContents(Published(db, a, first), a, second);
  }

  /** An article counts as outdated exactly when it has text and is of an older version or lacks the
      rewrite of some configured model, when no name is configured twice. */
  lemma OutdatedIff(db: Db, a: ArticleId, configured: seq<string>)
    requires Distinct(configured)
    ensures var behind := a in db.articles &&
              (db.articles[a].rewriteVersion < 4 || exists m :: m in configured && !Covers(db, a, m));
            && (OpensOutdated(db, a, configured) <==> HasText(db, a) && behind)
            && (StaleScanSelects(db, a, configured) <==>
                  a in db.articles && db.articles[a].originalContent.Some? &&
                  (exists c :: c in db.articles[a].originalContent.value && c != ' ') && behind)
  {
    ElementsCount(configured);
    var covered := CoveredModels(db, a, configured);
    assert covered <= Elements(configured);
    if exists m :: m in configured && !Covers(db, a, m) {
      var m :| m in configured && !Covers(db, a, m);
      SubsetSize(covered, Elements(configured) - {m});
    } else {
      assert covered == Elements(configured);
    }
  }

  /** A committed publication of the configured models leaves the article not outdated,
      for the scan and for readers alike, exactly when the configured names are
      distinct; repeated names would keep every article outdated for ever. */
  lemma PublishedIsCurrentIff(db: Db, a: ArticleId, items: seq<Item>)
    requires db.Valid() && a in db.articles && items != [] && db.articles[a].originalContent.Some?
    requires Trim(db.articles[a].originalContent.value) != ""
    requires exists c :: c in db.articles[a].originalContent.value && c != ' '
    ensures var d, slugs := Published(db, a, items), Slugs(items);
            && (!StaleScanSelects(d, a, slugs) <==> Distinct(slugs))
            && (!OpensOutdated(d, a, slugs) <==> Distinct(slugs))
  {
    PublishedRow(db, a, items);
    ElementsCount(Slugs(items));
  }

  lemma PublishedRow(db: Db, a: ArticleId, items: seq<Item>)
    requires db.Valid() && a in db.articles && items != []
    ensures var d, slugs := Published(db, a, items), Slugs(items);
            && a in d.articles && d.articles[a].originalContent == db.articles[a].originalContent
            && d.articles[a].rewriteVersion == AGENT_VERSION && CoveredModels(d, a, slugs) == Elements(slugs)
  {
    UpsertsKeepRest(MarkArticle(db, a, items[0].rewrite), a, items);
    PublishedCoverage(db, a, items, a, Slugs(items));
    assert CoveredModels(db, a, Slugs(items)) <= Elements(Slugs(items));
  }

  /** The configured models come from uniqueNonEmptyStrings, so every publication settles its article. */
  lemma ConfiguredModelsSettle(db: Db, a: ArticleId, raw: seq<string>, items: seq<Item>)
    requires db.Valid() && a in db.articles && items != [] && Slugs(items) == Unique(raw)
    requires db.articles[a].originalContent.Some?
    ensures var d := Published(db, a, items);
            !StaleScanSelects(d, a, Unique(raw)) && !OpensOutdated(d, a, Unique(raw))
  {
    UniqueIsDistinct(raw);
    PublishedRow(db, a, items);
    ElementsCount(Unique(raw));
  }

  /** The result of one model's rewrite call. */
  datatype Generation = Generated(rewrite: Rewrite) | GenerationFailed(err: JobError)

  function FirstFailure(gens: seq<Generation>): Option<JobError> {
    if gens == [] then None
    else if gens[0].GenerationFailed? then Some(gens[0].err)
    else FirstFailure(gens[1..])
  }

  /** The error of the first model that failed; none exactly when all rewrites are there. */
  lemma {:induction false} FirstFailureIs(gens: seq<Generation>)
    ensures FirstFailure(gens).None? <==> forall k :: 0 <= k < |gens| ==> gens[k].Generated?
    ensures FirstFailure(gens).Some? ==>
              exists k :: 0 <= k < |gens| && gens[k] == GenerationFailed(FirstFailure(gens).value) &&
                          forall j :: 0 <= j < k ==> gens[j].Generated?
  {
    if gens != [] && gens[0].Generated? {
      FirstFailureIs(gens[1..]);
      if FirstFailure(gens).Some? {
        var k :| 0 <= k < |gens[1..]| && gens[1..][k] == GenerationFailed(FirstFailure(gens).value) &&
                 forall j :: 0 <= j < k ==> gens[1..][j].Generated?;
        assert gens[k + 1] == gens[1..][k];
        assert forall j :: 1 <= j < k + 1 ==> gens[j] == gens[1..][j - 1];
      }
      if FirstFailure(gens).None? { assert forall k :: 1 <= k < |gens| ==> gens[k] == gens[1..][k - 1]; }
    }
  }

  /** The configured models with what they made of the article. */
  function Items(slugs: seq<string>, gens: seq<Generation>): (items: seq<Item>)
    requires |slugs| == |gens| && forall k :: 0 <= k < |gens| ==> gens[k].Generated?
    ensures |items| == |slugs|
  {
    seq(|slugs|, k requires 0 <= k < |slugs| => Item(slugs[k], gens[k].rewrite))
  }

  /** A failed job: the row changes, and the article is marked only on the last attempt. */
  function AfterFailure(db: Db, h: Holding, err: JobError, now: Time, maxAttempts: nat): Db {
    var d := db.(jobs := FailJob(db.jobs, h.article, h.attempts, err, now, maxAttempts));
    if err.OtherError? && h.attempts >= maxAttempts && h.article in db.articles
    then d.(articles := d.articles[h.article := d.articles[h.article].(state := FailedRewrite)])
    else d
  }

  /** An ordinary failure marks the article as failed exactly on the last attempt; nothing else of any
      article, no rewrite and no other job changes. */
  lemma FailureMarks(db: Db, h: Holding, err: JobError, now: Time, maxAttempts: nat)
    ensures var d := AfterFailure(db, h, err, now, maxAttempts);
            && d.rewrites == db.rewrites && d.models == db.models && d.nextModel == db.nextModel
            && d.articles.Keys == db.articles.Keys && d.jobs.Keys == db.jobs.Keys
            && (forall b :: b in db.jobs && b != h.article ==> d.jobs[b] == db.jobs[b])
            && (forall b :: b in db.articles ==>
                  d.articles[b] == if b == h.article && err.OtherError? && h.attempts >= maxAttempts
                                   then db.articles[b].(state := FailedRewrite) else db.articles[b])
            && (h.article in db.jobs ==>
                  && d.jobs[h.article].lockedAt == None && d.jobs[h.article].createdAt == db.jobs[h.article].createdAt
                  && (d.jobs[h.article].status == Status.Failed <==> err.OtherError? && h.attempts >= maxAttempts)
                  && (d.jobs[h.article].status == Pending <==> err.RateLimited? || h.attempts < maxAttempts))
  {
  }

  datatype ClaimResult = Claimed(holding: Holding) | NoJob | ClaimError

  /** ORDER BY available_at, created_at. */
  predicate NotAfter(j: Job, k: Job) {
    j.availableAt < k.availableAt || (j.availableAt == k.availableAt && j.createdAt <= k.createdAt)
  }

  /** The rows the claiming query may return while other transactions hold `locked`. */
  function Candidates(db: Db, locked: set<ArticleId>, now: Time): set<ArticleId> {
    set a | a in db.jobs && a in db.articles && a !in locked && Claimable(db.jobs[a], now)
  }

  /** The database of the API process. */
  class Store {
    var articles: map<ArticleId, Article>
    var jobs: Jobs
    var models: map<string, nat>
    var nextModel: nat
    var rewrites: map<(ArticleId, nat), Rewrite>
    const configured: seq<string>
    const maxAttempts: nat

    ghost function View(): Db
      reads this
    {
      Db(articles, jobs, models, nextModel, rewrites)
    }

    constructor (raw: seq<string>, maxAttempts: nat)
      ensures View() == Db(map[], map[], map[], 0, map[]) && View().Valid()
      ensures configured == Unique(raw) && this.maxAttempts == maxAttempts
    {
      var names := UniqueNonEmptyStrings(raw);
      this.configured, this.maxAttempts := names, maxAttempts;
      articles, jobs, models, nextModel, rewrites := map[], map[], map[], 0, map[];
    }

    /** Two statements, of which either may fail; a failure of the second one is ignored. */
    method EnqueueArticleRewrite(a: ArticleId, content: string, now: Time, inserts: bool, updates: bool)
      returns (queued: bool)
      modifies this`jobs, this`articles
      ensures queued <==> Trim(content) != "" && inserts
      ensures jobs == if queued then EnqueueJob(old(jobs), a, now) else old(jobs)
      ensures articles == if queued && updates && a in old(articles)
                          then old(articles)[a := old(articles)[a].(state := PendingRewrite)] else old(articles)
    {
      if Trim(content) == "" { return false; }
      if !inserts { return false; }
      if a !in jobs {
        jobs := jobs[a := Job(Pending, 0, now, None, now)];
      } else if jobs[a].status in {Completed, Status.Failed} {
        jobs := jobs[a := jobs[a].(status := Pending, attempts := 0, availableAt := now, lockedAt := None)];
      }
      if updates && a in articles { articles := articles[a := articles[a].(state := PendingRewrite)]; }
      return true;
    }

    /** Tries to queue the article again exactly when it is outdated, or when it has text and the
        query that counts its models fails. Whether it is queued then depends on the insert. */
    method EnqueueIfOutdated(a: ArticleId, now: Time, counts: bool, inserts: bool, updates: bool)
      requires a in articles
      modifies this`jobs, this`articles
      ensures var tried := OpensOutdated(old(View()), a, configured) || (!counts && HasText(old(View()), a));
              && jobs == (if tried && inserts then EnqueueJob(old(jobs), a, now) else old(jobs))
              && articles == (if tried && inserts && updates
                              then old(articles)[a := old(articles)[a].(state := PendingRewrite)] else old(articles))
    {
      if articles[a].originalContent.None? { return; }
      var content := Trim(articles[a].originalContent.value);
      if content == "" { return; }
      if articles[a].rewriteVersion >= AGENT_VERSION {
        var covered := set m | m in models && (a, models[m]) in rewrites && m in configured;
        assert covered == CoveredModels(View(), a, configured);
        if counts && |covered| >= |configured| { return; }
      }
      TrimTwice(articles[a].originalContent.value);
      var queued := EnqueueArticleRewrite(a, content, now, inserts, updates);
    }

    /** Claims a row that is pending and due, or running for more than ten minutes, first by due time
        and then by age; other transactions may hold the rows `locked`. When a statement fails, or
        the row has no original text to read, the transaction rolls back. */
    method ClaimArticleRewriteJob(locked: set<ArticleId>, now: Time, works: bool) returns (r: ClaimResult)
      modifies this`jobs
      ensures works ==> (r.NoJob? <==>
                forall a :: a in old(jobs) && a in articles && a !in locked ==>
                  var job := old(jobs)[a];
                  && !(job.status == Pending && job.availableAt <= now)
                  && !(job.status == Running && job.lockedAt.Some? && job.lockedAt.value < now - 600_000_000_000))
      ensures !r.Claimed? ==> jobs == old(jobs)
      ensures r.Claimed? ==>
                && works && r.holding.article in Candidates(old(View()), locked, now)
                && var a, job := r.holding.article, old(jobs)[r.holding.article];
                && (forall b :: b in Candidates(old(View()), locked, now) ==>
                      var other := old(jobs)[b];
                      job.availableAt < other.availableAt ||
                      (job.availableAt == other.availableAt && job.createdAt <= other.createdAt))
                && articles[a].originalContent.Some?
                && jobs == old(jobs)[a := job.(status := Running, attempts := job.attempts + 1, lockedAt := Some(now))]
                && jobs == ClaimJob(old(jobs), a, now)
                && r.holding == Holding(a, job.attempts + 1, now)
      ensures r.ClaimError? ==>
                !works || exists a :: a in Candidates(old(View()), locked, now) && articles[a].originalContent.None?
    {
      if !works { return ClaimError; }
      var rest := set a | a in jobs && a in articles && a !in locked && Claimable(jobs[a], now);
      assert rest == Candidates(View(), locked, now);
      assert forall a :: a in rest <==> a in jobs && a in articles && a !in locked && Claimable(jobs[a], now);
      if rest == {} { return NoJob; }
      var best :| best in rest;
      ghost var all := rest;
      rest := rest - {best};
      while rest != {}
        invariant best in all && rest <= all
        invariant forall b :: b in all - rest ==> NotAfter(jobs[best], jobs[b])
        decreases |rest|
      {
        var a :| a in rest;
        if !NotAfter(jobs[best], jobs[a]) { best := a; }
        rest := rest - {a};
      }
      if articles[best].originalContent.None? { return ClaimError; }
      var attempts := jobs[best].attempts + 1;
      jobs := jobs[best := jobs[best].(status := Running, attempts := attempts, lockedAt := Some(now))];
      return Claimed(Holding(best, attempts, now));
    }

    method FailArticleRewriteJob(h: Holding, err: JobError, now: Time)
      modifies this`jobs, this`articles
      ensures View() == AfterFailure(old(View()), h, err, now, maxAttempts)
    {
      match err
      case RateLimited(retryAt) =>
        var (attempts, availableAt) := RateLimitedRetry(h.attempts, retryAt, now);
        if h.article in jobs {
          jobs := jobs[h.article := jobs[h.article].(status := Pending, attempts := attempts,
                                                     availableAt := availableAt, lockedAt := None)];
        }
      case OtherError =>
        if h.attempts >= maxAttempts {
          if h.article in jobs {
            jobs := jobs[h.article := jobs[h.article].(status := Status.Failed, lockedAt := None)];
          }
          if h.article in articles {
            articles := articles[h.article := articles[h.article].(state := FailedRewrite)];
          }
        } else if h.article in jobs {
          var delay := h.attempts * h.attempts * 5 * SECOND;
          jobs := jobs[h.article := jobs[h.article].(status := Pending, availableAt := now + delay, lockedAt := None)];
        }
    }

    /** The upserts of the transaction on its copy of the tables, two statements a model. */
    method WriteRewrites(db: Db, a: ArticleId, items: seq<Item>, broken: Option<nat>) returns (d: Db, ok: bool)
      requires broken.Some? ==> broken.value >= 2
      ensures ok <==> broken.None? || broken.value >= 2 + 2 * |items|
      ensures ok ==> d == UpsertRewrites(db, a, items)
    {
      d := db;
      for k := 0 to |items|
        invariant broken.Some? ==> broken.value >= 2 + 2 * k
        invariant d == UpsertRewrites(db, a, items[..k])
      {
        UpsertsStep(db, a, items, k);
        var slug := items[k].slug;
        if broken == Some(2 + 2 * k) { return d, false; }
        if slug !in d.models {
          d := d.(models := d.models[slug := d.nextModel], nextModel := d.nextModel + 1);
        }
        if broken == Some(3 + 2 * k) { return d, false; }
        d := d.(rewrites := d.rewrites[(a, d.models[slug]) := items[k].rewrite]);
      }
      assert items[..|items|] == items;
      return d, true;
    }

    /** The rewrites of all configured models, up to the first one that fails. */
    method CollectRewrites(gens: seq<Generation>) returns (generated: seq<Item>, err: Option<JobError>)
      requires |gens| == |configured|
      ensures err == FirstFailure(gens)
      ensures err.None? ==> (forall k :: 0 <= k < |gens| ==> gens[k].Generated?) && generated == Items(configured, gens)
    {
      generated := [];
      for k := 0 to |gens|
        invariant FirstFailure(gens) == FirstFailure(gens[k..])
        invariant forall j :: 0 <= j < k ==> gens[j].Generated?
        invariant |generated| == k && forall j :: 0 <= j < k ==> generated[j] == Item(configured[j], gens[j].rewrite)
      {
        if gens[k].GenerationFailed? { return generated, Some(gens[k].err); }
        assert gens[k..][1..] == gens[k + 1..];
        generated := generated + [Item(configured[k], gens[k].rewrite)];
      }
      err := None;
    }

    /** Rewrites with every configured model, then publishes in one transaction, whose
        statement number `broken`, if any, fails. All rewrites appear or none does. */
    method ProcessArticleRewriteJob(h: Holding, gens: seq<Generation>, broken: Option<nat>, now: Time)
      requires |gens| == |configured|
      modifies this`jobs, this`articles, this`models, this`nextModel, this`rewrites
      ensures var a, before := h.article, old(View());
              View() ==
              if exists k :: 0 <= k < |gens| && gens[k].GenerationFailed?
              then FirstFailureIs(gens); AfterFailure(before, h, FirstFailure(gens).value, now, maxAttempts)
              else if configured == [] || a !in before.articles || before.articles[a].originalContent.None? ||
                      (broken.Some? && broken.value < 2 * |configured| + 4)
              then AfterFailure(before, h, OtherError, now, maxAttempts)
              else Published(before, a, Items(configured, gens))
    {
      FirstFailureIs(gens);
      var generated, err := CollectRewrites(gens);
      if err.Some? { FailArticleRewriteJob(h, err.value, now); return; }
      if |generated| == 0 { FailArticleRewriteJob(h, OtherError, now); return; }
      var primary := generated[0].rewrite;
      // BEGIN: the transaction works on its own copies until COMMIT.
      if broken == Some(0) { FailArticleRewriteJob(h, OtherError, now); return; }
      var articles1, jobs1, models1, next1, rewrites1 := articles, jobs, models, nextModel, rewrites;
      if broken == Some(1) || h.article !in articles1 || articles1[h.article].originalContent.None? {
        FailArticleRewriteJob(h, OtherError, now);
        return;
      }
      var row := articles1[h.article];
      if row.originalTitle.None? { row := row.(originalTitle := Some(row.title)); }
      row := row.(title := primary.title, content := Some(primary.content), rewriteVersion := AGENT_VERSION,
                  state := CompleteRewrite);
      articles1 := articles1[h.article := row];
      var written, ok := WriteRewrites(Db(articles1, jobs1, models1, next1, rewrites1), h.article, generated, broken);
      if !ok { FailArticleRewriteJob(h, OtherError, now); return; }
      models1, next1, rewrites1 := written.models, written.nextModel, written.rewrites;
      UpsertsKeepRest(MarkArticle(View(), h.article, primary), h.article, generated);
      if broken == Some(2 + 2 * |configured|) { FailArticleRewriteJob(h, OtherError, now); return; }
      if h.article in jobs1 { jobs1 := jobs1[h.article := jobs1[h.article].(status := Completed, lockedAt := None)]; }
      if broken == Some(3 + 2 * |configured|) { FailArticleRewriteJob(h, OtherError, now); return; }
      articles, jobs, models, nextModel, rewrites := articles1, jobs1, models1, next1, rewrites1;
    }
  }
}
