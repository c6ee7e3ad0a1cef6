/** The feed pager of the mobile client (mobile/lib/providers/news_provider.dart).

    An await splits a method into steps: the part up to the request, and the part that
    runs when the response arrives. Responses arrive in any order, with any content,
    or never. A request in flight is kept under a number until it is answered. */
module NewsPager {
  import opened Common

  datatype Version = Version(modelName: string, title: string, isOriginal: bool, rewriteId: Option<string>)

  datatype Article = Article(id: string, versions: seq<Version>)

  datatype FeedRequest = FeedRequest(generation: nat, page: nat, category: Option<string>)

  /** A comparison request remembers the article it found when it was sent. */
  datatype ComparisonRequest = ComparisonRequest(generation: nat, article: Article)

  datatype FeedResult = Page(articles: seq<Article>, hasMore: bool) | FeedError(message: string)

  datatype State = State(articles: seq<Article>, isLoading: bool, hasMore: bool, currentPage: nat,
                         category: Option<string>, error: Option<string>, generation: nat,
                         feeds: map<nat, FeedRequest>, comparisons: map<nat, ComparisonRequest>, next: nat)

  const INITIAL := State([], false, true, 1, None, None, 0, map[], map[], 0)

  // ---------- steps ----------

  /** loadArticles up to its request. */
  function Load(s: State, refresh: bool): State {
    if !refresh && (s.isLoading || !s.hasMore) then s
    else
      var r := if refresh
               then s.(generation := s.generation + 1, currentPage := 1, articles := [], hasMore := true) else s;
      r.(isLoading := true, error := None,
         feeds := r.feeds[r.next := FeedRequest(r.generation, r.currentPage, r.category)], next := r.next + 1)
  }

  function SetCategory(s: State, category: Option<string>): State {
    if s.category == category then s else Load(s.(category := category), true)
  }

  /** The first article with an id, as indexWhere finds it. */
  function IndexOf(articles: seq<Article>, id: string): (i: nat)
    ensures i <= |articles|
    ensures i < |articles| ==> articles[i].id == id
    ensures forall j :: 0 <= j < i ==> articles[j].id != id
  {
    if articles == [] || articles[0].id == id then 0 else 1 + IndexOf(articles[1..], id)
  }

  function SendComparison(s: State, id: string): State {
    var i := IndexOf(s.articles, id);
    if i == |s.articles| then s
    else s.(comparisons := s.comparisons[s.next := ComparisonRequest(s.generation, s.articles[i])], next := s.next + 1)
  }

  function SendComparisons(s: State, ids: seq<string>): State {
    if ids == [] then s
    else SendComparison(SendComparisons(s, ids[..|ids| - 1]), ids[|ids| - 1])
  }

  function Ids(articles: seq<Article>): seq<string> {
    seq(|articles|, i requires 0 <= i < |articles| => articles[i].id)
  }

  /** The title an article came with: that of its first version. */
  function Title(a: Article): string { if a.versions == [] then "" else a.versions[0].title }

  function Titles(articles: seq<Article>): seq<string> {
    seq(|articles|, i requires 0 <= i < |articles| => Title(articles[i]))
  }

  /** The rest of loadArticles when the feed answers. */
  function FeedArrives(s: State, request: nat, result: FeedResult): State
    requires request in s.feeds
  {
    var r := s.(feeds := s.feeds - {request});
    if s.feeds[request].generation != s.generation then r
    else
      match result
      case FeedError(message) => r.(error := Some(message), isLoading := false)
      case Page(articles, hasMore) =>
        var grown := r.(articles := r.articles + articles, hasMore := hasMore, currentPage := r.currentPage + 1);
        SendComparisons(grown, Ids(articles)).(isLoading := false)
  }

  /** The versions shown once both rewrites are known: the original first. */
  function Compared(article: Article, a: Version, b: Version): seq<Version> {
    (if article.versions != [] then [Version("Original", article.versions[0].title, true, None)] else []) +
    [a.(isOriginal := false), b.(isOriginal := false)]
  }

  /** The rest of _fetchComparison; None is a missing or malformed answer. */
  function ComparisonArrives(s: State, request: nat, pair: Option<(Version, Version)>): State
    requires request in s.comparisons
  {
    var sent := s.comparisons[request];
    var r := s.(comparisons := s.comparisons - {request});
    var i := IndexOf(s.articles, sent.article.id);
    if pair.None? || sent.generation != s.generation || i == |s.articles| then r
    else r.(articles := s.articles[i := s.articles[i].(versions := Compared(sent.article, pair.value.0, pair.value.1))])
  }

  // ---------- runs ----------

  datatype Event =
    | Loading(refresh: bool)
    | Selecting(category: Option<string>)
    | FeedAnswer(request: nat, result: FeedResult)
    | ComparisonAnswer(request: nat, pair: Option<(Version, Version)>)

  /** A page that was appended to the list. */
  datatype Accepted = Accepted(generation: nat, page: nat, category: Option<string>, ids: seq<string>,
                               titles: seq<string>, hasMore: bool)

  /** A pager with every page it ever accepted. */
  datatype World = World(state: State, accepted: seq<Accepted>)

  predicate Enabled(w: World, e: Event) {
    match e
    case FeedAnswer(request, _) => request in w.state.feeds
    case ComparisonAnswer(request, _) => request in w.state.comparisons
    case _ => true
  }

  function Next(w: World, e: Event): World
    requires Enabled(w, e)
  {
    match e
    case Loading(refresh) => w.(state := Load(w.state, refresh))
    case Selecting(category) => w.(state := SetCategory(w.state, category))
    case FeedAnswer(request, result) =>
      var sent := w.state.feeds[request];
      World(FeedArrives(w.state, request, result),
            if sent.generation == w.state.generation && result.Page?
            then w.accepted +
                 [Accepted(sent.generation, sent.page, sent.category, Ids(result.articles), Titles(result.articles),
                           result.hasMore)]
            else w.accepted)
    case ComparisonAnswer(request, pair) => w.(state := ComparisonArrives(w.state, request, pair))
  }

  ghost predicate Reachable(w: World, trace: seq<Event>, v: World)
    decreases |trace|
  {
    if trace == [] then w == v
    else Enabled(w, trace[0]) && Reachable(Next(w, trace[0]), trace[1..], v)
  }

  /** The feed requests of the current generation that are still in flight. */
  function CurrentFeeds(s: State): set<nat> {
    set r | r in s.feeds && s.feeds[r].generation == s.generation
  }

  function InGeneration(accepted: seq<Accepted>, generation: nat): seq<Accepted> {
    if accepted == [] then []
    else
      var last := accepted[|accepted| - 1];
      InGeneration(accepted[..|accepted| - 1], generation) + if last.generation == generation then [last] else []
  }

  function AllIds(pages: seq<Accepted>): seq<string> {
    if pages == [] then [] else AllIds(pages[..|pages| - 1]) + pages[|pages| - 1].ids
  }

  /** Pages 1, 2, ... of one category, none skipped or repeated. */
  predicate Consecutive(pages: seq<Accepted>, category: Option<string>) {
    forall k :: 0 <= k < |pages| ==> pages[k].page == k + 1 && pages[k].category == category
  }

  /** Loading means one current request in flight, for the next page of the selected category. */
  ghost predicate FeedsInv(s: State) {
    && (forall r :: r in s.feeds ==> r < s.next && s.feeds[r].generation <= s.generation)
    && (forall r :: r in s.comparisons ==> r < s.next)
    && (forall r :: r in CurrentFeeds(s) ==> s.feeds[r].page == s.currentPage && s.feeds[r].category == s.category)
    && (s.isLoading <==> CurrentFeeds(s) != {})
    && (forall q, r :: q in CurrentFeeds(s) && r in CurrentFeeds(s) ==> q == r)
  }

  /** The list is made of the pages accepted in this generation. */
  ghost predicate PagesInv(s: State, accepted: seq<Accepted>) {
    var pages := InGeneration(accepted, s.generation);
    && (forall a :: a in accepted ==> a.generation <= s.generation)
    && |pages| + 1 == s.currentPage && Consecutive(pages, s.category)
    && AllIds(pages) == Ids(s.articles)
    && s.hasMore == (pages == [] || pages[|pages| - 1].hasMore)
  }

  ghost predicate Inv(w: World) { FeedsInv(w.state) && PagesInv(w.state, w.accepted) }

  lemma {:induction false} NewGenerationIsEmpty(accepted: seq<Accepted>, generation: nat)
    requires forall a :: a in accepted ==> a.generation < generation
    ensures InGeneration(accepted, generation) == []
  {
    if accepted != [] { NewGenerationIsEmpty(accepted[..|accepted| - 1], generation); }
  }

  lemma {:induction false} SendingKeeps(s: State, ids: seq<string>)
    ensures SendComparisons(s, ids) ==
            s.(comparisons := SendComparisons(s, ids).comparisons, next := SendComparisons(s, ids).next)
    ensures SendComparisons(s, ids).next >= s.next
    ensures (forall r :: r in s.comparisons ==> r < s.next) ==>
              forall r :: r in SendComparisons(s, ids).comparisons ==> r < SendComparisons(s, ids).next
  {
    if ids != [] { SendingKeeps(s, ids[..|ids| - 1]); }
  }

  lemma LoadKeepsInv(w: World, category: Option<string>, refresh: bool)
    requires Inv(w) && (category == w.state.category || refresh)
    ensures Inv(w.(state := Load(w.state.(category := category), refresh)))
  {
    var s := w.state.(category := category);
    var t := Load(s, refresh);
    if refresh {
      NewGenerationIsEmpty(w.accepted, s.generation + 1);
      assert CurrentFeeds(t) == {s.next};
    } else if !s.isLoading && s.hasMore {
      assert CurrentFeeds(t) == CurrentFeeds(w.state) + {s.next};
    }
  }

  /** The state once a page is appended, before the comparisons are asked for. */
  function Grown(s: State, request: nat, result: FeedResult): State
    requires request in s.feeds && result.Page?
  {
    s.(feeds := s.feeds - {request}, articles := s.articles + result.articles,
       hasMore := result.hasMore, currentPage := s.currentPage + 1)
  }

  lemma PageIs(s: State, request: nat, result: FeedResult)
    requires request in CurrentFeeds(s) && result.Page?
    ensures var g := Grown(s, request, result);
            var u := SendComparisons(g, Ids(result.articles));
            && FeedArrives(s, request, result) == u.(isLoading := false)
            && u == g.(comparisons := u.comparisons, next := u.next) && u.next >= s.next
            && ((forall r :: r in s.comparisons ==> r < s.next) ==> forall r :: r in u.comparisons ==> r < u.next)
  {
    SendingKeeps(Grown(s, request, result), Ids(result.articles));
  }

  lemma PageKeepsInv(w: World, request: nat, result: FeedResult)
    requires Inv(w) && request in CurrentFeeds(w.state) && result.Page?
    ensures Inv(Next(w, FeedAnswer(request, result)))
  {
    var s, t := w.state, FeedArrives(w.state, request, result);
    PageIs(s, request, result);
    AnsweredFeeds(s, t, request);
    assert Ids(t.articles) == Ids(s.articles) + Ids(result.articles);
  }

  /** With its only request answered the pager no longer loads. */
  lemma AnsweredFeeds(s: State, t: State, request: nat)
    requires FeedsInv(s) && request in CurrentFeeds(s)
    requires t.feeds == s.feeds - {request} && t.generation == s.generation && t.next >= s.next && !t.isLoading
    requires forall r :: r in t.comparisons ==> r < t.next
    ensures FeedsInv(t)
  {
    assert forall r :: r in CurrentFeeds(t) ==> r in CurrentFeeds(s) && r != request;
  }

  lemma FeedKeepsInv(w: World, request: nat, result: FeedResult)
    requires Inv(w) && request in w.state.feeds
    ensures Inv(Next(w, FeedAnswer(request, result)))
  {
    var v := Next(w, FeedAnswer(request, result));
    if w.state.feeds[request].generation != w.state.generation {
      assert CurrentFeeds(v.state) == CurrentFeeds(w.state);
    } else if result.FeedError? {
      AnsweredFeeds(w.state, v.state, request);
    } else {
      PageKeepsInv(w, request, result);
    }
  }

  lemma ComparisonKeepsInv(w: World, request: nat, pair: Option<(Version, Version)>)
    requires Inv(w) && request in w.state.comparisons
    ensures Inv(Next(w, ComparisonAnswer(request, pair)))
  {
    LateComparisonsAreHarmless(w.state, request, pair);
  }

  lemma {:induction false} ReachableInv(w: World, trace: seq<Event>, v: World)
    requires Inv(w) && Reachable(w, trace, v)
    ensures Inv(v)
    decreases |trace|
  {
    if trace != [] {
      match trace[0] {
        case Loading(refresh) => LoadKeepsInv(w, w.state.category, refresh);
        case Selecting(category) => if category != w.state.category { LoadKeepsInv(w, category, true); }
        case FeedAnswer(request, result) => FeedKeepsInv(w, request, result);
        case ComparisonAnswer(request, pair) => ComparisonKeepsInv(w, request, pair);
      }
      ReachableInv(Next(w, trace[0]), trace[1..], v);
    }
  }

  // ---------- what each step does ----------

  /** A load that is not held back by another one or by the end of the feed sends exactly one request,
      for the next page of the selected category or, on refresh, for the first; any other load
      does nothing. */
  lemma LoadSendsOne(s: State, refresh: bool)
    requires FeedsInv(s)
    ensures var t := Load(s, refresh);
            if !refresh && (s.isLoading || !s.hasMore) then t == s
            else
              && CurrentFeeds(t) == {s.next} && t.isLoading && t.error == None && s.next !in s.feeds
              && t.feeds[s.next] == FeedRequest(t.generation, if refresh then 1 else s.currentPage, s.category)
              && t.articles == (if refresh then [] else s.articles) && t.category == s.category
              && t.generation == (if refresh then s.generation + 1 else s.generation)
              && (forall r :: r in s.feeds ==> r in t.feeds && t.feeds[r] == s.feeds[r])
  {
    var t := Load(s, refresh);
    if refresh || (!s.isLoading && s.hasMore) {
      if !refresh { assert CurrentFeeds(s) == {}; }
      assert forall r :: r in CurrentFeeds(t) ==> r == s.next;
    }
  }

  /** Another category empties the list and asks for its first page; the same one does nothing. */
  lemma CategoryReloads(s: State, category: Option<string>)
    requires FeedsInv(s)
    ensures var t := SetCategory(s, category);
            if category == s.category then t == s
            else
              && t.category == category && t.articles == [] && t.isLoading && CurrentFeeds(t) == {s.next}
              && t.feeds[s.next] == FeedRequest(s.generation + 1, 1, category)
  {
    if category != s.category {
      var t := SetCategory(s, category);
      assert forall r :: r in CurrentFeeds(t) ==> r == s.next;
    }
  }

  /** A failed load shows its message and keeps the list; trying again asks for the same page and clears
      the message. */
  lemma FailureCanBeRetried(s: State, request: nat, message: string)
    requires FeedsInv(s) && request in CurrentFeeds(s)
    ensures var t := FeedArrives(s, request, FeedError(message));
            && t.error == Some(message) && !t.isLoading && t.articles == s.articles
            && t.currentPage == s.currentPage && t.hasMore == s.hasMore
            && (s.hasMore ==>
                  var u := Load(t, false);
                  u.error == None && u.isLoading &&
                  u.feeds[s.next] == FeedRequest(s.generation, s.currentPage, s.category))
  {
  }

  /** A request for the comparison of an article, as it is now. */
  predicate Asked(s: State, request: nat, id: string) {
    request in s.comparisons && s.comparisons[request].generation == s.generation &&
    IndexOf(s.articles, id) < |s.articles| && s.comparisons[request].article == s.articles[IndexOf(s.articles, id)]
  }

  /** Every id is asked for, by consecutive requests. */
  ghost predicate AllAsked(s: State, first: nat, ids: seq<string>) {
    forall k :: 0 <= k < |ids| ==> Asked(s, first + k, ids[k])
  }

  lemma OneMoreAsked(s: State, id: string)
    requires (forall r :: r in s.comparisons ==> r < s.next) && IndexOf(s.articles, id) < |s.articles|
    ensures var t := SendComparison(s, id);
            && t.articles == s.articles && t.generation == s.generation && t.next == s.next + 1
            && Asked(t, s.next, id) && (forall r, x :: Asked(s, r, x) ==> Asked(t, r, x))
            && (forall r :: r in t.comparisons ==> r < t.next)
  {
  }

  /** The numbers of the requests follow those of the ids, one each. */
  lemma {:induction false} EveryIdIsAsked(s: State, ids: seq<string>)
    requires forall r :: r in s.comparisons ==> r < s.next
    requires forall k :: 0 <= k < |ids| ==> IndexOf(s.articles, ids[k]) < |s.articles|
    ensures var t := SendComparisons(s, ids);
            && t.articles == s.articles && t.generation == s.generation && t.next == s.next + |ids|
            && AllAsked(t, s.next, ids) && (forall r :: r in t.comparisons ==> r < t.next)
  {
    if ids != [] {
      var front, last := ids[..|ids| - 1], ids[|ids| - 1];
      EveryIdIsAsked(s, front);
      var u := SendComparisons(s, front);
      OneMoreAsked(u, last);
      forall k | 0 <= k < |ids|
        ensures Asked(SendComparison(u, last), s.next + k, ids[k])
      {
        if k < |front| { assert Asked(u, s.next + k, front[k]); }
      }
    }
  }

  lemma {:induction false} IndexOfPresent(articles: seq<Article>, k: nat)
    requires k < |articles|
    ensures IndexOf(articles, articles[k].id) <= k
  {
    if articles[0].id != articles[k].id { IndexOfPresent(articles[1..], k - 1); }
  }

  lemma NewIdsArePresent(shown: seq<Article>, articles: seq<Article>)
    ensures forall k :: 0 <= k < |articles| ==> IndexOf(shown + articles, Ids(articles)[k]) < |shown + articles|
  {
    forall k | 0 <= k < |articles|
      ensures IndexOf(shown + articles, Ids(articles)[k]) < |shown + articles|
    {
      IndexOfPresent(shown + articles, |shown| + k);
    }
  }

  /** An accepted page is appended, and the comparison of each of its articles is asked for. */
  lemma PageAsksComparisons(s: State, request: nat, articles: seq<Article>, hasMore: bool)
    requires FeedsInv(s) && request in CurrentFeeds(s)
    ensures var t := FeedArrives(s, request, Page(articles, hasMore));
            && t.articles == s.articles + articles && t.currentPage == s.currentPage + 1
            && t.hasMore == hasMore && !t.isLoading && request !in t.feeds
            && AllAsked(t, s.next, Ids(articles))
  {
    var grown := Grown(s, request, Page(articles, hasMore));
    PageIs(s, request, Page(articles, hasMore));
    IdsAreAsked(grown, s.articles, articles);
  }

  lemma IdsAreAsked(grown: State, shown: seq<Article>, articles: seq<Article>)
    requires grown.articles == shown + articles && forall r :: r in grown.comparisons ==> r < grown.next
    ensures AllAsked(SendComparisons(grown, Ids(articles)), grown.next, Ids(articles))
  {
    NewIdsArePresent(shown, articles);
    EveryIdIsAsked(grown, Ids(articles));
  }

  /** A comparison that arrives in its generation is shown on the first article with the id: the title
      it came with, then the two rewrites in the order of the answer. */
  lemma ComparisonIsShown(s: State, request: nat, a: Version, b: Version)
    requires request in s.comparisons && s.comparisons[request].generation == s.generation
    requires s.comparisons[request].article.versions != []
    requires IndexOf(s.articles, s.comparisons[request].article.id) < |s.articles|
    ensures var sent, t := s.comparisons[request].article, ComparisonArrives(s, request, Some((a, b)));
            var shown := t.articles[IndexOf(s.articles, sent.id)];
            && shown.id == sent.id && |shown.versions| == 3
            && shown.versions[0].title == sent.versions[0].title && shown.versions[0].isOriginal
            && shown.versions[1] == Version(a.modelName, a.title, false, a.rewriteId)
            && shown.versions[2] == Version(b.modelName, b.title, false, b.rewriteId)
  {
  }

  // ---------- original titles ----------

  function AllTitles(pages: seq<Accepted>): seq<string> {
    if pages == [] then [] else AllTitles(pages[..|pages| - 1]) + pages[|pages| - 1].titles
  }

  predicate AllVersioned(articles: seq<Article>) { forall i :: 0 <= i < |articles| ==> articles[i].versions != [] }

  /** Every article of every page has a first version, as Article.fromJson gives it one. */
  predicate Versioned(e: Event) { e.FeedAnswer? && e.result.Page? ==> AllVersioned(e.result.articles) }

  /** The article remembered by a request is shown first under its id, with the same title. */
  predicate Remembers(articles: seq<Article>, sent: Article) {
    var i := IndexOf(articles, sent.id);
    i < |articles| && sent.versions != [] && Title(sent) == Title(articles[i])
  }

  ghost predicate TitlesInv(w: World) {
    var s := w.state;
    && (forall a :: a in w.accepted ==> a.generation <= s.generation)
    && AllVersioned(s.articles)
    && Titles(s.articles) == AllTitles(InGeneration(w.accepted, s.generation))
    && (forall r :: r in s.comparisons ==> s.comparisons[r].generation <= s.generation)
    && RequestsInv(s)
  }

  ghost predicate RequestsInv(s: State) {
    forall r :: r in s.comparisons && s.comparisons[r].generation == s.generation ==>
      Remembers(s.articles, s.comparisons[r].article)
  }

  lemma {:induction false} IndexOfLonger(articles: seq<Article>, more: seq<Article>, id: string)
    requires IndexOf(articles, id) < |articles|
    ensures IndexOf(articles + more, id) == IndexOf(articles, id)
  {
    if articles[0].id != id {
      assert (articles + more)[1..] == articles[1..] + more;
      IndexOfLonger(articles[1..], more, id);
    }
  }

  lemma IndexOfSameIds(a: seq<Article>, b: seq<Article>, id: string)
    requires Ids(a) == Ids(b)
    ensures IndexOf(a, id) == IndexOf(b, id)
  {
    var i, j := IndexOf(a, id), IndexOf(b, id);
    assert |a| == |Ids(a)| == |b|;
    assert forall k :: 0 <= k < |a| ==> a[k].id == Ids(a)[k] == Ids(b)[k] == b[k].id;
  }

  lemma {:induction false} SendingRemembers(s: State, ids: seq<string>)
    requires AllVersioned(s.articles) && RequestsInv(s)
    requires forall r :: r in s.comparisons ==> s.comparisons[r].generation <= s.generation
    ensures var t := SendComparisons(s, ids);
            && t.articles == s.articles && t.generation == s.generation && RequestsInv(t)
            && forall r :: r in t.comparisons ==> t.comparisons[r].generation <= t.generation
  {
    if ids != [] { SendingRemembers(s, ids[..|ids| - 1]); }
  }

  lemma LoadKeepsTitles(w: World, category: Option<string>, refresh: bool)
    requires TitlesInv(w)
    ensures TitlesInv(w.(state := Load(w.state.(category := category), refresh)))
  {
    if refresh { NewGenerationIsEmpty(w.accepted, w.state.generation + 1); }
  }

  lemma AppendKeepsRequests(s: State, more: seq<Article>)
    requires RequestsInv(s)
    ensures RequestsInv(s.(articles := s.articles + more))
  {
    forall r | r in s.comparisons && s.comparisons[r].generation == s.generation
      ensures Remembers(s.articles + more, s.comparisons[r].article)
    {
      IndexOfLonger(s.articles, more, s.comparisons[r].article.id);
    }
  }

  /** The list grown by a page, once the requests for its comparisons are sent. */
  lemma PageAppendsTitles(w: World, t: State, more: seq<Article>, added: Accepted)
    requires TitlesInv(w) && AllVersioned(more) && RequestsInv(t)
    requires added.generation == w.state.generation == t.generation && added.titles == Titles(more)
    requires t.articles == w.state.articles + more
    requires forall r :: r in t.comparisons ==> t.comparisons[r].generation <= t.generation
    ensures TitlesInv(World(t, w.accepted + [added]))
  {
    assert Titles(t.articles) == Titles(w.state.articles) + Titles(more);
  }

  lemma PageKeepsTitles(w: World, request: nat, result: FeedResult)
    requires TitlesInv(w) && request in w.state.feeds && result.Page? && AllVersioned(result.articles)
    requires w.state.feeds[request].generation == w.state.generation
    ensures TitlesInv(Next(w, FeedAnswer(request, result)))
  {
    var s, sent := w.state, w.state.feeds[request];
    var grown := Grown(s, request, result);
    PageIs(s, request, result);
    AppendKeepsRequests(s, result.articles);
    SendingRemembers(grown, Ids(result.articles));
    PageAppendsTitles(w, FeedArrives(s, request, result), result.articles,
                      Accepted(sent.generation, sent.page, sent.category, Ids(result.articles),
                               Titles(result.articles), result.hasMore));
  }

  lemma ComparisonKeepsTitles(w: World, request: nat, pair: Option<(Version, Version)>)
    requires TitlesInv(w) && request in w.state.comparisons
    ensures TitlesInv(Next(w, ComparisonAnswer(request, pair)))
  {
    var s, t := w.state, ComparisonArrives(w.state, request, pair);
    LateComparisonsAreHarmless(s, request, pair);
    assert Titles(t.articles) == Titles(s.articles) && AllVersioned(t.articles);
    forall r | r in t.comparisons && t.comparisons[r].generation == t.generation
      ensures Remembers(t.articles, t.comparisons[r].article)
    {
      var id := t.comparisons[r].article.id;
      IndexOfSameIds(s.articles, t.articles, id);
      assert Title(s.articles[IndexOf(s.articles, id)]) == Titles(s.articles)[IndexOf(s.articles, id)];
    }
  }

  lemma {:induction false} ReachableTitles(w: World, trace: seq<Event>, v: World)
    requires TitlesInv(w) && Reachable(w, trace, v) && forall i :: 0 <= i < |trace| ==> Versioned(trace[i])
    ensures TitlesInv(v)
    decreases |trace|
  {
    if trace != [] {
      match trace[0] {
        case Loading(refresh) => LoadKeepsTitles(w, w.state.category, refresh);
        case Selecting(category) => if category != w.state.category { LoadKeepsTitles(w, category, true); }
        case FeedAnswer(request, result) =>
          if w.state.feeds[request].generation == w.state.generation && result.Page? {
            PageKeepsTitles(w, request, result);
          }
        case ComparisonAnswer(request, pair) => ComparisonKeepsTitles(w, request, pair);
      }
      ReachableTitles(Next(w, trace[0]), trace[1..], v);
    }
  }

  /** In every reachable state the first version of every article in the list carries the title
      that the article came with in its page: no comparison, however late, and no two
      articles with one id, ever change it. */
  lemma OriginalTitlesStay(trace: seq<Event>, w: World)
    requires Reachable(World(INITIAL, []), trace, w) && forall i :: 0 <= i < |trace| ==> Versioned(trace[i])
    ensures Titles(w.state.articles) == AllTitles(InGeneration(w.accepted, w.state.generation))
    ensures AllVersioned(w.state.articles)
  {
    ReachableTitles(World(INITIAL, []), trace, w);
  }

  lemma SingletonSize(s: set<nat>)
    requires forall q, r :: q in s && r in s ==> q == r
    ensures |s| == if s == {} then 0 else 1
  {
    if r :| r in s { assert s == {r}; }
  }

  /** In every reachable state, whatever the order of responses, failures, refreshes and
      category changes: loading means exactly one current request in flight; the list
      is pages 1..currentPage-1 of the selected category accepted in this generation,
      in order; and more pages remain exactly when the last accepted page said so. */
  lemma PagerCorrect(trace: seq<Event>, w: World)
    requires Reachable(World(INITIAL, []), trace, w)
    ensures var s := w.state;
            var pages := InGeneration(w.accepted, s.generation);
            && |CurrentFeeds(s)| == (if s.isLoading then 1 else 0)
            && |pages| == s.currentPage - 1 && Consecutive(pages, s.category)
            && Ids(s.articles) == AllIds(pages)
            && s.hasMore == (pages == [] || pages[|pages| - 1].hasMore)
  {
    ReachableInv(World(INITIAL, []), trace, w);
    SingletonSize(CurrentFeeds(w.state));
  }

  /** A late comparison changes at most the versions of one article, and one from an
      abandoned generation changes nothing on screen. */
  lemma LateComparisonsAreHarmless(s: State, request: nat, pair: Option<(Version, Version)>)
    requires request in s.comparisons
    ensures var t := ComparisonArrives(s, request, pair);
            && t == s.(articles := t.articles, comparisons := s.comparisons - {request})
            && |t.articles| == |s.articles| && Ids(t.articles) == Ids(s.articles)
            && (forall j, k :: 0 <= j < k < |s.articles| ==>
                  t.articles[j] == s.articles[j] || t.articles[k] == s.articles[k])
            && (s.comparisons[request].generation != s.generation ==> t.articles == s.articles)
  {
    assert Ids(ComparisonArrives(s, request, pair).articles) == Ids(s.articles);
  }

  /** A response to an abandoned generation is dropped. */
  lemma StaleFeedIsDropped(w: World, request: nat, result: FeedResult)
    requires Inv(w) && request in w.state.feeds && w.state.feeds[request].generation < w.state.generation
    ensures Next(w, FeedAnswer(request, result)) == w.(state := w.state.(feeds := w.state.feeds - {request}))
    ensures CurrentFeeds(Next(w, FeedAnswer(request, result)).state) == CurrentFeeds(w.state)
  {
  }

  // ---------- the class ----------

  class NewsProvider {
    var articles: seq<Article>
    var isLoading: bool
    var hasMore: bool
    var currentPage: nat
    var selectedCategory: Option<string>
    var error: Option<string>
    var generation: nat
    var feeds: map<nat, FeedRequest>
    var comparisons: map<nat, ComparisonRequest>
    var nextRequest: nat

    ghost function View(): State
      reads this
    {
      State(articles, isLoading, hasMore, currentPage, selectedCategory, error, generation,
            feeds, comparisons, nextRequest)
    }

    constructor ()
      ensures View() == INITIAL
    {
      articles, isLoading, hasMore, currentPage := [], false, true, 1;
      selectedCategory, error, generation := None, None, 0;
      feeds, comparisons, nextRequest := map[], map[], 0;
    }

    method LoadArticles(refresh: bool)
      modifies this
      ensures View() == Load(old(View()), refresh)
    {
      if isLoading && !refresh { return; }
      if !refresh && !hasMore { return; }
      if refresh {
        generation := generation + 1;
        currentPage := 1;
        articles := [];
        hasMore := true;
      }
      isLoading := true;
      error := None;
      feeds := feeds[nextRequest := FeedRequest(generation, currentPage, selectedCategory)];
      nextRequest := nextRequest + 1;
    }

    method SelectCategory(category: Option<string>)
      modifies this
      ensures View() == SetCategory(old(View()), category)
    {
      if selectedCategory == category { return; }
      selectedCategory := category;
      LoadArticles(true);
    }

    method FetchComparison(id: string)
      modifies this`comparisons, this`nextRequest
      ensures View() == SendComparison(old(View()), id)
    {
      var i := IndexOf(articles, id);
      if i == |articles| { return; }
      comparisons := comparisons[nextRequest := ComparisonRequest(generation, articles[i])];
      nextRequest := nextRequest + 1;
    }

    /** One request for every id, in order. */
    method FetchComparisons(ids: seq<string>)
      modifies this`comparisons, this`nextRequest
      ensures View() == SendComparisons(old(View()), ids)
    {
      for k := 0 to |ids|
        invariant View() == SendComparisons(old(View()), ids[..k])
      {
        assert ids[..k + 1][..k] == ids[..k];
        FetchComparison(ids[k]);
      }
      assert ids[..|ids|] == ids;
    }

    method FeedArrived(request: nat, result: FeedResult)
      requires request in feeds
      modifies this
      ensures View() == FeedArrives(old(View()), request, result)
    {
      var sent := feeds[request];
      feeds := feeds - {request};
      if sent.generation != generation { return; }
      match result
      case FeedError(message) =>
        error := Some(message);
        isLoading := false;
      case Page(page, more) =>
        var startIndex := |articles|;
        articles := articles + page;
        hasMore := more;
        currentPage := currentPage + 1;
        assert articles[startIndex..] == page;
        FetchComparisons(Ids(articles[startIndex..]));
        isLoading := false;
    }

    method ComparisonArrived(request: nat, pair: Option<(Version, Version)>)
      requires request in comparisons
      modifies this`articles, this`comparisons
      ensures View() == ComparisonArrives(old(View()), request, pair)
    {
      var sent := comparisons[request];
      comparisons := comparisons - {request};
      if pair.None? || sent.generation != generation { return; }
      var versions := [];
      if sent.article.versions != [] { versions := [Version("Original", sent.article.versions[0].title, true, None)]; }
      versions := versions + [pair.value.0.(isOriginal := false), pair.value.1.(isOriginal := false)];
      var i := IndexOf(articles, sent.article.id);
      if i < |articles| { articles := articles[i := articles[i].(versions := versions)]; }
    }
  }
}
