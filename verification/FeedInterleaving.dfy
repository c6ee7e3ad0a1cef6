/** Round-robin interleaving of the crawled feeds (backend/services/news_crawler.go). */
module FeedInterleaving {
  import opened Common

  datatype FeedArticle = FeedArticle(title: string, url: string)

  /** An article with the feed it came from. */
  datatype Turn = Turn(feed: nat, article: FeedArticle)

  /** The turn of one feed at a position, if its article list reaches it. */
  function TurnOf(feed: seq<FeedArticle>, owner: nat, position: nat): seq<Turn> {
    if position < |feed| then [Turn(owner, feed[position])] else []
  }

  /** The turns of feeds 0..g-1 at one position. */
  function Turns(feeds: seq<seq<FeedArticle>>, position: nat, g: nat): seq<Turn>
    requires g <= |feeds|
  {
    if g == 0 then []
    else Turns(feeds, position, g - 1) + TurnOf(feeds[g - 1], g - 1, position)
  }

  /** The first n rounds over all feeds. */
  function Rounds(feeds: seq<seq<FeedArticle>>, n: nat): seq<Turn> {
    if n == 0 then [] else Rounds(feeds, n - 1) + Turns(feeds, n - 1, |feeds|)
  }

  function LongestOf(feeds: seq<seq<FeedArticle>>): nat {
    if feeds == [] then 0 else Max(|feeds[|feeds| - 1]|, LongestOf(feeds[..|feeds| - 1]))
  }

  function Order(feeds: seq<seq<FeedArticle>>): seq<Turn> { Rounds(feeds, LongestOf(feeds)) }

  /** The article of a feed at one position, if there is one. */
  function Slot(feed: seq<FeedArticle>, position: nat): seq<FeedArticle> {
    if position < |feed| then [feed[position]] else []
  }

  /** The articles of the first n turns. */
  function ArticlesTo(turns: seq<Turn>, n: nat): (r: seq<FeedArticle>)
    requires n <= |turns|
    ensures |r| == n && forall i :: 0 <= i < n ==> r[i] == turns[i].article
  {
    if n == 0 then [] else ArticlesTo(turns, n - 1) + [turns[n - 1].article]
  }

  function Articles(turns: seq<Turn>): seq<FeedArticle> { ArticlesTo(turns, |turns|) }

  /** What the first n turns took from one feed. */
  function TakenTo(turns: seq<Turn>, n: nat, f: nat): seq<FeedArticle>
    requires n <= |turns|
  {
    if n == 0 then []
    else TakenTo(turns, n - 1, f) + if turns[n - 1].feed == f then [turns[n - 1].article] else []
  }

  function TakenFrom(turns: seq<Turn>, f: nat): seq<FeedArticle> { TakenTo(turns, |turns|, f) }

  lemma {:induction false} PrefixTaken(a: seq<Turn>, b: seq<Turn>, n: nat, f: nat)
    requires n <= |a| && n <= |b| && a[..n] == b[..n]
    ensures TakenTo(a, n, f) == TakenTo(b, n, f) && ArticlesTo(a, n) == ArticlesTo(b, n)
  {
    if n > 0 {
      assert a[n - 1] == a[..n][n - 1] == b[n - 1];
      assert a[..n - 1] == a[..n][..n - 1] == b[..n - 1];
      PrefixTaken(a, b, n - 1, f);
    }
  }

  /** One more turn of one feed. */
  lemma TurnTaken(before: seq<Turn>, feed: seq<FeedArticle>, owner: nat, position: nat, f: nat)
    ensures var after := before + TurnOf(feed, owner, position);
            && TakenFrom(after, f) == TakenFrom(before, f) + (if f == owner then Slot(feed, position) else [])
            && Articles(after) == Articles(before) + Slot(feed, position)
  {
    PrefixTaken(before, before + TurnOf(feed, owner, position), |before|, f);
    if position >= |feed| { assert before + [] == before; }
  }

  function FirstOf(feed: seq<FeedArticle>, n: nat): seq<FeedArticle> {
    if n <= |feed| then feed[..n] else feed
  }

  /** One more feed in a round that follows earlier turns. */
  lemma NextTurn(before: seq<Turn>, feeds: seq<seq<FeedArticle>>, position: nat, g: nat, f: nat)
    requires g < |feeds|
    ensures var earlier, later := before + Turns(feeds, position, g), before + Turns(feeds, position, g + 1);
            && TakenFrom(later, f) == TakenFrom(earlier, f) + (if f == g then Slot(feeds[g], position) else [])
            && Articles(later) == Articles(earlier) + Slot(feeds[g], position)
  {
    Regroup(before, Turns(feeds, position, g), TurnOf(feeds[g], g, position));
    TurnTaken(before + Turns(feeds, position, g), feeds[g], g, position, f);
  }

  lemma NoTurn(before: seq<Turn>, feeds: seq<seq<FeedArticle>>, position: nat)
    ensures before + Turns(feeds, position, 0) == before
  {
  }

  lemma TurnsTaken(before: seq<Turn>, feeds: seq<seq<FeedArticle>>, position: nat, g: nat, f: nat)
    requires f < |feeds| && g <= |feeds|
    ensures TakenFrom(before + Turns(feeds, position, g), f) ==
            TakenFrom(before, f) + if f < g then Slot(feeds[f], position) else []
  {
    NoTurn(before, feeds, position);
    for h := 0 to g
      invariant TakenFrom(before + Turns(feeds, position, h), f) ==
                TakenFrom(before, f) + if f < h then Slot(feeds[f], position) else []
    {
      NextTurn(before, feeds, position, h, f);
    }
  }

  lemma RoundTaken(feeds: seq<seq<FeedArticle>>, n: nat, f: nat)
    requires f < |feeds| && TakenFrom(Rounds(feeds, n), f) == FirstOf(feeds[f], n)
    ensures TakenFrom(Rounds(feeds, n + 1), f) == FirstOf(feeds[f], n + 1)
  {
    TurnsTaken(Rounds(feeds, n), feeds, n, |feeds|, f);
  }

  /** After n rounds each feed has given its first n articles, in its own order. */
  lemma {:induction false} RoundsTaken(feeds: seq<seq<FeedArticle>>, n: nat, f: nat)
    requires f < |feeds|
    ensures TakenFrom(Rounds(feeds, n), f) == FirstOf(feeds[f], n)
  {
    for m := 0 to n
      invariant TakenFrom(Rounds(feeds, m), f) == FirstOf(feeds[f], m)
    {
      RoundTaken(feeds, m, f);
    }
  }

  lemma {:induction false} LongestBounds(feeds: seq<seq<FeedArticle>>, f: nat)
    requires f < |feeds|
    ensures |feeds[f]| <= LongestOf(feeds)
  {
    if f < |feeds| - 1 { LongestBounds(feeds[..|feeds| - 1], f); }
  }

  lemma {:induction false} TurnsPrefix(feeds: seq<seq<FeedArticle>>, position: nat, g: nat, k: nat) returns (h: nat)
    requires g <= |feeds| && k <= |Turns(feeds, position, g)|
    ensures h <= g && Turns(feeds, position, g)[..k] == Turns(feeds, position, h)
  {
    if k == |Turns(feeds, position, g)| {
      h := g;
    } else {
      h := TurnsPrefix(feeds, position, g - 1, k);
      assert Turns(feeds, position, g)[..k] == Turns(feeds, position, g - 1)[..k];
    }
  }

  /** Every prefix is some full rounds and part of the next one. */
  lemma {:induction false} RoundsPrefix(feeds: seq<seq<FeedArticle>>, n: nat, k: nat) returns (m: nat, h: nat)
    requires k <= |Rounds(feeds, n)|
    ensures h <= |feeds| && Rounds(feeds, n)[..k] == Rounds(feeds, m) + Turns(feeds, m, h)
  {
    if n == 0 {
      m, h := 0, 0;
    } else if k <= |Rounds(feeds, n - 1)| {
      m, h := RoundsPrefix(feeds, n - 1, k);
      assert Rounds(feeds, n)[..k] == Rounds(feeds, n - 1)[..k];
    } else {
      m := n - 1;
      h := TurnsPrefix(feeds, m, |feeds|, k - |Rounds(feeds, m)|);
      assert Rounds(feeds, n)[..k] == Rounds(feeds, m) + Turns(feeds, m, |feeds|)[..k - |Rounds(feeds, m)|];
    }
  }

  /** No feed monopolizes a run: in every prefix of the result two feeds are at most
      one article apart, unless the one behind has run out. */
  lemma InterleavingIsFair(feeds: seq<seq<FeedArticle>>, k: nat, f: nat, g: nat)
    requires k <= |Order(feeds)| && f < |feeds| && g < |feeds|
    ensures var ahead, behind := |TakenFrom(Order(feeds)[..k], f)|, |TakenFrom(Order(feeds)[..k], g)|;
            ahead <= behind + 1 || behind == |feeds[g]|
  {
    var m, h := RoundsPrefix(feeds, LongestOf(feeds), k);
    RoundsTaken(feeds, m, f);
    RoundsTaken(feeds, m, g);
    TurnsTaken(Rounds(feeds, m), feeds, m, h, f);
    TurnsTaken(Rounds(feeds, m), feeds, m, h, g);
  }

  /** How many articles the first n positions of the feeds hold. */
  function Total(feeds: seq<seq<FeedArticle>>, n: nat): nat {
    if feeds == [] then 0 else Total(feeds[..|feeds| - 1], n) + Min(n, |feeds[|feeds| - 1]|)
  }

  function Sum(feeds: seq<seq<FeedArticle>>): nat {
    if feeds == [] then 0 else Sum(feeds[..|feeds| - 1]) + |feeds[|feeds| - 1]|
  }

  lemma {:induction false} TurnsSize(feeds: seq<seq<FeedArticle>>, position: nat, g: nat)
    requires g <= |feeds|
    ensures |Turns(feeds, position, g)| == Total(feeds[..g], position + 1) - Total(feeds[..g], position)
  {
    if g > 0 {
      TurnsSize(feeds, position, g - 1);
      assert feeds[..g][..g - 1] == feeds[..g - 1];
    }
  }

  lemma {:induction false} TotalAtZero(feeds: seq<seq<FeedArticle>>)
    ensures Total(feeds, 0) == 0
  {
    if feeds != [] { TotalAtZero(feeds[..|feeds| - 1]); }
  }

  lemma {:induction false} RoundsSize(feeds: seq<seq<FeedArticle>>, n: nat)
    ensures |Rounds(feeds, n)| == Total(feeds, n)
  {
    if n == 0 {
      TotalAtZero(feeds);
    } else {
      RoundsSize(feeds, n - 1);
      TurnsSize(feeds, n - 1, |feeds|);
      assert feeds[..|feeds|] == feeds;
    }
  }

  /** The rounds so far hold everything exactly when no feed is longer than them, and
      until then one more round adds something. */
  lemma {:induction false} TotalReachesSum(feeds: seq<seq<FeedArticle>>, n: nat)
    ensures Total(feeds, n) <= Total(feeds, n + 1) <= Sum(feeds)
    ensures Total(feeds, n) == Sum(feeds) <==> LongestOf(feeds) <= n
    ensures LongestOf(feeds) > n ==> Total(feeds, n) < Total(feeds, n + 1)
  {
    if feeds != [] { TotalReachesSum(feeds[..|feeds| - 1], n); }
  }

  /** The result is a merge of the feeds: from each feed it takes exactly that feed's
      articles in their order, and it holds nothing else. */
  lemma OrderIsMerge(feeds: seq<seq<FeedArticle>>)
    ensures forall f :: 0 <= f < |feeds| ==> TakenFrom(Order(feeds), f) == feeds[f]
    ensures |Order(feeds)| == Sum(feeds)
  {
    RoundsSize(feeds, LongestOf(feeds));
    TotalReachesSum(feeds, LongestOf(feeds));
    forall f | 0 <= f < |feeds|
      ensures TakenFrom(Order(feeds), f) == feeds[f]
    {
      RoundsTaken(feeds, LongestOf(feeds), f);
      LongestBounds(feeds, f);
    }
  }

  lemma {:induction false} TurnAt(feeds: seq<seq<FeedArticle>>, position: nat, g: nat, k: nat) returns (f: nat)
    requires g <= |feeds| && k < |Turns(feeds, position, g)|
    ensures f < g && position < |feeds[f]| && Turns(feeds, position, g)[..k] == Turns(feeds, position, f)
    ensures Turns(feeds, position, g)[k] == Turn(f, feeds[f][position])
  {
    var before := Turns(feeds, position, g - 1);
    if k < |before| {
      f := TurnAt(feeds, position, g - 1, k);
      assert Turns(feeds, position, g)[..k] == before[..k];
    } else {
      f := g - 1;
      assert Turns(feeds, position, g)[..k] == before;
    }
  }

  lemma {:induction false} RoundAt(feeds: seq<seq<FeedArticle>>, n: nat, k: nat) returns (m: nat, f: nat)
    requires k < |Rounds(feeds, n)|
    ensures f < |feeds| && m < |feeds[f]| && Rounds(feeds, n)[k] == Turn(f, feeds[f][m])
    ensures Rounds(feeds, n)[..k] == Rounds(feeds, m) + Turns(feeds, m, f)
  {
    var before := Rounds(feeds, n - 1);
    if k < |before| {
      m, f := RoundAt(feeds, n - 1, k);
      assert Rounds(feeds, n)[..k] == before[..k];
    } else {
      m := n - 1;
      f := TurnAt(feeds, m, |feeds|, k - |before|);
      assert Rounds(feeds, n)[..k] == before + Turns(feeds, m, |feeds|)[..k - |before|];
    }
  }

  lemma GivenBy(feeds: seq<seq<FeedArticle>>, m: nat, f: nat, g: nat)
    requires f < |feeds| && g < |feeds|
    ensures |TakenFrom(Rounds(feeds, m) + Turns(feeds, m, f), g)| == Min(|feeds[g]|, if g < f then m + 1 else m)
  {
    RoundsTaken(feeds, m, g);
    TurnsTaken(Rounds(feeds, m), feeds, m, f, g);
  }

  /** The order is exactly round robin: when a feed gives its article number c, every feed before it has
      given c + 1 of its articles and every feed after it c, or all it has. */
  lemma OrderIsRoundRobin(feeds: seq<seq<FeedArticle>>, k: nat)
    requires k < |Order(feeds)|
    ensures var turn, sofar := Order(feeds)[k], Order(feeds)[..k];
            && turn.feed < |feeds|
            && var c := |TakenFrom(sofar, turn.feed)|;
               && c < |feeds[turn.feed]| && turn.article == feeds[turn.feed][c]
               && forall g :: 0 <= g < |feeds| ==>
                    |TakenFrom(sofar, g)| == Min(|feeds[g]|, if g < turn.feed then c + 1 else c)
  {
    var m, f := RoundAt(feeds, LongestOf(feeds), k);
    forall g | 0 <= g < |feeds|
      ensures |TakenFrom(Order(feeds)[..k], g)| == Min(|feeds[g]|, if g < f then m + 1 else m)
    {
      GivenBy(feeds, m, f, g);
    }
  }

  lemma {:induction false} RoundsRunOut(feeds: seq<seq<FeedArticle>>, n: nat)
    requires LongestOf(feeds) <= n
    ensures Rounds(feeds, n) == Order(feeds)
  {
    if LongestOf(feeds) < n {
      RoundsRunOut(feeds, n - 1);
      RoundsSize(feeds, n - 1);
      RoundsSize(feeds, n);
      TotalReachesSum(feeds, n - 1);
      assert Turns(feeds, n - 1, |feeds|) == [];
    }
  }

  /** The nested loop of the source. Its early exit is never taken. */
  method InterleaveFeedArticles(feeds: seq<seq<FeedArticle>>) returns (interleaved: seq<FeedArticle>)
    ensures interleaved == Articles(Order(feeds)) && |interleaved| == Sum(feeds)
    ensures |Order(feeds)| == |interleaved|
    ensures forall i :: 0 <= i < |interleaved| ==> interleaved[i] == Order(feeds)[i].article
  {
    var total := CountArticles(feeds);
    interleaved := [];
    var position := 0;
    RoundsSize(feeds, 0);
    TotalReachesSum(feeds, 0);
    while |interleaved| < total
      invariant interleaved == Articles(Rounds(feeds, position))
      invariant |interleaved| == Total(feeds, position) <= total
      decreases total - |interleaved|
    {
      TotalReachesSum(feeds, position);
      RoundsSize(feeds, position + 1);
      var added;
      interleaved, added := AddRound(feeds, position, interleaved, Rounds(feeds, position));
      assert added;
      if !added { break; }
      position := position + 1;
      TotalReachesSum(feeds, position);
    }
    TotalReachesSum(feeds, position);
    RoundsRunOut(feeds, position);
  }

  method CountArticles(feeds: seq<seq<FeedArticle>>) returns (total: nat)
    ensures total == Sum(feeds)
  {
    total := 0;
    for f := 0 to |feeds|
      invariant total == Sum(feeds[..f])
    {
      assert feeds[..f + 1][..f] == feeds[..f];
      total := total + |feeds[f]|;
    }
    assert feeds[..|feeds|] == feeds;
  }

  /** The inner loop: one article of every feed that is long enough. */
  method AddRound(feeds: seq<seq<FeedArticle>>, position: nat, taken: seq<FeedArticle>, ghost before: seq<Turn>)
    returns (interleaved: seq<FeedArticle>, added: bool)
    requires taken == Articles(before)
    ensures interleaved == Articles(before + Turns(feeds, position, |feeds|))
    ensures added <==> |interleaved| > |taken|
  {
    interleaved, added := taken, false;
    NoTurn(before, feeds, position);
    for f := 0 to |feeds|
      invariant interleaved == Articles(before + Turns(feeds, position, f))
      invariant added <==> |interleaved| > |taken|
    {
      var articles := feeds[f];
      NextTurn(before, feeds, position, f, f);
      if position < |articles| {
        interleaved := interleaved + [articles[position]];
        added := true;
      }
    }
  }
}
