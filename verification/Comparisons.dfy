/** Comparing two rewrites and voting for one (backend/handlers/comparisons.go). */
module Comparisons {
  import opened Common

  // ---------- the pair ----------

  /** The two draws and the label bit, before the hashes are reduced to them. */
  datatype Draw = Draw(a: nat, b: nat, flip: bool)

  function Choose(d: Draw): (nat, nat) {
    var b := if d.b >= d.a then d.b + 1 else d.b;
    if d.flip then (b, d.a) else (d.a, b)
  }

  /** pickPair, on the values of the three hashes. */
  function PickPair(hashes: (nat, nat, nat), n: nat): (pair: (nat, nat))
    requires n >= 2
    ensures pair.0 < n && pair.1 < n && pair.0 != pair.1
  {
    Choose(Draw(hashes.0 % n, hashes.1 % (n - 1), hashes.2 % 2 == 1))
  }

  function Draws(n: nat): set<Draw>
    requires n >= 2
  {
    set a: nat, b: nat, flip: bool | a < n && b < n - 1 && flip in {false, true} :: Draw(a, b, flip)
  }

  function DrawsOf(n: nat, pair: (nat, nat)): set<Draw>
    requires n >= 2
  {
    set d | d in Draws(n) && Choose(d) == pair
  }

  /** Every ordered pair of distinct rewrites comes from exactly two draws, so all are equally
      likely when the draws are. */
  lemma EveryPairHasTwoDraws(n: nat, pair: (nat, nat))
    requires n >= 2 && pair.0 < n && pair.1 < n && pair.0 != pair.1
    ensures |DrawsOf(n, pair)| == 2
  {
    var (x, y) := pair;
    var plain := Draw(x, if y > x then y - 1 else y, false);
    var flipped := Draw(y, if x > y then x - 1 else x, true);
    assert DrawsOf(n, pair) == {plain, flipped};
  }

  lemma RemainderStays(a: nat, m: nat)
    requires m >= 1
    ensures a % m < m && (a % m) % m == a % m && (a < m ==> a % m == a)
  {
  }

  /** Only the remainders of the hashes count: by the number of rewrites, by one less, and by two. */
  lemma OnlyRemaindersCount(hashes: (nat, nat, nat), n: nat)
    requires n >= 2
    ensures PickPair(hashes, n) == PickPair((hashes.0 % n, hashes.1 % (n - 1), hashes.2 % 2), n)
  {
    RemainderStays(hashes.0, n);
    RemainderStays(hashes.1, n - 1);
    var r := (hashes.0 % n, hashes.1 % (n - 1), hashes.2 % 2);
    assert r.0 % n == r.0 && r.1 % (n - 1) == r.1 && r.2 % 2 == r.2;
  }

  function Remainders(n: nat): set<(nat, nat, nat)>
    requires n >= 2
  {
    set a: nat, b: nat, c: nat | a < n && b < n - 1 && c < 2 :: (a, b, c)
  }

  function RemaindersOf(n: nat, pair: (nat, nat)): set<(nat, nat, nat)>
    requires n >= 2
  {
    set r | r in Remainders(n) && PickPair(r, n) == pair
  }

  lemma PickOfRemainders(r: (nat, nat, nat), n: nat)
    requires n >= 2 && r.0 < n && r.1 < n - 1 && r.2 < 2
    ensures PickPair(r, n) == Choose(Draw(r.0, r.1, r.2 == 1))
  {
    RemainderStays(r.0, n);
    RemainderStays(r.1, n - 1);
  }

  /** Every ordered pair of distinct rewrites is picked for exactly two of the triples of remainders. */
  lemma EveryPairIsPickedTwice(n: nat, pair: (nat, nat))
    requires n >= 2 && pair.0 < n && pair.1 < n && pair.0 != pair.1
    ensures |RemaindersOf(n, pair)| == 2
  {
    var (x, y) := pair;
    var plain := (x, if y > x then y - 1 else y, 0);
    var flipped := (y, if x > y then x - 1 else x, 1);
    PickOfRemainders(plain, n);
    PickOfRemainders(flipped, n);
    forall r | r in Remainders(n)
      ensures PickPair(r, n) == pair <==> r in {plain, flipped}
    {
      PickOfRemainders(r, n);
    }
    assert plain in Remainders(n) && flipped in Remainders(n);
    assert RemaindersOf(n, pair) == {plain, flipped};
  }

  /** How many of the indices below `to` are not `first`. */
  function OthersBelow(to: nat, first: nat): nat {
    if to == 0 then 0 else OthersBelow(to - 1, first) + if to - 1 == first then 0 else 1
  }

  lemma {:induction false} OthersBelowIs(to: nat, first: nat)
    ensures OthersBelow(to, first) == if to > first then to - 1 else to
  {
    if to > 0 { OthersBelowIs(to - 1, first); }
  }

  /** Which two: the first hash picks one of all rewrites, the second one of the others, counted from
      the front, and the lowest bit of the third one which of them comes first. */
  lemma PickedIs(hashes: (nat, nat, nat), n: nat)
    requires n >= 2
    ensures var (x, y) := PickPair(hashes, n);
            var (first, second) := if hashes.2 % 2 == 0 then (x, y) else (y, x);
            first == hashes.0 % n && OthersBelow(second, first) == hashes.1 % (n - 1)
  {
    var (x, y) := PickPair(hashes, n);
    var (first, second) := if hashes.2 % 2 == 0 then (x, y) else (y, x);
    OthersBelowIs(second, first);
  }

  // ---------- showing and voting ----------

  type Id = nat

  /** The completed rewrites of each article in model order, and the hashes of the seed made of
      an article and, when one is logged in, a user. */
  datatype Site = Site(rewrites: nat -> seq<Id>, hashes: (nat, Option<nat>) -> (nat, nat, nat))
  {
    ghost predicate Valid() {
      forall article, i, j :: 0 <= i < j < |rewrites(article)| ==> rewrites(article)[i] != rewrites(article)[j]
    }
  }

  datatype Vote = Vote(chosen: Id, other: Id)

  type Votes = map<(nat, nat), Vote>

  /** The pair presented, if there is one. */
  function Shown(site: Site, article: nat, user: Option<nat>): Option<(Id, Id)> {
    var rewrites := site.rewrites(article);
    if |rewrites| < 2 then None
    else
      var (a, b) := PickPair(site.hashes(article, user), |rewrites|);
      Some((rewrites[a], rewrites[b]))
  }

  datatype Request = Request(article: nat, user: Option<nat>, chosen: Id, other: Id)

  datatype Reply =
    | LoginRequired
    | ChoicesNotDistinct
    | NotAvailable
    | ChoicesNotPresented
    | Stats(chosen: Id, other: Id, votesChosen: nat, votesOther: nat)

  /** The votes on an article for one rewrite. */
  function VotesFor(votes: Votes, article: nat, id: Id): set<(nat, nat)> {
    set k | k in votes && k.0 == article && votes[k].chosen == id
  }

  function Tally(votes: Votes, article: nat, id: Id): nat { |VotesFor(votes, article, id)| }

  /** The request is one of the two orderings of the pair presented to its user. */
  predicate Presented(site: Site, r: Request) {
    && r.user.Some?
    && (Shown(site, r.article, r.user) == Some((r.chosen, r.other)) ||
        Shown(site, r.article, r.user) == Some((r.other, r.chosen)))
  }

  /** The table after a request: a first vote is stored, anything else leaves it as it was. */
  function Cast(votes: Votes, site: Site, r: Request): Votes {
    if Presented(site, r) && (r.article, r.user.value) !in votes
    then votes[(r.article, r.user.value) := Vote(r.chosen, r.other)]
    else votes
  }

  /** Which of the two rewrites presented this user voted for: 0, 1 or neither. */
  function OwnVote(votes: Votes, article: nat, user: Option<nat>, pair: Option<(Id, Id)>): Option<nat> {
    if pair.None? || user.None? || (article, user.value) !in votes then None
    else if votes[(article, user.value)].chosen == pair.value.0 then Some(0)
    else if votes[(article, user.value)].chosen == pair.value.1 then Some(1)
    else None
  }

  class ComparisonHandler {
    var votes: Votes

    constructor ()
      ensures votes == map[]
    {
      votes := map[];
    }

    method GetComparison(site: Site, article: nat, user: Option<nat>)
      returns (pair: Option<(Id, Id)>, userVote: Option<nat>)
      ensures pair == Shown(site, article, user)
      ensures userVote == OwnVote(votes, article, user, pair)
      ensures pair.Some? <==> |site.rewrites(article)| >= 2
      ensures pair.Some? ==>
                var (a, b) := PickPair(site.hashes(article, user), |site.rewrites(article)|);
                pair.value == (site.rewrites(article)[a], site.rewrites(article)[b])
      ensures userVote.Some? ==>
                && pair.Some? && user.Some? && (article, user.value) in votes && userVote.value < 2
                && votes[(article, user.value)].chosen == if userVote.value == 0 then pair.value.0 else pair.value.1
    {
      userVote := None;
      var rewrites := site.rewrites(article);
      if |rewrites| < 2 { return None, None; }
      var (a, b) := PickPair(site.hashes(article, user), |rewrites|);
      pair := Some((rewrites[a], rewrites[b]));
      if user.Some? && (article, user.value) in votes {
        var chosen := votes[(article, user.value)].chosen;
        if chosen == rewrites[a] {
          userVote := Some(0);
        } else if chosen == rewrites[b] {
          userVote := Some(1);
        }
      }
    }

    method SubmitVote(site: Site, r: Request) returns (reply: Reply)
      requires site.Valid()
      modifies this
      ensures votes == Cast(old(votes), site, r)
      ensures reply.Stats? <==> Presented(site, r)
      ensures reply.LoginRequired? <==> r.user == None
      ensures reply.ChoicesNotDistinct? <==> r.user.Some? && r.chosen == r.other
      ensures reply.NotAvailable? <==> r.user.Some? && r.chosen != r.other && Shown(site, r.article, r.user) == None
      ensures reply.Stats? ==>
                && (r.article, r.user.value) in votes
                && votes[(r.article, r.user.value)] == Vote(reply.chosen, reply.other)
                && reply.votesChosen == Tally(votes, r.article, reply.chosen)
                && reply.votesOther == Tally(votes, r.article, reply.other)
    {
      if r.user.None? { return LoginRequired; }
      if r.chosen == r.other {
        return ChoicesNotDistinct;
      }
      var rewrites := site.rewrites(r.article);
      if |rewrites| < 2 { return NotAvailable; }
      var (a, b) := PickPair(site.hashes(r.article, r.user), |rewrites|);
      var expectedA, expectedB := rewrites[a], rewrites[b];
      var validPair := (r.chosen == expectedA && r.other == expectedB) ||
                       (r.chosen == expectedB && r.other == expectedA);
      if !validPair { return ChoicesNotPresented; }
      var key := (r.article, r.user.value);
      if key !in votes { votes := votes[key := Vote(r.chosen, r.other)]; }
      var vote := votes[key];
      return Stats(vote.chosen, vote.other, Tally(votes, r.article, vote.chosen), Tally(votes, r.article, vote.other));
    }
  }

  /** A user who is shown a pair can vote in exactly the two orders of it. */
  lemma TwoRequestsAccepted(site: Site, article: nat, user: nat)
    requires site.Valid() && Shown(site, article, Some(user)).Some?
    ensures var (a, b) := Shown(site, article, Some(user)).value;
      a != b && forall c: nat, o: nat ::
        Presented(site, Request(article, Some(user), c, o)) <==> (c, o) in {(a, b), (b, a)}
  {
    var (a, b) := Shown(site, article, Some(user)).value;
  }

  // ---------- runs ----------

  /** The votes after requests served one after another, each against the rewrites of its time. */
  function Run(votes: Votes, served: seq<(Site, Request)>): Votes {
    if served == [] then votes
    else
      var (site, r) := served[|served| - 1];
      Cast(Run(votes, served[..|served| - 1]), site, r)
  }

  /** The first request of this user on this article that matched the pair shown then. */
  function FirstPresented(served: seq<(Site, Request)>, article: nat, user: nat): Option<Vote> {
    if served == [] then None
    else
      var (site, r) := served[0];
      if r.article == article && r.user == Some(user) && Presented(site, r) then Some(Vote(r.chosen, r.other))
      else FirstPresented(served[1..], article, user)
  }

  lemma {:induction false} FirstOfAppend(served: seq<(Site, Request)>, last: (Site, Request), article: nat, user: nat)
    ensures FirstPresented(served + [last], article, user) ==
            if FirstPresented(served, article, user).Some? then FirstPresented(served, article, user)
            else FirstPresented([last], article, user)
    decreases |served|
  {
    if served == [] {
      assert [] + [last] == [last];
    } else {
      assert (served + [last])[0] == served[0] && (served + [last])[1..] == served[1..] + [last];
      FirstOfAppend(served[1..], last, article, user);
    }
  }

  /** The table holds each user's first accepted choice for each article and nothing else,
      however often they vote again and however the rewrites change. */
  lemma {:induction false} FirstVoteStands(served: seq<(Site, Request)>, article: nat, user: nat)
    ensures (article, user) in Run(map[], served) <==> FirstPresented(served, article, user).Some?
    ensures (article, user) in Run(map[], served) ==>
              Run(map[], served)[(article, user)] == FirstPresented(served, article, user).value
  {
    if served != [] {
      var before, last := served[..|served| - 1], served[|served| - 1];
      FirstVoteStands(before, article, user);
      FirstOfAppend(before, last, article, user);
      assert served == before + [last];
      assert [last][0] == last && [last][1..] == [];
    }
  }

  /** While an article's rewrites do not change, every stored vote is for one of the two
      rewrites that its user is shown, and is shown back to them. */
  lemma {:induction false} StoredVotesWereShown(site: Site, served: seq<(Site, Request)>, article: nat, user: nat)
    requires forall i :: 0 <= i < |served| && served[i].1.article == article ==>
               served[i].0.rewrites(article) == site.rewrites(article) && served[i].0.hashes == site.hashes
    requires (article, user) in Run(map[], served)
    ensures var vote := Run(map[], served)[(article, user)];
      Shown(site, article, Some(user)) in {Some((vote.chosen, vote.other)), Some((vote.other, vote.chosen))}
    ensures OwnVote(Run(map[], served), article, Some(user), Shown(site, article, Some(user))).Some?
  {
    if served != [] {
      var before := served[..|served| - 1];
      if (article, user) in Run(map[], before) { StoredVotesWereShown(site, before, article, user); }
    }
  }

  /** An accepted first vote adds one to the tally of its choice and to no other; every other
      request leaves all tallies alone. */
  lemma OneVoteOneCount(votes: Votes, site: Site, r: Request, article: nat, id: Id)
    ensures Tally(Cast(votes, site, r), article, id) == Tally(votes, article, id) +
            if Presented(site, r) && (r.article, r.user.value) !in votes && r.article == article && r.chosen == id
            then 1 else 0
  {
    if Presented(site, r) && (r.article, r.user.value) !in votes {
      OneMoreVote(votes, (r.article, r.user.value), Vote(r.chosen, r.other), article, id);
    }
  }

  lemma OneMoreVote(votes: Votes, key: (nat, nat), vote: Vote, article: nat, id: Id)
    requires key !in votes
    ensures VotesFor(votes[key := vote], article, id) ==
            VotesFor(votes, article, id) + if key.0 == article && vote.chosen == id then {key} else {}
    ensures key !in VotesFor(votes, article, id)
  {
  }
}
