/** Reading quotas over whole runs of calls and cleanup statements
    (backend/handlers/entitlements.go, backend/services/read_tracking.go): when they hold, for
    events in any order of their clock readings. */
module ReadQuotas {
  import opened Common
  import opened ReadEntitlements

  // ---------- runs ----------

  /** A first opening that was paid for, by the plan's monthly quota or by a free daily choice. */
  datatype Payment =
    | Metered(user: nat, article: nat, at: Time, limit: int)
    | Free(user: nat, article: nat, category: string, at: Time)

  /** The tables with every payment ever made. */
  datatype World = World(tables: Tables, paid: seq<Payment>)

  const START := World(EMPTY, [])

  function PaymentFor(e: Event): Payment
    requires e.Reading?
  {
    if e.access.monthlyReadLimit > 0 then Metered(e.user, e.article, e.now, e.access.monthlyReadLimit)
    else Free(e.user, e.article, CanonicalCategory(e.category), e.now)
  }

  function Payments(t: Tables, cal: Calendar, e: Event): seq<Payment> {
    if e.Reading? && !e.access.unlimitedReading && !LiveGrant(t, e.user, e.article, e.now) &&
       QuotaAllows(t, cal, e.user, e.article, e.category, e.access, e.now)
    then [PaymentFor(e)] else []
  }

  function Step(w: World, cal: Calendar, e: Event): World {
    World(Apply(w.tables, cal, e).0, w.paid + Payments(w.tables, cal, e))
  }

  function Run(cal: Calendar, es: seq<Event>): World {
    if es == [] then START else Step(Run(cal, es[..|es| - 1]), cal, es[|es| - 1])
  }

  predicate MeteredIn(p: Payment, cal: Calendar, user: nat, month: int) {
    p.Metered? && p.user == user && cal.MonthOf(p.at) == month
  }

  function MeteredCount(paid: seq<Payment>, cal: Calendar, user: nat, month: int): nat {
    if paid == [] then 0
    else MeteredCount(paid[..|paid| - 1], cal, user, month) +
         if MeteredIn(paid[|paid| - 1], cal, user, month) then 1 else 0
  }

  /** The largest monthly limit under which the user opened something that month. */
  function LargestLimit(paid: seq<Payment>, cal: Calendar, user: nat, month: int): int {
    if paid == [] then 0
    else
      var rest := LargestLimit(paid[..|paid| - 1], cal, user, month);
      if MeteredIn(paid[|paid| - 1], cal, user, month) then Max(rest, paid[|paid| - 1].limit) else rest
  }

  /** The user's metered openings of a month stay within the largest limit. */
  predicate LimitKept(cal: Calendar, es: seq<Event>, user: nat, month: int) {
    MeteredCount(Run(cal, es).paid, cal, user, month) <= LargestLimit(Run(cal, es).paid, cal, user, month)
  }

  predicate FreeOn(p: Payment, cal: Calendar, user: nat, day: int) {
    p.Free? && p.user == user && cal.date(p.at) == day
  }

  predicate OneArticleEach(paid: seq<Payment>, cal: Calendar, user: nat, day: int) {
    forall p, q :: p in paid && q in paid && FreeOn(p, cal, user, day) && FreeOn(q, cal, user, day) ==>
      p.category == q.category ==> p.article == q.article
  }

  /** The user's free openings of a category on a date are all of one article. */
  predicate ChoiceKept(cal: Calendar, es: seq<Event>, user: nat, day: int) {
    OneArticleEach(Run(cal, es).paid, cal, user, day)
  }

  // ---------- when a cleanup comes between ----------

  predicate ReadsInMonth(cal: Calendar, e: Event, user: nat, month: int) {
    e.Reading? && e.user == user && cal.MonthOf(e.now) == month
  }

  /** A cleanup that deletes the counters of the month. */
  predicate EndsMonth(cal: Calendar, e: Event, month: int) {
    e.CleaningMonthly? && cal.MonthOf(e.now) > month
  }

  predicate ReadsOnDay(cal: Calendar, e: Event, user: nat, day: int) {
    e.Reading? && e.user == user && cal.date(e.now) == day
  }

  /** A cleanup that deletes the choices of the day. */
  predicate EndsDay(cal: Calendar, e: Event, day: int) {
    e.CleaningChosen? && cal.date(e.now) - 6 > day
  }

  ghost predicate MonthCut(cal: Calendar, es: seq<Event>, user: nat, month: int) {
    exists i, j :: 0 <= i < j < |es| && ReadsInMonth(cal, es[i], user, month) && EndsMonth(cal, es[j], month)
  }

  /** The month's counters are deleted between two readings of the user in that month. */
  ghost predicate MonthSplit(cal: Calendar, es: seq<Event>, user: nat, month: int) {
    exists i, j, k :: 0 <= i < j < k < |es| && ReadsInMonth(cal, es[i], user, month) &&
                      EndsMonth(cal, es[j], month) && ReadsInMonth(cal, es[k], user, month)
  }

  ghost predicate DayCut(cal: Calendar, es: seq<Event>, user: nat, day: int) {
    exists i, j :: 0 <= i < j < |es| && ReadsOnDay(cal, es[i], user, day) && EndsDay(cal, es[j], day)
  }

  /** The day's choices are deleted between two readings of the user on that day. */
  ghost predicate DaySplit(cal: Calendar, es: seq<Event>, user: nat, day: int) {
    exists i, j, k :: 0 <= i < j < k < |es| && ReadsOnDay(cal, es[i], user, day) &&
                      EndsDay(cal, es[j], day) && ReadsOnDay(cal, es[k], user, day)
  }

  lemma {:induction false} NoReadingNoCount(cal: Calendar, es: seq<Event>, user: nat, month: int)
    requires forall i :: 0 <= i < |es| ==> !ReadsInMonth(cal, es[i], user, month)
    ensures MeteredCount(Run(cal, es).paid, cal, user, month) == 0
  {
    if es != [] {
      var front, e := es[..|es| - 1], es[|es| - 1];
      assert forall i :: 0 <= i < |front| ==> front[i] == es[i];
      NoReadingNoCount(cal, front, user, month);
      PaidMore(Run(cal, front), cal, e, user, month);
    }
  }

  /** How one event changes the count and the largest limit. */
  lemma PaidMore(w: World, cal: Calendar, e: Event, user: nat, month: int)
    ensures var paid := Step(w, cal, e).paid;
            if Payments(w.tables, cal, e) != [] && MeteredIn(PaymentFor(e), cal, user, month)
            then
              && MeteredCount(paid, cal, user, month) == MeteredCount(w.paid, cal, user, month) + 1
              && LargestLimit(paid, cal, user, month) ==
                 Max(LargestLimit(w.paid, cal, user, month), e.access.monthlyReadLimit)
            else
              && MeteredCount(paid, cal, user, month) == MeteredCount(w.paid, cal, user, month)
              && LargestLimit(paid, cal, user, month) == LargestLimit(w.paid, cal, user, month)
  {
    var paid := Step(w, cal, e).paid;
    if Payments(w.tables, cal, e) == [] {
      assert paid == w.paid;
    } else {
      assert paid[..|paid| - 1] == w.paid;
    }
  }

  /** How one event changes the counter of a month. */
  lemma CounterAfter(w: World, cal: Calendar, e: Event, user: nat, month: int)
    ensures Used(Step(w, cal, e).tables, user, month) ==
            if EndsMonth(cal, e, month) then 0
            else Used(w.tables, user, month) +
                 if Payments(w.tables, cal, e) != [] && MeteredIn(PaymentFor(e), cal, user, month) then 1 else 0
    ensures Payments(w.tables, cal, e) != [] && MeteredIn(PaymentFor(e), cal, user, month) ==>
              ReadsInMonth(cal, e, user, month) && Used(w.tables, user, month) < e.access.monthlyReadLimit
  {
  }

  /** Unless the month's counters are deleted between two of the user's readings in it, the metered
      openings stay within the largest limit; unless they are deleted after one, the counter
      is the number of metered openings. */
  lemma {:induction false} QuotasHold(cal: Calendar, es: seq<Event>, user: nat, month: int)
    requires !MonthSplit(cal, es, user, month)
    ensures LimitKept(cal, es, user, month)
    ensures !MonthCut(cal, es, user, month) ==>
              Used(Run(cal, es).tables, user, month) == MeteredCount(Run(cal, es).paid, cal, user, month)
  {
    if es != [] {
      var front, e := es[..|es| - 1], es[|es| - 1];
      var cut := FrontUnsplit(cal, es, user, month);
      QuotasHold(cal, front, user, month);
      PaidMore(Run(cal, front), cal, e, user, month);
      CounterAfter(Run(cal, front), cal, e, user, month);
    }
  }

  lemma SplitIsCut(cal: Calendar, es: seq<Event>, user: nat, month: int)
    requires MonthSplit(cal, es, user, month)
    ensures MonthCut(cal, es, user, month)
  {
    var i: nat, j: nat, k: nat :| i < j < k < |es| && ReadsInMonth(cal, es[i], user, month) &&
                                  EndsMonth(cal, es[j], month) && ReadsInMonth(cal, es[k], user, month);
    assert ReadsInMonth(cal, es[i], user, month) && EndsMonth(cal, es[j], month);
  }

  /** Taking the last event off. */
  lemma FrontUnsplit(cal: Calendar, es: seq<Event>, user: nat, month: int) returns (cut: bool)
    requires es != [] && !MonthSplit(cal, es, user, month)
    ensures var front, e := es[..|es| - 1], es[|es| - 1];
            && !MonthSplit(cal, front, user, month)
            && cut == MonthCut(cal, front, user, month)
            && (cut ==> MonthCut(cal, es, user, month) && !ReadsInMonth(cal, e, user, month))
            && (EndsMonth(cal, e, month) && !MonthCut(cal, es, user, month) ==>
                  MeteredCount(Run(cal, front).paid, cal, user, month) == 0)
  {
    var front, e := es[..|es| - 1], es[|es| - 1];
    assert forall i :: 0 <= i < |front| ==> front[i] == es[i];
    cut := MonthCut(cal, front, user, month);
    if EndsMonth(cal, e, month) && !MonthCut(cal, es, user, month) {
      NoReadingNoCount(cal, front, user, month);
    }
  }

  lemma {:induction false} NoReadingNoChoice(cal: Calendar, es: seq<Event>, user: nat, day: int)
    requires forall i :: 0 <= i < |es| ==> !ReadsOnDay(cal, es[i], user, day)
    ensures forall p :: p in Run(cal, es).paid ==> !FreeOn(p, cal, user, day)
  {
    if es != [] {
      var front := es[..|es| - 1];
      assert forall i :: 0 <= i < |front| ==> front[i] == es[i];
      NoReadingNoChoice(cal, front, user, day);
    }
  }

  /** The row of a free opening is there and names its article. */
  predicate Recorded(t: Tables, cal: Calendar, p: Payment)
    requires p.Free?
  {
    var key := (p.user, p.category, cal.date(p.at));
    key in t.chosen && t.chosen[key] == p.article
  }

  /** Unless the day's choices are deleted between two of the user's readings on it, the free
      openings of a category are of one article; unless they are deleted after one, each is
      recorded. */
  lemma {:induction false} ChoicesHold(cal: Calendar, es: seq<Event>, user: nat, day: int)
    requires !DaySplit(cal, es, user, day)
    ensures ChoiceKept(cal, es, user, day)
    ensures !DayCut(cal, es, user, day) ==>
              forall p :: p in Run(cal, es).paid && FreeOn(p, cal, user, day) ==> Recorded(Run(cal, es).tables, cal, p)
  {
    if es != [] {
      var front, e := es[..|es| - 1], es[|es| - 1];
      var cut := FrontUnsplitDay(cal, es, user, day);
      ChoicesHold(cal, front, user, day);
    }
  }

  lemma FrontUnsplitDay(cal: Calendar, es: seq<Event>, user: nat, day: int) returns (cut: bool)
    requires es != [] && !DaySplit(cal, es, user, day)
    ensures var front, e := es[..|es| - 1], es[|es| - 1];
            && !DaySplit(cal, front, user, day)
            && cut == DayCut(cal, front, user, day)
            && (cut ==> DayCut(cal, es, user, day) && !ReadsOnDay(cal, e, user, day))
            && (EndsDay(cal, e, day) && !DayCut(cal, es, user, day) ==>
                  forall p :: p in Run(cal, front).paid ==> !FreeOn(p, cal, user, day))
  {
    var front, e := es[..|es| - 1], es[|es| - 1];
    assert forall i :: 0 <= i < |front| ==> front[i] == es[i];
    cut := DayCut(cal, front, user, day);
    if EndsDay(cal, e, day) && !DayCut(cal, es, user, day) { NoReadingNoChoice(cal, front, user, day); }
  }

  // ---------- the conditions are exact ----------

  /** The same events at the same instants, whatever is read and under whatever plan. */
  predicate SameShape(e: Event, f: Event) {
    if e.Reading? then f.Reading? && f.user == e.user && f.now == e.now else f == e
  }

  ghost predicate SameTiming(es: seq<Event>, fs: seq<Event>) {
    |fs| == |es| && forall k :: 0 <= k < |es| ==> SameShape(es[k], fs[k])
  }

  /** Readings number i and k open two articles under one plan; everyone else reads without limit. */
  function Filled(es: seq<Event>, i: nat, k: nat, access: Access): (fs: seq<Event>)
    ensures |fs| == |es|
  {
    seq(|es|, n requires 0 <= n < |es| =>
      if !es[n].Reading? then es[n]
      else if n == i then Reading(es[n].user, 0, "", access, es[n].now)
      else if n == k then Reading(es[n].user, 1, "", access, es[n].now)
      else Reading(es[n].user, 0, "", Access(true, 0), es[n].now))
  }

  /** Two readings of one user and the plan for both. */
  ghost predicate Pair(es: seq<Event>, i: nat, k: nat, access: Access) {
    && i < k < |es| && es[i].Reading? && es[k].Reading? && es[i].user == es[k].user
    && !access.unlimitedReading && access.monthlyReadLimit <= 1
  }

  function Prefix(cal: Calendar, es: seq<Event>, i: nat, k: nat, access: Access, n: nat): World
    requires n <= |es|
  {
    Run(cal, Filled(es, i, k, access)[..n])
  }

  lemma PrefixStep(cal: Calendar, es: seq<Event>, i: nat, k: nat, access: Access, n: nat)
    requires n < |es|
    ensures Prefix(cal, es, i, k, access, n + 1) ==
            Step(Prefix(cal, es, i, k, access, n), cal, Filled(es, i, k, access)[n])
  {
    var fs := Filled(es, i, k, access);
    assert fs[..n + 1][..n] == fs[..n];
  }

  lemma FilledSameTiming(es: seq<Event>, i: nat, k: nat, access: Access)
    ensures SameTiming(es, Filled(es, i, k, access))
  {
  }

  /** An event that pays nothing adds no row of the three tables. */
  predicate Fewer(t: Tables, s: Tables) {
    t.grants.Keys <= s.grants.Keys && t.monthly.Keys <= s.monthly.Keys && t.chosen.Keys <= s.chosen.Keys
  }

  lemma NothingPaid(w: World, cal: Calendar, e: Event)
    requires e.Reading? ==> e.access.unlimitedReading
    ensures Step(w, cal, e).paid == w.paid && Fewer(Step(w, cal, e).tables, w.tables)
  {
  }

  /** Until the second reading nothing but the first one is paid for. */
  lemma {:induction false} OnePaid(cal: Calendar, es: seq<Event>, i: nat, k: nat, access: Access, n: nat)
    requires Pair(es, i, k, access) && n <= k
    ensures var w := Prefix(cal, es, i, k, access, n);
            && (n <= i ==> w.paid == [] && Fewer(w.tables, EMPTY))
            && (n > i ==>
                  w.paid == [PaymentFor(Filled(es, i, k, access)[i])] && w.tables.grants.Keys <= {(es[i].user, 0)})
  {
    if n > 0 {
      OnePaid(cal, es, i, k, access, n - 1);
      PrefixStep(cal, es, i, k, access, n - 1);
      if n - 1 != i {
        NothingPaid(Prefix(cal, es, i, k, access, n - 1), cal, Filled(es, i, k, access)[n - 1]);
      }
    }
  }

  /** After its deletion the month's counter stays away. */
  lemma {:induction false} CounterStaysAway(cal: Calendar, es: seq<Event>, i: nat, j: nat, k: nat, access: Access,
                                            user: nat, month: int, n: nat)
    requires Pair(es, i, k, access) && i < j < n <= k && EndsMonth(cal, es[j], month)
    ensures (user, month) !in Prefix(cal, es, i, k, access, n).tables.monthly
  {
    PrefixStep(cal, es, i, k, access, n - 1);
    if n > j + 1 {
      CounterStaysAway(cal, es, i, j, k, access, user, month, n - 1);
      NothingPaid(Prefix(cal, es, i, k, access, n - 1), cal, Filled(es, i, k, access)[n - 1]);
    }
  }

  lemma {:induction false} ChoiceStaysAway(cal: Calendar, es: seq<Event>, i: nat, j: nat, k: nat, access: Access,
                                           key: (nat, string, int), n: nat)
    requires Pair(es, i, k, access) && i < j < n <= k && EndsDay(cal, es[j], key.2)
    ensures key !in Prefix(cal, es, i, k, access, n).tables.chosen
  {
    PrefixStep(cal, es, i, k, access, n - 1);
    if n > j + 1 {
      ChoiceStaysAway(cal, es, i, j, k, access, key, n - 1);
      NothingPaid(Prefix(cal, es, i, k, access, n - 1), cal, Filled(es, i, k, access)[n - 1]);
    }
  }

  /** Once both are paid for, that is all there is. */
  lemma {:induction false} TwoPaid(cal: Calendar, es: seq<Event>, i: nat, k: nat, access: Access, n: nat)
    requires Pair(es, i, k, access) && k < n <= |es|
    requires QuotaAllows(Prefix(cal, es, i, k, access, k).tables, cal, es[k].user, 1, "", access, es[k].now)
    ensures var fs := Filled(es, i, k, access);
            Prefix(cal, es, i, k, access, n).paid == [PaymentFor(fs[i]), PaymentFor(fs[k])]
  {
    PrefixStep(cal, es, i, k, access, n - 1);
    if n > k + 1 {
      TwoPaid(cal, es, i, k, access, n - 1);
      NothingPaid(Prefix(cal, es, i, k, access, n - 1), cal, Filled(es, i, k, access)[n - 1]);
    } else {
      OnePaid(cal, es, i, k, access, k);
      var before := Prefix(cal, es, i, k, access, k);
      assert !LiveGrant(before.tables, es[k].user, 1, es[k].now);
      assert Payments(before.tables, cal, Filled(es, i, k, access)[k]) == [PaymentFor(Filled(es, i, k, access)[k])];
    }
  }

  /** Two openings under a limit of one. */
  lemma TwoForOne(cal: Calendar, es: seq<Event>, i: nat, j: nat, k: nat, user: nat, month: int)
    requires i < j < k < |es| && ReadsInMonth(cal, es[i], user, month)
    requires EndsMonth(cal, es[j], month) && ReadsInMonth(cal, es[k], user, month)
    ensures var paid := Run(cal, Filled(es, i, k, Access(false, 1))).paid;
            MeteredCount(paid, cal, user, month) == 2 && LargestLimit(paid, cal, user, month) == 1
  {
    var access := Access(false, 1);
    var fs := Filled(es, i, k, access);
    CounterStaysAway(cal, es, i, j, k, access, user, month, k);
    TwoPaid(cal, es, i, k, access, |es|);
    assert fs[..|es|] == fs;
    var paid := [PaymentFor(fs[i]), PaymentFor(fs[k])];
    assert paid[..1] == [PaymentFor(fs[i])] && paid[..1][..0] == [];
    assert MeteredCount(paid[..1], cal, user, month) == 1 && LargestLimit(paid[..1], cal, user, month) == 1;
  }

  lemma SplitMonthFails(cal: Calendar, es: seq<Event>, user: nat, month: int) returns (fs: seq<Event>)
    requires MonthSplit(cal, es, user, month)
    ensures SameTiming(es, fs) && !LimitKept(cal, fs, user, month)
  {
    var i: nat, j: nat, k: nat :| i < j < k < |es| && ReadsInMonth(cal, es[i], user, month) &&
                                  EndsMonth(cal, es[j], month) && ReadsInMonth(cal, es[k], user, month);
    fs := Filled(es, i, k, Access(false, 1));
    FilledSameTiming(es, i, k, Access(false, 1));
    TwoForOne(cal, es, i, j, k, user, month);
  }

  /** Two articles of one category on one day. */
  lemma TwoArticles(cal: Calendar, es: seq<Event>, i: nat, j: nat, k: nat, user: nat, day: int)
    requires i < j < k < |es| && ReadsOnDay(cal, es[i], user, day)
    requires EndsDay(cal, es[j], day) && ReadsOnDay(cal, es[k], user, day)
    ensures !ChoiceKept(cal, Filled(es, i, k, Access(false, 0)), user, day)
  {
    var access := Access(false, 0);
    var fs := Filled(es, i, k, access);
    ChoiceStaysAway(cal, es, i, j, k, access, (user, CanonicalCategory(""), day), k);
    TwoPaid(cal, es, i, k, access, |es|);
    assert fs[..|es|] == fs;
    var first, second := PaymentFor(fs[i]), PaymentFor(fs[k]);
    assert Run(cal, fs).paid == [first, second] && first.article != second.article;
    assert FreeOn(first, cal, user, day) && FreeOn(second, cal, user, day);
  }

  lemma SplitDayFails(cal: Calendar, es: seq<Event>, user: nat, day: int) returns (fs: seq<Event>)
    requires DaySplit(cal, es, user, day)
    ensures SameTiming(es, fs) && !ChoiceKept(cal, fs, user, day)
  {
    var i: nat, j: nat, k: nat :| i < j < k < |es| && ReadsOnDay(cal, es[i], user, day) &&
                                  EndsDay(cal, es[j], day) && ReadsOnDay(cal, es[k], user, day);
    fs := Filled(es, i, k, Access(false, 0));
    FilledSameTiming(es, i, k, Access(false, 0));
    TwoArticles(cal, es, i, j, k, user, day);
  }

  /** Given who reads and when, and when the cleanup runs: the monthly quota is kept, whatever is
      read and under whatever plans, exactly when the month's counters are not deleted
      between two readings of the user in that month. */
  lemma MonthlyLimitIff(cal: Calendar, es: seq<Event>, user: nat, month: int)
    ensures (forall fs :: SameTiming(es, fs) ==> LimitKept(cal, fs, user, month)) <==> !MonthSplit(cal, es, user, month)
  {
    if MonthSplit(cal, es, user, month) {
      var fs := SplitMonthFails(cal, es, user, month);
    } else {
      forall fs | SameTiming(es, fs)
        ensures LimitKept(cal, fs, user, month)
      {
        QuotasHold(cal, fs, user, month);
      }
    }
  }

  /** The same for the one free article of a category and date. */
  lemma DailyChoiceIff(cal: Calendar, es: seq<Event>, user: nat, day: int)
    ensures (forall fs :: SameTiming(es, fs) ==> ChoiceKept(cal, fs, user, day)) <==> !DaySplit(cal, es, user, day)
  {
    if DaySplit(cal, es, user, day) {
      var fs := SplitDayFails(cal, es, user, day);
    } else {
      forall fs | SameTiming(es, fs)
        ensures ChoiceKept(cal, fs, user, day)
      {
        ChoicesHold(cal, fs, user, day);
      }
    }
  }

  /** The second reading was begun in the month that the cleanup has ended, as a transaction that
      waits for its lock over the turn of the month is: a limit of one lets two through. */
  lemma MonthTurnRace(cal: Calendar, c: Time)
    requires cal.MonthOf(c - 1) < cal.MonthOf(c)
    ensures var plan := Access(false, 1);
            var es := [Reading(0, 0, "", plan, c - 1), CleaningMonthly(c), Reading(0, 1, "", plan, c - 1)];
            var month := cal.MonthOf(c - 1);
            && MonthSplit(cal, es, 0, month)
            && MeteredCount(Run(cal, es).paid, cal, 0, month) == 2
            && LargestLimit(Run(cal, es).paid, cal, 0, month) == 1
  {
    var plan, month := Access(false, 1), cal.MonthOf(c - 1);
    var es := [Reading(0, 0, "", plan, c - 1), CleaningMonthly(c), Reading(0, 1, "", plan, c - 1)];
    assert ReadsInMonth(cal, es[0], 0, month) && EndsMonth(cal, es[1], month) && ReadsInMonth(cal, es[2], 0, month);
    TwoForOne(cal, es, 0, 1, 2, 0, month);
    assert Filled(es, 0, 2, plan) == es;
  }

  // ---------- runs in order ----------

  lemma {:induction false} AboveLater(cal: Calendar, f: Floors, es: seq<Event>, k: nat)
    requires InOrder(cal, f, es) && k < |es|
    ensures Above(cal, f, es[k])
    decreases |es|
  {
    if k > 0 { AboveLater(cal, Raised(cal, f, es[0]), es[1..], k - 1); }
  }

  lemma {:induction false} AboveCleanup(cal: Calendar, f: Floors, es: seq<Event>, j: nat, k: nat)
    requires InOrder(cal, f, es) && j < k < |es| && es[k].Reading?
    ensures es[j].CleaningMonthly? ==> cal.MonthOf(es[k].now) >= cal.MonthOf(es[j].now)
    ensures es[j].CleaningChosen? ==> cal.date(es[k].now) >= cal.date(es[j].now) - 6
    decreases |es|
  {
    var g := Raised(cal, f, es[0]);
    if j == 0 { AboveLater(cal, g, es[1..], k - 1); } else { AboveCleanup(cal, g, es[1..], j - 1, k - 1); }
  }

  /** When no reading is dated before what an earlier cleanup deleted, both quotas hold for every
      user, month and day. Calls and cleanups may otherwise come in any order of time. */
  lemma InOrderKeepsQuotas(cal: Calendar, f: Floors, es: seq<Event>, user: nat, at: int)
    requires InOrder(cal, f, es)
    ensures LimitKept(cal, es, user, at) && ChoiceKept(cal, es, user, at)
    ensures !MonthCut(cal, es, user, at) ==>
              Used(Run(cal, es).tables, user, at) == MeteredCount(Run(cal, es).paid, cal, user, at)
  {
    forall j, k | 0 <= j < k < |es| && es[k].Reading?
      ensures EndsMonth(cal, es[j], at) ==> cal.MonthOf(es[k].now) > at
      ensures EndsDay(cal, es[j], at) ==> cal.date(es[k].now) > at
    {
      AboveCleanup(cal, f, es, j, k);
    }
    QuotasHold(cal, es, user, at);
    ChoicesHold(cal, es, user, at);
  }

  lemma {:induction false} TimelyBounds(cal: Calendar, clock: Time, es: seq<Event>, k: nat)
    requires Timely(clock, es) && k < |es|
    ensures clock <= es[k].now <= es[|es| - 1].now
    decreases |es|
  {
    if k > 0 {
      TimelyBounds(cal, es[0].now, es[1..], k - 1);
    } else if |es| > 1 {
      TimelyBounds(cal, es[0].now, es[1..], |es| - 2);
    }
  }

  /** In a run in time order the counter of the month of its last event, too, is the number of
      metered openings of that month. */
  lemma TimelyKeepsQuotas(cal: Calendar, clock: Time, es: seq<Event>, user: nat, at: int)
    requires cal.Valid() && Timely(clock, es) && es != []
    ensures LimitKept(cal, es, user, at) && ChoiceKept(cal, es, user, at)
    ensures var month := cal.MonthOf(es[|es| - 1].now);
            Used(Run(cal, es).tables, user, month) == MeteredCount(Run(cal, es).paid, cal, user, month)
  {
    TimelyIsInOrder(cal, FloorsAt(cal, clock), clock, es);
    InOrderKeepsQuotas(cal, FloorsAt(cal, clock), es, user, at);
    var month := cal.MonthOf(es[|es| - 1].now);
    forall j | 0 <= j < |es|
      ensures !EndsMonth(cal, es[j], month)
    {
      TimelyBounds(cal, clock, es, j);
      assert cal.date(es[j].now) <= cal.date(es[|es| - 1].now);
    }
    InOrderKeepsQuotas(cal, FloorsAt(cal, clock), es, user, month);
  }

  // ---------- access was paid for ----------

  /** The payment behind a grant, made by a reading of that user and article. */
  ghost predicate PaidFor(paid: seq<Payment>, es: seq<Event>, user: nat, article: nat, g: Grant) {
    exists p :: p in paid && p.user == user && p.article == article && g == Grant(p.at, p.at + RETENTION_DAYS * DAY) &&
                exists e :: e in es && e.Reading? && e.user == user && e.article == article && e.now == p.at
  }

  lemma {:induction false} GrantsWerePaid(cal: Calendar, es: seq<Event>, user: nat, article: nat)
    requires (user, article) in Run(cal, es).tables.grants
    ensures PaidFor(Run(cal, es).paid, es, user, article, Run(cal, es).tables.grants[(user, article)])
  {
    var front, e := es[..|es| - 1], es[|es| - 1];
    var w, x := Run(cal, front), Run(cal, es);
    var key := (user, article);
    assert forall d :: d in front ==> d in es;
    assert e in es;
    if key in w.tables.grants && x.tables.grants[key] == w.tables.grants[key] {
      GrantsWerePaid(cal, front, user, article);
      var p :| p in w.paid && p.user == user && p.article == article &&
               w.tables.grants[key] == Grant(p.at, p.at + RETENTION_DAYS * DAY) &&
               exists d :: d in front && d.Reading? && d.user == user && d.article == article && d.now == p.at;
      assert p in x.paid;
    } else {
      assert PaymentFor(e) in x.paid;
    }
  }

  /** No access without payment, in any order of events: whoever is let in without unlimited reading
      has an expiry ahead, seven days after an opening of that article which that user paid for;
      and it is at most seven days ahead unless an earlier reading of theirs was dated later. */
  lemma AccessWasPaid(cal: Calendar, es: seq<Event>, user: nat, article: nat, category: string, access: Access,
                      now: Time)
    requires !access.unlimitedReading
    ensures var opening := Reading(user, article, category, access, now);
            var answer := Apply(Run(cal, es).tables, cal, opening).1;
            answer.Allowed? ==>
              && answer.expiresAt.Some? && now < answer.expiresAt.value
              && (exists p :: p in Run(cal, es + [opening]).paid && p.user == user && p.article == article &&
                              p.at + RETENTION_DAYS * DAY == answer.expiresAt.value)
              && ((forall e :: e in es && e.Reading? && e.user == user && e.article == article ==> e.now <= now) ==>
                    answer.expiresAt.value <= now + RETENTION_DAYS * DAY)
  {
    var w := Run(cal, es);
    var opening := Reading(user, article, category, access, now);
    assert (es + [opening])[..|es|] == es;
    if LiveGrant(w.tables, user, article, now) {
      GrantsWerePaid(cal, es, user, article);
      assert Run(cal, es + [opening]).paid == w.paid;
    } else if Payments(w.tables, cal, opening) != [] {
      assert PaymentFor(opening) in Run(cal, es + [opening]).paid;
    }
  }

  // ---------- who is refused, and who reopens ----------

  ghost predicate PaidChoice(paid: seq<Payment>, cal: Calendar, key: (nat, string, int), article: nat) {
    exists p :: p in paid && FreeOn(p, cal, key.0, key.2) && p.category == key.1 && p.article == article
  }

  /** Every choice in the table goes back to a free opening. */
  lemma {:induction false} ChosenWasPaid(cal: Calendar, es: seq<Event>, key: (nat, string, int))
    requires key in Run(cal, es).tables.chosen
    ensures PaidChoice(Run(cal, es).paid, cal, key, Run(cal, es).tables.chosen[key])
  {
    if es != [] {
      var w, e := Run(cal, es[..|es| - 1]), es[|es| - 1];
      if key in w.tables.chosen && w.tables.chosen[key] == Run(cal, es).tables.chosen[key] {
        ChosenWasPaid(cal, es[..|es| - 1], key);
      }
    }
  }

  /** A metered user without a live grant is refused exactly when the month's metered openings have used
      up the limit, unless a cleanup deleted the month's counters. */
  lemma MeteredRefusedIff(cal: Calendar, es: seq<Event>, user: nat, article: nat, category: string, access: Access,
                          now: Time)
    requires !access.unlimitedReading && access.monthlyReadLimit > 0
    requires !MonthCut(cal, es, user, cal.MonthOf(now))
    ensures var w := Run(cal, es);
            Apply(w.tables, cal, Reading(user, article, category, access, now)).1 == Refused <==>
            && !LiveGrant(w.tables, user, article, now)
            && MeteredCount(w.paid, cal, user, cal.MonthOf(now)) >= access.monthlyReadLimit
  {
    var month := cal.MonthOf(now);
    if MonthSplit(cal, es, user, month) { SplitIsCut(cal, es, user, month); }
    QuotasHold(cal, es, user, month);
  }

  /** A free user without a live grant is refused exactly when another article of the category was opened
      free that day, unless a cleanup deleted the day's choices. */
  lemma FreeRefusedIff(cal: Calendar, es: seq<Event>, user: nat, article: nat, category: string, access: Access,
                       now: Time)
    requires !access.unlimitedReading && access.monthlyReadLimit <= 0
    requires !DayCut(cal, es, user, cal.date(now)) && !DaySplit(cal, es, user, cal.date(now))
    ensures var w := Run(cal, es);
            Apply(w.tables, cal, Reading(user, article, category, access, now)).1 == Refused <==>
            && !LiveGrant(w.tables, user, article, now)
            && exists p :: p in w.paid && FreeOn(p, cal, user, cal.date(now)) &&
                           p.category == CanonicalCategory(category) && p.article != article
  {
    var w, day := Run(cal, es), cal.date(now);
    var key := (user, CanonicalCategory(category), day);
    ChoicesHold(cal, es, user, day);
    if key in w.tables.chosen {
      ChosenWasPaid(cal, es, key);
      assert PaidChoice(w.paid, cal, key, w.tables.chosen[key]);
    }
    if p :| p in w.paid && FreeOn(p, cal, user, day) && p.category == key.1 && p.article != article {
      assert Recorded(w.tables, cal, p);
    }
  }

  ghost predicate GrantedUntil(t: Tables, user: nat, article: nat, until: Time) {
    (user, article) in t.grants && t.grants[(user, article)].expiresAt >= until
  }

  lemma {:induction false} GrantOutlasts(cal: Calendar, es: seq<Event>, more: seq<Event>, user: nat, article: nat,
                                         until: Time)
    requires GrantedUntil(Run(cal, es).tables, user, article, until)
    requires forall i :: 0 <= i < |more| && more[i].CleaningGrants? ==> more[i].now < until
    ensures GrantedUntil(Run(cal, es + more).tables, user, article, until)
    decreases |more|
  {
    if more == [] {
      assert es + more == es;
    } else {
      var front, e := more[..|more| - 1], more[|more| - 1];
      GrantOutlasts(cal, es, front, user, article, until);
      assert (es + more)[..|es + more| - 1] == es + front;
    }
  }

  /** What was paid for stays open for seven days: for that user, whatever the category and the plan by
      then, and whatever other calls and timely cleanups come between, every reading of the article
      within seven days of the payment is allowed and costs nothing. */
  lemma PaidStaysOpen(cal: Calendar, es: seq<Event>, first: Event, more: seq<Event>, again: Event)
    requires first.Reading? && again.Reading? && Payments(Run(cal, es).tables, cal, first) != []
    requires again.user == first.user && again.article == first.article
    requires again.now < first.now + 7 * 24 * 60 * 60 * 1_000_000
    requires forall i :: 0 <= i < |more| && more[i].CleaningGrants? ==>
               more[i].now < first.now + 7 * 24 * 60 * 60 * 1_000_000
    ensures var w := Run(cal, es + [first] + more);
            && Apply(w.tables, cal, again).1.Allowed? && Step(w, cal, again) == w
  {
    var until := first.now + 7 * 24 * 60 * 60 * 1_000_000;
    assert (es + [first])[..|es|] == es;
    GrantOutlasts(cal, es + [first], more, first.user, first.article, until);
  }
}
