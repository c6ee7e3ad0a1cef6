/** Reading entitlements and their cleanup (backend/handlers/entitlements.go,
    backend/services/read_tracking.go).

    recordArticleRead holds a per-user lock from its first query to its commit, so a
    call is one step; the cleanup worker's four DELETE statements are separate steps. */
module ReadEntitlements {
  import opened Common
  import opened Text
  import Usage = UsageReservation

  type Time = int

  const RETENTION_DAYS := 7
  const DAY: int := 24 * 60 * 60 * 1_000_000

  /** CURRENT_DATE of an instant, and the month a date falls in. */
  datatype Calendar = Calendar(date: Time -> int, month: int -> int)
  {
    ghost predicate Valid() {
      && (forall s, t: Time :: s <= t ==> date(s) <= date(t))
      && (forall d, e: int :: d <= e ==> month(d) <= month(e))
    }

    function MonthOf(t: Time): int { month(date(t)) }
  }

  datatype Access = Access(unlimitedReading: bool, monthlyReadLimit: int)

  datatype Grant = Grant(grantedAt: Time, expiresAt: Time)

  /** user_article_access_grants, user_category_daily_reads, user_monthly_read_usage
      and the daily usage rows. */
  datatype Tables = Tables(grants: map<(nat, nat), Grant>, chosen: map<(nat, string, int), nat>,
                           monthly: map<(nat, int), nat>, usage: set<Usage.Row>)

  datatype Answer = Allowed(expiresAt: Option<Time>) | Refused | UsageAnswer(answer: Usage.Answer)

  function CanonicalCategory(category: string): string {
    var c := Lower(Trim(category));
    if c == "" then "general" else c
  }

  // ---------- one call ----------

  predicate LiveGrant(t: Tables, user: nat, article: nat, now: Time) {
    (user, article) in t.grants && t.grants[(user, article)].expiresAt > now
  }

  function Used(t: Tables, user: nat, month: int): nat {
    if (user, month) in t.monthly then t.monthly[(user, month)] else 0
  }

  /** Whether the quota lets this user open this article for the first time. */
  predicate QuotaAllows(t: Tables, cal: Calendar, user: nat, article: nat, category: string, access: Access,
                        now: Time)
  {
    if access.monthlyReadLimit > 0 then Used(t, user, cal.MonthOf(now)) < access.monthlyReadLimit
    else
      var key := (user, CanonicalCategory(category), cal.date(now));
      key in t.chosen ==> t.chosen[key] == article
  }

  function Charge(t: Tables, cal: Calendar, user: nat, article: nat, category: string, access: Access,
                  now: Time): Tables
  {
    if access.monthlyReadLimit > 0
    then t.(monthly := t.monthly[(user, cal.MonthOf(now)) := Used(t, user, cal.MonthOf(now)) + 1])
    else t.(chosen := t.chosen[(user, CanonicalCategory(category), cal.date(now)) := article])
  }

  function Read(t: Tables, cal: Calendar, user: nat, article: nat, category: string, access: Access, now: Time)
    : (Tables, Answer)
  {
    if access.unlimitedReading then (t, Allowed(None))
    else if LiveGrant(t, user, article, now) then (t, Allowed(Some(t.grants[(user, article)].expiresAt)))
    else if !QuotaAllows(t, cal, user, article, category, access, now) then (t, Refused)
    else
      var c := Charge(t, cal, user, article, category, access, now);
      var until := now + RETENTION_DAYS * DAY;
      (c.(grants := c.grants[(user, article) := Grant(now, until)]), Allowed(Some(until)))
  }

  // ---------- cleanup statements ----------

  function LiveGrants(grants: map<(nat, nat), Grant>, now: Time): map<(nat, nat), Grant> {
    map k | k in grants && !(grants[k].expiresAt <= now) :: grants[k]
  }

  function RecentChoices(chosen: map<(nat, string, int), nat>, today: int): map<(nat, string, int), nat> {
    map k | k in chosen && !(k.2 < today - 6) :: chosen[k]
  }

  function CurrentMonths(monthly: map<(nat, int), nat>, month: int): map<(nat, int), nat> {
    map k | k in monthly && !(k.1 < month) :: monthly[k]
  }

  // ---------- runs ----------

  datatype Event =
    | Reading(user: nat, article: nat, category: string, access: Access, now: Time)
    | Reserving(kind: Usage.Kind, user: nat, resource: nat, now: Time)
    | CleaningGrants(now: Time)
    | CleaningChosen(now: Time)
    | CleaningMonthly(now: Time)
    | CleaningUsage(now: Time)

  predicate IsCall(e: Event) { e.Reading? || e.Reserving? }

  function Apply(t: Tables, cal: Calendar, e: Event): (Tables, Answer) {
    match e
    case Reading(u, a, c, access, now) => Read(t, cal, u, a, c, access, now)
    case Reserving(k, u, r, now) =>
      var (rows, answer) := Usage.Reserve(t.usage, Usage.Row(k, u, r, cal.date(now)));
      (t.(usage := rows), UsageAnswer(answer))
    case CleaningGrants(now) => (t.(grants := LiveGrants(t.grants, now)), Refused)
    case CleaningChosen(now) => (t.(chosen := RecentChoices(t.chosen, cal.date(now))), Refused)
    case CleaningMonthly(now) => (t.(monthly := CurrentMonths(t.monthly, cal.MonthOf(now))), Refused)
    case CleaningUsage(now) => (t.(usage := Usage.Cleaned(t.usage, cal.date(now))), Refused)
  }

  /** The answers to the calls of a run, in order. */
  function Answers(t: Tables, cal: Calendar, es: seq<Event>): seq<Answer>
    decreases |es|
  {
    if es == [] then []
    else
      var (t1, answer) := Apply(t, cal, es[0]);
      (if IsCall(es[0]) then [answer] else []) + Answers(t1, cal, es[1..])
  }

  /** The tables after a run. */
  function After(t: Tables, cal: Calendar, es: seq<Event>): Tables
    decreases |es|
  {
    if es == [] then t else After(Apply(t, cal, es[0]).0, cal, es[1..])
  }

  function CallsOnly(es: seq<Event>): seq<Event> {
    if es == [] then [] else (if IsCall(es[0]) then [es[0]] else []) + CallsOnly(es[1..])
  }

  // ---------- categories and rows left ----------

  predicate AllSpace(s: string) { forall i :: 0 <= i < |s| ==> IsSpace(s[i]) }

  lemma {:induction false} TrimLeftSkips(blanks: string, rest: string)
    requires AllSpace(blanks)
    ensures TrimLeft(blanks + rest) == TrimLeft(rest)
  {
    if blanks == "" {
      assert blanks + rest == rest;
    } else {
      assert (blanks + rest)[1..] == blanks[1..] + rest;
      TrimLeftSkips(blanks[1..], rest);
    }
  }

  lemma {:induction false} TrimRightSkips(rest: string, blanks: string)
    requires AllSpace(blanks)
    ensures TrimRight(rest + blanks) == TrimRight(rest)
  {
    if blanks == "" {
      assert rest + blanks == rest;
    } else {
      assert (rest + blanks)[..|rest + blanks| - 1] == rest + blanks[..|blanks| - 1];
      TrimRightSkips(rest, blanks[..|blanks| - 1]);
    }
  }

  /** The category of a quota is the category's text without surrounding white space and with its ASCII
      letters in lower case, and "general" when there is no text. */
  lemma CanonicalIs(before: string, core: string, after: string)
    requires AllSpace(before) && AllSpace(after)
    requires core != "" ==> !IsSpace(core[0]) && !IsSpace(core[|core| - 1])
    ensures var c := CanonicalCategory(before + core + after);
            if core == "" then c == "general"
            else |c| == |core| && forall i :: 0 <= i < |core| ==>
                   c[i] == if 'A' <= core[i] <= 'Z' then (core[i] as int + 32) as char else core[i]
  {
    assert before + core + after == before + (core + after);
    TrimLeftSkips(before, core + after);
    if core == "" {
      TrimLeftSkips(after, "");
      assert core + after == after && after + "" == after;
    } else {
      assert TrimLeft(core + after) == core + after;
      TrimRightSkips(core, after);
      assert TrimRight(core) == core;
    }
  }

  function Cleanups(now: Time): seq<Event> {
    [CleaningGrants(now), CleaningChosen(now), CleaningMonthly(now), CleaningUsage(now)]
  }

  /** A whole cleanup leaves exactly the grants that expire later, the choices and bias reads of the last
      seven dates, the counters of this month on, and all URL fetches. */
  lemma CleanupLeaves(t: Tables, cal: Calendar, now: Time)
    ensures var d := After(t, cal, Cleanups(now));
            && (forall k :: k in d.grants <==> k in t.grants && t.grants[k].expiresAt > now)
            && (forall k :: k in d.chosen <==> k in t.chosen && k.2 >= cal.date(now) - 6)
            && (forall k :: k in d.monthly <==> k in t.monthly && k.1 >= cal.MonthOf(now))
            && (forall r :: r in d.usage <==>
                  r in t.usage && (r.kind == Usage.UrlFetch || r.day >= cal.date(now) - 6))
            && (forall k :: k in d.grants ==> d.grants[k] == t.grants[k])
            && (forall k :: k in d.chosen ==> d.chosen[k] == t.chosen[k])
            && (forall k :: k in d.monthly ==> d.monthly[k] == t.monthly[k])
  {
    var es := Cleanups(now);
    assert es[1..] == [CleaningChosen(now), CleaningMonthly(now), CleaningUsage(now)];
    assert es[1..][1..] == [CleaningMonthly(now), CleaningUsage(now)];
    assert es[1..][1..][1..] == [CleaningUsage(now)] && es[1..][1..][1..][1..] == [];
    var t1 := Apply(t, cal, es[0]).0;
    var t2 := Apply(t1, cal, es[1]).0;
    var t3 := Apply(t2, cal, es[2]).0;
    assert After(t3, cal, es[1..][1..][1..]) == Apply(t3, cal, es[3]).0;
    assert After(t2, cal, es[1..][1..]) == After(t3, cal, es[1..][1..][1..]);
    assert After(t1, cal, es[1..]) == After(t2, cal, es[1..][1..]);
  }

  /** With unlimited reading everything is open, without an expiry and without a row. */
  lemma UnlimitedIsFree(t: Tables, cal: Calendar, e: Event)
    requires e.Reading? && e.access.unlimitedReading
    ensures Apply(t, cal, e) == (t, Allowed(None))
  {
  }

  // ---------- cleanup is invisible ----------

  /** What the cleanups so far have left alone: grants that expire later, choices and bias rows
      from a date on, and counters from a month on. */
  datatype Floors = Floors(grants: Time, choices: int, month: int, bias: int)

  function Raised(cal: Calendar, f: Floors, e: Event): Floors {
    match e
    case CleaningGrants(now) => f.(grants := Max(f.grants, now))
    case CleaningChosen(now) => f.(choices := Max(f.choices, cal.date(now) - 6))
    case CleaningMonthly(now) => f.(month := Max(f.month, cal.MonthOf(now)))
    case CleaningUsage(now) => f.(bias := Max(f.bias, cal.date(now) - 6))
    case _ => f
  }

  /** The call looks at nothing below the floors. */
  predicate Above(cal: Calendar, f: Floors, e: Event) {
    match e
    case Reading(_, _, _, _, now) => now >= f.grants && cal.date(now) >= f.choices && cal.MonthOf(now) >= f.month
    case Reserving(kind, _, _, now) => kind.BiasReasoning? ==> cal.date(now) >= f.bias
    case _ => true
  }

  /** No call is dated before what an earlier cleanup deleted. The calls themselves, and the
      cleanups, may come in any order of time. */
  predicate InOrder(cal: Calendar, f: Floors, es: seq<Event>)
    decreases |es|
  {
    es == [] || (Above(cal, f, es[0]) && InOrder(cal, Raised(cal, f, es[0]), es[1..]))
  }

  predicate Timely(clock: Time, es: seq<Event>)
    decreases |es|
  {
    es == [] || (es[0].now >= clock && Timely(es[0].now, es[1..]))
  }

  function FloorsAt(cal: Calendar, clock: Time): Floors {
    Floors(clock, cal.date(clock), cal.MonthOf(clock), cal.date(clock))
  }

  predicate Below(f: Floors, g: Floors) {
    f.grants <= g.grants && f.choices <= g.choices && f.month <= g.month && f.bias <= g.bias
  }

  /** A run in time order is one such run. */
  lemma {:induction false} TimelyIsInOrder(cal: Calendar, f: Floors, clock: Time, es: seq<Event>)
    requires cal.Valid() && Timely(clock, es) && Below(f, FloorsAt(cal, clock))
    ensures InOrder(cal, f, es)
    decreases |es|
  {
    if es != [] {
      assert cal.date(es[0].now) >= cal.date(clock) && cal.MonthOf(es[0].now) >= cal.MonthOf(clock);
      TimelyIsInOrder(cal, Raised(cal, f, es[0]), es[0].now, es[1..]);
    }
  }

  predicate Counts(f: Floors, r: Usage.Row) { r.kind.UrlFetch? || r.day >= f.bias }

  /** Two databases agree on every row above the floors. */
  ghost predicate Similar(s: Tables, t: Tables, f: Floors) {
    && (forall u, a :: LiveGrant(s, u, a, f.grants) <==> LiveGrant(t, u, a, f.grants))
    && (forall u, a :: LiveGrant(s, u, a, f.grants) ==> s.grants[(u, a)] == t.grants[(u, a)])
    && (forall k: (nat, string, int) :: k.2 >= f.choices ==> (k in s.chosen <==> k in t.chosen))
    && (forall k: (nat, string, int) :: k.2 >= f.choices && k in s.chosen ==> s.chosen[k] == t.chosen[k])
    && (forall u, m :: m >= f.month ==> Used(s, u, m) == Used(t, u, m))
    && (forall r :: r in s.usage && Counts(f, r) ==> r in t.usage)
    && (forall r :: r in t.usage && Counts(f, r) ==> r in s.usage)
  }

  /** A cleanup deletes only rows below the floors that it raises. */
  lemma CleanupKeepsSimilar(cal: Calendar, s: Tables, t: Tables, f: Floors, e: Event)
    requires Similar(s, t, f) && !IsCall(e)
    ensures Similar(Apply(s, cal, e).0, t, Raised(cal, f, e))
  {
    var s1, g := Apply(s, cal, e).0, Raised(cal, f, e);
    forall u: nat, a: nat
      ensures LiveGrant(s1, u, a, g.grants) == LiveGrant(s, u, a, g.grants)
      ensures LiveGrant(s, u, a, g.grants) ==> LiveGrant(s, u, a, f.grants)
      ensures LiveGrant(t, u, a, g.grants) ==> LiveGrant(t, u, a, f.grants)
    {
    }
    forall u: nat, m | m >= g.month
      ensures Used(s1, u, m) == Used(t, u, m)
    {
      assert Used(s, u, m) == Used(t, u, m);
    }
  }

  lemma QuotaAgrees(cal: Calendar, s: Tables, t: Tables, f: Floors, e: Event)
    requires Similar(s, t, f) && e.Reading? && Above(cal, f, e)
    ensures LiveGrant(s, e.user, e.article, e.now) <==> LiveGrant(t, e.user, e.article, e.now)
    ensures LiveGrant(s, e.user, e.article, e.now) ==>
              s.grants[(e.user, e.article)] == t.grants[(e.user, e.article)]
    ensures QuotaAllows(s, cal, e.user, e.article, e.category, e.access, e.now) <==>
            QuotaAllows(t, cal, e.user, e.article, e.category, e.access, e.now)
    ensures Used(s, e.user, cal.MonthOf(e.now)) == Used(t, e.user, cal.MonthOf(e.now))
  {
    assert LiveGrant(s, e.user, e.article, e.now) ==> LiveGrant(s, e.user, e.article, f.grants);
    assert LiveGrant(t, e.user, e.article, e.now) ==> LiveGrant(t, e.user, e.article, f.grants);
    var key := (e.user, CanonicalCategory(e.category), cal.date(e.now));
    assert key in s.chosen <==> key in t.chosen;
  }

  /** Granting the same access on both sides keeps them similar. */
  lemma GrantKeepsSimilar(s: Tables, t: Tables, user: nat, article: nat, g: Grant, f: Floors)
    requires Similar(s, t, f)
    ensures Similar(s.(grants := s.grants[(user, article) := g]), t.(grants := t.grants[(user, article) := g]), f)
  {
    var s1, t1 := s.(grants := s.grants[(user, article) := g]), t.(grants := t.grants[(user, article) := g]);
    forall u: nat, a: nat | (u, a) != (user, article)
      ensures LiveGrant(s1, u, a, f.grants) == LiveGrant(s, u, a, f.grants)
      ensures LiveGrant(t1, u, a, f.grants) == LiveGrant(t, u, a, f.grants)
    {
    }
    assert forall u, m :: Used(s1, u, m) == Used(s, u, m) && Used(t1, u, m) == Used(t, u, m);
  }

  /** Tables with the same grants have the same live grants. */
  lemma SameGrants(s: Tables, t: Tables, now: Time)
    requires s.grants == t.grants
    ensures forall u, a :: LiveGrant(s, u, a, now) == LiveGrant(t, u, a, now)
  {
  }

  lemma MeterKeepsSimilar(s: Tables, t: Tables, user: nat, month: int, count: nat, f: Floors)
    requires Similar(s, t, f)
    ensures Similar(s.(monthly := s.monthly[(user, month) := count]),
                    t.(monthly := t.monthly[(user, month) := count]), f)
  {
    var s1, t1 := s.(monthly := s.monthly[(user, month) := count]), t.(monthly := t.monthly[(user, month) := count]);
    SameGrants(s1, s, f.grants);
    SameGrants(t1, t, f.grants);
    forall u: nat, m | m >= f.month
      ensures Used(s1, u, m) == Used(t1, u, m)
    {
      assert Used(s, u, m) == Used(t, u, m);
    }
  }

  lemma ChoiceKeepsSimilar(s: Tables, t: Tables, key: (nat, string, int), article: nat, f: Floors)
    requires Similar(s, t, f)
    ensures Similar(s.(chosen := s.chosen[key := article]), t.(chosen := t.chosen[key := article]), f)
  {
    var s1, t1 := s.(chosen := s.chosen[key := article]), t.(chosen := t.chosen[key := article]);
    SameGrants(s1, s, f.grants);
    SameGrants(t1, t, f.grants);
    assert forall u, m :: Used(s1, u, m) == Used(s, u, m) && Used(t1, u, m) == Used(t, u, m);
  }

  lemma ChargeKeepsSimilar(cal: Calendar, s: Tables, t: Tables, f: Floors, e: Event)
    requires Similar(s, t, f) && e.Reading? && Above(cal, f, e)
    ensures Similar(Charge(s, cal, e.user, e.article, e.category, e.access, e.now),
                    Charge(t, cal, e.user, e.article, e.category, e.access, e.now), f)
  {
    var month := cal.MonthOf(e.now);
    assert Used(s, e.user, month) == Used(t, e.user, month);
    if e.access.monthlyReadLimit > 0 {
      MeterKeepsSimilar(s, t, e.user, month, Used(s, e.user, month) + 1, f);
    } else {
      ChoiceKeepsSimilar(s, t, (e.user, CanonicalCategory(e.category), cal.date(e.now)), e.article, f);
    }
  }

  lemma ReadAgrees(cal: Calendar, s: Tables, t: Tables, f: Floors, e: Event)
    requires Similar(s, t, f) && e.Reading? && Above(cal, f, e)
    ensures Apply(s, cal, e).1 == Apply(t, cal, e).1
    ensures Similar(Apply(s, cal, e).0, Apply(t, cal, e).0, f)
  {
    QuotaAgrees(cal, s, t, f, e);
    if !e.access.unlimitedReading && !LiveGrant(s, e.user, e.article, e.now) &&
       QuotaAllows(s, cal, e.user, e.article, e.category, e.access, e.now)
    {
      ChargeKeepsSimilar(cal, s, t, f, e);
      GrantKeepsSimilar(Charge(s, cal, e.user, e.article, e.category, e.access, e.now),
                        Charge(t, cal, e.user, e.article, e.category, e.access, e.now),
                        e.user, e.article, Grant(e.now, e.now + RETENTION_DAYS * DAY), f);
    }
  }

  lemma ReserveAgrees(cal: Calendar, s: Tables, t: Tables, f: Floors, e: Event)
    requires Similar(s, t, f) && e.Reserving? && Above(cal, f, e)
    ensures Apply(s, cal, e).1 == Apply(t, cal, e).1
    ensures Similar(Apply(s, cal, e).0, Apply(t, cal, e).0, f)
  {
    var q := Usage.Row(e.kind, e.user, e.resource, cal.date(e.now));
    assert Usage.SameDay(s.usage, q) == Usage.SameDay(t.usage, q);
    var s1, t1 := Apply(s, cal, e).0, Apply(t, cal, e).0;
    SameGrants(s1, s, f.grants);
    SameGrants(t1, t, f.grants);
    assert forall u, m :: Used(s1, u, m) == Used(s, u, m) && Used(t1, u, m) == Used(t, u, m);
  }

  lemma {:induction false} SimilarRuns(cal: Calendar, s: Tables, t: Tables, f: Floors, es: seq<Event>)
    requires Similar(s, t, f) && InOrder(cal, f, es)
    ensures Answers(s, cal, es) == Answers(t, cal, CallsOnly(es))
    decreases |es|
  {
    if es != [] {
      var e := es[0];
      var s1 := Apply(s, cal, e).0;
      if IsCall(e) {
        if e.Reading? { ReadAgrees(cal, s, t, f, e); } else { ReserveAgrees(cal, s, t, f, e); }
        SimilarRuns(cal, s1, Apply(t, cal, e).0, f, es[1..]);
        assert CallsOnly(es)[1..] == CallsOnly(es[1..]);
      } else {
        CleanupKeepsSimilar(cal, s, t, f, e);
        SimilarRuns(cal, s1, t, Raised(cal, f, e), es[1..]);
        assert CallsOnly(es) == CallsOnly(es[1..]);
      }
    }
  }

  /** The cleanup worker never changes an answer or an expiry: while no call is dated before what
      an earlier cleanup deleted, any run gives the same answers with its cleanup
      statements left out. */
  lemma CleanupInvisible(cal: Calendar, t: Tables, f: Floors, es: seq<Event>)
    requires InOrder(cal, f, es)
    ensures Answers(t, cal, es) == Answers(t, cal, CallsOnly(es))
  {
    SimilarRuns(cal, t, t, f, es);
  }

  const EMPTY := Tables(map[], map[], map[], {})

  // ---------- the handlers ----------

  datatype CleanupStats = CleanupStats(grants: nat, freeReads: nat, monthlyUsage: nat, biasReads: nat)

  /** How many elements were removed. */
  function Gone<T>(before: set<T>, after: set<T>): nat { |before - after| }

  class Handler {
    var grants: map<(nat, nat), Grant>
    var chosen: map<(nat, string, int), nat>
    var monthly: map<(nat, int), nat>
    var usage: set<Usage.Row>
    const cal: Calendar

    ghost function View(): Tables
      reads this
    {
      Tables(grants, chosen, monthly, usage)
    }

    constructor (cal: Calendar)
      ensures this.cal == cal && View() == EMPTY
    {
      this.cal := cal;
      grants, chosen, monthly, usage := map[], map[], map[], {};
    }

    /** The transaction works on copies and stores them only when it commits. A call that is
        not allowed, or that opens under a live grant, changes no table. */
    method RecordArticleRead(user: nat, article: nat, category: string, access: Access, now: Time)
      returns (answer: Answer)
      modifies this`grants, this`chosen, this`monthly
      ensures (View(), answer) == Read(old(View()), cal, user, article, category, access, now)
      ensures answer.Refused? || access.unlimitedReading || LiveGrant(old(View()), user, article, now) ==>
                View() == old(View())
    {
      if access.unlimitedReading { return Allowed(None); }
      var canonical := CanonicalCategory(category);
      var grants1, chosen1, monthly1 := grants, chosen, monthly;
      if (user, article) in grants1 && grants1[(user, article)].expiresAt > now {
        return Allowed(Some(grants1[(user, article)].expiresAt));
      }
      if access.monthlyReadLimit > 0 {
        var key := (user, cal.MonthOf(now));
        if key !in monthly1 {
          monthly1 := monthly1[key := 1];
        } else if monthly1[key] < access.monthlyReadLimit {
          monthly1 := monthly1[key := monthly1[key] + 1];
        } else {
          return Refused;
        }
      } else {
        var key := (user, canonical, cal.date(now));
        if key in chosen1 && chosen1[key] != article { return Refused; }
        if key !in chosen1 {
          chosen1 := chosen1[key := article];
        } else {
          assert chosen1[key := article] == chosen1;
        }
      }
      var until := now + RETENTION_DAYS * DAY;
      grants1 := grants1[(user, article) := Grant(now, until)];
      grants, chosen, monthly := grants1, chosen1, monthly1;
      return Allowed(Some(until));
    }

    /** The statements of a reservation, run under the user's lock. */
    method ReserveDailyUsage(kind: Usage.Kind, user: nat, resource: nat, now: Time) returns (answer: Usage.Answer)
      modifies this`usage
      ensures (View(), UsageAnswer(answer)) == Apply(old(View()), cal, Reserving(kind, user, resource, now))
      ensures answer.Granted? <==> Usage.Row(kind, user, resource, cal.date(now)) in usage
    {
      var today := cal.date(now);
      var row := Usage.Row(kind, user, resource, today);
      if row in usage { return Usage.Granted; }
      var used := |set r | r in usage && r.kind == kind && r.user == user && r.day == today|;
      assert (set r | r in usage && r.kind == kind && r.user == user && r.day == today) == Usage.SameDay(usage, row);
      if used >= Usage.Limit(kind) { return Usage.Denied; }
      usage := usage + {row};
      return Usage.Granted;
    }

    method DeleteExpiredGrants(now: Time) returns (n: nat)
      modifies this`grants
      ensures grants == LiveGrants(old(grants), now) && n == Gone(old(grants).Keys, grants.Keys)
    {
      var gone := set k | k in grants && grants[k].expiresAt <= now;
      grants, n := grants - gone, |gone|;
      assert old(grants).Keys - grants.Keys == gone;
    }

    method DeleteOldChoices(today: int) returns (n: nat)
      modifies this`chosen
      ensures chosen == RecentChoices(old(chosen), today) && n == Gone(old(chosen).Keys, chosen.Keys)
    {
      var gone := set k | k in chosen && k.2 < today - 6;
      chosen, n := chosen - gone, |gone|;
      assert old(chosen).Keys - chosen.Keys == gone;
    }

    method DeleteOldMonths(month: int) returns (n: nat)
      modifies this`monthly
      ensures monthly == CurrentMonths(old(monthly), month) && n == Gone(old(monthly).Keys, monthly.Keys)
    {
      var gone := set k | k in monthly && k.1 < month;
      monthly, n := monthly - gone, |gone|;
      assert old(monthly).Keys - monthly.Keys == gone;
    }

    method DeleteOldBiasReads(today: int) returns (n: nat)
      modifies this`usage
      ensures usage == Usage.Cleaned(old(usage), today) && n == Gone(old(usage), usage)
    {
      var gone := set r | r in usage && r.kind.BiasReasoning? && r.day < today - 6;
      usage, n := usage - gone, |gone|;
      assert old(usage) - usage == gone;
    }

    /** Four statements, each with its own clock reading; the first `completed` of them run and
        then one fails. The counts report exactly the rows each one removed. */
    method CleanupReadTracking(now1: Time, now2: Time, now3: Time, now4: Time, completed: nat)
      returns (stats: CleanupStats)
      modifies this
      ensures grants == if completed >= 1 then LiveGrants(old(grants), now1) else old(grants)
      ensures chosen == if completed >= 2 then RecentChoices(old(chosen), cal.date(now2)) else old(chosen)
      ensures monthly == if completed >= 3 then CurrentMonths(old(monthly), cal.MonthOf(now3)) else old(monthly)
      ensures usage == if completed >= 4 then Usage.Cleaned(old(usage), cal.date(now4)) else old(usage)
      ensures stats.grants == Gone(old(grants).Keys, grants.Keys)
      ensures stats.freeReads == Gone(old(chosen).Keys, chosen.Keys)
      ensures stats.monthlyUsage == Gone(old(monthly).Keys, monthly.Keys)
      ensures stats.biasReads == Gone(old(usage), usage)
    {
      stats := CleanupStats(0, 0, 0, 0);
      assert Gone(grants.Keys, grants.Keys) == 0 && Gone(chosen.Keys, chosen.Keys) == 0;
      assert Gone(monthly.Keys, monthly.Keys) == 0 && Gone(usage, usage) == 0;
      if completed < 1 { return; }
      var n := DeleteExpiredGrants(now1);
      stats := stats.(grants := n);
      if completed < 2 { return; }
      n := DeleteOldChoices(cal.date(now2));
      stats := stats.(freeReads := n);
      if completed < 3 { return; }
      n := DeleteOldMonths(cal.MonthOf(now3));
      stats := stats.(monthlyUsage := n);
      if completed < 4 { return; }
      n := DeleteOldBiasReads(cal.date(now4));
      stats := stats.(biasReads := n);
    }
  }
}
