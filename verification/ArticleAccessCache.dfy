/** The two-level cache of granted articles (mobile/lib/services/article_access_cache.dart):
    an in-memory map over persisted preferences, proved to behave as one timed map.

    Each operation is one step. Encoding an entry and decoding the text gives the entry
    back, so persisted text is modelled as the entry it decodes to, or as unreadable. */
module AccessCache {
  import opened Common

  type Time = int

  const KEY_PREFIX := "article_access_v1:"
  const MAXIMUM_RETENTION: int := 7 * 24 * 60 * 60 * 1_000_000

  datatype Version = Version(id: Option<string>, rewriteId: Option<string>, biasLabel: string,
                             biasReasoning: string, available: bool, unlocked: bool)

  /** The JSON of an article: one of two version lists may be present. */
  datatype Payload = Payload(rewrites: Option<seq<Version>>, versions: Option<seq<Version>>, rest: string)

  datatype Entry = Entry(payload: Payload, expiresAt: Time)

  datatype Text = Encoded(entry: Entry) | Unreadable

  datatype Cache = Cache(memory: map<string, Entry>, store: map<string, Text>)

  function Key(user: string, article: string): string { KEY_PREFIX + user + ":" + article }

  predicate IsArticleKey(k: string) { KEY_PREFIX <= k }

  predicate IsUserKey(user: string, k: string) { Key(user, "") <= k }

  predicate ColonFree(user: string) { ':' !in user }

  predicate Stale(text: Text, now: Time) { text.Unreadable? || text.entry.expiresAt <= now }

  /** The persisted article keys whose text is unreadable or expired. */
  function StaleKeys(store: map<string, Text>, now: Time): set<string> {
    set k | k in store && IsArticleKey(k) && Stale(store[k], now)
  }

  // ---------- operations ----------

  function Remove(c: Cache, keys: set<string>): Cache { Cache(c.memory - keys, c.store - keys) }

  function PeekStep(c: Cache, user: string, article: string, now: Time): (Cache, Option<Payload>) {
    var key := Key(user, article);
    if key !in c.memory then (c, None)
    else if c.memory[key].expiresAt <= now then (Remove(c, {key}), None)
    else (c, Some(c.memory[key].payload))
  }

  function GetStep(c: Cache, user: string, article: string, now: Time): (Cache, Option<Payload>) {
    var key := Key(user, article);
    var (c1, inMemory) := PeekStep(c, user, article, now);
    if inMemory.Some? then (c1, inMemory)
    else if key !in c1.store then (c1, None)
    else if Stale(c1.store[key], now) then (c1.(store := c1.store - {key}), None)
    else (c1.(memory := c1.memory[key := c1.store[key].entry]), Some(c1.store[key].entry.payload))
  }

  /** What the server sent: the id and expiry may be missing or unreadable. */
  datatype Granted = Granted(article: Option<string>, expiry: Option<Time>, payload: Payload)

  /** The entry a put stores, if it accepts the article. */
  function Accepted(g: Granted, now: Time): Option<Entry> {
    if g.expiry.None? then None
    else
      var until := Min(g.expiry.value, now + MAXIMUM_RETENTION);
      if g.article.None? || until <= now then None else Some(Entry(g.payload, until))
  }

  function PruneStep(c: Cache, now: Time): Cache { Remove(c, StaleKeys(c.store, now)) }

  function PutStep(c: Cache, user: string, g: Granted, now: Time): Cache {
    match Accepted(g, now)
    case None => c
    case Some(entry) =>
      var key := Key(user, g.article.value);
      PruneStep(Cache(c.memory[key := entry], c.store[key := Encoded(entry)]), now)
  }

  function VersionId(v: Version): Option<string> { if v.id.Some? then v.id else v.rewriteId }

  function Unlock(v: Version, rewrite: string, verdict: string, reasoning: string): Version {
    if VersionId(v) == Some(rewrite)
    then v.(biasLabel := verdict, biasReasoning := reasoning, available := true, unlocked := true) else v
  }

  function UnlockAll(vs: seq<Version>, rewrite: string, verdict: string, reasoning: string): seq<Version> {
    seq(|vs|, i requires 0 <= i < |vs| => Unlock(vs[i], rewrite, verdict, reasoning))
  }

  /** The `rewrites` list when there is one, otherwise `versions`. */
  function WithReasoning(p: Payload, rewrite: string, verdict: string, reasoning: string): Payload {
    if p.rewrites.Some? then p.(rewrites := Some(UnlockAll(p.rewrites.value, rewrite, verdict, reasoning)))
    else if p.versions.Some? then p.(versions := Some(UnlockAll(p.versions.value, rewrite, verdict, reasoning)))
    else p
  }

  function UpdateStep(c: Cache, user: string, article: string, rewrite: string, verdict: string, reasoning: string,
                      now: Time): Cache
  {
    var key := Key(user, article);
    var c1 := if key !in c.memory then GetStep(c, user, article, now).0 else c;
    if key !in c1.memory || (c1.memory[key].payload.rewrites.None? && c1.memory[key].payload.versions.None?) then c1
    else
      var entry := c1.memory[key].(payload := WithReasoning(c1.memory[key].payload, rewrite, verdict, reasoning));
      Cache(c1.memory[key := entry], c1.store[key := Encoded(entry)])
  }

  function LiveOf(store: map<string, Text>, user: string, now: Time): map<string, Entry> {
    map k | k in store && IsUserKey(user, k) && !Stale(store[k], now) :: store[k].entry
  }

  function WarmStep(c: Cache, user: string, now: Time): Cache {
    Remove(c.(memory := c.memory + LiveOf(c.store, user, now)), StaleKeys(c.store, now))
  }

  // ---------- keys ----------

  /** What every key of a user starts with, after the common prefix. */
  function Owner(user: string): string { user + ":" }

  lemma KeyParts(u: string, a: string)
    ensures Key(u, a) == KEY_PREFIX + (Owner(u) + a) == Key(u, "") + a
    ensures Key(u, "") == KEY_PREFIX + Owner(u)
  {
  }

  /** A user's prefix covers another's key exactly when one of that user's keys is that key. */
  lemma CoveredKeyIsShared(u: string, v: string, b: string)
    ensures IsUserKey(u, Key(v, b)) <==> exists a :: Key(u, a) == Key(v, b)
  {
    if IsUserKey(u, Key(v, b)) {
      var a := Key(v, b)[|Key(u, "")|..];
      KeyParts(u, a);
      assert Key(u, a) == Key(v, b);
    }
    if a :| Key(u, a) == Key(v, b) { KeyParts(u, a); }
  }

  lemma SharedKeyNests(u: string, a: string, v: string, b: string)
    requires Key(u, a) == Key(v, b)
    ensures Owner(u) <= Owner(v) || Owner(v) <= Owner(u)
  {
    KeyParts(u, a);
    KeyParts(v, b);
    var tail := Key(u, a)[|KEY_PREFIX|..];
    assert tail == Owner(u) + a == Owner(v) + b;
    if |Owner(u)| <= |Owner(v)| {
      assert Owner(u) == tail[..|Owner(u)|] <= Owner(v);
    } else {
      assert Owner(v) == tail[..|Owner(v)|] <= Owner(u);
    }
  }

  lemma NestedOwnersShareKey(u: string, v: string)
    requires Owner(u) <= Owner(v)
    ensures Key(u, Owner(v)[|Owner(u)|..]) == Key(v, "")
  {
    KeyParts(u, Owner(v)[|Owner(u)|..]);
    KeyParts(v, "");
  }

  /** The keys of two users meet exactly when one user id followed by a colon starts the other
      one followed by a colon. */
  lemma KeysMeetIff(u: string, v: string)
    ensures (exists a, b :: Key(u, a) == Key(v, b)) <==> Owner(u) <= Owner(v) || Owner(v) <= Owner(u)
  {
    if a, b :| Key(u, a) == Key(v, b) { SharedKeyNests(u, a, v, b); }
    if Owner(u) <= Owner(v) { NestedOwnersShareKey(u, v); }
    if Owner(v) <= Owner(u) { NestedOwnersShareKey(v, u); }
  }

  /** The longer of two different nested ids holds a colon. */
  lemma NestedOwnerHasColon(u: string, v: string)
    requires Owner(u) <= Owner(v)
    ensures u == v || !ColonFree(v)
  {
    if |u| < |v| {
      assert v[|u|] == Owner(v)[|u|] == Owner(u)[|u|] == ':';
    } else {
      assert u == Owner(u)[..|u|] == Owner(v)[..|u|] == v;
    }
  }

  /** Colon-free users, as the ids issued by the backend are, never share a key, nor does one's
      prefix cover another's key. */
  lemma KeysDisjoint(u: string, v: string, b: string)
    requires ColonFree(u) && ColonFree(v) && IsUserKey(u, Key(v, b))
    ensures u == v
  {
    CoveredKeyIsShared(u, v, b);
    KeysMeetIff(u, v);
    if Owner(u) <= Owner(v) { NestedOwnerHasColon(u, v); } else { NestedOwnerHasColon(v, u); }
  }

  lemma KeyInjective(u: string, a: string, v: string, b: string)
    requires ColonFree(u) && ColonFree(v) && Key(u, a) == Key(v, b)
    ensures u == v && a == b
  {
    KeyParts(u, a);
    KeyParts(v, b);
    KeysDisjoint(u, v, b);
    assert a == Key(u, a)[|Key(u, "")|..] == Key(v, b)[|Key(v, "")|..] == b;
  }

  /** Two different ids, one with a colon, whose keys meet, and two whose keys do not. */
  lemma ColonsCollide()
    ensures exists a, b :: Key("a", a) == Key("a:b", b)
    ensures !exists a, b :: Key("a", a) == Key("b:c", b)
  {
    KeysMeetIff("a", "a:b");
    KeysMeetIff("a", "b:c");
    assert Owner("a")[0] == 'a' && Owner("b:c")[0] == 'b';
    assert Owner("a") == Owner("a:b")[..2];
  }

  // ---------- one timed map ----------

  type TimedMap = map<(string, string), Entry>

  datatype Operation =
    | Getting(user: string, article: string)
    | Peeking(user: string, article: string)
    | Putting(user: string, granted: Granted)
    | Updating(user: string, article: string, rewrite: string, verdict: string, reasoning: string)
    | Warming(user: string)
    | Clearing(user: string)

  datatype Event = Event(op: Operation, now: Time)

  function LookUp(m: TimedMap, user: string, article: string, now: Time): Option<Payload> {
    if (user, article) in m && m[(user, article)].expiresAt > now then Some(m[(user, article)].payload) else None
  }

  /** The specification: puts and updates write one map, nothing else has an effect. */
  function Specified(m: TimedMap, e: Event): TimedMap {
    match e.op
    case Putting(user, g) =>
      if Accepted(g, e.now).Some? then m[(user, g.article.value) := Accepted(g, e.now).value] else m
    case Updating(user, article, rewrite, verdict, reasoning) =>
      var found := LookUp(m, user, article, e.now);
      if found.Some?
      then m[(user, article) := m[(user, article)].(payload := WithReasoning(found.value, rewrite, verdict, reasoning))]
      else m
    case _ => m
  }

  function Actual(c: Cache, e: Event): Cache {
    match e.op
    case Getting(user, article) => GetStep(c, user, article, e.now).0
    case Peeking(user, article) => PeekStep(c, user, article, e.now).0
    case Putting(user, g) => PutStep(c, user, g, e.now)
    case Updating(user, article, rewrite, verdict, reasoning) =>
      UpdateStep(c, user, article, rewrite, verdict, reasoning, e.now)
    case Warming(user) => WarmStep(c, user, e.now)
    case Clearing(_) => c.(memory := map[])
  }

  /** The results of the gets of a run, in order. */
  function GetsActual(c: Cache, es: seq<Event>): seq<Option<Payload>>
    decreases |es|
  {
    if es == [] then []
    else (if es[0].op.Getting? then [GetStep(c, es[0].op.user, es[0].op.article, es[0].now).1] else []) +
         GetsActual(Actual(c, es[0]), es[1..])
  }

  function GetsSpecified(m: TimedMap, es: seq<Event>): seq<Option<Payload>>
    decreases |es|
  {
    if es == [] then []
    else (if es[0].op.Getting? then [LookUp(m, es[0].op.user, es[0].op.article, es[0].now)] else []) +
         GetsSpecified(Specified(m, es[0]), es[1..])
  }

  predicate Timely(clock: Time, es: seq<Event>)
    decreases |es|
  {
    es == [] || (es[0].now >= clock && Timely(es[0].now, es[1..]))
  }

  predicate ColonFreeUsers(es: seq<Event>) { forall i :: 0 <= i < |es| ==> ColonFree(es[i].op.user) }

  /** The persisted entry under a key, unless expired. */
  function Live(c: Cache, key: string, now: Time): Option<Entry> {
    if key in c.store && !Stale(c.store[key], now) then Some(c.store[key].entry) else None
  }

  function LiveSpecified(m: TimedMap, user: string, article: string, now: Time): Option<Entry> {
    if (user, article) in m && m[(user, article)].expiresAt > now then Some(m[(user, article)]) else None
  }

  /** Memory repeats what is persisted, and only under article keys. */
  ghost predicate Coherent(c: Cache) {
    forall k :: k in c.memory ==> IsArticleKey(k) && k in c.store && c.store[k] == Encoded(c.memory[k])
  }

  /** No persisted grant outlives the retention. */
  ghost predicate Retained(c: Cache, clock: Time) {
    forall k :: k in c.store && IsArticleKey(k) && c.store[k].Encoded? ==>
      c.store[k].entry.expiresAt <= clock + MAXIMUM_RETENTION
  }

  /** The cache stands for the timed map. */
  ghost predicate Refines(c: Cache, m: TimedMap, clock: Time) {
    && Coherent(c)
    && forall u, a :: ColonFree(u) ==> Live(c, Key(u, a), clock) == LiveSpecified(m, u, a, clock)
  }

  lemma KeyHasPrefix(u: string, a: string)
    ensures IsArticleKey(Key(u, a))
    ensures IsUserKey(u, Key(u, a))
  {
    assert Key(u, a) == KEY_PREFIX + (u + ":" + a);
    assert Key(u, a) == Key(u, "") + a;
  }

  lemma QuietOperation(c: Cache, e: Event)
    requires Coherent(c) && !e.op.Putting? && !e.op.Updating?
    ensures Coherent(Actual(c, e)) && forall k :: Live(Actual(c, e), k, e.now) == Live(c, k, e.now)
  {
    if e.op.Getting? || e.op.Peeking? {
      KeyHasPrefix(e.op.user, e.op.article);
    }
  }

  /** Writing one colon-free user's entry on both sides keeps the refinement. */
  lemma WriteKeepsRefines(c: Cache, m: TimedMap, user: string, article: string, entry: Entry, now: Time)
    requires Refines(c, m, now) && ColonFree(user)
    ensures var key := Key(user, article);
            Refines(Cache(c.memory[key := entry], c.store[key := Encoded(entry)]), m[(user, article) := entry], now)
  {
    var key := Key(user, article);
    KeyHasPrefix(user, article);
    var d := Cache(c.memory[key := entry], c.store[key := Encoded(entry)]);
    var n := m[(user, article) := entry];
    forall u, a | ColonFree(u)
      ensures Live(d, Key(u, a), now) == LiveSpecified(n, u, a, now)
    {
      assert Live(c, Key(u, a), now) == LiveSpecified(m, u, a, now);
      if Key(u, a) == key { KeyInjective(u, a, user, article); }
    }
  }

  lemma PutRefines(c: Cache, m: TimedMap, e: Event)
    requires Refines(c, m, e.now) && e.op.Putting? && ColonFree(e.op.user)
    ensures Refines(Actual(c, e), Specified(m, e), e.now)
  {
    var accepted := Accepted(e.op.granted, e.now);
    if accepted.Some? {
      var key := Key(e.op.user, e.op.granted.article.value);
      var d := Cache(c.memory[key := accepted.value], c.store[key := Encoded(accepted.value)]);
      WriteKeepsRefines(c, m, e.op.user, e.op.granted.article.value, accepted.value, e.now);
    }
  }

  lemma UpdateRefines(c: Cache, m: TimedMap, e: Event)
    requires Refines(c, m, e.now) && e.op.Updating? && ColonFree(e.op.user)
    ensures Refines(Actual(c, e), Specified(m, e), e.now)
  {
    var user, article := e.op.user, e.op.article;
    var key := Key(user, article);
    KeyHasPrefix(user, article);
    var getting := Event(Getting(user, article), e.now);
    QuietOperation(c, getting);
    var c1 := if key !in c.memory then GetStep(c, user, article, e.now).0 else c;
    assert Live(c1, key, e.now) == LiveSpecified(m, user, article, e.now);
    if key in c1.memory {
      var payload := WithReasoning(c1.memory[key].payload, e.op.rewrite, e.op.verdict, e.op.reasoning);
      var entry := c1.memory[key].(payload := payload);
      if c1.memory[key].expiresAt > e.now {
        WriteKeepsRefines(c1, m, user, article, entry, e.now);
      }
      assert entry.payload == c1.memory[key].payload ==>
               m[(user, article) := entry] == m || LiveSpecified(m, user, article, e.now).None?;
    }
  }

  lemma OperationRefines(c: Cache, m: TimedMap, e: Event)
    requires Refines(c, m, e.now) && ColonFree(e.op.user)
    ensures Refines(Actual(c, e), Specified(m, e), e.now)
    ensures e.op.Getting? ==> GetStep(c, e.op.user, e.op.article, e.now).1 == LookUp(m, e.op.user, e.op.article, e.now)
    ensures e.op.Peeking? ==>
              var seen := PeekStep(c, e.op.user, e.op.article, e.now).1;
              seen.None? || seen == LookUp(m, e.op.user, e.op.article, e.now)
  {
    if e.op.Putting? {
      PutRefines(c, m, e);
    } else if e.op.Updating? {
      UpdateRefines(c, m, e);
    } else {
      QuietOperation(c, e);
      if e.op.Getting? || e.op.Peeking? {
        var key := Key(e.op.user, e.op.article);
        assert Live(c, key, e.now) == LiveSpecified(m, e.op.user, e.op.article, e.now);
      }
    }
  }

  /** Over any run of operations by colon-free users with a nondecreasing clock, every get
      answers as the timed map does: the last accepted value with its updates while
      unexpired, and nothing otherwise. */
  lemma {:induction false} CacheRefinesTimedMap(c: Cache, m: TimedMap, clock: Time, es: seq<Event>)
    requires Refines(c, m, clock) && Timely(clock, es) && ColonFreeUsers(es)
    ensures GetsActual(c, es) == GetsSpecified(m, es)
    decreases |es|
  {
    if es != [] {
      OperationRefines(c, m, es[0]);
      CacheRefinesTimedMap(Actual(c, es[0]), Specified(m, es[0]), es[0].now, es[1..]);
    }
  }

  /** A fresh installation stands for the empty map, whatever other preferences it holds. */
  lemma FreshRefines(store: map<string, Text>, clock: Time)
    requires forall k :: k in store ==> !IsArticleKey(k)
    ensures Refines(Cache(map[], store), map[], clock)
  {
    forall u, a { KeyHasPrefix(u, a); }
  }

  function After(c: Cache, es: seq<Event>): Cache
    decreases |es|
  {
    if es == [] then c else After(Actual(c, es[0]), es[1..])
  }

  function ClockAfter(clock: Time, es: seq<Event>): Time {
    if es == [] then clock else es[|es| - 1].now
  }

  /** A put that the cache accepts under a key. */
  predicate PutUnder(e: Event, key: string) {
    && e.op.Putting? && Accepted(e.op.granted, e.now).Some?
    && Key(e.op.user, e.op.granted.article.value) == key
  }

  /** The server's expiry, or seven days after the put if that is earlier. */
  function GrantedUntil(e: Event): Time
    requires e.op.Putting? && e.op.granted.expiry.Some?
  {
    Min(e.op.granted.expiry.value, e.now + MAXIMUM_RETENTION)
  }

  /** Put number i is the last one that the cache accepted under the key. */
  predicate LastPutUnder(past: seq<Event>, i: nat, key: string) {
    i < |past| && PutUnder(past[i], key) && forall j :: i < j < |past| ==> !PutUnder(past[j], key)
  }

  /** The expiry under a key goes back to the last accepted put under that key. */
  ghost predicate FromLastPut(past: seq<Event>, key: string, expiresAt: Time) {
    exists i: nat :: LastPutUnder(past, i, key) && expiresAt == GrantedUntil(past[i])
  }

  /** Every readable persisted article comes from its last accepted put. */
  ghost predicate Provenance(c: Cache, past: seq<Event>) {
    forall k :: k in c.store && IsArticleKey(k) && c.store[k].Encoded? ==>
      FromLastPut(past, k, c.store[k].entry.expiresAt)
  }

  lemma FromPutNow(past: seq<Event>, e: Event, key: string)
    requires PutUnder(e, key)
    ensures FromLastPut(past + [e], key, GrantedUntil(e))
  {
    assert LastPutUnder(past + [e], |past|, key);
  }

  lemma FromEarlierPut(past: seq<Event>, e: Event, key: string, expiresAt: Time)
    requires FromLastPut(past, key, expiresAt) && !PutUnder(e, key)
    ensures FromLastPut(past + [e], key, expiresAt)
  {
    var i: nat :| LastPutUnder(past, i, key) && expiresAt == GrantedUntil(past[i]);
    assert LastPutUnder(past + [e], i, key) && (past + [e])[i] == past[i];
  }

  lemma OperationKeepsCoherent(c: Cache, e: Event)
    requires Coherent(c)
    ensures Coherent(Actual(c, e))
  {
    if e.op.Putting? {
      if Accepted(e.op.granted, e.now).Some? { KeyHasPrefix(e.op.user, e.op.granted.article.value); }
    } else if e.op.Updating? {
      KeyHasPrefix(e.op.user, e.op.article);
    } else {
      QuietOperation(c, e);
    }
  }

  lemma OperationKeepsProvenance(c: Cache, past: seq<Event>, e: Event)
    requires Coherent(c) && Provenance(c, past)
    ensures Coherent(Actual(c, e)) && Provenance(Actual(c, e), past + [e])
  {
    OperationKeepsCoherent(c, e);
    var d := Actual(c, e);
    forall k | k in d.store && IsArticleKey(k) && d.store[k].Encoded?
      ensures FromLastPut(past + [e], k, d.store[k].entry.expiresAt)
    {
      if PutUnder(e, k) { FromPutNow(past, e, k); } else { FromEarlierPut(past, e, k, d.store[k].entry.expiresAt); }
    }
  }

  lemma {:induction false} RunKeepsProvenance(c: Cache, past: seq<Event>, es: seq<Event>)
    requires Coherent(c) && Provenance(c, past)
    ensures Coherent(After(c, es)) && Provenance(After(c, es), past + es)
    decreases |es|
  {
    if es == [] {
      assert past + es == past;
    } else {
      OperationKeepsProvenance(c, past, es[0]);
      RunKeepsProvenance(Actual(c, es[0]), past + [es[0]], es[1..]);
      assert past + [es[0]] + es[1..] == past + es;
    }
  }

  /** From a fresh installation, over any run whatever the clock does, every readable persisted
      article expires when its last accepted put said: at the server's expiry, or seven days
      after that put if that is earlier. Nothing ever prolongs it. The entry in memory
      is the persisted one. */
  lemma RetentionHolds(store: map<string, Text>, es: seq<Event>, key: string)
    requires forall k :: k in store ==> !IsArticleKey(k)
    requires IsArticleKey(key)
    ensures var c := After(Cache(map[], store), es);
            && (key in c.store && c.store[key].Encoded? ==>
                  exists i: nat :: LastPutUnder(es, i, key) && c.store[key].entry.expiresAt == GrantedUntil(es[i]))
            && (key in c.memory ==> key in c.store && c.store[key] == Encoded(c.memory[key]))
  {
    RunKeepsProvenance(Cache(map[], store), [], es);
    assert [] + es == es;
    var c := After(Cache(map[], store), es);
    if key in c.store && c.store[key].Encoded? { assert FromLastPut(es, key, c.store[key].entry.expiresAt); }
  }

  lemma OperationRetains(c: Cache, e: Event)
    requires Coherent(c) && Retained(c, e.now)
    ensures Coherent(Actual(c, e)) && Retained(Actual(c, e), e.now)
    ensures forall k :: !IsArticleKey(k) ==>
              (k in Actual(c, e).store <==> k in c.store) && (k in c.store ==> Actual(c, e).store[k] == c.store[k])
  {
    OperationKeepsCoherent(c, e);
    OthersUntouched(c, e);
  }

  lemma OthersUntouched(c: Cache, e: Event)
    ensures forall k :: !IsArticleKey(k) ==>
              (k in Actual(c, e).store <==> k in c.store) && (k in c.store ==> Actual(c, e).store[k] == c.store[k])
  {
    if e.op.Putting? && Accepted(e.op.granted, e.now).Some? {
      KeyHasPrefix(e.op.user, e.op.granted.article.value);
    } else if e.op.Getting? || e.op.Peeking? || e.op.Updating? {
      KeyHasPrefix(e.op.user, e.op.article);
    }
  }

  /** From any earlier contents that meet it, no persisted grant ever expires later than seven
      days from the clock, and preferences that are not cached articles are never touched. */
  lemma {:induction false} GrantsExpireInTime(c: Cache, clock: Time, es: seq<Event>)
    requires Coherent(c) && Retained(c, clock) && Timely(clock, es)
    ensures Retained(After(c, es), ClockAfter(clock, es))
    ensures forall k :: !IsArticleKey(k) ==>
              (k in After(c, es).store <==> k in c.store) && (k in c.store ==> After(c, es).store[k] == c.store[k])
    decreases |es|
  {
    if es != [] {
      OperationRetains(c, es[0]);
      GrantsExpireInTime(Actual(c, es[0]), es[0].now, es[1..]);
    }
  }

  /** After warming, a synchronous peek answers exactly as a get does. */
  lemma WarmMakesPeekComplete(c: Cache, user: string, article: string, now: Time, later: Time)
    requires Coherent(c) && now <= later
    ensures var warm := WarmStep(c, user, now);
            PeekStep(warm, user, article, later).1 == GetStep(warm, user, article, later).1
  {
    KeyHasPrefix(user, article);
    var key := Key(user, article);
    if key in c.store && !Stale(c.store[key], now) {
      assert key in LiveOf(c.store, user, now);
    }
  }

  // ---------- what a reader sees ----------

  /** An accepted put is what every get answers until the server's expiry, or for seven days if that is
      sooner, and nothing after that. A put without an id, or without an expiry ahead, does nothing. */
  lemma PutThenGet(c: Cache, user: string, g: Granted, now: Time, later: Time)
    requires Coherent(c) && now <= later
    ensures g.article.Some? && g.expiry.Some? && g.expiry.value > now ==>
              GetStep(PutStep(c, user, g, now), user, g.article.value, later).1 ==
              if later < g.expiry.value && later < now + 7 * 24 * 60 * 60 * 1_000_000 then Some(g.payload) else None
    ensures g.article.None? || g.expiry.None? || g.expiry.value <= now ==> PutStep(c, user, g, now) == c
  {
    if g.article.Some? { KeyHasPrefix(user, g.article.value); }
  }

  /** After an accepted put, and after warming, no unreadable or expired article is left, whoever it
      belongs to, and memory holds none that was pruned. */
  lemma NothingStaleIsLeft(c: Cache, user: string, g: Granted, now: Time, k: string)
    requires Coherent(c) && IsArticleKey(k)
    ensures g.article.Some? && g.expiry.Some? && g.expiry.value > now && k in PutStep(c, user, g, now).store ==>
              PutStep(c, user, g, now).store[k].Encoded? && PutStep(c, user, g, now).store[k].entry.expiresAt > now
    ensures k in WarmStep(c, user, now).store ==>
              WarmStep(c, user, now).store[k].Encoded? && WarmStep(c, user, now).store[k].entry.expiresAt > now
    ensures k in WarmStep(c, user, now).memory ==> k in WarmStep(c, user, now).store
  {
    if g.article.Some? { KeyHasPrefix(user, g.article.value); }
  }

  /** Warming loads exactly the user's own entries that have not expired. */
  lemma WarmLoadsOwn(c: Cache, user: string, now: Time, k: string)
    requires Coherent(c)
    ensures k in WarmStep(c, user, now).memory <==>
            && k in c.store && c.store[k].Encoded? && c.store[k].entry.expiresAt > now
            && (k in c.memory || IsUserKey(user, k))
    ensures k in WarmStep(c, user, now).memory ==> WarmStep(c, user, now).memory[k] == c.store[k].entry
  {
  }

  /** A get that finds an expired or unreadable entry drops it from both levels. */
  lemma GetDropsStale(c: Cache, user: string, article: string, now: Time)
    requires Coherent(c)
    ensures var (d, found) := GetStep(c, user, article, now);
            found == None ==> Key(user, article) !in d.memory && Key(user, article) !in d.store
  {
    KeyHasPrefix(user, article);
  }

  /** The versions after an update: those with the rewrite's id, or with it as their rewrite id when they
      have no id, carry the verdict and its reasoning, available and unlocked; all others are as
      they were. */
  predicate VersionsUpdated(vs: seq<Version>, ws: seq<Version>, rewrite: string, verdict: string, reasoning: string) {
    |ws| == |vs| && forall i :: 0 <= i < |vs| ==>
      if vs[i].id == Some(rewrite) || (vs[i].id == None && vs[i].rewriteId == Some(rewrite))
      then
        && ws[i].biasLabel == verdict && ws[i].biasReasoning == reasoning && ws[i].available && ws[i].unlocked
        && ws[i].id == vs[i].id && ws[i].rewriteId == vs[i].rewriteId
      else ws[i] == vs[i]
  }

  /** Only the first of the two lists that is present is updated. */
  predicate PayloadUpdated(p: Payload, q: Payload, rewrite: string, verdict: string, reasoning: string) {
    && q.rest == p.rest && q.rewrites.Some? == p.rewrites.Some? && q.versions.Some? == p.versions.Some?
    && (p.rewrites.Some? ==>
          VersionsUpdated(p.rewrites.value, q.rewrites.value, rewrite, verdict, reasoning) && q.versions == p.versions)
    && (p.rewrites.None? && p.versions.Some? ==>
          VersionsUpdated(p.versions.value, q.versions.value, rewrite, verdict, reasoning))
  }

  /** At any later time a get answers after an update exactly when it would have answered without it,
      and then with the article so updated. */
  lemma UpdateThenGet(c: Cache, user: string, article: string, rewrite: string, verdict: string, reasoning: string,
                      now: Time, later: Time)
    requires Coherent(c) && now <= later
    ensures var without := GetStep(c, user, article, later).1;
            var d := UpdateStep(c, user, article, rewrite, verdict, reasoning, now);
            var updated := GetStep(d, user, article, later).1;
            && (updated.Some? <==> without.Some?)
            && (updated.Some? ==> PayloadUpdated(without.value, updated.value, rewrite, verdict, reasoning))
  {
    var key := Key(user, article);
    KeyHasPrefix(user, article);
    var c1 := if key !in c.memory then GetStep(c, user, article, now).0 else c;
    assert Live(c1, key, later) == Live(c, key, later);
  }

  /** Put, update, get: the answer is the article as put, with its versions so updated. */
  lemma PutUpdateGet(c: Cache, user: string, g: Granted, rewrite: string, verdict: string, reasoning: string,
                     put: Time, updated: Time, got: Time)
    requires Coherent(c) && put <= updated <= got && g.article.Some? && g.expiry.Some?
    requires got < g.expiry.value && got < put + 7 * 24 * 60 * 60 * 1_000_000
    ensures var d := UpdateStep(PutStep(c, user, g, put), user, g.article.value, rewrite, verdict, reasoning, updated);
            var answer := GetStep(d, user, g.article.value, got).1;
            answer.Some? && PayloadUpdated(g.payload, answer.value, rewrite, verdict, reasoning)
  {
    OperationKeepsCoherent(c, Event(Putting(user, g), put));
    PutThenGet(c, user, g, put, got);
    UpdateThenGet(PutStep(c, user, g, put), user, g.article.value, rewrite, verdict, reasoning, updated, got);
  }

  // ---------- the class ----------

  lemma ScanStep(memory: map<string, Entry>, live: map<string, Entry>, rest: set<string>, key: string)
    requires key in rest
    ensures memory + (live - (rest - {key})) ==
            if key in live then (memory + (live - rest))[key := live[key]] else memory + (live - rest)
  {
    if key !in live { assert live - (rest - {key}) == live - rest; }
  }

  class ArticleAccessCache {
    var memory: map<string, Entry>
    var preferences: map<string, Text>

    ghost function View(): Cache
      reads this
    {
      Cache(memory, preferences)
    }

    constructor (preferences: map<string, Text>)
      ensures View() == Cache(map[], preferences)
    {
      this.memory, this.preferences := map[], preferences;
    }

    method Peek(user: string, article: string, now: Time) returns (found: Option<Payload>)
      modifies this
      ensures (View(), found) == PeekStep(old(View()), user, article, now)
    {
      var key := Key(user, article);
      if key !in memory { return None; }
      if memory[key].expiresAt <= now {
        memory := memory - {key};
        preferences := preferences - {key};
        return None;
      }
      return Some(memory[key].payload);
    }

    method Get(user: string, article: string, now: Time) returns (found: Option<Payload>)
      modifies this
      ensures (View(), found) == GetStep(old(View()), user, article, now)
    {
      found := Peek(user, article, now);
      if found.Some? { return; }
      var key := Key(user, article);
      if key !in preferences { return None; }
      var text := preferences[key];
      if text.Unreadable? || text.entry.expiresAt <= now {
        preferences := preferences - {key};
        return None;
      }
      memory := memory[key := text.entry];
      return Some(text.entry.payload);
    }

    method Put(user: string, g: Granted, now: Time)
      modifies this
      ensures View() == PutStep(old(View()), user, g, now)
    {
      var maximumExpiry := now + MAXIMUM_RETENTION;
      var expiresAt := if g.expiry.Some? && g.expiry.value > maximumExpiry then Some(maximumExpiry) else g.expiry;
      if g.article.None? || expiresAt.None? || expiresAt.value <= now { return; }
      var key := Key(user, g.article.value);
      var entry := Entry(g.payload, expiresAt.value);
      memory := memory[key := entry];
      preferences := preferences[key := Encoded(entry)];
      Prune(now);
    }

    method UpdateBiasReasoning(user: string, article: string, rewrite: string, verdict: string, reasoning: string,
                               now: Time)
      modifies this
      ensures View() == UpdateStep(old(View()), user, article, rewrite, verdict, reasoning, now)
    {
      var key := Key(user, article);
      if key !in memory { var _ := Get(user, article, now); }
      if key !in memory { return; }
      var payload := memory[key].payload;
      var versions := if payload.rewrites.Some? then payload.rewrites else payload.versions;
      if versions.None? { return; }
      var unlocked := [];
      for i := 0 to |versions.value|
        invariant unlocked == UnlockAll(versions.value[..i], rewrite, verdict, reasoning)
      {
        var v := versions.value[i];
        if (if v.id.Some? then v.id else v.rewriteId) == Some(rewrite) {
          v := v.(biasLabel := verdict, biasReasoning := reasoning, available := true, unlocked := true);
        }
        unlocked := unlocked + [v];
      }
      assert versions.value[..|versions.value|] == versions.value;
      if payload.rewrites.Some? {
        payload := payload.(rewrites := Some(unlocked));
      } else {
        payload := payload.(versions := Some(unlocked));
      }
      var updated := memory[key].(payload := payload);
      memory := memory[key := updated];
      preferences := preferences[key := Encoded(updated)];
    }

    /** One pass over the article keys loads this user's live entries and collects the
        stale keys of every user. */
    method LoadLive(user: string, now: Time) returns (expired: set<string>)
      modifies this`memory
      ensures memory == old(memory) + LiveOf(preferences, user, now)
      ensures expired == StaleKeys(preferences, now)
    {
      ghost var live, stale := LiveOf(preferences, user, now), StaleKeys(preferences, now);
      var rest := set k | k in preferences && IsArticleKey(k);
      expired := {};
      assert live.Keys <= rest && stale <= rest;
      assert live - rest == map[] && stale - rest == {};
      while rest != {}
        invariant rest <= preferences.Keys && forall k :: k in rest ==> IsArticleKey(k)
        invariant expired == stale - rest && memory == old(memory) + (live - rest)
        decreases |rest|
      {
        var key :| key in rest;
        ScanStep(old(memory), live, rest, key);
        var text := preferences[key];
        if text.Unreadable? || text.entry.expiresAt <= now {
          expired := expired + {key};
        } else if Key(user, "") <= key {
          memory := memory[key := text.entry];
        }
        rest := rest - {key};
      }
      assert live - {} == live;
    }

    /** A second pass removes the stale keys. */
    method Warm(user: string, now: Time)
      modifies this
      ensures View() == WarmStep(old(View()), user, now)
    {
      var expired := LoadLive(user, now);
      RemoveAll(expired);
    }

    method RemoveAll(keys: set<string>)
      modifies this
      ensures View() == Remove(old(View()), keys)
    {
      var rest := keys;
      while rest != {}
        invariant rest <= keys
        invariant memory == old(memory) - (keys - rest) && preferences == old(preferences) - (keys - rest)
        decreases |rest|
      {
        var key :| key in rest;
        memory := memory - {key};
        preferences := preferences - {key};
        rest := rest - {key};
      }
    }

    method ClearMemory()
      modifies this`memory
      ensures memory == map[]
    {
      memory := map[];
    }

    method Prune(now: Time)
      modifies this
      ensures View() == PruneStep(old(View()), now)
    {
      var rest := set k | k in preferences && IsArticleKey(k);
      ghost var stale := StaleKeys(preferences, now);
      while rest != {}
        invariant forall k :: k in rest ==> k in old(preferences) && IsArticleKey(k)
        invariant forall k :: k in rest ==> k in preferences && preferences[k] == old(preferences)[k]
        invariant memory == old(memory) - (stale - rest) && preferences == old(preferences) - (stale - rest)
        decreases |rest|
      {
        var key :| key in rest;
        var text := preferences[key];
        if text.Unreadable? || text.entry.expiresAt <= now {
          memory := memory - {key};
          preferences := preferences - {key};
        }
        rest := rest - {key};
      }
      assert stale - {} == stale;
    }
  }
}
