/** Daily usage reservations under concurrency (reserveDailyUsage in
    backend/handlers/entitlements.go).

    Transactions run statement by statement in any interleaving, READ COMMITTED: a
    statement sees the rows committed when it runs. CURRENT_DATE is fixed when the
    transaction begins. The advisory lock is taken on a hash of the user, so two
    users may share a lock; it is released after the commit is visible. The cleanup
    worker deletes old rows at any moment. */
module UsageReservation {
  import opened Common


  datatype Kind = UrlFetch | BiasReasoning

  const FREE_URL_FETCHES_PER_DAY: nat := 10
  const FREE_BIAS_REASONINGS_PER_DAY: nat := 5

  function Limit(k: Kind): nat {
    if k.UrlFetch? then FREE_URL_FETCHES_PER_DAY else FREE_BIAS_REASONINGS_PER_DAY
  }

  /** A row of user_url_fetches or user_bias_reasoning_reads, and what a call asks for. */
  datatype Row = Row(kind: Kind, user: nat, resource: nat, day: int)

  datatype Answer = Granted | Denied | Errored

  function SameDay(rows: set<Row>, q: Row): set<Row> {
    set r | r in rows && r.kind == q.kind && r.user == q.user && r.day == q.day
  }

  // ---------- the whole call as one step ----------

  function Reserve(rows: set<Row>, q: Row): (set<Row>, Answer) {
    if q in rows then (rows, Granted)
    else if |SameDay(rows, q)| >= Limit(q.kind) then (rows, Denied)
    else (rows + {q}, Granted)
  }

  /** The cleanup keeps the bias rows of seven dates and never touches URL fetches. */
  function Cleaned(rows: set<Row>, today: int): set<Row> {
    set r | r in rows && !(r.kind.BiasReasoning? && r.day < today - 6)
  }

  datatype Entry = Reserved(txn: nat, query: Row, answer: Answer) | CleanedUp(today: int)

  /** The table after a serial history of whole calls and cleanups. */
  function Replay(log: seq<Entry>): set<Row> {
    if log == [] then {}
    else
      var before := Replay(log[..|log| - 1]);
      match log[|log| - 1]
      case Reserved(_, q, _) => Reserve(before, q).0
      case CleanedUp(today) => Cleaned(before, today)
  }

  /** Every answer in the history is the one the whole call gives at that point. */
  predicate Legal(log: seq<Entry>) {
    log == [] ||
    (var front, last := log[..|log| - 1], log[|log| - 1];
     Legal(front) && (last.Reserved? ==> Reserve(Replay(front), last.query).1 == last.answer))
  }

  lemma {:induction false} ReplayWithinLimit(log: seq<Entry>, q: Row)
    ensures |SameDay(Replay(log), q)| <= Limit(q.kind)
  {
    if log != [] {
      var front, last := log[..|log| - 1], log[|log| - 1];
      ReplayWithinLimit(front, q);
      var before, after := SameDay(Replay(front), q), SameDay(Replay(log), q);
      if last.Reserved? && last.query !in Replay(front) && SameDay({last.query}, q) != {} {
        assert SameDay(Replay(front), last.query) == before;
        assert after <= before + {last.query};
        SubsetSize(after, before + {last.query});
      } else {
        assert after <= before;
        SubsetSize(after, before);
      }
    }
  }

  // ---------- statement by statement ----------

  datatype Pc =
    | Started                  // begun, waiting for the lock
    | Locked
    | Found                    // EXISTS answered true
    | Missing                  // EXISTS answered false
    | AtLimit                  // COUNT answered at least the limit
    | UnderLimit
    | Inserted                 // the row is written but not committed
    | NotInserted              // the "usage reservation was not inserted" branch
    | Ending(answer: Answer)   // committed or rolled back, lock not yet released
    | Done(answer: Answer)

  datatype Txn = Txn(query: Row, pc: Pc)

  datatype State = State(rows: set<Row>, txns: map<nat, Txn>, log: seq<Entry>)

  datatype Step =
    | Begin(txn: nat, query: Row)
    | Lock(txn: nat)
    | Exists(txn: nat)
    | Count(txn: nat)
    | Insert(txn: nat)
    | Commit(txn: nat)
    | Rollback(txn: nat)
    | Abort(txn: nat)          // any error: the transaction leaves nothing behind
    | Unlock(txn: nat)
    | Clean(today: int)

  predicate HoldsLock(t: Txn) { !t.pc.Started? && !t.pc.Done? }

  predicate At(s: State, t: nat, pc: Pc) { t in s.txns && s.txns[t].pc == pc }

  ghost predicate Enabled(s: State, e: Step, lockKey: nat -> int) {
    match e
    case Begin(t, _) => t !in s.txns
    case Lock(t) =>
      At(s, t, Started) &&
      forall u :: u in s.txns && HoldsLock(s.txns[u]) ==>
        lockKey(s.txns[u].query.user) != lockKey(s.txns[t].query.user)
    case Exists(t) => At(s, t, Locked)
    case Count(t) => At(s, t, Missing)
    case Insert(t) =>
      // a pending insert of the same key by another transaction makes this one wait
      At(s, t, UnderLimit) &&
      forall u :: u in s.txns && s.txns[u].pc.Inserted? ==> s.txns[u].query != s.txns[t].query
    case Commit(t) => At(s, t, Found) || At(s, t, Inserted)
    case Rollback(t) => At(s, t, AtLimit) || At(s, t, NotInserted)
    case Abort(t) => t in s.txns && HoldsLock(s.txns[t]) && !s.txns[t].pc.Ending?
    case Unlock(t) => t in s.txns && s.txns[t].pc.Ending?
    case Clean(_) => true
  }

  function Go(s: State, t: nat, pc: Pc): State
    requires t in s.txns
  {
    s.(txns := s.txns[t := s.txns[t].(pc := pc)])
  }

  function Record(s: State, t: nat, answer: Answer): State
    requires t in s.txns
  {
    s.(log := s.log + [Reserved(t, s.txns[t].query, answer)])
  }

  /** The log grows at the statement that decides the answer. */
  function Next(s: State, e: Step, lockKey: nat -> int): State
    requires Enabled(s, e, lockKey)
  {
    match e
    case Begin(t, q) => s.(txns := s.txns[t := Txn(q, Started)])
    case Lock(t) => Go(s, t, Locked)
    case Exists(t) =>
      if s.txns[t].query in s.rows then Record(Go(s, t, Found), t, Granted) else Go(s, t, Missing)
    case Count(t) =>
      if |SameDay(s.rows, s.txns[t].query)| >= Limit(s.txns[t].query.kind)
      then Record(Go(s, t, AtLimit), t, Denied) else Go(s, t, UnderLimit)
    case Insert(t) => Go(s, t, if s.txns[t].query in s.rows then NotInserted else Inserted)
    case Commit(t) =>
      if s.txns[t].pc.Inserted?
      then Record(Go(s, t, Ending(Granted)), t, Granted).(rows := s.rows + {s.txns[t].query})
      else Go(s, t, Ending(Granted))
    case Rollback(t) => Go(s, t, Ending(if s.txns[t].pc.AtLimit? then Denied else Errored))
    case Abort(t) => Go(s, t, Ending(Errored))
    case Unlock(t) => Go(s, t, Done(s.txns[t].pc.answer))
    case Clean(today) => s.(rows := Cleaned(s.rows, today), log := s.log + [CleanedUp(today)])
  }

  ghost predicate Reachable(s: State, trace: seq<Step>, t: State, lockKey: nat -> int)
    decreases |trace|
  {
    if trace == [] then s == t
    else Enabled(s, trace[0], lockKey) && Reachable(Next(s, trace[0], lockKey), trace[1..], t, lockKey)
  }

  /** What a transaction's progress says about the committed rows and the log. */
  ghost predicate TxnInv(rows: set<Row>, log: seq<Entry>, t: nat, x: Txn) {
    match x.pc
    case Found => Reserved(t, x.query, Granted) in log
    case Missing => x.query !in rows
    case AtLimit => Reserved(t, x.query, Denied) in log
    case UnderLimit => x.query !in rows && |SameDay(rows, x.query)| < Limit(x.query.kind)
    case Inserted => x.query !in rows && |SameDay(rows, x.query)| < Limit(x.query.kind)
    case NotInserted => false
    case Ending(answer) => answer.Errored? || Reserved(t, x.query, answer) in log
    case Done(answer) => answer.Errored? || Reserved(t, x.query, answer) in log
    case _ => true
  }

  /** Two holders never share a lock. */
  ghost predicate LockInv(txns: map<nat, Txn>, lockKey: nat -> int) {
    forall t, u :: t in txns && u in txns && t != u && HoldsLock(txns[t]) && HoldsLock(txns[u]) ==>
      lockKey(txns[t].query.user) != lockKey(txns[u].query.user)
  }

  ghost predicate Inv(s: State, lockKey: nat -> int) {
    && Legal(s.log) && Replay(s.log) == s.rows
    && (forall t :: t in s.txns ==> TxnInv(s.rows, s.log, t, s.txns[t]))
    && LockInv(s.txns, lockKey)
  }

  /** A new entry keeps what is known of a transaction, and deleting rows or committing another
      user's row does too. */
  lemma TxnInvFrame(rows: set<Row>, log: seq<Entry>, t: nat, x: Txn, after: set<Row>, entry: Entry)
    requires TxnInv(rows, log, t, x)
    requires after <= rows || (exists q :: after == rows + {q} && (HoldsLock(x) ==> q.user != x.query.user))
    ensures TxnInv(after, log + [entry], t, x)
  {
    if HoldsLock(x) {
      assert SameDay(after, x.query) <= SameDay(rows, x.query);
      SubsetSize(SameDay(after, x.query), SameDay(rows, x.query));
    }
  }

  lemma CommitKeepsInv(s: State, t: nat, lockKey: nat -> int)
    requires Inv(s, lockKey) && At(s, t, Inserted)
    ensures var n := Next(s, Commit(t), lockKey);
            && Legal(n.log) && Replay(n.log) == n.rows
            && (forall u :: u in n.txns ==> TxnInv(n.rows, n.log, u, n.txns[u]))
            && LockInv(n.txns, lockKey)
  {
    var n := Next(s, Commit(t), lockKey);
    var q := s.txns[t].query;
    var entry := Reserved(t, q, Granted);
    assert TxnInv(s.rows, s.log, t, s.txns[t]);
    assert n.log[..|n.log| - 1] == s.log;
    forall u | u in n.txns && u != t
      ensures TxnInv(n.rows, n.log, u, n.txns[u])
    {
      assert HoldsLock(s.txns[u]) ==> q.user != s.txns[u].query.user;
      TxnInvFrame(s.rows, s.log, u, s.txns[u], s.rows + {q}, entry);
    }
  }

  lemma CleanKeepsInv(s: State, today: int, lockKey: nat -> int)
    requires Inv(s, lockKey)
    ensures Inv(Next(s, Clean(today), lockKey), lockKey)
  {
    var n := Next(s, Clean(today), lockKey);
    assert n.log[..|n.log| - 1] == s.log;
    forall u | u in n.txns
      ensures TxnInv(n.rows, n.log, u, n.txns[u])
    {
      TxnInvFrame(s.rows, s.log, u, s.txns[u], n.rows, CleanedUp(today));
    }
  }

  /** The statements that decide an answer without changing a row. */
  lemma DecideKeepsInv(s: State, e: Step, lockKey: nat -> int)
    requires Inv(s, lockKey) && Enabled(s, e, lockKey) && (e.Exists? || e.Count?)
    ensures Inv(Next(s, e, lockKey), lockKey)
  {
    var n := Next(s, e, lockKey);
    assert TxnInv(s.rows, s.log, e.txn, s.txns[e.txn]);
    if n.log != s.log {
      assert n.log[..|n.log| - 1] == s.log;
      forall u | u in n.txns && u != e.txn
        ensures TxnInv(n.rows, n.log, u, n.txns[u])
      {
        TxnInvFrame(s.rows, s.log, u, s.txns[u], s.rows, n.log[|n.log| - 1]);
      }
    }
  }

  /** The statements that change neither a committed row nor the history. */
  lemma QuietKeepsInv(s: State, e: Step, lockKey: nat -> int)
    requires Inv(s, lockKey) && Enabled(s, e, lockKey)
    requires !e.Clean? && Next(s, e, lockKey).log == s.log
    ensures Inv(Next(s, e, lockKey), lockKey)
  {
    var n := Next(s, e, lockKey);
    OwnProgress(s, e, lockKey);
    assert n.txns == s.txns[e.txn := n.txns[e.txn]];
    assert LockInv(n.txns, lockKey);
  }

  lemma OwnProgress(s: State, e: Step, lockKey: nat -> int)
    requires Inv(s, lockKey) && Enabled(s, e, lockKey)
    requires !e.Clean? && Next(s, e, lockKey).log == s.log
    ensures var n := Next(s, e, lockKey);
            n.rows == s.rows && e.txn in n.txns && TxnInv(n.rows, n.log, e.txn, n.txns[e.txn])
  {
    assert e.Begin? || TxnInv(s.rows, s.log, e.txn, s.txns[e.txn]);
  }

  lemma NextKeepsInv(s: State, e: Step, lockKey: nat -> int)
    requires Inv(s, lockKey) && Enabled(s, e, lockKey)
    ensures Inv(Next(s, e, lockKey), lockKey)
  {
    if e.Commit? && At(s, e.txn, Inserted) {
      CommitKeepsInv(s, e.txn, lockKey);
    } else if e.Clean? {
      CleanKeepsInv(s, e.today, lockKey);
    } else if e.Exists? || e.Count? {
      DecideKeepsInv(s, e, lockKey);
    } else {
      QuietKeepsInv(s, e, lockKey);
    }
  }

  lemma {:induction false} ReachableInv(s: State, trace: seq<Step>, t: State, lockKey: nat -> int)
    requires Inv(s, lockKey) && Reachable(s, trace, t, lockKey)
    ensures Inv(t, lockKey)
    decreases |trace|
  {
    if trace != [] {
      NextKeepsInv(s, trace[0], lockKey);
      ReachableInv(Next(s, trace[0], lockKey), trace[1..], t, lockKey);
    }
  }

  const EMPTY := State({}, map[], [])

  /** Every interleaving is equivalent to running the calls one after the other, in the
      order their answers were decided: the serial history has the same rows, and
      every call that did not fail got the answer it has there. */
  lemma Serializable(trace: seq<Step>, t: State, lockKey: nat -> int)
    requires Reachable(EMPTY, trace, t, lockKey)
    ensures Legal(t.log) && Replay(t.log) == t.rows
    ensures forall x :: x in t.txns && t.txns[x].pc.Done? && !t.txns[x].pc.answer.Errored? ==>
              Reserved(x, t.txns[x].query, t.txns[x].pc.answer) in t.log
  {
    ReachableInv(EMPTY, trace, t, lockKey);
    assert forall x :: x in t.txns ==> TxnInv(t.rows, t.log, x, t.txns[x]);
  }

  /** No user ever exceeds a daily limit, and the branch for a lost insert is dead. */
  lemma DailyLimit(trace: seq<Step>, t: State, lockKey: nat -> int, q: Row)
    requires Reachable(EMPTY, trace, t, lockKey)
    ensures |SameDay(t.rows, q)| <= Limit(q.kind)
    ensures forall x :: x in t.txns ==> !t.txns[x].pc.NotInserted?
  {
    ReachableInv(EMPTY, trace, t, lockKey);
    ReplayWithinLimit(t.log, q);
    assert forall x :: x in t.txns ==> TxnInv(t.rows, t.log, x, t.txns[x]);
  }

  // ---------- the order of the history ----------

  /** Every call in the history has begun. */
  predicate Begun(s: State) {
    forall k :: 0 <= k < |s.log| && s.log[k].Reserved? ==> s.log[k].txn in s.txns
  }

  lemma {:induction false} HistoryGrows(s: State, trace: seq<Step>, t: State, lockKey: nat -> int)
    requires Reachable(s, trace, t, lockKey) && Begun(s)
    ensures s.log <= t.log && Begun(t) && s.txns.Keys <= t.txns.Keys
    decreases |trace|
  {
    if trace != [] { HistoryGrows(Next(s, trace[0], lockKey), trace[1..], t, lockKey); }
  }

  /** The history keeps the order of real time: a call that had its answer before another one
      began comes before it. */
  lemma EndedComesFirst(before: seq<Step>, s: State, after: seq<Step>, t: State, lockKey: nat -> int,
                        first: nat, second: nat, k: nat)
    requires Reachable(EMPTY, before, s, lockKey) && Reachable(s, after, t, lockKey)
    requires first in s.txns && s.txns[first].pc.Done? && !s.txns[first].pc.answer.Errored? && second !in s.txns
    requires k < |t.log| && t.log[k].Reserved? && t.log[k].txn == second
    ensures exists i :: 0 <= i < k && t.log[i] == Reserved(first, s.txns[first].query, s.txns[first].pc.answer)
  {
    HistoryGrows(EMPTY, before, s, lockKey);
    HistoryGrows(s, after, t, lockKey);
    Serializable(before, s, lockKey);
    var i :| 0 <= i < |s.log| && s.log[i] == Reserved(first, s.txns[first].query, s.txns[first].pc.answer);
    assert t.log[i] == s.log[i];
    assert forall j :: 0 <= j < |s.log| && t.log[j].Reserved? ==> t.log[j] == s.log[j] && t.log[j].txn in s.txns;
  }

  // ---------- every call gets its answer ----------

  /** The statements that bring a transaction nearer to its end. */
  predicate Advances(e: Step) { !e.Begin? && !e.Abort? && !e.Clean? }

  /** How many statements a transaction has before it at most. */
  function Remaining(pc: Pc): nat {
    match pc
    case Started => 6
    case Locked => 5
    case Missing => 4
    case UnderLimit => 3
    case Ending(_) => 1
    case Done(_) => 0
    case _ => 2
  }

  lemma HolderAdvances(s: State, t: nat, lockKey: nat -> int) returns (e: Step)
    requires Inv(s, lockKey) && t in s.txns && HoldsLock(s.txns[t])
    ensures Advances(e) && Enabled(s, e, lockKey) && e.txn == t
  {
    match s.txns[t].pc
    case Locked => e := Exists(t);
    case Found => e := Commit(t);
    case Missing => e := Count(t);
    case AtLimit => e := Rollback(t);
    case UnderLimit =>
      e := Insert(t);
      assert forall u :: u in s.txns && s.txns[u].pc.Inserted? ==> s.txns[u].query != s.txns[t].query;
    case Inserted => e := Commit(t);
    case NotInserted => e := Rollback(t);
    case Ending(_) => e := Unlock(t);
  }

  /** No deadlock: while some call has not its answer, some transaction can go on. */
  lemma SomeCallAdvances(trace: seq<Step>, s: State, t: nat, lockKey: nat -> int) returns (e: Step)
    requires Reachable(EMPTY, trace, s, lockKey) && t in s.txns && !s.txns[t].pc.Done?
    ensures Advances(e) && Enabled(s, e, lockKey)
  {
    ReachableInv(EMPTY, trace, s, lockKey);
    if u :| u in s.txns && HoldsLock(s.txns[u]) {
      e := HolderAdvances(s, u, lockKey);
    } else {
      e := Lock(t);
    }
  }

  /** And each of its statements brings it nearer to the end, so every call is over after at most
      seven statements of its own. */
  lemma AdvancingEnds(s: State, e: Step, lockKey: nat -> int)
    requires Enabled(s, e, lockKey) && Advances(e)
    ensures var n := Next(s, e, lockKey);
            && e.txn in n.txns && Remaining(n.txns[e.txn].pc) < Remaining(s.txns[e.txn].pc) <= 6
            && n.txns == s.txns[e.txn := n.txns[e.txn]] && n.txns[e.txn].query == s.txns[e.txn].query
  {
  }

  predicate Failing(pc: Pc) {
    pc.NotInserted? || (pc.Ending? && pc.answer.Errored?) || (pc.Done? && pc.answer.Errored?)
  }

  ghost predicate NoneFails(s: State) { forall x :: x in s.txns ==> !Failing(s.txns[x].pc) }

  /** Only an aborted transaction answers with an error. */
  lemma {:induction false} ErrorsAreAborts(s: State, trace: seq<Step>, t: State, lockKey: nat -> int)
    requires Inv(s, lockKey) && Reachable(s, trace, t, lockKey) && NoneFails(s)
    requires forall i :: 0 <= i < |trace| ==> !trace[i].Abort?
    ensures NoneFails(t)
    decreases |trace|
  {
    if trace != [] {
      NextKeepsInv(s, trace[0], lockKey);
      ErrorsAreAborts(Next(s, trace[0], lockKey), trace[1..], t, lockKey);
    }
  }

  // ---------- how much a day allows ----------

  /** The calls of one user for some resources, one after the other, on one day. */
  function ReserveAll(rows: set<Row>, kind: Kind, user: nat, day: int, resources: seq<nat>): (set<Row>, seq<Answer>) {
    if resources == [] then (rows, [])
    else
      var (before, answers) := ReserveAll(rows, kind, user, day, resources[..|resources| - 1]);
      var (after, answer) := Reserve(before, Row(kind, user, resources[|resources| - 1], day));
      (after, answers + [answer])
  }

  function RowsOf(kind: Kind, user: nat, day: int, resources: seq<nat>): set<Row> {
    set i | 0 <= i < |resources| :: Row(kind, user, resources[i], day)
  }

  function Allowance(kind: Kind): nat { if kind == UrlFetch then 10 else 5 }

  lemma {:induction false} RowsOfDistinct(kind: Kind, user: nat, day: int, resources: seq<nat>)
    requires Distinct(resources)
    ensures |RowsOf(kind, user, day, resources)| == |resources|
  {
    if resources != [] {
      var front, last := resources[..|resources| - 1], resources[|resources| - 1];
      RowsOfDistinct(kind, user, day, front);
      assert RowsOf(kind, user, day, resources) == RowsOf(kind, user, day, front) + {Row(kind, user, last, day)};
      assert Row(kind, user, last, day) !in RowsOf(kind, user, day, front);
    }
  }

  /** One more call on a day whose rows so far are known. */
  lemma OneMoreCall(rows: set<Row>, got: set<Row>, q: Row)
    requires forall r :: r in rows ==> !(r.kind == q.kind && r.user == q.user && r.day == q.day)
    requires forall r :: r in got ==> r.kind == q.kind && r.user == q.user && r.day == q.day
    requires q !in got
    ensures Reserve(rows + got, q) ==
            if |got| < Allowance(q.kind) then (rows + (got + {q}), Granted) else (rows + got, Denied)
  {
    assert SameDay(rows + got, q) == got;
    assert rows + got + {q} == rows + (got + {q});
  }

  /** The resources that a day has room for: the first ones. */
  function Allowed(kind: Kind, resources: seq<nat>): seq<nat> {
    if |resources| <= Allowance(kind) then resources else resources[..Allowance(kind)]
  }

  /** On a day that a user starts without rows of a kind, the first ten different articles are fetched,
      or the first five different reasonings read, and no more: whatever other users, other
      days and the other kind have. */
  lemma {:induction false} AllowanceIsExact(rows: set<Row>, kind: Kind, user: nat, day: int, resources: seq<nat>)
    requires Distinct(resources)
    requires forall r :: r in rows ==> !(r.kind == kind && r.user == user && r.day == day)
    ensures var result := ReserveAll(rows, kind, user, day, resources);
            && result.0 == rows + RowsOf(kind, user, day, Allowed(kind, resources))
            && |result.1| == |resources|
            && forall i :: 0 <= i < |resources| ==> result.1[i] == if i < Allowance(kind) then Granted else Denied
  {
    if resources != [] {
      var front, last := resources[..|resources| - 1], resources[|resources| - 1];
      AllowanceIsExact(rows, kind, user, day, front);
      LastCall(rows, kind, user, day, resources, RowsOf(kind, user, day, Allowed(kind, front)),
               ReserveAll(rows, kind, user, day, front).1);
    }
  }

  lemma LastCall(rows: set<Row>, kind: Kind, user: nat, day: int, resources: seq<nat>, got: set<Row>,
                 answers: seq<Answer>)
    requires resources != [] && Distinct(resources)
    requires forall r :: r in rows ==> !(r.kind == kind && r.user == user && r.day == day)
    requires got == RowsOf(kind, user, day, Allowed(kind, resources[..|resources| - 1]))
    requires ReserveAll(rows, kind, user, day, resources[..|resources| - 1]) == (rows + got, answers)
    ensures ReserveAll(rows, kind, user, day, resources) ==
            (rows + RowsOf(kind, user, day, Allowed(kind, resources)),
             answers + [if |resources| <= Allowance(kind) then Granted else Denied])
  {
    AllowedNext(kind, user, day, resources);
    OneMoreCall(rows, got, Row(kind, user, resources[|resources| - 1], day));
  }

  lemma AllowedNext(kind: Kind, user: nat, day: int, resources: seq<nat>)
    requires resources != [] && Distinct(resources)
    ensures var got := RowsOf(kind, user, day, Allowed(kind, resources[..|resources| - 1]));
            var q := Row(kind, user, resources[|resources| - 1], day);
            && q !in got && |got| == Min(|resources| - 1, Allowance(kind))
            && RowsOf(kind, user, day, Allowed(kind, resources)) ==
               if |resources| <= Allowance(kind) then got + {q} else got
  {
    NotYet(kind, user, day, resources);
    RowsOfDistinct(kind, user, day, Allowed(kind, resources[..|resources| - 1]));
  }

  lemma NotYet(kind: Kind, user: nat, day: int, resources: seq<nat>)
    requires resources != [] && Distinct(resources)
    ensures var front, last := resources[..|resources| - 1], resources[|resources| - 1];
            && Distinct(Allowed(kind, front))
            && Row(kind, user, last, day) !in RowsOf(kind, user, day, Allowed(kind, front))
  {
    var allowed := Allowed(kind, resources[..|resources| - 1]);
    assert forall k :: 0 <= k < |allowed| ==> allowed[k] == resources[k];
  }

  /** What was granted is granted again on the same day and takes no further row. */
  lemma RepeatIsFree(rows: set<Row>, q: Row)
    requires Reserve(rows, q).1 == Granted
    ensures Reserve(Reserve(rows, q).0, q) == (Reserve(rows, q).0, Granted)
  {
  }

  /** The cleanup leaves no bias row older than six days and deletes nothing else. */
  lemma CleanedIff(rows: set<Row>, today: int, r: Row)
    ensures r in Cleaned(rows, today) <==> r in rows && (r.kind == UrlFetch || r.day >= today - 6)
  {
  }
}
