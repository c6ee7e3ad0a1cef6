/** Recording an article read under concurrency (recordArticleRead in
    backend/handlers/entitlements.go, with the cleanup of
    backend/services/read_tracking.go).

    Transactions run statement by statement in any interleaving, READ COMMITTED. NOW() and
    CURRENT_DATE are fixed when the transaction begins. The advisory lock is taken on a
    hash of the user and released after the commit is visible. A transaction's writes
    stay its own until the commit. */
module ReadTransactions {
  import opened Common
  import opened ReadEntitlements
  import Quotas = ReadQuotas

  /** How a first opening is paid for: the month's new count, a new choice, or an old one. */
  datatype Fee = Counting(count: nat) | Choosing | Reusing

  datatype Pc =
    | Started                          // begun, waiting for the lock
    | Locked
    | Opened(until: Time)              // a live grant was found
    | NoGrant
    | NoChoice                         // nothing is chosen in this category today
    | Duplicate                        // the insert of the choice met a row
    | Refusing                         // the quota is used up
    | Paid(fee: Fee)                   // the fee is written but not committed
    | Granted(fee: Fee)                // and so is the grant
    | Ending(answer: Option<Answer>)   // committed or rolled back, lock not yet released
    | Done(answer: Option<Answer>)     // None is an error

  /** A call that opens a transaction: with unlimited reading it answers at once. */
  type Call = e: Event | e.Reading? && !e.access.unlimitedReading witness Reading(0, 0, "", Access(false, 0), 0)

  datatype Txn = Txn(call: Call, pc: Pc)

  datatype Entry = Entry(txn: nat, event: Event, answer: Answer)

  datatype State = State(tables: Tables, txns: map<nat, Txn>, log: seq<Entry>)

  datatype Statement =
    | Begin(txn: nat, call: Call)
    | Lock(txn: nat)
    | SelectGrant(txn: nat)
    | CountRead(txn: nat)      // the upsert of the monthly count
    | SelectChoice(txn: nat)
    | InsertChoice(txn: nat)
    | UpsertGrant(txn: nat)
    | Commit(txn: nat)
    | Rollback(txn: nat)       // a refusal or any error: nothing is left behind
    | Unlock(txn: nat)
    | Clean(cleanup: Event)

  predicate HoldsLock(x: Txn) { !x.pc.Started? && !x.pc.Done? }

  predicate Counted(x: Txn) { (x.pc.Paid? || x.pc.Granted?) && x.pc.fee.Counting? }

  function ChoiceKey(cal: Calendar, call: Call): (nat, string, int) {
    (call.user, CanonicalCategory(call.category), cal.date(call.now))
  }

  predicate At(s: State, t: nat, pc: Pc) { t in s.txns && s.txns[t].pc == pc }

  /** The transaction opens once more the article that it found chosen. */
  predicate Reuses(x: Txn) { (x.pc.Paid? || x.pc.Granted?) && x.pc.fee.Reusing? }

  /** A cleanup waits for an uncommitted change of a row that it would delete, and a transaction
      that found its choice made does not stay open for the six days that a choice is kept. */
  ghost predicate CleanEnabled(s: State, e: Event, cal: Calendar) {
    && (e.CleaningGrants? || e.CleaningChosen? || e.CleaningMonthly?)
    && forall t :: t in s.txns && HoldsLock(s.txns[t]) ==>
         var call := s.txns[t].call;
         && (e.CleaningChosen? && Reuses(s.txns[t]) ==> cal.date(call.now) >= cal.date(e.now) - 6)
         && (e.CleaningMonthly? && Counted(s.txns[t]) && (call.user, cal.MonthOf(call.now)) in s.tables.monthly ==>
               cal.MonthOf(call.now) >= cal.MonthOf(e.now))
  }

  ghost predicate Enabled(s: State, e: Statement, cal: Calendar, lockKey: nat -> int) {
    match e
    case Begin(t, call) => t !in s.txns
    case Lock(t) =>
      At(s, t, Started) &&
      forall u :: u in s.txns && HoldsLock(s.txns[u]) ==> lockKey(s.txns[u].call.user) != lockKey(s.txns[t].call.user)
    case SelectGrant(t) => At(s, t, Locked)
    case CountRead(t) => At(s, t, NoGrant) && s.txns[t].call.access.monthlyReadLimit > 0
    case SelectChoice(t) => At(s, t, NoGrant) && s.txns[t].call.access.monthlyReadLimit <= 0
    case InsertChoice(t) => At(s, t, NoChoice)
    case UpsertGrant(t) => t in s.txns && s.txns[t].pc.Paid?
    case Commit(t) => t in s.txns && (s.txns[t].pc.Opened? || s.txns[t].pc.Granted?)
    case Rollback(t) => t in s.txns && HoldsLock(s.txns[t]) && !s.txns[t].pc.Ending?
    case Unlock(t) => t in s.txns && s.txns[t].pc.Ending?
    case Clean(cleanup) => CleanEnabled(s, cleanup, cal)
  }

  function Go(s: State, t: nat, pc: Pc): State
    requires t in s.txns
  {
    s.(txns := s.txns[t := s.txns[t].(pc := pc)])
  }

  function Record(s: State, t: nat, answer: Answer): State
    requires t in s.txns
  {
    s.(log := s.log + [Entry(t, s.txns[t].call, answer)])
  }

  function Expiry(call: Call): Time { call.now + RETENTION_DAYS * DAY }

  /** The rows a commit makes visible. */
  function Written(tables: Tables, cal: Calendar, call: Call, fee: Fee): Tables {
    var paid := match fee
      case Counting(count) => tables.(monthly := tables.monthly[(call.user, cal.MonthOf(call.now)) := count])
      case Choosing => tables.(chosen := tables.chosen[ChoiceKey(cal, call) := call.article])
      case Reusing => tables;
    paid.(grants := paid.grants[(call.user, call.article) := Grant(call.now, Expiry(call))])
  }

  /** The log grows at the statement that decides the answer. */
  function Next(s: State, e: Statement, cal: Calendar, lockKey: nat -> int): State
    requires Enabled(s, e, cal, lockKey)
  {
    match e
    case Begin(t, call) => s.(txns := s.txns[t := Txn(call, Started)])
    case Lock(t) => Go(s, t, Locked)
    case SelectGrant(t) =>
      var call := s.txns[t].call;
      if LiveGrant(s.tables, call.user, call.article, call.now)
      then
        var until := s.tables.grants[(call.user, call.article)].expiresAt;
        Record(Go(s, t, Opened(until)), t, Allowed(Some(until)))
      else Go(s, t, NoGrant)
    case CountRead(t) =>
      var call := s.txns[t].call;
      var key := (call.user, cal.MonthOf(call.now));
      if key !in s.tables.monthly then Go(s, t, Paid(Counting(1)))
      else if s.tables.monthly[key] < call.access.monthlyReadLimit
      then Go(s, t, Paid(Counting(s.tables.monthly[key] + 1)))
      else Record(Go(s, t, Refusing), t, Refused)
    case SelectChoice(t) =>
      var call := s.txns[t].call;
      var key := ChoiceKey(cal, call);
      if key !in s.tables.chosen then Go(s, t, NoChoice)
      else if s.tables.chosen[key] == call.article then Go(s, t, Paid(Reusing))
      else Record(Go(s, t, Refusing), t, Refused)
    case InsertChoice(t) =>
      Go(s, t, if ChoiceKey(cal, s.txns[t].call) in s.tables.chosen then Duplicate else Paid(Choosing))
    case UpsertGrant(t) => Go(s, t, Granted(s.txns[t].pc.fee))
    case Commit(t) =>
      var x := s.txns[t];
      if x.pc.Opened? then Go(s, t, Ending(Some(Allowed(Some(x.pc.until)))))
      else
        var answer := Allowed(Some(Expiry(x.call)));
        Record(Go(s, t, Ending(Some(answer))), t, answer).(tables := Written(s.tables, cal, x.call, x.pc.fee))
    case Rollback(t) => Go(s, t, Ending(if s.txns[t].pc.Refusing? then Some(Refused) else None))
    case Unlock(t) => Go(s, t, Done(s.txns[t].pc.answer))
    case Clean(cleanup) =>
      s.(tables := Apply(s.tables, cal, cleanup).0, log := s.log + [Entry(0, cleanup, Refused)])
  }

  ghost predicate Reachable(s: State, trace: seq<Statement>, t: State, cal: Calendar, lockKey: nat -> int)
    decreases |trace|
  {
    if trace == [] then s == t
    else Enabled(s, trace[0], cal, lockKey) &&
         Reachable(Next(s, trace[0], cal, lockKey), trace[1..], t, cal, lockKey)
  }

  // ---------- the serial history ----------

  function Replay(log: seq<Entry>, cal: Calendar): Tables {
    if log == [] then EMPTY else Apply(Replay(log[..|log| - 1], cal), cal, log[|log| - 1].event).0
  }

  /** Every call in the history got the answer that the whole call gives at that point. */
  predicate Legal(log: seq<Entry>, cal: Calendar) {
    log == [] ||
    (var front, last := log[..|log| - 1], log[|log| - 1];
     Legal(front, cal) && (IsCall(last.event) ==> Apply(Replay(front, cal), cal, last.event).1 == last.answer))
  }

  // ---------- invariant ----------

  /** What the fee says about the committed rows. */
  ghost predicate FeeInv(tables: Tables, cal: Calendar, call: Call, fee: Fee) {
    var key := ChoiceKey(cal, call);
    match fee
    case Counting(count) =>
      0 < call.access.monthlyReadLimit && count <= call.access.monthlyReadLimit &&
      count == Used(tables, call.user, cal.MonthOf(call.now)) + 1
    case Choosing => call.access.monthlyReadLimit <= 0 && key !in tables.chosen
    case Reusing => call.access.monthlyReadLimit <= 0 && key in tables.chosen && tables.chosen[key] == call.article
  }

  ghost predicate TxnInv(tables: Tables, log: seq<Entry>, cal: Calendar, t: nat, x: Txn) {
    match x.pc
    case Opened(until) => Entry(t, x.call, Allowed(Some(until))) in log
    case NoGrant => !LiveGrant(tables, x.call.user, x.call.article, x.call.now)
    case NoChoice =>
      !LiveGrant(tables, x.call.user, x.call.article, x.call.now) && FeeInv(tables, cal, x.call, Choosing)
    case Duplicate => false
    case Refusing => Entry(t, x.call, Refused) in log
    case Paid(fee) =>
      !LiveGrant(tables, x.call.user, x.call.article, x.call.now) && FeeInv(tables, cal, x.call, fee)
    case Granted(fee) =>
      !LiveGrant(tables, x.call.user, x.call.article, x.call.now) && FeeInv(tables, cal, x.call, fee)
    case Ending(answer) => answer.None? || Entry(t, x.call, answer.value) in log
    case Done(answer) => answer.None? || Entry(t, x.call, answer.value) in log
    case _ => true
  }

  /** Two holders never share a lock. */
  ghost predicate LockInv(txns: map<nat, Txn>, lockKey: nat -> int) {
    forall t, u :: t in txns && u in txns && t != u && HoldsLock(txns[t]) && HoldsLock(txns[u]) ==>
      lockKey(txns[t].call.user) != lockKey(txns[u].call.user)
  }

  /** The serial history explains the committed rows. */
  predicate Explains(log: seq<Entry>, tables: Tables, cal: Calendar) {
    Legal(log, cal) && Replay(log, cal) == tables
  }

  ghost predicate Inv(s: State, cal: Calendar, lockKey: nat -> int) {
    && Explains(s.log, s.tables, cal)
    && (forall t :: t in s.txns ==> TxnInv(s.tables, s.log, cal, t, s.txns[t]))
    && LockInv(s.txns, lockKey)
  }

  /** The rows that matter to a transaction are as they were; a grant may have gone. */
  ghost predicate Undisturbed(tables: Tables, after: Tables, cal: Calendar, x: Txn) {
    var key := ChoiceKey(cal, x.call);
    && (LiveGrant(after, x.call.user, x.call.article, x.call.now) ==>
          LiveGrant(tables, x.call.user, x.call.article, x.call.now))
    && (Counted(x) ==>
          Used(after, x.call.user, cal.MonthOf(x.call.now)) == Used(tables, x.call.user, cal.MonthOf(x.call.now)))
    && (key in after.chosen ==> key in tables.chosen)
    && (Reuses(x) && key in tables.chosen ==> key in after.chosen && after.chosen[key] == tables.chosen[key])
  }

  /** What a commit writes is what the whole call does at that point. */
  lemma CommitIsRead(tables: Tables, log: seq<Entry>, cal: Calendar, t: nat, x: Txn)
    requires TxnInv(tables, log, cal, t, x) && x.pc.Granted?
    ensures Apply(tables, cal, x.call) == (Written(tables, cal, x.call, x.pc.fee), Allowed(Some(Expiry(x.call))))
  {
    var key := ChoiceKey(cal, x.call);
    if x.pc.fee.Reusing? { assert tables.chosen[key := x.call.article] == tables.chosen; }
  }

  lemma CommitKeepsInv(s: State, t: nat, cal: Calendar, lockKey: nat -> int)
    requires Inv(s, cal, lockKey) && t in s.txns && s.txns[t].pc.Granted?
    ensures var n := Next(s, Commit(t), cal, lockKey);
            && Explains(n.log, n.tables, cal)
            && (forall u :: u in n.txns ==> TxnInv(n.tables, n.log, cal, u, n.txns[u]))
            && LockInv(n.txns, lockKey)
  {
    var x := s.txns[t];
    var entry := Entry(t, x.call, Allowed(Some(Expiry(x.call))));
    assert TxnInv(s.tables, s.log, cal, t, x);
    CommitIsRead(s.tables, s.log, cal, t, x);
    forall u | u in s.txns && u != t
      ensures TxnInv(Written(s.tables, cal, x.call, x.pc.fee), s.log + [entry], cal, u, s.txns[u])
    {
    }
  }

  lemma CleanKeepsInv(s: State, e: Event, cal: Calendar, lockKey: nat -> int)
    requires Inv(s, cal, lockKey) && CleanEnabled(s, e, cal)
    ensures var n := Next(s, Clean(e), cal, lockKey);
            && Explains(n.log, n.tables, cal)
            && (forall u :: u in n.txns ==> TxnInv(n.tables, n.log, cal, u, n.txns[u]))
            && LockInv(n.txns, lockKey)
  {
    var n := Next(s, Clean(e), cal, lockKey);
    assert n.log == s.log + [Entry(0, e, Refused)] && n.log[..|s.log|] == s.log;
    forall u | u in n.txns
      ensures TxnInv(n.tables, n.log, cal, u, n.txns[u])
    {
      assert TxnInv(s.tables, s.log, cal, u, s.txns[u]);
      assert HoldsLock(s.txns[u]) ==> Undisturbed(s.tables, n.tables, cal, s.txns[u]);
    }
  }

  /** The statements that decide an answer, or a fee, without changing a committed row. */
  lemma DecideKeepsInv(s: State, e: Statement, cal: Calendar, lockKey: nat -> int)
    requires Inv(s, cal, lockKey) && Enabled(s, e, cal, lockKey)
    requires e.SelectGrant? || e.CountRead? || e.SelectChoice?
    ensures Inv(Next(s, e, cal, lockKey), cal, lockKey)
  {
    var n := Next(s, e, cal, lockKey);
    if n.log == s.log {
      QuietKeepsInv(s, e, cal, lockKey);
    } else {
      DecisionIsRead(s, e, cal, lockKey);
      LocksHold(s, e, cal, lockKey);
    }
  }

  /** A statement that does not decide leaves the transaction with no live grant and the
      fee that the quota asks for. */
  lemma FeeIsDue(s: State, e: Statement, cal: Calendar, lockKey: nat -> int)
    requires Inv(s, cal, lockKey) && Enabled(s, e, cal, lockKey)
    requires e.SelectGrant? || e.CountRead? || e.SelectChoice?
    requires Next(s, e, cal, lockKey).log == s.log
    ensures TxnInv(s.tables, s.log, cal, e.txn, Next(s, e, cal, lockKey).txns[e.txn])
  {
    assert TxnInv(s.tables, s.log, cal, e.txn, s.txns[e.txn]);
  }

  /** An answer recorded without writing is the whole call's answer at that point. */
  lemma DecisionIsRead(s: State, e: Statement, cal: Calendar, lockKey: nat -> int)
    requires Inv(s, cal, lockKey) && Enabled(s, e, cal, lockKey)
    requires e.SelectGrant? || e.CountRead? || e.SelectChoice?
    requires Next(s, e, cal, lockKey).log != s.log
    ensures var n := Next(s, e, cal, lockKey);
            var entry := n.log[|n.log| - 1];
            n.log == s.log + [entry] && entry.event == s.txns[e.txn].call &&
            Apply(s.tables, cal, entry.event) == (s.tables, entry.answer) &&
            TxnInv(s.tables, n.log, cal, e.txn, n.txns[e.txn])
  {
    assert TxnInv(s.tables, s.log, cal, e.txn, s.txns[e.txn]);
    var n := Next(s, e, cal, lockKey);
    assert n.log[|s.log|] in n.log;
  }

  lemma NextKeepsInv(s: State, e: Statement, cal: Calendar, lockKey: nat -> int)
    requires Inv(s, cal, lockKey) && Enabled(s, e, cal, lockKey)
    ensures Inv(Next(s, e, cal, lockKey), cal, lockKey)
  {
    if e.Commit? && s.txns[e.txn].pc.Granted? {
      CommitKeepsInv(s, e.txn, cal, lockKey);
    } else if e.Clean? {
      CleanKeepsInv(s, e.cleanup, cal, lockKey);
    } else if e.SelectGrant? || e.CountRead? || e.SelectChoice? {
      DecideKeepsInv(s, e, cal, lockKey);
    } else {
      QuietKeepsInv(s, e, cal, lockKey);
    }
  }

  /** The statements that change neither a committed row nor the history. */
  lemma QuietKeepsInv(s: State, e: Statement, cal: Calendar, lockKey: nat -> int)
    requires Inv(s, cal, lockKey) && Enabled(s, e, cal, lockKey)
    requires !e.Clean? && Next(s, e, cal, lockKey).log == s.log
    ensures Inv(Next(s, e, cal, lockKey), cal, lockKey)
  {
    var n := Next(s, e, cal, lockKey);
    LocksHold(s, e, cal, lockKey);
  }

  /** A transaction that held its lock, or that takes a free one, holds it alone. */
  lemma HolderIsAlone(txns: map<nat, Txn>, t: nat, x: Txn, lockKey: nat -> int)
    requires LockInv(txns, lockKey)
    requires HoldsLock(x) ==>
               || (t in txns && HoldsLock(txns[t]) && txns[t].call == x.call)
               || (forall u :: u in txns && HoldsLock(txns[u]) ==> lockKey(txns[u].call.user) != lockKey(x.call.user))
    ensures LockInv(txns[t := x], lockKey)
  {
  }

  /** Only taking the lock makes a holder, and only when no other holds that lock. */
  lemma LocksHold(s: State, e: Statement, cal: Calendar, lockKey: nat -> int)
    requires LockInv(s.txns, lockKey) && Enabled(s, e, cal, lockKey) && !e.Clean?
    ensures var n := Next(s, e, cal, lockKey);
            LockInv(n.txns, lockKey) && e.txn in n.txns && n.txns == s.txns[e.txn := n.txns[e.txn]]
  {
    HolderIsAlone(s.txns, e.txn, Next(s, e, cal, lockKey).txns[e.txn], lockKey);
  }

  lemma {:induction false} ReachableInv(s: State, trace: seq<Statement>, t: State, cal: Calendar, lockKey: nat -> int)
    requires Inv(s, cal, lockKey) && Reachable(s, trace, t, cal, lockKey)
    ensures Inv(t, cal, lockKey)
    decreases |trace|
  {
    if trace != [] {
      NextKeepsInv(s, trace[0], cal, lockKey);
      ReachableInv(Next(s, trace[0], cal, lockKey), trace[1..], t, cal, lockKey);
    }
  }

  const START := State(EMPTY, map[], [])

  /** Every interleaving is equivalent to whole calls and cleanups one after the other: the
      serial history leaves the same rows, every call that did not fail got the answer it
      has there, and the insert of a daily choice never meets a row. */
  lemma ReadsAreSerializable(trace: seq<Statement>, s: State, cal: Calendar, lockKey: nat -> int)
    requires Reachable(START, trace, s, cal, lockKey)
    ensures Legal(s.log, cal) && Replay(s.log, cal) == s.tables
    ensures forall t :: t in s.txns && s.txns[t].pc.Done? && s.txns[t].pc.answer.Some? ==>
              Entry(t, s.txns[t].call, s.txns[t].pc.answer.value) in s.log
    ensures forall t :: t in s.txns ==> !s.txns[t].pc.Duplicate?
  {
    ReachableInv(START, trace, s, cal, lockKey);
    assert forall t :: t in s.txns ==> TxnInv(s.tables, s.log, cal, t, s.txns[t]);
  }

  // ---------- the order of the history ----------

  /** Every call in the history has begun. */
  predicate Begun(s: State) {
    forall k :: 0 <= k < |s.log| && IsCall(s.log[k].event) ==> s.log[k].txn in s.txns
  }

  lemma {:induction false} HistoryGrows(s: State, trace: seq<Statement>, t: State, cal: Calendar, lockKey: nat -> int)
    requires Reachable(s, trace, t, cal, lockKey) && Begun(s)
    ensures s.log <= t.log && Begun(t) && s.txns.Keys <= t.txns.Keys
    decreases |trace|
  {
    if trace != [] { HistoryGrows(Next(s, trace[0], cal, lockKey), trace[1..], t, cal, lockKey); }
  }

  /** The history keeps the order of real time: a call that had its answer before another one
      began comes before it. */
  lemma EndedComesFirst(before: seq<Statement>, s: State, after: seq<Statement>, t: State, cal: Calendar,
                        lockKey: nat -> int, first: nat, second: nat, k: nat)
    requires Reachable(START, before, s, cal, lockKey) && Reachable(s, after, t, cal, lockKey)
    requires first in s.txns && s.txns[first].pc.Done? && s.txns[first].pc.answer.Some? && second !in s.txns
    requires k < |t.log| && t.log[k].txn == second && IsCall(t.log[k].event)
    ensures exists i :: 0 <= i < k && t.log[i] == Entry(first, s.txns[first].call, s.txns[first].pc.answer.value)
  {
    HistoryGrows(START, before, s, cal, lockKey);
    HistoryGrows(s, after, t, cal, lockKey);
    ReadsAreSerializable(before, s, cal, lockKey);
    var i :| 0 <= i < |s.log| && s.log[i] == Entry(first, s.txns[first].call, s.txns[first].pc.answer.value);
    assert t.log[i] == s.log[i];
    assert forall j :: 0 <= j < |s.log| && IsCall(t.log[j].event) ==> t.log[j] == s.log[j] && t.log[j].txn in s.txns;
  }

  // ---------- every call gets its answer ----------

  /** The statements that bring a transaction nearer to its end; only a refusal rolls back. */
  predicate Advances(s: State, e: Statement) {
    !e.Begin? && !e.Clean? && (e.Rollback? ==> At(s, e.txn, Refusing))
  }

  /** How many statements a transaction has before it at most. */
  function Remaining(pc: Pc): nat {
    match pc
    case Started => 8
    case Locked => 7
    case NoGrant => 6
    case NoChoice => 5
    case Paid(_) => 4
    case Granted(_) => 3
    case Ending(_) => 1
    case Done(_) => 0
    case _ => 2
  }

  lemma HolderAdvances(s: State, t: nat, cal: Calendar, lockKey: nat -> int) returns (e: Statement)
    requires Inv(s, cal, lockKey) && t in s.txns && HoldsLock(s.txns[t])
    ensures Advances(s, e) && Enabled(s, e, cal, lockKey) && e.txn == t
  {
    assert TxnInv(s.tables, s.log, cal, t, s.txns[t]);
    var pc := s.txns[t].pc;
    e := if pc.Locked? then SelectGrant(t)
         else if pc.NoGrant? && s.txns[t].call.access.monthlyReadLimit > 0 then CountRead(t)
         else if pc.NoGrant? then SelectChoice(t)
         else if pc.NoChoice? then InsertChoice(t)
         else if pc.Refusing? then Rollback(t)
         else if pc.Paid? then UpsertGrant(t)
         else if pc.Ending? then Unlock(t)
         else Commit(t);
  }

  /** No deadlock: while some call has not its answer, some transaction can go on. */
  lemma SomeCallAdvances(trace: seq<Statement>, s: State, t: nat, cal: Calendar, lockKey: nat -> int)
    returns (e: Statement)
    requires Reachable(START, trace, s, cal, lockKey) && t in s.txns && !s.txns[t].pc.Done?
    ensures Advances(s, e) && Enabled(s, e, cal, lockKey)
  {
    ReachableInv(START, trace, s, cal, lockKey);
    if u :| u in s.txns && HoldsLock(s.txns[u]) {
      e := HolderAdvances(s, u, cal, lockKey);
    } else {
      e := Lock(t);
    }
  }

  /** And each of its statements brings it nearer to the end. */
  lemma AdvancingEnds(s: State, e: Statement, cal: Calendar, lockKey: nat -> int)
    requires Enabled(s, e, cal, lockKey) && Advances(s, e)
    ensures var n := Next(s, e, cal, lockKey);
            && e.txn in n.txns && Remaining(n.txns[e.txn].pc) < Remaining(s.txns[e.txn].pc) <= 8
            && n.txns == s.txns[e.txn := n.txns[e.txn]] && n.txns[e.txn].call == s.txns[e.txn].call
  {
  }

  predicate Failing(pc: Pc) { (pc.Ending? && pc.answer.None?) || (pc.Done? && pc.answer.None?) }

  /** No statement of the run is an error. */
  ghost predicate Faultless(s: State, trace: seq<Statement>, cal: Calendar, lockKey: nat -> int)
    decreases |trace|
  {
    trace == [] || (Enabled(s, trace[0], cal, lockKey) && (trace[0].Rollback? ==> At(s, trace[0].txn, Refusing)) &&
                    Faultless(Next(s, trace[0], cal, lockKey), trace[1..], cal, lockKey))
  }

  /** A call fails only when one of its statements does. */
  lemma {:induction false} ErrorsAreFaults(s: State, trace: seq<Statement>, t: State, cal: Calendar,
                                           lockKey: nat -> int)
    requires Reachable(s, trace, t, cal, lockKey) && Faultless(s, trace, cal, lockKey)
    requires forall x :: x in s.txns ==> !Failing(s.txns[x].pc)
    ensures forall x :: x in t.txns ==> !Failing(t.txns[x].pc)
    decreases |trace|
  {
    if trace != [] { ErrorsAreFaults(Next(s, trace[0], cal, lockKey), trace[1..], t, cal, lockKey); }
  }

  // ---------- what holds of serial runs holds of interleaved ones ----------

  function Events(log: seq<Entry>): seq<Event> {
    if log == [] then [] else Events(log[..|log| - 1]) + [log[|log| - 1].event]
  }

  function CallAnswers(log: seq<Entry>): seq<Answer> {
    if log == [] then []
    else CallAnswers(log[..|log| - 1]) + if IsCall(log[|log| - 1].event) then [log[|log| - 1].answer] else []
  }

  lemma {:induction false} AnswersOfAppend(t: Tables, cal: Calendar, es: seq<Event>, e: Event)
    ensures Answers(t, cal, es + [e]) ==
            Answers(t, cal, es) + if IsCall(e) then [Apply(After(t, cal, es), cal, e).1] else []
    ensures After(t, cal, es + [e]) == Apply(After(t, cal, es), cal, e).0
    decreases |es|
  {
    if es == [] {
      assert es + [e] == [e] && [e][1..] == [];
    } else {
      assert (es + [e])[1..] == es[1..] + [e];
      AnswersOfAppend(Apply(t, cal, es[0]).0, cal, es[1..], e);
    }
  }

  /** The history replayed is a run of its events, with the answers recorded in it. */
  lemma {:induction false} HistoryIsRun(log: seq<Entry>, cal: Calendar)
    requires Legal(log, cal)
    ensures Quotas.Run(cal, Events(log)).tables == Replay(log, cal) == After(EMPTY, cal, Events(log))
    ensures Answers(EMPTY, cal, Events(log)) == CallAnswers(log)
  {
    if log != [] {
      var front, e := log[..|log| - 1], log[|log| - 1].event;
      HistoryIsRun(front, cal);
      AnswersOfAppend(EMPTY, cal, Events(front), e);
      assert Events(log)[..|Events(log)| - 1] == Events(front);
    }
  }

  /** Both quotas and the answers of a run, in any order of the clock readings. */
  ghost predicate QuotasKept(cal: Calendar, es: seq<Event>, tables: Tables, user: nat, at: int) {
    && (!Quotas.MonthSplit(cal, es, user, at) ==> Quotas.LimitKept(cal, es, user, at))
    && (!Quotas.MonthCut(cal, es, user, at) ==>
          Used(tables, user, at) == Quotas.MeteredCount(Quotas.Run(cal, es).paid, cal, user, at))
    && (!Quotas.DaySplit(cal, es, user, at) ==> Quotas.ChoiceKept(cal, es, user, at))
  }

  lemma SerialQuotasKept(cal: Calendar, es: seq<Event>, user: nat, at: int)
    ensures QuotasKept(cal, es, Quotas.Run(cal, es).tables, user, at)
  {
    if !Quotas.MonthSplit(cal, es, user, at) {
      Quotas.QuotasHold(cal, es, user, at);
    } else {
      Quotas.SplitIsCut(cal, es, user, at);
    }
    if !Quotas.DaySplit(cal, es, user, at) { Quotas.ChoicesHold(cal, es, user, at); }
  }

  /** Under every interleaving, in any order of the clock readings: unless a cleanup deletes a
      month's counters between two of the user's readings in it, the metered openings stay
      within the largest limit, and unless it does so after one, the counter in the table is
      their number; unless a cleanup deletes a day's choices between two readings on it, the
      free openings of a category are of one article. While no call is decided after a
      cleanup that deleted what it looks at, both quotas hold and the answers are those
      without any cleanup. */
  lemma InterleavedQuotasHold(trace: seq<Statement>, s: State, cal: Calendar, lockKey: nat -> int, f: Floors,
                              user: nat, at: int)
    requires Reachable(START, trace, s, cal, lockKey)
    ensures QuotasKept(cal, Events(s.log), s.tables, user, at)
    ensures InOrder(cal, f, Events(s.log)) ==>
              && Quotas.LimitKept(cal, Events(s.log), user, at) && Quotas.ChoiceKept(cal, Events(s.log), user, at)
              && CallAnswers(s.log) == Answers(EMPTY, cal, CallsOnly(Events(s.log)))
  {
    ReadsAreSerializable(trace, s, cal, lockKey);
    HistoryIsRun(s.log, cal);
    SerialQuotasKept(cal, Events(s.log), user, at);
    if InOrder(cal, f, Events(s.log)) {
      Quotas.InOrderKeepsQuotas(cal, f, Events(s.log), user, at);
      CleanupInvisible(cal, EMPTY, f, Events(s.log));
    }
  }

  // ---------- the turn of the month ----------

  lemma {:induction false} ReachableOnward(s: State, first: seq<Statement>, t: State, second: seq<Statement>, u: State,
                                           cal: Calendar, lockKey: nat -> int)
    requires Reachable(s, first, t, cal, lockKey) && Reachable(t, second, u, cal, lockKey)
    ensures Reachable(s, first + second, u, cal, lockKey)
    decreases |first|
  {
    if first == [] {
      assert first + second == second;
    } else {
      assert (first + second)[1..] == first[1..] + second;
      ReachableOnward(Next(s, first[0], cal, lockKey), first[1..], t, second, u, cal, lockKey);
    }
  }

  ghost predicate Undecided(s: State, t: nat, cal: Calendar) {
    && t in s.txns && s.txns[t].call.access.monthlyReadLimit == 1
    && (s.txns[t].call.user, s.txns[t].call.article) !in s.tables.grants
    && (s.txns[t].call.user, cal.MonthOf(s.txns[t].call.now)) !in s.tables.monthly
  }

  /** A metered reading that meets no grant and no counter takes the lock and counts one. */
  lemma CountsOne(s: State, t: nat, cal: Calendar, lockKey: nat -> int)
    requires At(s, t, Started) && Undecided(s, t, cal) && forall x :: x in s.txns ==> !HoldsLock(s.txns[x])
    ensures Reachable(s, [Lock(t)] + [SelectGrant(t)] + [CountRead(t)], Go(s, t, Paid(Counting(1))), cal, lockKey)
  {
    ReachableOnward(s, [Lock(t)], Go(s, t, Locked), [SelectGrant(t)], Go(s, t, NoGrant), cal, lockKey);
    ReachableOnward(s, [Lock(t)] + [SelectGrant(t)], Go(s, t, NoGrant), [CountRead(t)],
                    Go(s, t, Paid(Counting(1))), cal, lockKey);
  }

  /** The state once the reading is over. */
  function Over(s: State, t: nat, cal: Calendar): State
    requires t in s.txns
  {
    var call := s.txns[t].call;
    var answer := Allowed(Some(Expiry(call)));
    State(Written(s.tables, cal, call, Counting(1)), Go(s, t, Done(Some(answer))).txns,
          s.log + [Entry(t, call, answer)])
  }

  lemma GrantsAndCommits(s: State, t: nat, cal: Calendar, lockKey: nat -> int)
    requires t in s.txns
    ensures Reachable(Go(s, t, Paid(Counting(1))), [UpsertGrant(t)] + [Commit(t)] + [Unlock(t)], Over(s, t, cal),
                      cal, lockKey)
  {
    var paid, granted := Go(s, t, Paid(Counting(1))), Go(s, t, Granted(Counting(1)));
    var answer := Some(Allowed(Some(Expiry(s.txns[t].call))));
    var committed := Next(granted, Commit(t), cal, lockKey);
    assert committed.txns == Go(s, t, Ending(answer)).txns;
    assert Next(committed, Unlock(t), cal, lockKey) == Over(s, t, cal);
    ReachableOnward(paid, [UpsertGrant(t)], granted, [Commit(t)], committed, cal, lockKey);
    ReachableOnward(paid, [UpsertGrant(t)] + [Commit(t)], committed, [Unlock(t)], Over(s, t, cal), cal, lockKey);
  }

  lemma MeteredReading(s: State, t: nat, cal: Calendar, lockKey: nat -> int) returns (trace: seq<Statement>)
    requires At(s, t, Started) && Undecided(s, t, cal) && forall x :: x in s.txns ==> !HoldsLock(s.txns[x])
    ensures Reachable(s, trace, Over(s, t, cal), cal, lockKey)
  {
    CountsOne(s, t, cal, lockKey);
    GrantsAndCommits(s, t, cal, lockKey);
    var counting := [Lock(t)] + [SelectGrant(t)] + [CountRead(t)];
    var granting := [UpsertGrant(t)] + [Commit(t)] + [Unlock(t)];
    ReachableOnward(s, counting, Go(s, t, Paid(Counting(1))), granting, Over(s, t, cal), cal, lockKey);
    trace := counting + granting;
  }

  /** One user begins two readings just before the turn of the month, under a limit of one. */
  function Racing(c: Time): State {
    var plan := Access(false, 1);
    State(EMPTY, map[0 := Txn(Reading(0, 0, "", plan, c - 1), Started),
                     1 := Txn(Reading(0, 1, "", plan, c - 1), Started)], [])
  }

  lemma RaceBegins(c: Time, cal: Calendar, lockKey: nat -> int)
    ensures exists trace :: Reachable(START, trace, Racing(c), cal, lockKey)
  {
    var plan := Access(false, 1);
    var first, second := Begin(0, Reading(0, 0, "", plan, c - 1)), Begin(1, Reading(0, 1, "", plan, c - 1));
    var s := Next(START, first, cal, lockKey);
    assert Next(s, second, cal, lockKey) == Racing(c);
    ReachableOnward(START, [first], s, [second], Racing(c), cal, lockKey);
  }

  lemma CleanedOver(c: Time, cal: Calendar, lockKey: nat -> int) returns (s: State)
    requires cal.MonthOf(c - 1) < cal.MonthOf(c)
    ensures Reachable(Over(Racing(c), 0, cal), [Clean(CleaningMonthly(c))], s, cal, lockKey)
    ensures At(s, 1, Started) && Undecided(s, 1, cal) && s.txns[1] == Racing(c).txns[1]
    ensures 0 in s.txns && s.txns[0].pc == Done(Some(Allowed(Some(c - 1 + RETENTION_DAYS * DAY))))
    ensures forall x :: x in s.txns ==> !HoldsLock(s.txns[x])
    ensures |s.log| == 2 && s.log[0].event == Racing(c).txns[0].call && s.log[1].event == CleaningMonthly(c)
  {
    var over, clean := Over(Racing(c), 0, cal), Clean(CleaningMonthly(c));
    s := Next(over, clean, cal, lockKey);
  }

  lemma FirstReading(c: Time, cal: Calendar, lockKey: nat -> int) returns (trace: seq<Statement>)
    ensures Reachable(START, trace, Over(Racing(c), 0, cal), cal, lockKey)
  {
    RaceBegins(c, cal, lockKey);
    var begin :| Reachable(START, begin, Racing(c), cal, lockKey);
    var first := MeteredReading(Racing(c), 0, cal, lockKey);
    ReachableOnward(START, begin, Racing(c), first, Over(Racing(c), 0, cal), cal, lockKey);
    trace := begin + first;
  }

  lemma RaceEnds(c: Time, cal: Calendar, lockKey: nat -> int) returns (trace: seq<Statement>, s: State)
    requires cal.MonthOf(c - 1) < cal.MonthOf(c)
    ensures Reachable(START, trace, s, cal, lockKey)
    ensures forall t :: t in {0, 1} ==> t in s.txns && s.txns[t].pc.Done? && s.txns[t].pc.answer.Some? &&
                                        s.txns[t].pc.answer.value.Allowed?
    ensures |s.log| == 3 && s.log[0].event == Racing(c).txns[0].call
    ensures s.log[1].event == CleaningMonthly(c) && s.log[2].event == Racing(c).txns[1].call
  {
    var first := FirstReading(c, cal, lockKey);
    var cleaned := CleanedOver(c, cal, lockKey);
    var second := MeteredReading(cleaned, 1, cal, lockKey);
    s := Over(cleaned, 1, cal);
    ReachableOnward(START, first, Over(Racing(c), 0, cal), [Clean(CleaningMonthly(c))], cleaned, cal, lockKey);
    ReachableOnward(START, first + [Clean(CleaningMonthly(c))], cleaned, second, s, cal, lockKey);
    trace := first + [Clean(CleaningMonthly(c))] + second;
  }

  /** The first reading ends; the month's counters are deleted after the month has turned; the second
      reading, which waited for the lock, counts from one again. Both are allowed. */
  lemma MonthTurnRace(c: Time, cal: Calendar, lockKey: nat -> int) returns (trace: seq<Statement>, s: State)
    requires cal.MonthOf(c - 1) < cal.MonthOf(c)
    ensures Reachable(START, trace, s, cal, lockKey)
    ensures forall t :: t in {0, 1} ==> t in s.txns && s.txns[t].pc.Done? && s.txns[t].pc.answer.Some? &&
                                        s.txns[t].pc.answer.value.Allowed?
    ensures var month := cal.MonthOf(c - 1);
            var paid := Quotas.Run(cal, Events(s.log)).paid;
            Quotas.MeteredCount(paid, cal, 0, month) == 2 && Quotas.LargestLimit(paid, cal, 0, month) == 1
  {
    trace, s := RaceEnds(c, cal, lockKey);
    EventsOfRace(s.log);
    Quotas.MonthTurnRace(cal, c);
  }

  lemma EventsOfRace(log: seq<Entry>)
    requires |log| == 3
    ensures Events(log) == [log[0].event, log[1].event, log[2].event]
  {
    assert log[..2][..1] == log[..1] && log[..1][..0] == [];
    assert Events(log[..1]) == [log[0].event];
    assert Events(log[..2]) == [log[0].event, log[1].event];
  }
}
