/** Threads that begin, commit and roll back transactions, one shared-memory step at a time. */
module Transactions {

  type Thread = nat
  type TxnId = nat

  datatype TxnState = ACTIVE | COMMITTED | ABORTED

  /** A transaction object; the thread that began it is kept for stating properties only. */
  datatype Txn = Txn(state: TxnState, thread: Thread)

  /** The records this protocol writes.  The LSN of a record is its place in the log plus one. */
  datatype Record = Begin(id: TxnId) | Commit(id: TxnId)

  /** Where a thread is: outside all calls, or just behind a step of one. */
  datatype Pc =
    | Idle
    | Drawn(id: TxnId)        // begin: the id is drawn and the object made
    | Added(id: TxnId)        // begin: in the active map
    | Chosen(id: TxnId)       // begin: the thread's current transaction
    | Committing(id: TxnId)   // commit: the current transaction is read
    | Written(id: TxnId)      // commit: the COMMIT record is in the log
    | RollingBack(id: TxnId)  // rollback: the current transaction is read
    | Marked(id: TxnId)       // both: the state is set
    | Removed(id: TxnId)      // both: out of the active map

  datatype State = State(
    nextTxnId: TxnId,
    txns: map<TxnId, Txn>,
    active: set<TxnId>,
    current: map<Thread, TxnId>,
    log: seq<Record>,
    pcs: map<Thread, Pc>)

  const INITIAL := State(1, map[], {}, map[], [], map[])

  function PcOf(s: State, t: Thread): Pc {
    if t in s.pcs then s.pcs[t] else Idle
  }

  function Goto(s: State, t: Thread, pc: Pc): State {
    s.(pcs := s.pcs[t := pc])
  }

  function Mark(s: State, id: TxnId, state: TxnState): State {
    if id in s.txns then s.(txns := s.txns[id := s.txns[id].(state := state)]) else s
  }

  /** What a thread outside all calls may do; Go is the next step of the call it is in. */
  datatype Action = CallBegin | CallCommit | CallRollback | Go

  /** One step of thread t; an action that is not possible there changes nothing.  A commit or
      a rollback without a current transaction returns at once. */
  function Step(s: State, t: Thread, a: Action): State {
    match PcOf(s, t)
    case Idle =>
      (match a
       case CallBegin =>
         var id := s.nextTxnId;
         Goto(s.(nextTxnId := id + 1, txns := s.txns[id := Txn(ACTIVE, t)]), t, Drawn(id))
       case CallCommit => if t in s.current then Goto(s, t, Committing(s.current[t])) else s
       case CallRollback => if t in s.current then Goto(s, t, RollingBack(s.current[t])) else s
       case Go => s)
    case pc =>
      if a != Go then s
      else
        match pc
        case Drawn(id) => Goto(s.(active := s.active + {id}), t, Added(id))
        case Added(id) => Goto(s.(current := s.current[t := id]), t, Chosen(id))
        case Chosen(id) => Goto(s.(log := s.log + [Begin(id)]), t, Idle)
        case Committing(id) => Goto(s.(log := s.log + [Commit(id)]), t, Written(id))
        case Written(id) => Goto(Mark(s, id, COMMITTED), t, Marked(id))
        case RollingBack(id) => Goto(Mark(s, id, ABORTED), t, Marked(id))
        case Marked(id) => Goto(s.(active := s.active - {id}), t, Removed(id))
        case Removed(id) => Goto(s.(current := s.current - {t}), t, Idle)
        case Idle => s
  }

  datatype Move = Move(thread: Thread, action: Action)

  function Run(s: State, moves: seq<Move>): State
    decreases moves
  {
    if moves == [] then s else Run(Step(s, moves[0].thread, moves[0].action), moves[1..])
  }

  // ---------- The invariant ----------

  predicate Has(s: State, id: TxnId, begun: bool, committed: bool) {
    (Begin(id) in s.log) == begun && (Commit(id) in s.log) == committed
  }

  /** How far transaction id has come, by where its thread is. */
  ghost predicate TxnOk(s: State, id: TxnId)
    requires id in s.txns
  {
    var Txn(state, t) := s.txns[id];
    var pc := PcOf(s, t);
    if pc.Idle? || pc.id != id then
      if state == ACTIVE then id in s.active && Has(s, id, true, false)
      else id !in s.active && Has(s, id, true, state == COMMITTED) && (t in s.current ==> s.current[t] != id)
    else
      match pc
      case Drawn(_) => state == ACTIVE && id !in s.active && Has(s, id, false, false)
      case Added(_) => state == ACTIVE && id in s.active && Has(s, id, false, false)
      case Chosen(_) => state == ACTIVE && id in s.active && Has(s, id, false, false)
      case Committing(_) => state == ACTIVE && id in s.active && Has(s, id, true, false)
      case Written(_) => state == ACTIVE && id in s.active && Has(s, id, true, true)
      case RollingBack(_) => state == ACTIVE && id in s.active && Has(s, id, true, false)
      case Marked(_) => state != ACTIVE && id in s.active && Has(s, id, true, state == COMMITTED)
      case Removed(_) => state != ACTIVE && id !in s.active && Has(s, id, true, state == COMMITTED)
  }

  /** A thread only ever holds transactions it began itself. */
  ghost predicate ThreadOk(s: State, t: Thread) {
    var pc := PcOf(s, t);
    && (t in s.current ==> s.current[t] in s.txns && s.txns[s.current[t]].thread == t)
    && (!pc.Idle? ==> pc.id in s.txns && s.txns[pc.id].thread == t)
    && (pc.Drawn? || pc.Added? ==> t in s.current ==> s.current[t] != pc.id)
    && (!pc.Idle? && !pc.Drawn? && !pc.Added? ==> t in s.current && s.current[t] == pc.id)
  }

  /** No record twice, each of a known transaction, and each COMMIT behind its BEGIN. */
  ghost predicate LogOk(s: State) {
    && (forall i :: 0 <= i < |s.log| ==> s.log[i].id in s.txns)
    && (forall i, j :: 0 <= i < j < |s.log| ==> s.log[i] != s.log[j])
    && (forall i :: 0 <= i < |s.log| && s.log[i].Commit? ==> Begin(s.log[i].id) in s.log[..i])
  }

  ghost predicate Inv(s: State) {
    && (forall id :: id in s.txns ==> id < s.nextTxnId)
    && (forall id :: id in s.active ==> id in s.txns)
    && (forall id :: id in s.txns ==> TxnOk(s, id))
    && (forall t: Thread :: ThreadOk(s, t))
    && LogOk(s)
  }

  lemma {:induction false} StepKeepsLog(s: State, t: Thread, a: Action)
    requires Inv(s)
    ensures LogOk(Step(s, t, a))
  {
    var s' := Step(s, t, a);
    assert ThreadOk(s, t);
    var pc := PcOf(s, t);
    if s'.log != s.log {
      assert TxnOk(s, pc.id);
      var r := s'.log[|s.log|];
      assert s'.log == s.log + [r] && r !in s.log;
      forall i | 0 <= i < |s'.log| && s'.log[i].Commit?
        ensures Begin(s'.log[i].id) in s'.log[..i]
      {
        assert s'.log[..i] == s.log[..i];
        assert s.log[..|s.log|] == s.log;
      }
    }
  }

  lemma {:induction false} StepKeepsThread(s: State, t: Thread, a: Action, u: Thread)
    requires Inv(s)
    ensures ThreadOk(Step(s, t, a), u)
  {
    assert ThreadOk(s, t) && ThreadOk(s, u);
    if u != t {
      OtherThreadKept(s, t, a, u);
    } else {
      OwnThreadKept(s, t, a);
    }
  }

  lemma {:induction false} OtherThreadKept(s: State, t: Thread, a: Action, u: Thread)
    requires u != t && ThreadOk(s, t) && ThreadOk(s, u) && forall id :: id in s.txns ==> id < s.nextTxnId
    ensures ThreadOk(Step(s, t, a), u)
  {
  }

  lemma {:induction false} OwnThreadKept(s: State, t: Thread, a: Action)
    requires ThreadOk(s, t) && forall id :: id in s.txns ==> id < s.nextTxnId
    ensures ThreadOk(Step(s, t, a), t)
  {
  }

  lemma {:induction false} StepKeepsTxn(s: State, t: Thread, a: Action, id: TxnId)
    requires Inv(s) && id in Step(s, t, a).txns
    ensures TxnOk(Step(s, t, a), id)
  {
    var s' := Step(s, t, a);
    assert ThreadOk(s, t);
    var pc := PcOf(s, t);
    if id !in s.txns {
      NewIdIsUnused(s);
    } else if pc.Idle? || pc.id != id {
      assert TxnOk(s, id);
      OtherTxnKept(s, t, a, id);
    } else {
      assert TxnOk(s, id);
      OwnTxnMoves(s, t, a);
    }
  }

  lemma {:induction false} NewIdIsUnused(s: State)
    requires Inv(s)
    ensures s.nextTxnId !in s.txns && s.nextTxnId !in s.active
    ensures Begin(s.nextTxnId) !in s.log && Commit(s.nextTxnId) !in s.log
  {
  }

  /** The step of a thread on its own transaction. */
  lemma {:induction false} OwnTxnMoves(s: State, t: Thread, a: Action)
    requires Inv(s) && !PcOf(s, t).Idle?
    ensures var id := PcOf(s, t).id; id in Step(s, t, a).txns && TxnOk(Step(s, t, a), id)
  {
    var id := PcOf(s, t).id;
    assert ThreadOk(s, t) && TxnOk(s, id);
  }

  /** A step leaves every transaction it is not about as it is. */
  lemma {:induction false} OtherTxnSame(s: State, t: Thread, a: Action, id: TxnId)
    requires id in s.txns && id < s.nextTxnId && (PcOf(s, t).Idle? || PcOf(s, t).id != id)
    ensures var s' := Step(s, t, a);
      && id in s'.txns && s'.txns[id] == s.txns[id] && (id in s'.active <==> id in s.active)
      && (Begin(id) in s'.log <==> Begin(id) in s.log) && (Commit(id) in s'.log <==> Commit(id) in s.log)
  {
  }

  lemma {:induction false} OtherTxnKept(s: State, t: Thread, a: Action, id: TxnId)
    requires id in s.txns && id < s.nextTxnId && TxnOk(s, id) && ThreadOk(s, t)
    requires PcOf(s, t).Idle? || PcOf(s, t).id != id
    ensures id in Step(s, t, a).txns && TxnOk(Step(s, t, a), id)
  {
    var s' := Step(s, t, a);
    OtherTxnSame(s, t, a, id);
    var u := s.txns[id].thread;
    if u != t {
      assert PcOf(s', u) == PcOf(s, u);
      assert u in s'.current <==> u in s.current;
    } else if PcOf(s, t).Idle? && PcOf(s', t).Idle? {
      assert s' == s;
    }
  }

  lemma {:induction false} StepKeepsIds(s: State, t: Thread, a: Action)
    requires Inv(s)
    ensures forall id :: id in Step(s, t, a).txns ==> id < Step(s, t, a).nextTxnId
    ensures forall id :: id in Step(s, t, a).active ==> id in Step(s, t, a).txns
  {
    assert ThreadOk(s, t);
  }

  lemma {:induction false} StepKeepsInv(s: State, t: Thread, a: Action)
    requires Inv(s)
    ensures Inv(Step(s, t, a))
  {
    var s' := Step(s, t, a);
    StepKeepsIds(s, t, a);
    StepKeepsLog(s, t, a);
    forall u: Thread
      ensures ThreadOk(s', u)
    {
      StepKeepsThread(s, t, a, u);
    }
    forall id | id in s'.txns
      ensures TxnOk(s', id)
    {
      StepKeepsTxn(s, t, a, id);
    }
  }

  lemma {:induction false} RunKeepsInv(s: State, moves: seq<Move>)
    requires Inv(s)
    ensures Inv(Run(s, moves))
    decreases moves
  {
    if moves != [] {
      StepKeepsInv(s, moves[0].thread, moves[0].action);
      RunKeepsInv(Step(s, moves[0].thread, moves[0].action), moves[1..]);
    }
  }

  // ---------- What holds in every run ----------

  predicate Quiet(s: State) {
    forall t :: t in s.pcs ==> s.pcs[t].Idle?
  }

  /** Whatever the threads do in whatever order: a committed transaction has its COMMIT in the
      log and an aborted one has none; no record is written twice, and a COMMIT stands behind
      the BEGIN of its transaction; and while no call is running, the active map holds exactly
      the transactions that are ACTIVE, and exactly the committed ones have a COMMIT. */
  lemma {:induction false} RunsAreSafe(moves: seq<Move>)
    ensures var s := Run(INITIAL, moves);
      && (forall id :: id in s.txns && s.txns[id].state == COMMITTED ==> Commit(id) in s.log)
      && (forall id :: id in s.txns && s.txns[id].state == ABORTED ==> Commit(id) !in s.log)
      && (forall i, j :: 0 <= i < j < |s.log| ==> s.log[i] != s.log[j])
      && (forall j :: 0 <= j < |s.log| && s.log[j].Commit? ==>
            exists i :: 0 <= i < j && s.log[i] == Begin(s.log[j].id))
      && (Quiet(s) ==> forall id :: id in s.active <==> id in s.txns && s.txns[id].state == ACTIVE)
      && (Quiet(s) ==> forall id :: id in s.txns ==> (s.txns[id].state == COMMITTED <==> Commit(id) in s.log))
  {
    InitialInv();
    RunKeepsInv(INITIAL, moves);
    InvIsSafe(Run(INITIAL, moves));
  }

  lemma {:induction false} InitialInv()
    ensures Inv(INITIAL)
  {
    forall t: Thread
      ensures ThreadOk(INITIAL, t)
    {
    }
  }

  lemma {:induction false} InvIsSafe(s: State)
    requires Inv(s)
    ensures forall id :: id in s.txns && s.txns[id].state == COMMITTED ==> Commit(id) in s.log
    ensures forall id :: id in s.txns && s.txns[id].state == ABORTED ==> Commit(id) !in s.log
    ensures forall j :: 0 <= j < |s.log| && s.log[j].Commit? ==>
              exists i :: 0 <= i < j && s.log[i] == Begin(s.log[j].id)
    ensures Quiet(s) ==> forall id :: id in s.active <==> id in s.txns && s.txns[id].state == ACTIVE
    ensures Quiet(s) ==> forall id :: id in s.txns ==> (s.txns[id].state == COMMITTED <==> Commit(id) in s.log)
  {
    forall id | id in s.txns
      ensures s.txns[id].state == COMMITTED ==> Commit(id) in s.log
      ensures s.txns[id].state == ABORTED ==> Commit(id) !in s.log
      ensures Quiet(s) ==> (id in s.active <==> s.txns[id].state == ACTIVE)
      ensures Quiet(s) ==> (s.txns[id].state == COMMITTED <==> Commit(id) in s.log)
    {
      TxnIsSafe(s, id);
    }
    LogIsSafe(s);
  }

  lemma {:induction false} TxnIsSafe(s: State, id: TxnId)
    requires id in s.txns && TxnOk(s, id)
    ensures s.txns[id].state == COMMITTED ==> Commit(id) in s.log
    ensures s.txns[id].state == ABORTED ==> Commit(id) !in s.log
    ensures Quiet(s) ==> (id in s.active <==> s.txns[id].state == ACTIVE)
    ensures Quiet(s) ==> (s.txns[id].state == COMMITTED <==> Commit(id) in s.log)
  {
  }

  lemma {:induction false} LogIsSafe(s: State)
    requires LogOk(s)
    ensures forall j :: 0 <= j < |s.log| && s.log[j].Commit? ==>
              exists i :: 0 <= i < j && s.log[i] == Begin(s.log[j].id)
  {
    forall j | 0 <= j < |s.log| && s.log[j].Commit?
      ensures exists i :: 0 <= i < j && s.log[i] == Begin(s.log[j].id)
    {
      var i :| 0 <= i < j && s.log[..j][i] == Begin(s.log[j].id);
    }
  }

  // ---------- What a call has done when it returns ----------

  /** Where a thread stands k steps into a call about transaction id. */
  function PcAfter(call: Action, id: TxnId, k: nat): Pc {
    match call
    case CallBegin => if k == 0 then Drawn(id) else if k == 1 then Added(id) else if k == 2 then Chosen(id) else Idle
    case CallCommit =>
      if k == 0 then Committing(id) else if k == 1 then Written(id)
      else if k == 2 then Marked(id) else if k == 3 then Removed(id) else Idle
    case CallRollback =>
      if k == 0 then RollingBack(id) else if k == 1 then Marked(id) else if k == 2 then Removed(id) else Idle
    case Go => Idle
  }

  function StepsOf(call: Action): nat {
    if call == CallCommit then 4 else 3
  }

  /** What the thread's call leaves: begin an ACTIVE current transaction with its BEGIN, commit a
      COMMITTED one with its COMMIT, rollback an ABORTED one without; and after either the thread has
      no current transaction. */
  ghost predicate Outcome(s: State, t: Thread, call: Action, id: TxnId) {
    && id in s.txns && s.txns[id].thread == t
    && match call
       case CallBegin =>
         && s.txns[id].state == ACTIVE && id in s.active && t in s.current && s.current[t] == id
         && Begin(id) in s.log && Commit(id) !in s.log
       case CallCommit =>
         s.txns[id].state == COMMITTED && id !in s.active && t !in s.current && Commit(id) in s.log
       case CallRollback =>
         s.txns[id].state == ABORTED && id !in s.active && t !in s.current && Commit(id) !in s.log
       case Go => true
  }

  /** The thread is k steps into the call, or behind its end. */
  ghost predicate Along(s: State, t: Thread, call: Action, id: TxnId, k: nat) {
    && PcOf(s, t) == PcAfter(call, id, k) && id in s.txns && s.txns[id].thread == t
    && (call == CallCommit && 0 < k ==> Commit(id) in s.log)
    && (call == CallCommit && 1 < k ==> s.txns[id].state == COMMITTED)
    && (call == CallRollback && 0 < k ==> s.txns[id].state == ABORTED)
    && (k >= StepsOf(call) ==> Outcome(s, t, call, id))
  }

  /** How many steps thread t takes. */
  function StepsBy(moves: seq<Move>, t: Thread): nat {
    if moves == [] then 0 else (if moves[0].thread == t then 1 else 0) + StepsBy(moves[1..], t)
  }

  lemma {:induction false} CallStarts(s: State, t: Thread, call: Action)
    requires Inv(s) && PcOf(s, t).Idle? && call != Go && (call == CallBegin || t in s.current)
    ensures var id := if call == CallBegin then s.nextTxnId else s.current[t];
      && Along(Step(s, t, call), t, call, id, 0)
      && (call == CallBegin ==> id !in s.txns && id !in s.active && Begin(id) !in s.log)
  {
    assert ThreadOk(s, t);
    NewIdIsUnused(s);
  }

  lemma {:induction false} OwnStep(s: State, t: Thread, call: Action, id: TxnId, k: nat)
    requires Inv(s) && call != Go && Along(s, t, call, id, k)
    ensures Along(Step(s, t, Go), t, call, id, k + 1)
  {
    assert ThreadOk(s, t) && TxnOk(s, id);
  }

  lemma {:induction false} OthersStep(s: State, t: Thread, call: Action, id: TxnId, k: nat, u: Thread, a: Action)
    requires Inv(s) && call != Go && Along(s, t, call, id, k) && u != t
    ensures Along(Step(s, u, a), t, call, id, k)
  {
    assert ThreadOk(s, u);
    OtherTxnSame(s, u, a, id);
    OtherThreadSame(s, t, u, a);
  }

  lemma {:induction false} OtherThreadSame(s: State, t: Thread, u: Thread, a: Action)
    requires u != t
    ensures var s' := Step(s, u, a);
      && PcOf(s', t) == PcOf(s, t) && (t in s'.current <==> t in s.current)
      && (t in s.current ==> s'.current[t] == s.current[t])
  {
  }

  lemma {:induction false} CallGoesOn(s: State, t: Thread, call: Action, id: TxnId, k: nat, moves: seq<Move>)
    requires Inv(s) && call != Go && Along(s, t, call, id, k)
    requires forall m :: m in moves && m.thread == t ==> m.action == Go
    ensures Along(Run(s, moves), t, call, id, k + StepsBy(moves, t))
    decreases moves
  {
    if moves != [] {
      var m := moves[0];
      assert m in moves;
      StepKeepsInv(s, m.thread, m.action);
      if m.thread == t {
        OwnStep(s, t, call, id, k);
        CallGoesOn(Step(s, t, Go), t, call, id, k + 1, moves[1..]);
      } else {
        OthersStep(s, t, call, id, k, m.thread, m.action);
        CallGoesOn(Step(s, m.thread, m.action), t, call, id, k, moves[1..]);
      }
    }
  }

  /** In every interleaving with other threads: a call of begin draws a new transaction, and commit and
      rollback work on the thread's current one; the call has returned exactly when the thread has
      taken all its steps, and it leaves what Outcome says. */
  lemma {:induction false} CallsDoTheirWork(before: seq<Move>, t: Thread, call: Action, moves: seq<Move>)
    requires var s := Run(INITIAL, before);
      call != Go && PcOf(s, t).Idle? && (call == CallBegin || t in s.current)
    requires forall m :: m in moves && m.thread == t ==> m.action == Go
    ensures var s := Run(INITIAL, before);
      var id := if call == CallBegin then s.nextTxnId else s.current[t];
      var s' := Run(Step(s, t, call), moves);
      && (call == CallBegin ==> id !in s.txns)
      && (PcOf(s', t).Idle? <==> StepsBy(moves, t) >= StepsOf(call))
      && (PcOf(s', t).Idle? ==> Outcome(s', t, call, id))
  {
    InitialInv();
    RunKeepsInv(INITIAL, before);
    var s := Run(INITIAL, before);
    CallStarts(s, t, call);
    StepKeepsInv(s, t, call);
    CallGoesOn(Step(s, t, call), t, call, if call == CallBegin then s.nextTxnId else s.current[t], 0, moves);
  }

  /** Two threads never work on the same transaction. */
  lemma {:induction false} ThreadsAreApart(moves: seq<Move>, t: Thread, u: Thread)
    requires t != u
    ensures var s := Run(INITIAL, moves);
      && (t in s.current && u in s.current ==> s.current[t] != s.current[u])
      && (!PcOf(s, t).Idle? && !PcOf(s, u).Idle? ==> PcOf(s, t).id != PcOf(s, u).id)
  {
    InitialInv();
    RunKeepsInv(INITIAL, moves);
    assert ThreadOk(Run(INITIAL, moves), t) && ThreadOk(Run(INITIAL, moves), u);
  }

  /** An id, once drawn, is never drawn again, and a commit or a rollback is final. */
  lemma {:induction false} DecisionsAreFinal(s: State, moves: seq<Move>, id: TxnId)
    requires Inv(s) && id in s.txns
    ensures var s' := Run(s, moves);
      && id < s.nextTxnId <= s'.nextTxnId && id in s'.txns && s'.txns[id].thread == s.txns[id].thread
      && (s.txns[id].state != ACTIVE ==> s'.txns[id].state == s.txns[id].state)
    decreases moves
  {
    if moves != [] {
      var m := moves[0];
      var s1 := Step(s, m.thread, m.action);
      StepKeepsInv(s, m.thread, m.action);
      DecisionStays(s, m.thread, m.action, id);
      DecisionsAreFinal(s1, moves[1..], id);
    }
  }

  lemma {:induction false} DecisionStays(s: State, t: Thread, a: Action, id: TxnId)
    requires Inv(s) && id in s.txns
    ensures var s' := Step(s, t, a);
      && s.nextTxnId <= s'.nextTxnId && id in s'.txns && s'.txns[id].thread == s.txns[id].thread
      && (s.txns[id].state != ACTIVE ==> s'.txns[id].state == s.txns[id].state)
  {
    assert ThreadOk(s, t) && TxnOk(s, id);
    StepOnTxn(s, t, a, id);
  }

  lemma {:induction false} StepOnTxn(s: State, t: Thread, a: Action, id: TxnId)
    requires id in s.txns && id < s.nextTxnId && ThreadOk(s, t) && TxnOk(s, id)
    ensures var s' := Step(s, t, a);
      && s.nextTxnId <= s'.nextTxnId && id in s'.txns && s'.txns[id].thread == s.txns[id].thread
      && (s.txns[id].state != ACTIVE ==> s'.txns[id].state == s.txns[id].state)
  {
  }

  // ---------- A transaction that its thread forgets ----------

  /** An ACTIVE transaction that no thread has as its current one or is working on. */
  ghost predicate Forgotten(s: State, id: TxnId) {
    && id in s.txns && s.txns[id].state == ACTIVE
    && var t := s.txns[id].thread;
       (PcOf(s, t).Idle? || PcOf(s, t).id != id) && (t in s.current ==> s.current[t] != id)
  }

  lemma {:induction false} StepForgets(s: State, t: Thread, a: Action, id: TxnId)
    requires ThreadOk(s, t) && Forgotten(s, id) && id < s.nextTxnId
    ensures Forgotten(Step(s, t, a), id)
  {
    OtherTxnSame(s, t, a, id);
  }

  /** It stays ACTIVE and in the active map forever, and is never committed. */
  lemma {:induction false} ForgottenForever(s: State, moves: seq<Move>, id: TxnId)
    requires Inv(s) && Forgotten(s, id)
    ensures var s' := Run(s, moves);
      Forgotten(s', id) && id in s'.active && Commit(id) !in s'.log
    decreases moves
  {
    if moves == [] {
      assert TxnOk(s, id);
    } else {
      var m := moves[0];
      StepKeepsInv(s, m.thread, m.action);
      assert ThreadOk(s, m.thread);
      StepForgets(s, m.thread, m.action, id);
      ForgottenForever(Step(s, m.thread, m.action), moves[1..], id);
    }
  }

  /** The step that makes a transaction so: begin sets the thread's current transaction over
      an ACTIVE one. */
  predicate Overwrites(s: State, t: Thread, a: Action, id: TxnId) {
    && PcOf(s, t).Added? && a == Go
    && t in s.current && s.current[t] == id && id in s.txns && s.txns[id].state == ACTIVE
  }

  /** A transaction becomes forgotten exactly in a begin of a thread that still has it. */
  lemma {:induction false} ForgottenIff(s: State, t: Thread, a: Action, id: TxnId)
    requires Inv(s) && id in s.txns && !Forgotten(s, id)
    ensures Forgotten(Step(s, t, a), id) <==> Overwrites(s, t, a, id)
  {
    assert ThreadOk(s, t) && TxnOk(s, id) && ThreadOk(s, s.txns[id].thread);
    if s.txns[id].thread != t {
      OthersKeepTxn(s, t, a, id);
    } else {
      OwnerForgets(s, t, a, id);
    }
  }

  lemma {:induction false} OthersKeepTxn(s: State, t: Thread, a: Action, id: TxnId)
    requires ThreadOk(s, t) && id in s.txns && id < s.nextTxnId && s.txns[id].thread != t
    ensures Forgotten(Step(s, t, a), id) <==> Forgotten(s, id)
    ensures !Overwrites(s, t, a, id)
  {
    OtherTxnSame(s, t, a, id);
  }

  lemma {:induction false} OwnerForgets(s: State, t: Thread, a: Action, id: TxnId)
    requires ThreadOk(s, t) && id in s.txns && id < s.nextTxnId && s.txns[id].thread == t && TxnOk(s, id)
    requires !Forgotten(s, id)
    ensures Forgotten(Step(s, t, a), id) <==> Overwrites(s, t, a, id)
  {
  }

  /** Two begins in a row by thread 0. */
  const TWO_BEGINS := [
    Move(0, CallBegin), Move(0, Go), Move(0, Go), Move(0, Go),
    Move(0, CallBegin), Move(0, Go), Move(0, Go)]

  /** After them transaction 1 is forgotten, whatever follows. */
  lemma {:induction false} TwoBeginsForgetTheFirst(moves: seq<Move>)
    ensures var s := Run(Run(INITIAL, TWO_BEGINS), moves);
      Forgotten(s, 1) && 1 in s.active && Commit(1) !in s.log
  {
    InitialInv();
    RunKeepsInv(INITIAL, TWO_BEGINS);
    FirstIsForgotten();
    ForgottenForever(Run(INITIAL, TWO_BEGINS), moves, 1);
  }

  lemma {:induction false} OneMove(s: State, moves: seq<Move>)
    requires moves != []
    ensures Run(s, moves) == Run(Step(s, moves[0].thread, moves[0].action), moves[1..])
  {
  }

  lemma {:induction false} FirstIsForgotten()
    ensures Forgotten(Run(INITIAL, TWO_BEGINS), 1)
  {
    var s1 := Step(INITIAL, 0, CallBegin);
    OneMove(INITIAL, TWO_BEGINS);
    var s2 := Step(s1, 0, Go);
    OneMove(s1, TWO_BEGINS[1..]);
    var s3 := Step(s2, 0, Go);
    OneMove(s2, TWO_BEGINS[1..][1..]);
    var s4 := Step(s3, 0, Go);
    OneMove(s3, TWO_BEGINS[1..][1..][1..]);
    var s5 := Step(s4, 0, CallBegin);
    OneMove(s4, TWO_BEGINS[1..][1..][1..][1..]);
    var s6 := Step(s5, 0, Go);
    OneMove(s5, TWO_BEGINS[1..][1..][1..][1..][1..]);
    OneMove(s6, TWO_BEGINS[1..][1..][1..][1..][1..][1..]);
  }

  /** That is what a second begin, without a commit or rollback between, does to the first. */
  lemma {:induction false} SecondBeginForgets(s: State, t: Thread)
    requires Inv(s) && PcOf(s, t).Added? && t in s.current
    ensures Forgotten(Step(s, t, Go), s.current[t])
  {
    assert ThreadOk(s, t) && TxnOk(s, s.current[t]);
  }
}
