/** A transfer or purchase whose statements run with nobody in between does exactly what it does alone. */
module Undisturbed {
  import opened Wrappers
  import opened Schema
  import opened Ledger
  import opened Accounting
  import opened Protocol
  import opened Invariant
  import opened Refinement
  import opened Outcomes
  import opened Failures
  import opened Waiting

  /** No other session holds anything. */
  ghost predicate Alone(st: State, op: OpId) {
    forall k :: k in st.locks ==> st.locks[k] == op
  }

  /** When the transaction begins, or has begun. */
  function BeginsAt(st: State, op: OpId): int
    requires op < |st.ops|
  {
    var pc := st.ops[op].pc;
    if pc.Start? || pc.SendChecked? || pc.BuyFound? then st.now else st.ops[op].tx.startedAt
  }

  /** The request is in progress, alone, and would lead to `result` if it ran as one operation. */
  ghost predicate Ready(st: State, op: OpId, pick: nat, result: Tables) {
    && op < |st.ops| && (st.ops[op].request.Send? || st.ops[op].request.Buy?) && !st.ops[op].pc.Finished?
    && Alone(st, op) && !Doomed(st.ops[op])
    && Run(st.db, CallOf(st.ops[op].request), [pick], BeginsAt(st, op)) == Success(result)
    && (st.ops[op].tx.transfers != [] ==> st.ops[op].tx.transfers[0].id == pick)
    && (st.ops[op].tx.purchases != [] ==> st.ops[op].tx.purchases[0].id == pick)
  }

  function OneStep(st: State, op: OpId, pick: nat): State {
    Next(st, Advance(op, pick, false))
  }

  /** One statement nearer to the commit. */
  ghost predicate Nearer(st: State, st': State, op: OpId, pick: nat, result: Tables) {
    && Ready(st', op, pick, result) && st'.db == st.db && st'.now == st.now && st'.log == st.log
    && op < |st.ops| && TouchesOnly(st, st', op) && Remaining(st'.ops[op]) < Remaining(st.ops[op])
    && st'.ops[op].request == st.ops[op].request
  }

  ghost predicate Completes(st: State, st': State, op: OpId, result: Tables) {
    && op < |st.ops| && TouchesOnly(st, st', op) && st'.ops[op].pc == Finished(Completed) && st'.db == result && st'.now == st.now
    && st'.ops[op].request == st.ops[op].request
    && st'.locks == map[] && |st'.log| == |st.log| + 1 && st.log <= st'.log
  }

  lemma NotBlocked(st: State, op: OpId)
    requires op < |st.ops| && Alone(st, op)
    ensures !Blocked(st, op)
  {
  }

  lemma NotHeldIsFree(t: Tables, st: State, op: OpId, k: Key)
    requires Inv(t, st) && op < |st.ops| && Alone(st, op) && k !in st.ops[op].tx.held
    ensures k !in st.locks
  {
  }

  // ----- transfers

  lemma SendStarts(t: Tables, st: State, op: OpId, pick: nat, result: Tables)
    requires Inv(t, st) && Ready(st, op, pick, result) && st.ops[op].request.Send?
    requires st.ops[op].pc.Start? || st.ops[op].pc.SendChecked? || st.ops[op].pc.SendBegun?
    ensures Nearer(st, OneStep(st, op, pick), op, pick, result)
  {
    NotBlocked(st, op);
    assert SendInv(st.db, st.ops[op]);
    SendTouches(st, op, pick, false);
  }

  lemma SendLocks(t: Tables, st: State, op: OpId, pick: nat, result: Tables)
    requires Inv(t, st) && Ready(st, op, pick, result) && st.ops[op].request.Send?
    requires st.ops[op].pc.SendLocking? && st.ops[op].pc.todo != []
    ensures Nearer(st, OneStep(st, op, pick), op, pick, result)
  {
    NotBlocked(st, op);
    assert SendInv(st.db, st.ops[op]);
    SendTouches(st, op, pick, false);
    assert OneStep(st, op, pick) == SendLock(st, op);
  }

  lemma SendChecks(t: Tables, st: State, op: OpId, pick: nat, result: Tables)
    requires Inv(t, st) && Ready(st, op, pick, result) && st.ops[op].request.Send?
    requires st.ops[op].pc.SendLocking? && st.ops[op].pc.todo == []
    ensures Nearer(st, OneStep(st, op, pick), op, pick, result)
  {
    NotBlocked(st, op);
    assert SendInv(st.db, st.ops[op]);
    SendTouches(st, op, pick, false);
    assert OneStep(st, op, pick) == SendCheck(st, op);
  }

  lemma SendInserts(t: Tables, st: State, op: OpId, pick: nat, result: Tables)
    requires Inv(t, st) && Ready(st, op, pick, result) && st.ops[op].request.Send? && st.ops[op].pc.SendInsert?
    ensures Nearer(st, OneStep(st, op, pick), op, pick, result)
  {
    NotBlocked(st, op);
    assert SendInv(st.db, st.ops[op]);
    NotHeldIsFree(t, st, op, TransferRow(pick));
    SendTouches(st, op, pick, false);
  }

  lemma SendUpdates(t: Tables, st: State, op: OpId, pick: nat, result: Tables)
    requires Inv(t, st) && Ready(st, op, pick, result) && st.ops[op].request.Send?
    requires st.ops[op].pc.SendDebit? || st.ops[op].pc.SendCredit?
    ensures Nearer(st, OneStep(st, op, pick), op, pick, result)
  {
    NotBlocked(st, op);
    assert SendInv(st.db, st.ops[op]);
    SendTouches(st, op, pick, false);
  }

  lemma CommitCompletes(t: Tables, st: State, op: OpId, pick: nat, result: Tables)
    requires Inv(t, st) && Ready(st, op, pick, result) && AtCommit(st.ops[op])
    requires OneStep(st, op, pick) == Commit(st, op, Completed)
    requires LogEntry(op, st.ops[op]).call == CallOf(st.ops[op].request)
    requires LogEntry(op, st.ops[op]).ids == [pick] && LogEntry(op, st.ops[op]).at == BeginsAt(st, op)
    ensures Completes(st, OneStep(st, op, pick), op, result)
  {
    CommitIsWhole(t, st, op);
    assert OneStep(st, op, pick).locks == map[];
  }

  lemma SendCommits(t: Tables, st: State, op: OpId, pick: nat, result: Tables)
    requires Inv(t, st) && Ready(st, op, pick, result) && st.ops[op].request.Send? && st.ops[op].pc.SendCommit?
    ensures Completes(st, OneStep(st, op, pick), op, result)
  {
    NotBlocked(st, op);
    assert SendInv(st.db, st.ops[op]) && SendInserted(st.db, st.ops[op], st.ops[op].pc.dst);
    CommitCompletes(t, st, op, pick, result);
  }

  lemma SendGoesOn(t: Tables, st: State, op: OpId, pick: nat, result: Tables)
    requires Inv(t, st) && Ready(st, op, pick, result) && st.ops[op].request.Send?
    ensures Nearer(st, OneStep(st, op, pick), op, pick, result) || Completes(st, OneStep(st, op, pick), op, result)
  {
    assert SendInv(st.db, st.ops[op]);
    match st.ops[op].pc
    case SendLocking(_, todo, _) =>
      if todo == [] {
        SendChecks(t, st, op, pick, result);
      } else {
        SendLocks(t, st, op, pick, result);
      }
    case SendInsert(_, _, _) => SendInserts(t, st, op, pick, result);
    case SendDebit(_, _, _) => SendUpdates(t, st, op, pick, result);
    case SendCredit(_, _) => SendUpdates(t, st, op, pick, result);
    case SendCommit(_) => SendCommits(t, st, op, pick, result);
    case _ => SendStarts(t, st, op, pick, result);
  }

  // ----- purchases

  lemma BuyStarts(t: Tables, st: State, op: OpId, pick: nat, result: Tables)
    requires Inv(t, st) && Ready(st, op, pick, result) && st.ops[op].request.Buy?
    requires st.ops[op].pc.Start? || st.ops[op].pc.BuyFound?
    ensures Nearer(st, OneStep(st, op, pick), op, pick, result)
  {
    NotBlocked(st, op);
    assert BuyInv(st.db, st.ops[op]);
    BuyTouches(st, op, pick);
  }

  lemma BuyLocks(t: Tables, st: State, op: OpId, pick: nat, result: Tables)
    requires Inv(t, st) && Ready(st, op, pick, result) && st.ops[op].request.Buy? && st.ops[op].pc.BuyBegun?
    ensures Nearer(st, OneStep(st, op, pick), op, pick, result)
  {
    NotBlocked(st, op);
    assert BuyInv(st.db, st.ops[op]);
    BuyTouches(st, op, pick);
    assert OneStep(st, op, pick) == BuyLock(st, op);
  }

  lemma BuyInserts(t: Tables, st: State, op: OpId, pick: nat, result: Tables)
    requires Inv(t, st) && Ready(st, op, pick, result) && st.ops[op].request.Buy? && st.ops[op].pc.BuyInsert?
    ensures Nearer(st, OneStep(st, op, pick), op, pick, result)
  {
    NotBlocked(st, op);
    assert BuyInv(st.db, st.ops[op]);
    NotHeldIsFree(t, st, op, PurchaseRow(pick));
    BuyTouches(st, op, pick);
  }

  lemma BuyUpdates(t: Tables, st: State, op: OpId, pick: nat, result: Tables)
    requires Inv(t, st) && Ready(st, op, pick, result) && st.ops[op].request.Buy? && st.ops[op].pc.BuyDebit?
    ensures Nearer(st, OneStep(st, op, pick), op, pick, result)
  {
    NotBlocked(st, op);
    assert BuyInv(st.db, st.ops[op]);
    BuyTouches(st, op, pick);
  }

  lemma BuyCommits(t: Tables, st: State, op: OpId, pick: nat, result: Tables)
    requires Inv(t, st) && Ready(st, op, pick, result) && st.ops[op].request.Buy? && st.ops[op].pc.BuyCommit?
    ensures Completes(st, OneStep(st, op, pick), op, result)
  {
    NotBlocked(st, op);
    assert BuyInv(st.db, st.ops[op]) && BuyInserted(st.db, st.ops[op], st.ops[op].pc.item);
    CommitCompletes(t, st, op, pick, result);
  }

  lemma BuyGoesOn(t: Tables, st: State, op: OpId, pick: nat, result: Tables)
    requires Inv(t, st) && Ready(st, op, pick, result) && st.ops[op].request.Buy?
    ensures Nearer(st, OneStep(st, op, pick), op, pick, result) || Completes(st, OneStep(st, op, pick), op, result)
  {
    assert BuyInv(st.db, st.ops[op]);
    match st.ops[op].pc
    case BuyBegun(_, _) => BuyLocks(t, st, op, pick, result);
    case BuyInsert(_, _, _) => BuyInserts(t, st, op, pick, result);
    case BuyDebit(_, _) => BuyUpdates(t, st, op, pick, result);
    case BuyCommit(_) => BuyCommits(t, st, op, pick, result);
    case _ => BuyStarts(t, st, op, pick, result);
  }

  // ----- to the end

  /** The atomic ledger is not only an upper bound: whatever a transfer or purchase does alone, the protocol does
      when its statements follow one another undisturbed. */
  lemma {:induction false} RunsThrough(t: Tables, st: State, op: OpId, pick: nat, result: Tables) returns (steps: seq<Step>)
    requires Inv(t, st) && Ready(st, op, pick, result)
    ensures Completes(st, Execute(st, steps), op, result)
    ensures steps != [] && forall i :: 0 <= i < |steps| ==> steps[i] == Advance(op, pick, false)
    decreases Remaining(st.ops[op])
  {
    var st', step := OneStep(st, op, pick), Advance(op, pick, false);
    if st.ops[op].request.Send? {
      SendGoesOn(t, st, op, pick, result);
    } else {
      BuyGoesOn(t, st, op, pick, result);
    }
    if Completes(st, st', op, result) {
      steps := [step];
      assert steps[..0] == [];
    } else {
      NextKeeps(t, st, step);
      var rest := RunsThrough(t, st', op, pick, result);
      steps := [step] + rest;
      ExecutePrepend(st, step, rest);
      CompletesLater(st, st', Execute(st', rest), op, pick, result);
    }
  }

  lemma CompletesLater(st: State, st': State, st'': State, op: OpId, pick: nat, result: Tables)
    requires Nearer(st, st', op, pick, result) && Completes(st', st'', op, result)
    ensures Completes(st, st'', op, result)
  {
  }
}
