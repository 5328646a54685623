/** What the outcome of a request says about the history: effects are all or nothing. */
module Outcomes {
  import opened Schema
  import opened Wrappers
  import opened Ledger
  import opened Accounting
  import opened Protocol
  import opened Invariant
  import opened Refinement

  /** The outcomes of sessions whose transaction was committed. */
  predicate TookEffect(o: Op) {
    o.pc.Finished? && (o.pc.outcome.Completed? || o.pc.outcome == Lost(true) || (o.pc.outcome.Authenticated? && o.pc.outcome.via.Created?))
  }

  /** How many completed operations of a log belong to a session. */
  function Commits(log: seq<Entry>, op: OpId): nat {
    if log == [] then 0 else Commits(log[..|log| - 1], op) + (if log[|log| - 1].op == op then 1 else 0)
  }

  /** A step either leaves the history and every session's effect alone ... */
  ghost predicate Quiet(st: State, st': State) {
    && st'.db == st.db && st'.log == st.log
    && |st.ops| <= |st'.ops|
    && (forall i :: 0 <= i < |st.ops| ==> (TookEffect(st'.ops[i]) <==> TookEffect(st.ops[i])) && st'.ops[i].request == st.ops[i].request)
    && (forall i :: |st.ops| <= i < |st'.ops| ==> !TookEffect(st'.ops[i]))
  }

  /** ... or commits one session, which is thereby finished. */
  ghost predicate Commits1(st: State, st': State, op: OpId) {
    && op < |st.ops| == |st'.ops| && AtCommit(st.ops[op])
    && st'.db == Merge(st.db, st.ops[op].tx)
    && st'.log == st.log + [LogEntry(op, st.ops[op])]
    && st'.ops == st.ops[op := Op(st.ops[op].request, st'.ops[op].pc, NO_TX)] && TookEffect(st'.ops[op])
  }

  ghost predicate TouchesOnly(st: State, st': State, op: OpId) {
    |st'.ops| == |st.ops| && forall i :: 0 <= i < |st.ops| && i != op ==> st'.ops[i] == st.ops[i]
  }

  lemma SendTouches(st: State, op: OpId, pick: nat, flip: bool)
    requires op < |st.ops| && st.ops[op].request.Send?
    ensures TouchesOnly(st, AdvanceSend(st, op, pick, flip), op)
  {
  }

  lemma BuyTouches(st: State, op: OpId, pick: nat)
    requires op < |st.ops| && st.ops[op].request.Buy?
    ensures TouchesOnly(st, AdvanceBuy(st, op, pick), op)
  {
  }

  lemma CreateTouches(st: State, op: OpId, pick: nat)
    requires op < |st.ops| && st.ops[op].request.Create?
    ensures TouchesOnly(st, AdvanceCreate(st, op, pick), op)
  {
  }

  lemma AuthenticateTouches(st: State, op: OpId, pick: nat)
    requires op < |st.ops| && st.ops[op].request.Authenticate?
    ensures TouchesOnly(st, AdvanceAuthenticate(st, op, pick), op)
  {
  }

  /** Session `op` was touched, and neither was nor is committed. */
  predicate Uncommitted(st: State, st': State, op: OpId)
    requires op < |st.ops| && op < |st'.ops|
  {
    !TookEffect(st.ops[op]) && !TookEffect(st'.ops[op])
  }

  lemma UncommittedIsQuiet(st: State, st': State, op: OpId)
    requires op < |st.ops| && TouchesOnly(st, st', op) && st'.db == st.db && st'.log == st.log
    requires st'.ops[op].request == st.ops[op].request && (st'.ops[op] == st.ops[op] || Uncommitted(st, st', op))
    ensures Quiet(st, st')
  {
  }

  lemma SendIsUncommitted(st: State, op: OpId, pick: nat, flip: bool)
    requires op < |st.ops| && st.ops[op].request.Send? && !(st.ops[op].pc.SendCommit? && AtCommit(st.ops[op]))
    ensures
      var st' := AdvanceSend(st, op, pick, flip);
      && |st'.ops| == |st.ops| && st'.db == st.db && st'.log == st.log
      && st'.ops[op].request == st.ops[op].request && (st'.ops[op] == st.ops[op] || Uncommitted(st, st', op))
  {
  }

  lemma SendStepShape(st: State, op: OpId, pick: nat, flip: bool)
    requires op < |st.ops| && st.ops[op].request.Send?
    ensures Quiet(st, AdvanceSend(st, op, pick, flip)) || Commits1(st, AdvanceSend(st, op, pick, flip), op)
  {
    var st' := AdvanceSend(st, op, pick, flip);
    if st.ops[op].pc.SendCommit? && AtCommit(st.ops[op]) {
      assert Commits1(st, st', op);
    } else {
      SendTouches(st, op, pick, flip);
      SendIsUncommitted(st, op, pick, flip);
      UncommittedIsQuiet(st, st', op);
    }
  }

  lemma BuyStepShape(st: State, op: OpId, pick: nat)
    requires op < |st.ops| && st.ops[op].request.Buy?
    ensures Quiet(st, AdvanceBuy(st, op, pick)) || Commits1(st, AdvanceBuy(st, op, pick), op)
  {
    var st' := AdvanceBuy(st, op, pick);
    if st.ops[op].pc.BuyCommit? && AtCommit(st.ops[op]) {
      assert Commits1(st, st', op);
    } else {
      assert Quiet(st, st');
    }
  }

  lemma CreateStepShape(st: State, op: OpId, pick: nat)
    requires op < |st.ops| && st.ops[op].request.Create?
    ensures Quiet(st, AdvanceCreate(st, op, pick)) || Commits1(st, AdvanceCreate(st, op, pick), op)
  {
    var st' := AdvanceCreate(st, op, pick);
    if AtCommit(st.ops[op]) {
      assert Commits1(st, st', op);
    } else {
      assert Quiet(st, st');
    }
  }

  lemma AuthenticateStepShape(st: State, op: OpId, pick: nat)
    requires op < |st.ops| && st.ops[op].request.Authenticate?
    ensures Quiet(st, AdvanceAuthenticate(st, op, pick)) || Commits1(st, AdvanceAuthenticate(st, op, pick), op)
  {
    var st' := AdvanceAuthenticate(st, op, pick);
    if AtCommit(st.ops[op]) {
      assert Commits1(st, st', op);
    } else {
      assert Quiet(st, st');
    }
  }

  lemma AdvanceShape(st: State, op: OpId, pick: nat, flip: bool)
    requires op < |st.ops| && !Blocked(st, op)
    ensures Quiet(st, Next(st, Advance(op, pick, flip))) || Commits1(st, Next(st, Advance(op, pick, flip)), op)
  {
    match st.ops[op].request
    case Send(_, _, _) => SendStepShape(st, op, pick, flip);
    case Buy(_, _) => BuyStepShape(st, op, pick);
    case Create(_) => CreateStepShape(st, op, pick);
    case Authenticate(_, _, _) => AuthenticateStepShape(st, op, pick);
    case Info(_) => assert Quiet(st, AdvanceInfo(st, op));
  }

  lemma StepShape(st: State, step: Step)
    ensures Quiet(st, Next(st, step)) || exists op: OpId :: Commits1(st, Next(st, step), op)
  {
    var st' := Next(st, step);
    if step.Advance? && step.op < |st.ops| && !Blocked(st, step.op) {
      AdvanceShape(st, step.op, step.pick, step.flip);
    } else if step.CommitLost? && step.op < |st.ops| && AtCommit(st.ops[step.op]) {
      assert Commits1(st, st', step.op);
    } else {
      assert Quiet(st, st');
    }
  }

  lemma RequestIsKept(st: State, step: Step, i: OpId)
    requires i < |st.ops|
    ensures i < |Next(st, step).ops| && Next(st, step).ops[i].request == st.ops[i].request
    ensures st.log <= Next(st, step).log
  {
    StepShape(st, step);
  }

  lemma RunUnfolds(st: State, steps: seq<Step>)
    requires steps != []
    ensures Execute(st, steps) == Next(Execute(st, steps[..|steps| - 1]), steps[|steps| - 1])
  {
  }

  /** The history only grows ... */
  lemma {:induction false} HistorySince(t: Tables, now: int, steps: seq<Step>, k: nat)
    requires k <= |steps|
    ensures Execute(Initial(t, now), steps[..k]).log <= Execute(Initial(t, now), steps).log
    decreases |steps|
  {
    if k < |steps| {
      var front := steps[..|steps| - 1];
      assert front[..k] == steps[..k];
      HistorySince(t, now, front, k);
      StepShape(Execute(Initial(t, now), front), steps[|steps| - 1]);
    } else {
      assert steps[..k] == steps;
    }
  }

  /** ... and sessions keep their requests. */
  lemma {:induction false} RequestSince(t: Tables, now: int, steps: seq<Step>, k: nat, op: OpId)
    requires k <= |steps| && op < |Execute(Initial(t, now), steps[..k]).ops|
    ensures op < |Execute(Initial(t, now), steps).ops|
    ensures Execute(Initial(t, now), steps).ops[op].request == Execute(Initial(t, now), steps[..k]).ops[op].request
    decreases |steps|
  {
    if k < |steps| {
      var front := steps[..|steps| - 1];
      assert front[..k] == steps[..k];
      RequestSince(t, now, front, k, op);
      RequestIsKept(Execute(Initial(t, now), front), steps[|steps| - 1], op);
    } else {
      assert steps[..k] == steps;
    }
  }

  lemma CommitIsWhole(t: Tables, st: State, op: OpId)
    requires Inv(t, st) && op < |st.ops| && AtCommit(st.ops[op])
    ensures var e := LogEntry(op, st.ops[op]); Run(st.db, e.call, e.ids, e.at) == Success(Merge(st.db, st.ops[op].tx))
  {
    SerialKeeps(t, st.log);
    CommitRefines(st.db, op, st.ops[op]);
  }

  /** Aborts, failures and every statement before the commit leave the committed tables alone; a commit
      applies one whole operation. No step shows half of a transfer or a purchase to anyone. */
  lemma StepIsWhole(t: Tables, st: State, step: Step)
    requires Inv(t, st)
    ensures var st' := Next(st, step);
      (st'.db == st.db && st'.log == st.log)
      || (|st'.log| == |st.log| + 1 && st'.log[..|st.log|] == st.log
          && var e := st'.log[|st.log|]; Run(st.db, e.call, e.ids, e.at) == Success(st'.db))
  {
    StepShape(st, step);
    var st' := Next(st, step);
    if !Quiet(st, st') {
      var op: OpId :| Commits1(st, st', op);
      CommitIsWhole(t, st, op);
    }
  }

  /** The operation a request asks for. */
  function CallOf(request: Request): Call
    requires !request.Info?
  {
    match request
    case Send(dstUsername, src, amount) => SendCoins(dstUsername, src, amount)
    case Buy(itemName, user) => BuyItem(itemName, user)
    case Create(params) => CreateUsers(params)
    case Authenticate(username, newHash, _) => CreateUsers([User(username, newHash, DEFAULT_BALANCE)])
  }

  /** The history holds one entry, with its own arguments, for every session that took effect,
      and none for any other. */
  ghost predicate LogMatches(st: State) {
    && (forall op: OpId :: Commits(st.log, op) == (if op < |st.ops| && TookEffect(st.ops[op]) then 1 else 0))
    && (forall i :: 0 <= i < |st.log| ==>
          var op := st.log[i].op;
          op < |st.ops| && !st.ops[op].request.Info? && st.log[i].call == CallOf(st.ops[op].request))
  }

  lemma LogStillMatches(st: State, st': State, op: OpId)
    requires LogMatches(st) && Commits1(st, st', op)
    ensures LogMatches(st')
  {
    assert st'.log[..|st.log|] == st.log;
    assert !TookEffect(st.ops[op]);
    forall i: OpId
      ensures Commits(st'.log, i) == (if i < |st'.ops| && TookEffect(st'.ops[i]) then 1 else 0)
    {
      assert Commits(st'.log, i) == Commits(st.log, i) + (if i == op then 1 else 0);
    }
    forall i | 0 <= i < |st'.log|
      ensures var j := st'.log[i].op;
        j < |st'.ops| && !st'.ops[j].request.Info? && st'.log[i].call == CallOf(st'.ops[j].request)
    {
      if i < |st.log| {
        assert st'.log[i] == st.log[i];
      }
    }
  }

  /** All or nothing, over every run: a session is in the history exactly once if its outcome says that
      it took effect (also when its commit reported an error), and not at all otherwise. */
  lemma {:induction false} AllOrNothing(t: Tables, now: int, steps: seq<Step>)
    requires Coherent(t)
    ensures LogMatches(Execute(Initial(t, now), steps))
  {
    if steps != [] {
      var front, step := steps[..|steps| - 1], steps[|steps| - 1];
      AllOrNothing(t, now, front);
      var st := Execute(Initial(t, now), front);
      StepShape(st, step);
      if !Quiet(st, Next(st, step)) {
        var op: OpId :| Commits1(st, Next(st, step), op);
        LogStillMatches(st, Next(st, step), op);
      }
    }
  }

  /** A step of one session leaves every other session as it is. */
  lemma AdvanceTouches(st: State, op: OpId, pick: nat, flip: bool)
    requires op < |st.ops|
    ensures TouchesOnly(st, Next(st, Advance(op, pick, flip)), op)
  {
    if !Blocked(st, op) {
      match st.ops[op].request
      case Send(_, _, _) => SendTouches(st, op, pick, flip);
      case Buy(_, _) => BuyTouches(st, op, pick);
      case Create(_) => CreateTouches(st, op, pick);
      case Authenticate(_, _, _) => AuthenticateTouches(st, op, pick);
      case Info(_) =>
    }
  }

  lemma FinishedStaysNext(st: State, step: Step, op: OpId)
    requires op < |st.ops| && st.ops[op].pc.Finished?
    ensures op < |Next(st, step).ops| && Next(st, step).ops[op] == st.ops[op]
  {
    if step.Advance? && step.op < |st.ops| {
      AdvanceTouches(st, step.op, step.pick, step.flip);
    }
  }

  /** A session that has ended stays as it is. */
  lemma {:induction false} FinishedSince(t: Tables, now: int, steps: seq<Step>, k: nat, op: OpId)
    requires k <= |steps|
    requires var st := Execute(Initial(t, now), steps[..k]); op < |st.ops| && st.ops[op].pc.Finished?
    ensures op < |Execute(Initial(t, now), steps).ops|
    ensures Execute(Initial(t, now), steps).ops[op] == Execute(Initial(t, now), steps[..k]).ops[op]
    decreases |steps|
  {
    if k < |steps| {
      var front := steps[..|steps| - 1];
      assert front[..k] == steps[..k];
      FinishedSince(t, now, front, k, op);
      FinishedStaysNext(Execute(Initial(t, now), front), steps[|steps| - 1], op);
    } else {
      assert steps[..k] == steps;
    }
  }

  lemma ArrivesAtStart(st: State, step: Step, i: OpId)
    requires |st.ops| <= i < |Next(st, step).ops|
    ensures step.Arrive? && Next(st, step).ops[i] == Op(step.request, Start, NO_TX)
  {
    if step.Advance? && step.op < |st.ops| {
      AdvanceTouches(st, step.op, step.pick, step.flip);
    }
  }
}
