/** What a call does that nobody disturbs: exactly what its operation does alone. */
module Calls {
  import opened Wrappers
  import opened Schema
  import opened Ledger
  import opened Accounting
  import opened Protocol
  import opened Invariant
  import opened Refinement
  import opened Outcomes
  import opened Failures
  import opened Database
  import Waiting

  /** Step `k` is the arrival of this request as session `own`, and from then on only this session has moved. */
  ghost predicate OwnRun(t: Tables, now: int, steps: seq<Step>, k: nat, own: OpId, request: Request) {
    && k < |steps| && steps[k] == Arrive(request)
    && own == |Execute(Initial(t, now), steps[..k]).ops| && OnlyBy(steps, k + 1, own)
  }

  /** The tables are those after the operation of the request, alone. */
  ghost predicate EffectAlone(before: Tables, request: Request, after: Tables) {
    !request.Info? && exists ids: seq<nat>, at: int :: Run(before, CallOf(request), ids, at) == Success(after)
  }

  /** The session is there, and has changed nothing or has done its one operation. */
  ghost predicate OnlyEffect(early: State, st: State, own: OpId, request: Request) {
    && own < |st.ops| && st.ops[own].request == request
    && (if TookEffect(st.ops[own]) then EffectAlone(early.db, request, st.db) && st.ops[own].pc.Finished?
        else st.db == early.db && st.log == early.log)
  }

  lemma OwnStepEffect(t: Tables, early: State, st: State, step: Step, own: OpId, request: Request)
    requires Inv(t, st) && OnlyEffect(early, st, own, request) && (step.Advance? || step.Abort?) && step.op == own
    ensures OnlyEffect(early, Next(st, step), own, request)
  {
    if st.ops[own].pc.Finished? {
      assert Next(st, step) == st by {
        Waiting.FinishedStays(st, step);
      }
    } else {
      StepShape(st, step);
      if !Quiet(st, Next(st, step)) {
        var op: OpId :| Commits1(st, Next(st, step), op);
        OwnCommit(t, st, step, own, op);
      }
    }
  }

  lemma OwnCommit(t: Tables, st: State, step: Step, own: OpId, op: OpId)
    requires Inv(t, st) && own < |st.ops| && (step.Advance? || step.Abort?) && step.op == own
    requires Commits1(st, Next(st, step), op)
    ensures op == own && EffectAlone(st.db, st.ops[own].request, Next(st, step).db)
  {
    assert TookEffect(Next(st, step).ops[op]) && !TookEffect(st.ops[op]);
    if step.Advance? {
      AdvanceTouches(st, own, step.pick, step.flip);
    }
    CommitIsWhole(t, st, op);
    var e := LogEntry(op, st.ops[op]);
    assert e.call == CallOf(st.ops[op].request);
    assert Run(st.db, CallOf(st.ops[op].request), e.ids, e.at) == Success(Next(st, step).db);
  }

  lemma OwnRunBegins(t: Tables, now: int, steps: seq<Step>, k: nat, own: OpId, request: Request)
    requires OwnRun(t, now, steps, k, own, request) && |steps| == k + 1
    ensures OnlyEffect(Execute(Initial(t, now), steps[..k]), Execute(Initial(t, now), steps), own, request)
  {
    RunUnfolds(Initial(t, now), steps);
  }

  lemma OwnRunFront(t: Tables, now: int, steps: seq<Step>, m: nat, k: nat, own: OpId, request: Request)
    requires OwnRun(t, now, steps, k, own, request) && k < m <= |steps|
    ensures steps[..m][..k] == steps[..k] && OwnRun(t, now, steps[..m], k, own, request)
  {
    assert steps[..m][..k] == steps[..k];
  }

  lemma {:induction false} OwnRunEffect(t: Tables, now: int, steps: seq<Step>, k: nat, own: OpId, request: Request)
    requires Coherent(t) && OwnRun(t, now, steps, k, own, request)
    ensures OnlyEffect(Execute(Initial(t, now), steps[..k]), Execute(Initial(t, now), steps), own, request)
    decreases |steps|
  {
    if |steps| == k + 1 {
      OwnRunBegins(t, now, steps, k, own, request);
    } else {
      var front := steps[..|steps| - 1];
      OwnRunFront(t, now, steps, |steps| - 1, k, own, request);
      OwnRunEffect(t, now, front, k, own, request);
      OwnRunExtends(t, now, steps, front, Execute(Initial(t, now), steps[..k]), Execute(Initial(t, now), front), own, request);
    }
  }

  lemma OwnRunExtends(t: Tables, now: int, steps: seq<Step>, front: seq<Step>, early: State, st: State, own: OpId, request: Request)
    requires Coherent(t) && steps != [] && front == steps[..|steps| - 1] && st == Execute(Initial(t, now), front)
    requires var step := steps[|steps| - 1]; (step.Advance? || step.Abort?) && step.op == own
    requires OnlyEffect(early, st, own, request)
    ensures OnlyEffect(early, Execute(Initial(t, now), steps), own, request)
  {
    Serializable(t, now, front);
    OwnStepEffect(t, early, st, steps[|steps| - 1], own, request);
    RunUnfolds(Initial(t, now), steps);
  }

  /** A refusal in such a run has its cause in the tables that the call found. */
  ghost predicate RefusedByFound(before: Tables, request: Request, outcome: Outcome) {
    exists o: Op, pick: nat :: o.request == request && Due(before, request, Drawn(o, pick), outcome)
  }

  lemma OwnRunRefusal(t: Tables, now: int, steps: seq<Step>, k: nat, own: OpId, request: Request, outcome: Outcome)
    requires Coherent(t) && OwnRun(t, now, steps, k, own, request)
    requires Justified(t, now, steps, own, outcome)
    ensures RefusedByFound(Execute(Initial(t, now), steps[..k]).db, request, outcome)
  {
    var m :| 0 <= m < |steps| && RefusedAt(Execute(Initial(t, now), steps[..m]), steps[m], own, outcome);
    OpsGrow(t, now, steps, k, m, own);
    OwnRunFront(t, now, steps, m, k, own, request);
    OwnRunEffect(t, now, steps[..m], k, own, request);
    FoundTables(Execute(Initial(t, now), steps[..k]), Execute(Initial(t, now), steps[..m]), steps[m], own, request, outcome);
  }

  lemma FoundTables(early: State, st: State, step: Step, own: OpId, request: Request, outcome: Outcome)
    requires OnlyEffect(early, st, own, request) && RefusedAt(st, step, own, outcome)
    ensures RefusedByFound(early.db, request, outcome)
  {
    assert Due(early.db, request, Drawn(st.ops[own], step.pick), outcome);
  }

  /** A session that is there at step `m` arrived before it. */
  lemma OpsGrow(t: Tables, now: int, steps: seq<Step>, k: nat, m: nat, own: OpId)
    requires k < |steps| && m <= |steps| && own == |Execute(Initial(t, now), steps[..k]).ops|
    requires own < |Execute(Initial(t, now), steps[..m]).ops|
    ensures k < m
  {
    assert m <= k ==> steps[..k][..m] == steps[..m];
    if m <= k {
      MoreSessions(t, now, steps[..k], m);
    }
  }

  lemma {:induction false} MoreSessions(t: Tables, now: int, steps: seq<Step>, m: nat)
    requires m <= |steps|
    ensures |Execute(Initial(t, now), steps[..m]).ops| <= |Execute(Initial(t, now), steps).ops|
    decreases |steps|
  {
    assert steps[..|steps|] == steps;
    if m < |steps| {
      var front := steps[..|steps| - 1];
      assert front[..m] == steps[..m];
      MoreSessions(t, now, front, m);
      StepShape(Execute(Initial(t, now), front), steps[|steps| - 1]);
    }
  }

  // ----- the answers of single operations

  /** What TransferByUsername alone does to these tables, with some generated id and start time, is this answer
      and this result. */
  ghost predicate TransferAnswer(before: Tables, dstUsername: string, src: UserId, amount: int64, r: Outcome, after: Tables) {
    exists id: RowId, at: int :: IsAnswer(RunTransfer(before, dstUsername, src, amount, id, at), before, r, after)
  }

  /** The same for PurchaseByName. */
  ghost predicate PurchaseAnswer(before: Tables, itemName: string, user: UserId, r: Outcome, after: Tables) {
    exists id: RowId, at: int :: IsAnswer(RunPurchase(before, itemName, user, id, at), before, r, after)
  }

  ghost predicate IsAnswer(result: Result<Tables, Error>, before: Tables, r: Outcome, after: Tables) {
    match result
    case Success(t) => r == Completed && after == t
    case Failure(error) => r == Failed(error) && after == before
  }

  /** The same for CreateUsers: all rows under some ids, or a refusal with its cause and no row at all. */
  ghost predicate CreateAnswer(before: Tables, params: seq<User>, r: Outcome, after: Tables) {
    if r == Completed then exists ids: seq<UserId> :: RunCreate(before, params, ids) == Success(after)
    else r.Failed? && after == before && exists drawn: seq<UserId> :: CreateDue(before, params, drawn, r.error)
  }

  /** The session of an undisturbed call has ended with an answer to its request. */
  ghost predicate AnsweredAlone(t: Tables, now: int, steps: seq<Step>, k: nat, own: OpId, request: Request, r: Outcome) {
    && own < |Execute(Initial(t, now), steps).ops|
    && OwnRun(t, now, steps, k, own, request) && Honest(t, now, steps, own)
    && Execute(Initial(t, now), steps).ops[own].pc == Finished(r) && !r.Lost?
  }

  lemma FoundIsCoherent(t: Tables, now: int, steps: seq<Step>, k: nat)
    requires Coherent(t) && k <= |steps|
    ensures Coherent(Execute(Initial(t, now), steps[..k]).db)
  {
    Serializable(t, now, steps[..k]);
    SerialKeeps(t, Execute(Initial(t, now), steps[..k]).log);
  }

  lemma EffectOrRefusal(t: Tables, now: int, steps: seq<Step>, k: nat, own: OpId, request: Request, r: Outcome)
    requires Coherent(t) && AnsweredAlone(t, now, steps, k, own, request, r)
    ensures
      var before, after := Execute(Initial(t, now), steps[..k]).db, Execute(Initial(t, now), steps).db;
      && (r == Completed || (r.Authenticated? && r.via.Created?) ==> EffectAlone(before, request, after))
      && (r != Completed && !(r.Authenticated? && r.via.Created?) ==> after == before)
      && (Refusal(r) ==> RefusedByFound(before, request, r))
      && (request.Send? || request.Buy? || request.Create? ==> !r.Authenticated? && !r.Report?)
  {
    OwnRunEffect(t, now, steps, k, own, request);
    Serializable(t, now, steps);
    assert OpInv(Execute(Initial(t, now), steps).db, Execute(Initial(t, now), steps).ops[own]);
    if Refusal(r) {
      assert Refused(Execute(Initial(t, now), steps).ops[own], r);
      OwnRunRefusal(t, now, steps, k, own, request, r);
    }
  }

  lemma TransferIsAnswered(t: Tables, now: int, steps: seq<Step>, k: nat, own: OpId, request: Request, r: Outcome)
    requires Coherent(t) && request.Send? && AnsweredAlone(t, now, steps, k, own, request, r)
    ensures TransferAnswer(Execute(Initial(t, now), steps[..k]).db, request.dstUsername, request.src, request.amount, r,
                           Execute(Initial(t, now), steps).db)
  {
    var before, after := Execute(Initial(t, now), steps[..k]).db, Execute(Initial(t, now), steps).db;
    EffectOrRefusal(t, now, steps, k, own, request, r);
    FoundIsCoherent(t, now, steps, k);
    TransferFromEffect(before, request, r, after);
  }

  lemma TransferFromEffect(before: Tables, request: Request, r: Outcome, after: Tables)
    requires Constraints(before) && request.Send?
    requires (r == Completed && EffectAlone(before, request, after)) || (Refusal(r) && RefusedByFound(before, request, r) && after == before)
    ensures TransferAnswer(before, request.dstUsername, request.src, request.amount, r, after)
  {
    if r == Completed {
      var ids: seq<nat>, at: int :| Run(before, CallOf(request), ids, at) == Success(after);
      assert IsAnswer(RunTransfer(before, request.dstUsername, request.src, request.amount, ids[0], at), before, r, after);
    } else {
      var o: Op, pick: nat :| o.request == request && Due(before, request, Drawn(o, pick), r);
      var id := Drawn(o, pick)[0];
      SendDueIsAlone(before, request, id, 0, r.error);
      assert IsAnswer(RunTransfer(before, request.dstUsername, request.src, request.amount, id, 0), before, r, after);
    }
  }

  lemma PurchaseIsAnswered(t: Tables, now: int, steps: seq<Step>, k: nat, own: OpId, request: Request, r: Outcome)
    requires Coherent(t) && request.Buy? && AnsweredAlone(t, now, steps, k, own, request, r)
    ensures PurchaseAnswer(Execute(Initial(t, now), steps[..k]).db, request.itemName, request.user, r, Execute(Initial(t, now), steps).db)
  {
    var before, after := Execute(Initial(t, now), steps[..k]).db, Execute(Initial(t, now), steps).db;
    EffectOrRefusal(t, now, steps, k, own, request, r);
    FoundIsCoherent(t, now, steps, k);
    PurchaseFromEffect(before, request, r, after);
  }

  lemma PurchaseFromEffect(before: Tables, request: Request, r: Outcome, after: Tables)
    requires Constraints(before) && request.Buy?
    requires (r == Completed && EffectAlone(before, request, after)) || (Refusal(r) && RefusedByFound(before, request, r) && after == before)
    ensures PurchaseAnswer(before, request.itemName, request.user, r, after)
  {
    if r == Completed {
      var ids: seq<nat>, at: int :| Run(before, CallOf(request), ids, at) == Success(after);
      assert IsAnswer(RunPurchase(before, request.itemName, request.user, ids[0], at), before, r, after);
    } else {
      var o: Op, pick: nat :| o.request == request && Due(before, request, Drawn(o, pick), r);
      var id := Drawn(o, pick)[0];
      BuyDueIsAlone(before, request, id, 0, r.error);
      assert IsAnswer(RunPurchase(before, request.itemName, request.user, id, 0), before, r, after);
    }
  }

  lemma CreateIsAnswered(t: Tables, now: int, steps: seq<Step>, k: nat, own: OpId, request: Request, r: Outcome)
    requires Coherent(t) && request.Create? && AnsweredAlone(t, now, steps, k, own, request, r)
    ensures CreateAnswer(Execute(Initial(t, now), steps[..k]).db, request.params, r, Execute(Initial(t, now), steps).db)
  {
    var before, after := Execute(Initial(t, now), steps[..k]).db, Execute(Initial(t, now), steps).db;
    EffectOrRefusal(t, now, steps, k, own, request, r);
    if r == Completed {
      var ids: seq<nat>, at: int :| Run(before, CallOf(request), ids, at) == Success(after);
      assert RunCreate(before, request.params, ids) == Success(after);
    } else {
      var o: Op, pick: nat :| o.request == request && Due(before, request, Drawn(o, pick), r);
      assert CreateDue(before, request.params, Drawn(o, pick), r.error);
    }
  }
}
