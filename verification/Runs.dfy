/** The accounting laws in every state that any interleaving can reach. */
module Runs {
  import opened Schema
  import opened Ledger
  import opened Accounting
  import opened Protocol
  import opened Invariant
  import opened Refinement
  import opened Outcomes

  /** In every reachable state every balance is in range and equals what the account was opened with, plus
      everything received, minus everything sent, minus everything spent, by the committed history. */
  lemma EveryBalanceIsExplained(t: Tables, now: int, steps: seq<Step>, u: UserId)
    requires Coherent(t)
    requires u in Execute(Initial(t, now), steps).db.users
    ensures
      var st := Execute(Initial(t, now), steps);
      && NonNegativeInt32(st.db.users[u].balance)
      && st.db.users[u].balance == Granted(t, st.log, u) + Received(st.db.transfers, u) - Sent(st.db.transfers, u) - Spent(st.db.purchases, u)
  {
    var st := Execute(Initial(t, now), steps);
    Serializable(t, now, steps);
    SerialKeeps(t, st.log);
    LedgerEquation(t, st.log, u);
  }

  /** A batch registration asks for the default balance only. */
  ghost predicate DefaultRequest(request: Request) {
    request.Create? ==> forall i :: 0 <= i < |request.params| ==> request.params[i].balance == DEFAULT_BALANCE
  }

  ghost predicate DefaultSteps(steps: seq<Step>) {
    forall i :: 0 <= i < |steps| && steps[i].Arrive? ==> DefaultRequest(steps[i].request)
  }

  ghost predicate DefaultOps(ops: seq<Op>) {
    forall i :: 0 <= i < |ops| ==> DefaultRequest(ops[i].request)
  }

  lemma StepKeepsDefault(st: State, step: Step)
    requires DefaultOps(st.ops) && (step.Arrive? ==> DefaultRequest(step.request))
    ensures DefaultOps(Next(st, step).ops)
  {
    var st' := Next(st, step);
    forall i | 0 <= i < |st'.ops|
      ensures DefaultRequest(st'.ops[i].request)
    {
      if i < |st.ops| {
        RequestIsKept(st, step, i);
      } else {
        ArrivesAtStart(st, step, i);
      }
    }
  }

  lemma {:induction false} OpsStayDefault(t: Tables, now: int, steps: seq<Step>)
    requires DefaultSteps(steps)
    ensures DefaultOps(Execute(Initial(t, now), steps).ops)
  {
    if steps != [] {
      var front := steps[..|steps| - 1];
      OpsStayDefault(t, now, front);
      StepKeepsDefault(Execute(Initial(t, now), front), steps[|steps| - 1]);
    }
  }

  lemma LogIsDefault(st: State)
    requires LogMatches(st) && DefaultOps(st.ops)
    ensures DefaultGrants(st.log)
  {
    forall i, j | 0 <= i < |st.log| && st.log[i].call.CreateUsers? && 0 <= j < |st.log[i].call.params|
      ensures st.log[i].call.params[j].balance == DEFAULT_BALANCE
    {
      var request := st.ops[st.log[i].op].request;
      assert st.log[i].call == CallOf(request) && DefaultRequest(request);
    }
  }

  lemma RunsAreDefault(t: Tables, now: int, steps: seq<Step>)
    requires Coherent(t) && DefaultSteps(steps)
    ensures DefaultGrants(Execute(Initial(t, now), steps).log)
  {
    AllOrNothing(t, now, steps);
    OpsStayDefault(t, now, steps);
    LogIsDefault(Execute(Initial(t, now), steps));
  }

  /** Global conservation in every reachable state: coins held plus coins spent are 1000 for each user. */
  lemma CoinsAreConserved(t: Tables, now: int, steps: seq<Step>)
    requires Pristine(t) && DefaultSteps(steps)
    ensures
      var db := Execute(Initial(t, now), steps).db;
      Total(db.users) + SpentByAll(db.purchases) == 1000 * |db.users|
  {
    Serializable(t, now, steps);
    RunsAreDefault(t, now, steps);
    Conservation(t, Execute(Initial(t, now), steps).log);
  }

  /** While at most 2147483 users exist, no transfer that has passed its balance check and inserted its row
      can fail on the range of the destination balance. */
  lemma CreditNeverOverflows(t: Tables, now: int, steps: seq<Step>, op: OpId)
    requires Pristine(t) && DefaultSteps(steps)
    requires
      var st := Execute(Initial(t, now), steps);
      && |st.db.users| <= MAX_SAFE_USERS
      && op < |st.ops| && st.ops[op].request.Send? && (st.ops[op].pc.SendDebit? || st.ops[op].pc.SendCredit?)
    ensures NonNegativeInt32(Execute(Initial(t, now), steps).ops[op].pc.dstBalance)
  {
    var st := Execute(Initial(t, now), steps);
    Serializable(t, now, steps);
    SerialKeeps(t, st.log);
    CoinsAreConserved(t, now, steps);
    CreditFits(st.db, st.ops[op]);
  }

  lemma CreditFits(db: Tables, o: Op)
    requires Constraints(db) && Supply(db) <= MAX_INT32
    requires OpInv(db, o) && o.request.Send? && (o.pc.SendDebit? || o.pc.SendCredit?)
    ensures NonNegativeInt32(o.pc.dstBalance)
  {
    var src, dst := o.request.src, o.pc.dst;
    assert SendInv(db, o) && SendInserted(db, o, dst);
    TwoBalancesWithinSupply(db, src, dst);
  }
}
