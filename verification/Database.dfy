/** The database as one session's code sees it: each statement is one step of the protocol, and before
    each statement any number of steps of other sessions can happen. */
module Database {
  import opened Schema
  import opened Ledger
  import opened Protocol
  import opened Invariant
  import opened Refinement
  import opened Outcomes
  import opened Failures
  import opened Waiting
  import opened Undisturbed

  /** What the steps of others can do to a session: nothing, or end it. */
  ghost predicate Continues(o: Op, o': Op) {
    o' == o || IsLost(o.request, o')
  }

  ghost predicate IsLost(request: Request, o: Op) {
    o.request == request && o.pc.Finished? && o.pc.outcome.Lost?
  }

  lemma OthersStep(st: State, step: Step, own: OpId)
    requires own < |st.ops| && !(step.Advance? && step.op == own)
    ensures own < |Next(st, step).ops| && Continues(st.ops[own], Next(st, step).ops[own])
  {
    if step.Advance? && step.op < |st.ops| {
      AdvanceTouches(st, step.op, step.pick, step.flip);
    }
  }

  /** The statement of session `own`, at program counter `o`, was granted in `before` and led to `after`. */
  ghost predicate Executed(t: Tables, o: Op, before: State, after: State, own: OpId, pick: nat, flip: bool) {
    && own < |before.ops| == |after.ops| && before.ops[own] == o
    && Inv(t, before) && !Blocked(before, own) && FreshPick(before, pick)
    && after == Next(before, Advance(own, pick, flip))
  }

  /** How a session has ended. */
  function OutcomeOf(st: State, own: OpId): Outcome
    requires own < |st.ops| && st.ops[own].pc.Finished?
  {
    st.ops[own].pc.outcome
  }

  predicate IsCancelled(st: State, own: OpId)
    requires own < |st.ops|
  {
    st.ops[own].pc.Finished? && st.ops[own].pc.outcome.Lost?
  }

  /** What the returned outcome of a session says: the session is in the history exactly once, with its own
      arguments, if it took effect, and not at all otherwise; and a refusal had its cause at one statement of
      this session. */
  ghost predicate Honest(t: Tables, now: int, steps: seq<Step>, own: OpId)
    requires own < |Execute(Initial(t, now), steps).ops|
  {
    var st := Execute(Initial(t, now), steps);
    && Commits(st.log, own) == (if TookEffect(st.ops[own]) then 1 else 0)
    && (forall i :: 0 <= i < |st.log| && st.log[i].op == own ==>
          !st.ops[own].request.Info? && st.log[i].call == CallOf(st.ops[own].request))
    && (forall outcome :: Refused(st.ops[own], outcome) ==> Justified(t, now, steps, own, outcome))
  }

  lemma OutcomesAreHonest(t: Tables, now: int, steps: seq<Step>, own: OpId)
    requires Coherent(t) && own < |Execute(Initial(t, now), steps).ops|
    ensures Honest(t, now, steps, own)
  {
    AllOrNothing(t, now, steps);
    forall outcome | Refused(Execute(Initial(t, now), steps).ops[own], outcome)
      ensures Justified(t, now, steps, own, outcome)
    {
      FailuresAreJustified(t, now, steps, own, outcome);
    }
  }

  // ----- why a session is cancelled, and what a call does that nobody disturbs

  /** A step of the environment that ends the session. */
  predicate IsEnd(step: Step, own: OpId) {
    (step.Abort? || step.CommitLost?) && step.op == own
  }

  ghost predicate EndedByOthers(all: seq<Step>, from: int, to: int, own: OpId) {
    exists i :: from <= i < to && 0 <= i < |all| && IsEnd(all[i], own)
  }

  /** One of these steps ends the session. */
  ghost predicate EndedAmong(steps: seq<Step>, own: OpId) {
    exists i :: 0 <= i < |steps| && IsEnd(steps[i], own)
  }

  lemma EndIsAmong(all: seq<Step>, others: seq<Step>, to: int, own: OpId)
    requires |others| <= |all| && others == all[|all| - |others|..] && EndedByOthers(all, |all| - |others|, to, own)
    ensures EndedAmong(others, own)
  {
    var from := |all| - |others|;
    var i :| from <= i < to && 0 <= i < |all| && IsEnd(all[i], own);
    assert others[i - from] == all[i];
  }

  /** The session was cancelled while it waited for a lock and nobody was left to release it. */
  ghost predicate TimedOut(t: Tables, now: int, run: seq<Step>, others: seq<Step>, own: OpId) {
    && others == [] && run != [] && run[|run| - 1] == Abort(own)
    && own < |Execute(Initial(t, now), run[..|run| - 1]).ops|
    && Blocked(Execute(Initial(t, now), run[..|run| - 1]), own)
  }

  /** From step `k` on only this session has moved. */
  ghost predicate OnlyBy(run: seq<Step>, k: nat, own: OpId) {
    forall m :: k <= m < |run| ==> (run[m].Advance? || run[m].Abort?) && run[m].op == own
  }

  lemma OthersHoldNothing(st: State, own: OpId, i: OpId)
    requires LocksInv(st) && Alone(st, own) && i < |st.ops| && i != own
    ensures st.ops[i].tx.held == {}
  {
    assert forall k :: k in st.ops[i].tx.held ==> k in st.locks && st.locks[k] == i;
  }

  lemma AloneByLocks(st: State, st': State, own: OpId)
    requires LocksInv(st) && LocksInv(st') && TouchesOnly(st, st', own) && Alone(st, own)
    ensures Alone(st', own)
  {
    forall i | 0 <= i < |st.ops| && i != own
      ensures st'.ops[i].tx.held == {}
    {
      OthersHoldNothing(st, own, i);
    }
    forall k | k in st'.locks
      ensures st'.locks[k] == own
    {
      assert k in st'.ops[st'.locks[k]].tx.held;
    }
  }

  /** The statements of a session leave other sessions' locks as they are, so a session alone stays alone. */
  lemma AloneStays(t: Tables, st: State, own: OpId, pick: nat, flip: bool)
    requires Inv(t, st) && own < |st.ops| && Alone(st, own)
    ensures Alone(Next(st, Advance(own, pick, flip)), own)
  {
    NextKeeps(t, st, Advance(own, pick, flip));
    AdvanceTouches(st, own, pick, flip);
    AloneByLocks(st, Next(st, Advance(own, pick, flip)), own);
  }

  lemma OnlyEndsCancel(st: State, step: Step, own: OpId)
    requires own < |st.ops| && !IsCancelled(st, own) && !(step.Advance? && step.op == own)
    requires own < |Next(st, step).ops| && IsCancelled(Next(st, step), own)
    ensures IsEnd(step, own)
  {
    if step.Advance? && step.op < |st.ops| {
      AdvanceTouches(st, step.op, step.pick, step.flip);
    }
  }

  /** No statement of a session cancels it. */
  lemma SendNotCancelled(st: State, own: OpId, pick: nat, flip: bool)
    requires own < |st.ops| && st.ops[own].request.Send? && !st.ops[own].pc.Finished?
    ensures own < |AdvanceSend(st, own, pick, flip).ops| && !IsCancelled(AdvanceSend(st, own, pick, flip), own)
  {
  }

  lemma BuyNotCancelled(st: State, own: OpId, pick: nat)
    requires own < |st.ops| && st.ops[own].request.Buy? && !st.ops[own].pc.Finished?
    ensures own < |AdvanceBuy(st, own, pick).ops| && !IsCancelled(AdvanceBuy(st, own, pick), own)
  {
  }

  lemma AdvanceNotCancelled(st: State, own: OpId, pick: nat, flip: bool)
    requires own < |st.ops| && !st.ops[own].pc.Finished? && !Blocked(st, own)
    ensures own < |Next(st, Advance(own, pick, flip)).ops| && !IsCancelled(Next(st, Advance(own, pick, flip)), own)
  {
    match st.ops[own].request
    case Send(_, _, _) => SendNotCancelled(st, own, pick, flip);
    case Buy(_, _) => BuyNotCancelled(st, own, pick);
    case Create(_) =>
    case Authenticate(_, _, _) =>
    case Info(_) =>
  }

  class Database {
    ghost const initial: Tables
    ghost const since: int
    // Everything the other sessions ever do.
    ghost const all: seq<Step>
    ghost var run: seq<Step>
    var st: State
    // The steps of the other sessions that are still to come.
    var others: seq<Step>

    /** The state is one that the protocol reaches, so everything proved of its runs applies. */
    ghost predicate Valid()
      reads this
    {
      && Coherent(initial) && st == Execute(Initial(initial, since), run)
      && |others| <= |all| && others == all[|all| - |others|..]
    }

    /** What every part of a call of session `own` keeps: the run only grows, and when nobody else has steps to
        come, only this session moves. */
    twostate predicate RunsOn(own: OpId)
      reads this
    {
      && old(run) <= run && |others| <= old(|others|) && own < |st.ops|
      && (old(others) == [] ==> OnlyBy(run, old(|run|), own))
    }

    /** And if the session is cancelled, another session's step has ended it, or it waited in vain; when nobody
        else moves and nobody else holds a lock, it is not cancelled. */
    twostate predicate Continued(own: OpId)
      reads this
    {
      && RunsOn(own)
      && (IsCancelled(st, own) ==>
            || EndedByOthers(all, |all| - old(|others|), |all| - |others|, own)
            || TimedOut(initial, since, run, others, own))
      && (old(others) == [] && Alone(old(st), own) ==> Alone(st, own) && !IsCancelled(st, own))
    }

    constructor (tables: Tables, now: int, others: seq<Step>)
      requires Coherent(tables)
      ensures Valid() && st == Initial(tables, now) && this.others == others
    {
      initial, since, all, run := tables, now, others, [];
      st, this.others := Initial(tables, now), others;
    }

    /** One step of the run. */
    method Take(step: Step)
      requires Valid()
      modifies this`st, this`run
      ensures Valid() && st == Next(old(st), step) && run == old(run) + [step]
    {
      run := run + [step];
      assert run[..|run| - 1] == old(run);
      st := Next(st, step);
    }

    /** A new session. */
    method Open(request: Request) returns (own: OpId)
      requires Valid()
      modifies this`st, this`run
      ensures Valid() && own == old(|st.ops|) < |st.ops| && st.ops[own] == Op(request, Start, NO_TX)
      ensures run == old(run) + [Arrive(request)] && st.db == old(st.db) && st.locks == old(st.locks)
    {
      own := |st.ops|;
      Take(Arrive(request));
    }

    method TakeOther(own: OpId)
      requires Valid() && own < |st.ops| && others != [] && !IsCancelled(st, own)
      modifies this
      ensures Valid() && own < |st.ops| && Continues(old(st.ops[own]), st.ops[own])
      ensures Continued(own) && |others| == old(|others|) - 1
    {
      var step := others[0];
      others := others[1..];
      if !(step.Advance? && step.op == own) {
        OthersStep(st, step, own);
        if IsCancelled(Next(st, step), own) {
          OnlyEndsCancel(st, step, own);
          assert IsEnd(all[|all| - old(|others|)], own);
        }
        Take(step);
      }
    }

    method LetOthersRun(own: OpId)
      requires Valid() && own < |st.ops| && !IsCancelled(st, own)
      modifies this
      ensures Valid() && own < |st.ops| && Continues(old(st.ops[own]), st.ops[own])
      ensures Continued(own)
    {
      assert 0 <= |others|;
      var n: nat :| n <= |others|;
      while n > 0 && !IsCancelled(st, own)
        invariant n <= |others| && Valid()
        invariant own < |st.ops| && Continues(old(st.ops[own]), st.ops[own]) && Continued(own)
        decreases n
      {
        TakeOther(own);
        n := n - 1;
      }
    }

    /** Waits for the locks that the next statement needs. A session that would wait forever is cancelled. */
    method Await(own: OpId)
      requires Valid() && own < |st.ops| && !IsCancelled(st, own)
      modifies this
      ensures Valid() && own < |st.ops| && Continues(old(st.ops[own]), st.ops[own])
      ensures Continued(own)
      ensures st.ops[own].pc.Finished? || !Blocked(st, own)
    {
      LetOthersRun(own);
      while !st.ops[own].pc.Finished? && Blocked(st, own) && others != []
        invariant Valid()
        invariant own < |st.ops| && Continues(old(st.ops[own]), st.ops[own]) && Continued(own)
        decreases |others|
      {
        TakeOther(own);
      }
      if !st.ops[own].pc.Finished? && Blocked(st, own) {
        assert !(old(others) == [] && Alone(old(st), own));
        Take(Abort(own));
        assert run[..|run| - 1] + [Abort(own)] == run;
      }
    }

    /** One statement of a session: it waits, and then either it is executed or the session has been ended. */
    method Statement(own: OpId) returns (before: State, pick: nat, flip: bool)
      requires Valid() && own < |st.ops| && !st.ops[own].pc.Finished?
      modifies this
      ensures Valid() && own < |st.ops| && Continued(own)
      ensures IsLost(old(st.ops[own].request), st.ops[own]) || Executed(initial, old(st.ops[own]), before, st, own, pick, flip)
    {
      Await(own);
      before, pick, flip := st, 0, true;
      if !st.ops[own].pc.Finished? {
        pick, flip := Proceed(own);
      }
    }

    /** The next step of a session that waits for nothing. */
    method Proceed(own: OpId) returns (pick: nat, flip: bool)
      requires Valid() && own < |st.ops| && !Blocked(st, own) && !st.ops[own].pc.Finished?
      modifies this`st, this`run
      ensures Valid() && Executed(initial, old(st.ops[own]), old(st), st, own, pick, flip)
      ensures Continued(own)
    {
      Serializable(initial, since, run);
      pick := FreshUuid();
      flip := *;
      AdvanceTouches(st, own, pick, flip);
      AdvanceNotCancelled(st, own, pick, flip);
      if Alone(st, own) {
        AloneStays(initial, st, own, pick, flip);
      }
      Take(Advance(own, pick, flip));
    }

    method FreshUuid() returns (pick: nat)
      ensures FreshPick(st, pick)
    {
      ghost var above := SomeNumberIsAbove(st.locks.Keys);
      assert FreshPick(st, above) by {
        assert Number(TransferRow(above)) == Number(PurchaseRow(above)) == Number(UserRow(above)) == above;
      }
      pick :| FreshPick(st, pick);
    }
  }
}
