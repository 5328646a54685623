/** Real time: what ended before a call began is part of what the call sees. */
module RealTime {
  import opened Schema
  import opened Wrappers
  import opened Ledger
  import opened Accounting
  import opened Protocol
  import opened Invariant
  import opened Refinement
  import opened Outcomes
  import opened Queries
  import opened Info

  lemma {:induction false} EntryCounts(log: seq<Entry>, n: nat, i: nat)
    requires n <= i < |log|
    ensures Commits(log[..n], log[i].op) < Commits(log, log[i].op)
    decreases |log|
  {
    var front := log[..|log| - 1];
    assert front[..n] == log[..n];
    if i < |front| {
      EntryCounts(front, n, i);
    } else {
      CommitsGrow(front, n, log[i].op);
    }
  }

  lemma {:induction false} CommitsGrow(log: seq<Entry>, n: nat, op: OpId)
    requires n <= |log|
    ensures Commits(log[..n], op) <= Commits(log, op)
    decreases |log|
  {
    if n < |log| {
      assert log[..|log| - 1][..n] == log[..n];
      CommitsGrow(log[..|log| - 1], n, op);
    } else {
      assert log[..n] == log;
    }
  }

  /** The history respects real time: when a session had ended before another one arrived, its entry comes first. */
  lemma EndedBeforeArrival(t: Tables, now: int, steps: seq<Step>, k: nat, a: OpId, b: OpId, i: nat, j: nat)
    requires Coherent(t) && k <= |steps|
    requires
      var early := Execute(Initial(t, now), steps[..k]);
      a < |early.ops| <= b && early.ops[a].pc.Finished?
    requires
      var log := Execute(Initial(t, now), steps).log;
      i < |log| && j < |log| && log[i].op == a && log[j].op == b
    ensures i < j
  {
    var early, late := Execute(Initial(t, now), steps[..k]), Execute(Initial(t, now), steps);
    AllOrNothing(t, now, steps[..k]);
    AllOrNothing(t, now, steps);
    HistorySince(t, now, steps, k);
    FinishedSince(t, now, steps, k, a);
    EntriesInOrder(early, late, a, b, i, j);
  }

  lemma EntriesInOrder(early: State, late: State, a: OpId, b: OpId, i: nat, j: nat)
    requires LogMatches(early) && LogMatches(late) && early.log <= late.log
    requires a < |early.ops| <= b && a < |late.ops| && late.ops[a] == early.ops[a]
    requires i < |late.log| && j < |late.log| && late.log[i].op == a && late.log[j].op == b
    ensures i < j
  {
    var n := |early.log|;
    assert late.log[..n] == early.log;
    assert forall m :: 0 <= m < n ==> late.log[m] == early.log[m];
    if n <= i {
      EntryCounts(late.log, n, i);
    }
  }

  // ----- reports

  /** The session has read nothing before this many operations were committed. */
  ghost predicate ReadsFrom(o: Op, n: nat) {
    match o.pc
    case InfoCounted(first) => n <= first.commits
    case InfoListed(first, _) => n <= first.commits
    case Finished(outcome) => outcome.Report? ==> n <= outcome.first.commits
    case _ => true
  }

  lemma NonInfoReadsNothing(db: Tables, o: Op, n: nat)
    requires OpInv(db, o) && !o.request.Info?
    ensures ReadsFrom(o, n)
  {
  }

  lemma StepReadsFrom(t: Tables, st: State, step: Step, op: OpId, n: nat)
    requires Inv(t, st) && op < |st.ops| && ReadsFrom(st.ops[op], n) && n <= |st.log|
    ensures op < |Next(st, step).ops| && ReadsFrom(Next(st, step).ops[op], n)
  {
    RequestIsKept(st, step, op);
    if !st.ops[op].request.Info? {
      NextKeeps(t, st, step);
      NonInfoReadsNothing(Next(st, step).db, Next(st, step).ops[op], n);
    } else if !(step.Advance? && step.op == op) {
      InfoUntouched(st, step, op);
    }
  }

  lemma {:induction false} ReadsAfterArrival(t: Tables, now: int, steps: seq<Step>, k: nat, op: OpId)
    requires Coherent(t) && k <= |steps|
    requires |Execute(Initial(t, now), steps[..k]).ops| <= op < |Execute(Initial(t, now), steps).ops|
    ensures Execute(Initial(t, now), steps[..k]).log <= Execute(Initial(t, now), steps).log
    ensures ReadsFrom(Execute(Initial(t, now), steps).ops[op], |Execute(Initial(t, now), steps[..k]).log|)
    decreases |steps|
  {
    assert steps[..|steps|] == steps;
    if k < |steps| {
      var front, step := steps[..|steps| - 1], steps[|steps| - 1];
      var st := Execute(Initial(t, now), front);
      assert front[..k] == steps[..k];
      HistorySince(t, now, front, k);
      StepShape(st, step);
      if op < |st.ops| {
        ReadsAfterArrival(t, now, front, k, op);
        Serializable(t, now, front);
        StepReadsFrom(t, st, step, op, |Execute(Initial(t, now), steps[..k]).log|);
      } else {
        ArrivesAtStart(st, step, op);
      }
    }
  }

  /** The three moments of a report lie between the arrival of its request and its answer, and the report
      contains everything that was committed before the request arrived. */
  lemma ReportIsWithinCall(t: Tables, now: int, steps: seq<Step>, k: nat, op: OpId)
    requires Coherent(t) && k <= |steps|
    requires |Execute(Initial(t, now), steps[..k]).ops| <= op < |Execute(Initial(t, now), steps).ops|
    requires var o := Execute(Initial(t, now), steps).ops[op]; o.pc.Finished? && o.pc.outcome.Report?
    ensures
      var early, late := Execute(Initial(t, now), steps[..k]), Execute(Initial(t, now), steps);
      var outcome := late.ops[op].pc.outcome;
      && |early.log| <= outcome.first.commits <= outcome.second.commits <= outcome.third.commits <= |late.log|
      && early.db.purchases <= outcome.first.tables.purchases
      && early.db.transfers <= outcome.second.tables.transfers
  {
    var early, late := Execute(Initial(t, now), steps[..k]), Execute(Initial(t, now), steps);
    var outcome := late.ops[op].pc.outcome;
    ReadsAfterArrival(t, now, steps, k, op);
    MomentsAreReal(t, now, steps, op);
    Serializable(t, now, steps[..k]);
    var arrival := Moment(early.db, |early.log|);
    assert late.log[..|early.log|] == early.log;
    assert IsMoment(t, late.log, arrival);
    EarlierHistory(t, late.log, arrival, outcome.first);
    EarlierHistory(t, late.log, arrival, outcome.second);
  }

  /** Under concurrency, whatever commits between its reads, a report describes committed tables of three
      moments in order, between the arrival of its request (after the first `k` steps) and its answer, with
      the meaning of `ReportMeans`; and it contains everything committed before the request arrived. */
  lemma InfoUnderConcurrency(rank: Collation, t: Tables, now: int, steps: seq<Step>, k: nat, i: OpId, r: InfoResponse)
    requires Coherent(t) && k <= |steps|
    requires |Execute(Initial(t, now), steps[..k]).ops| <= i < |Execute(Initial(t, now), steps).ops|
    requires var o := Execute(Initial(t, now), steps).ops[i];
      && o.request.Info? && o.pc.Finished? && o.pc.outcome.Report?
      && IsReport(rank, o.pc.outcome.first.tables, o.pc.outcome.second.tables, o.pc.outcome.third.tables, o.request.user, r)
    ensures var early, late := Execute(Initial(t, now), steps[..k]), Execute(Initial(t, now), steps);
      var outcome := late.ops[i].pc.outcome;
      && ReportMeans(rank, t, late.log, late.ops[i].request.user, outcome.first, outcome.second, outcome.third, r)
      && |early.log| <= outcome.first.commits && outcome.third.commits <= |late.log|
      && early.db.purchases <= outcome.first.tables.purchases
      && early.db.transfers <= outcome.second.tables.transfers
  {
    var st := Execute(Initial(t, now), steps);
    var outcome := st.ops[i].pc.outcome;
    ReportIsWithinCall(t, now, steps, k, i);
    MomentsAreReal(t, now, steps, i);
    ThreeMoments(rank, t, st.log, st.ops[i].request.user, outcome.first, outcome.second, outcome.third, r);
  }
}
