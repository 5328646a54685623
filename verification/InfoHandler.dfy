/** GetAPIInfo as the code runs it: three queries, each its own statement among any other sessions. */
module InfoHandler {
  import opened Wrappers
  import opened Schema
  import opened Queries
  import opened Info
  import opened Accounting
  import opened Ledger
  import opened Protocol
  import opened Invariant
  import opened Outcomes
  import opened RealTime
  import opened Database
  import opened Failures
  import opened Undisturbed
  import opened Calls
  import opened Refinement

  /** What each of the three queries answers. */
  predicate Answered(db: Tables, o: Op, o': Op)
    requires o.request.Info?
  {
    match o.pc
    case Start => o'.pc.InfoCounted? && o'.pc.first.tables == db
    case InfoCounted(first) => o'.pc.InfoListed? && o'.pc.first == first && o'.pc.second.tables == db
    case InfoListed(first, second) =>
      && o'.pc.Finished?
      && var outcome := o'.pc.outcome;
         if o.request.user in db.users then
           outcome.Report? && outcome.first == first && outcome.second == second && outcome.third.tables == db
         else outcome == Failed(UserNotExist)
    case _ => true
  }

  lemma StatementAnswers(t: Tables, o: Op, before: State, after: State, own: OpId, pick: nat, flip: bool)
    requires Executed(t, o, before, after, own, pick, flip) && o.request.Info?
    ensures after.ops[own].request == o.request && Answered(before.db, o, after.ops[own])
  {
  }

  /** The list query of a reachable state never fails. */
  lemma ListNeverFails(t: Tables, st: State, user: UserId)
    requires Inv(t, st)
    ensures GetTransfers(st.db, user).Some?
  {
    SerialKeeps(t, st.log);
    TransfersAlwaysHaveUsernames(st.db, user);
  }

  /** One query: the tables it sees, and the statement it leads to. */
  method Query(db: Database, own: OpId) returns (seen: Tables)
    requires db.Valid() && own < |db.st.ops| && db.st.ops[own].request.Info? && !db.st.ops[own].pc.Finished?
    modifies db
    ensures db.Valid() && own < |db.st.ops| && db.Continued(own)
    ensures db.st.ops[own].request == old(db.st.ops[own].request)
    ensures IsCancelled(db.st, own) || Answered(seen, old(db.st.ops[own]), db.st.ops[own])
    ensures !IsCancelled(db.st, own) ==> GetTransfers(seen, db.st.ops[own].request.user).Some?
  {
    ghost var o := db.st.ops[own];
    var before, pick, flip := db.Statement(own);
    seen := before.db;
    if !IsCancelled(db.st, own) {
      StatementAnswers(db.initial, o, before, db.st, own, pick, flip);
      ListNeverFails(db.initial, before, o.request.user);
    }
  }

  /** The three queries, one after the other. */
  method ReadAll(db: Database, own: OpId) returns (ok: bool, counted: Tables, listed: Tables, read: Tables)
    requires db.Valid() && own < |db.st.ops| && db.st.ops[own].request.Info? && db.st.ops[own].pc.Start?
    modifies db
    ensures db.Valid() && own < |db.st.ops| && db.Continued(own)
    ensures db.st.ops[own].request == old(db.st.ops[own].request) && db.st.ops[own].pc.Finished?
    ensures if ok then ReadThese(db.st.ops[own], counted, listed, read) else db.st.ops[own].pc.outcome.Lost?
    ensures ok ==> GetTransfers(listed, db.st.ops[own].request.user).Some?
  {
    ok, counted, listed := ReadHistory(db, own);
    read := listed;
    if !ok {
      return;
    }
    read := Query(db, own);
    ok := !IsCancelled(db.st, own);
  }

  /** The first two queries. */
  method ReadHistory(db: Database, own: OpId) returns (ok: bool, counted: Tables, listed: Tables)
    requires db.Valid() && own < |db.st.ops| && db.st.ops[own].request.Info? && db.st.ops[own].pc.Start?
    modifies db
    ensures db.Valid() && own < |db.st.ops| && db.Continued(own)
    ensures db.st.ops[own].request == old(db.st.ops[own].request)
    ensures if ok then HistoryRead(db.st.ops[own].pc, counted, listed) else IsCancelled(db.st, own)
    ensures ok ==> GetTransfers(listed, db.st.ops[own].request.user).Some?
  {
    counted := Query(db, own);
    ok, listed := false, counted;
    if IsCancelled(db.st, own) {
      return;
    }
    listed := Query(db, own);
    ok := !IsCancelled(db.st, own);
  }

  predicate HistoryRead(pc: Pc, counted: Tables, listed: Tables) {
    pc.InfoListed? && pc.first.tables == counted && pc.second.tables == listed
  }

  /** The session has ended as a report of these tables, or because the last ones do not hold the user. */
  predicate ReadThese(o: Op, counted: Tables, listed: Tables, read: Tables)
    requires o.request.Info? && o.pc.Finished?
  {
    var outcome := o.pc.outcome;
    if o.request.user in read.users then
      && outcome.Report? && outcome.first.tables == counted
      && outcome.second.tables == listed && outcome.third.tables == read
    else outcome == Failed(UserNotExist)
  }

  /** The three queries and the report made of what they read. */
  method ReadReport(db: Database, own: OpId, rank: Collation, userID: UserId) returns (r: Option<InfoResponse>)
    requires db.Valid() && own < |db.st.ops| && db.st.ops[own] == Op(Request.Info(userID), Start, NO_TX)
    modifies db
    ensures db.Valid() && own < |db.st.ops| && db.st.ops[own].request == Request.Info(userID) && db.st.ops[own].pc.Finished?
    ensures db.Continued(own)
    ensures
      var outcome := db.st.ops[own].pc.outcome;
      if r.Some? then
        outcome.Report? && IsReport(rank, outcome.first.tables, outcome.second.tables, outcome.third.tables, userID, r.value)
      else outcome.Lost? || outcome == Failed(UserNotExist)
  {
    var ok, counted, listed, read := ReadAll(db, own);
    if !ok {
      return None;
    }
    r := GetInfo(rank, counted, listed, read, userID);
  }

  /** In a call that nobody disturbs, all three reads see the tables that the call found. */
  lemma ReadsWhatItFound(t: Tables, now: int, steps: seq<Step>, k: nat, own: OpId, user: UserId)
    requires Coherent(t) && OwnRun(t, now, steps, k, own, Request.Info(user))
    requires own < |Execute(Initial(t, now), steps).ops| && Execute(Initial(t, now), steps).ops[own].pc.Finished?
    ensures
      var before, st := Execute(Initial(t, now), steps[..k]).db, Execute(Initial(t, now), steps);
      var outcome := st.ops[own].pc.outcome;
      && st.db == before
      && (outcome.Report? ==> outcome.first.tables == before && outcome.second.tables == before && outcome.third.tables == before)
  {
    OwnRunEffect(t, now, steps, k, own, Request.Info(user));
    Serializable(t, now, steps);
    var st := Execute(Initial(t, now), steps);
    assert InfoInv(st.db, st.ops[own]);
    if st.ops[own].pc.outcome.Report? {
      MomentsAreReal(t, now, steps, own);
      ReportIsWithinCall(t, now, steps, k, own);
      NowIsTheMoment(t, st, st.ops[own].pc.outcome.first);
      NowIsTheMoment(t, st, st.ops[own].pc.outcome.second);
      NowIsTheMoment(t, st, st.ops[own].pc.outcome.third);
    }
  }

  lemma NowIsTheMoment(t: Tables, st: State, m: Moment)
    requires Inv(t, st) && IsMoment(t, st.log, m) && m.commits == |st.log|
    ensures m.tables == st.db
  {
    assert st.log[..|st.log|] == st.log;
  }

  /** What the report alone is on these tables. */
  ghost predicate InfoAnswer(rank: Collation, before: Tables, user: UserId, r: Option<InfoResponse>, after: Tables) {
    && after == before
    && if user in before.users then r.Some? && IsReport(rank, before, before, before, user, r.value) else r.None?
  }

  /** What the session's outcome says of the returned report. */
  ghost predicate Reported(rank: Collation, user: UserId, outcome: Outcome, r: Option<InfoResponse>) {
    if r.Some? then
      outcome.Report? && IsReport(rank, outcome.first.tables, outcome.second.tables, outcome.third.tables, user, r.value)
    else outcome.Lost? || outcome == Failed(UserNotExist)
  }

  lemma InfoIsAnswered(rank: Collation, t: Tables, now: int, steps: seq<Step>, k: nat, own: OpId, user: UserId, r: Option<InfoResponse>)
    requires Coherent(t) && AnsweredInfo(t, now, steps, k, own, user)
    requires Reported(rank, user, Execute(Initial(t, now), steps).ops[own].pc.outcome, r)
    ensures InfoAnswer(rank, Execute(Initial(t, now), steps[..k]).db, user, r, Execute(Initial(t, now), steps).db)
  {
    ReadsWhatItFound(t, now, steps, k, own, user);
    if r.None? {
      assert Refused(Execute(Initial(t, now), steps).ops[own], Failed(UserNotExist));
      OwnRunRefusal(t, now, steps, k, own, Request.Info(user), Failed(UserNotExist));
    }
  }

  ghost predicate AnsweredInfo(t: Tables, now: int, steps: seq<Step>, k: nat, own: OpId, user: UserId) {
    && OwnRun(t, now, steps, k, own, Request.Info(user))
    && own < |Execute(Initial(t, now), steps).ops| && Honest(t, now, steps, own)
    && Execute(Initial(t, now), steps).ops[own].pc.Finished? && !Execute(Initial(t, now), steps).ops[own].pc.outcome.Lost?
  }

  method Call(db: Database, rank: Collation, userID: UserId) returns (r: Option<InfoResponse>, own: OpId)
    requires db.Valid()
    modifies db
    ensures db.Valid() && old(db.run) <= db.run && old(|db.st.ops|) == own < |db.st.ops|
    ensures db.st.ops[own].request == Request.Info(userID) && db.st.ops[own].pc.Finished?
    ensures Reported(rank, userID, db.st.ops[own].pc.outcome, r)
    ensures db.st.ops[own].pc.outcome.Lost? ==>
      EndedAmong(old(db.others), own) || TimedOut(db.initial, db.since, db.run, db.others, own)
    ensures old(db.others) == [] && old(db.st.locks) == map[] ==>
      OwnRun(db.initial, db.since, db.run, |old(db.run)|, own, Request.Info(userID)) && !db.st.ops[own].pc.outcome.Lost?
  {
    ghost var k, others := |db.run|, db.others;
    own := db.Open(Request.Info(userID));
    r := ReadReport(db, own, rank, userID);
    assert db.run[..k] == old(db.run);
    if EndedByOthers(db.all, |db.all| - |others|, |db.all| - |db.others|, own) {
      EndIsAmong(db.all, others, |db.all| - |db.others|, own);
    }
  }

  /** A returned report has its meaning in the history, whatever commits between its queries; its moments lie
      between the call and the answer, and what was committed before the call is in it. There is no report only
      when a query was cancelled for a reason or the user did not exist. Undisturbed, the report is exactly that of
      the tables the call found. */
  method GetAPIInfo(db: Database, rank: Collation, userID: UserId) returns (r: Option<InfoResponse>, own: OpId)
    requires db.Valid()
    modifies db
    ensures db.Valid() && old(db.run) <= db.run
    ensures own < |db.st.ops| && db.st.ops[own].request == Request.Info(userID) && db.st.ops[own].pc.Finished?
    ensures Honest(db.initial, db.since, db.run, own)
    ensures r.Some? ==>
      var outcome := db.st.ops[own].pc.outcome;
      && outcome.Report?
      && ReportMeans(rank, db.initial, db.st.log, userID, outcome.first, outcome.second, outcome.third, r.value)
      && old(|db.st.log|) <= outcome.first.commits && outcome.third.commits <= |db.st.log|
      && old(db.st.db.purchases) <= outcome.first.tables.purchases
      && old(db.st.db.transfers) <= outcome.second.tables.transfers
    ensures r.None? ==>
      || db.st.ops[own].pc.outcome == Failed(UserNotExist)
      || (db.st.ops[own].pc.outcome.Lost?
          && (EndedAmong(old(db.others), own) || TimedOut(db.initial, db.since, db.run, db.others, own)))
    ensures old(db.others) == [] && old(db.st.locks) == map[] ==> InfoAnswer(rank, old(db.st.db), userID, r, db.st.db)
  {
    ghost var k, found := |db.run|, db.st;
    r, own := Call(db, rank, userID);
    OutcomesAreHonest(db.initial, db.since, db.run, own);
    assert db.run[..k] == old(db.run);
    if old(db.others) == [] && found.locks == map[] {
      InfoIsAnswered(rank, db.initial, db.since, db.run, k, own, userID, r);
    }
    if r.Some? {
      InfoUnderConcurrency(rank, db.initial, db.since, db.run, k, own, r.value);
    }
  }
}
