/** CreateUsers as the code runs it, and which batches of users can be created. */
module Creator {
  import opened Wrappers
  import opened Schema
  import opened Ledger
  import opened Accounting
  import opened Protocol
  import opened Invariant
  import opened Refinement
  import opened Outcomes
  import opened Batches
  import opened Database
  import opened Undisturbed
  import opened Calls

  /** The pending rows are the given ones. */
  lemma {:induction false} PendingRow(params: seq<User>, ids: seq<UserId>, i: nat)
    requires i < |ids| <= |params|
    requires forall j, k :: 0 <= j < k < |ids| ==> ids[j] != ids[k]
    ensures ids[i] in PendingUsers(params, ids) && PendingUsers(params, ids)[ids[i]] == params[i]
  {
    if i < |ids| - 1 {
      PendingRow(params, ids[..|ids| - 1], i);
    }
  }

  /** What each statement of a batch registration answers. */
  predicate Answered(o: Op, pick: nat, o': Op)
    requires o.request.Create?
  {
    match o.pc
    case Start => o'.pc == CreateBegun
    case CreateBegun => o'.pc == Finished(Failed(Rejected)) || o'.pc == CreateInserting([])
    case CreateInserting(ids) =>
      if |ids| < |o.request.params| then
        || o'.pc == Finished(Failed(Rejected)) || o'.pc == Finished(Failed(UserExists))
        || o'.pc == CreateInserting(ids + [pick])
      else |ids| == |o.request.params| ==> o'.pc == Finished(Completed)
    case _ => true
  }

  lemma StatementAnswers(t: Tables, o: Op, before: State, after: State, own: OpId, pick: nat, flip: bool)
    requires Executed(t, o, before, after, own, pick, flip) && o.request.Create?
    ensures after.ops[own].request == o.request && Answered(o, pick, after.ops[own])
  {
  }

  /** The committed rows are those of the request, under the ids that were returned. */
  ghost predicate HasRows(db: Tables, params: seq<User>, ids: seq<UserId>) {
    |ids| == |params| && forall i :: 0 <= i < |ids| ==> ids[i] in db.users && db.users[ids[i]] == params[i]
  }

  lemma CommitAddsRows(t: Tables, o: Op, before: State, after: State, own: OpId, pick: nat, flip: bool)
    requires Executed(t, o, before, after, own, pick, flip)
    requires o.request.Create? && o.pc.CreateInserting? && |o.pc.ids| == |o.request.params|
    ensures HasRows(after.db, o.request.params, o.pc.ids)
  {
    assert CreateInv(before.db, before.ops[own]);
    assert after.db == Merge(before.db, o.tx);
    MergedRows(before.db, o.tx, o.request.params, o.pc.ids);
  }

  lemma MergedRows(db: Tables, tx: Tx, params: seq<User>, ids: seq<UserId>)
    requires PendingInv(db, tx, params, ids) && |ids| == |params|
    ensures HasRows(Merge(db, tx), params, ids)
  {
    forall i | 0 <= i < |ids|
      ensures ids[i] in Merge(db, tx).users && Merge(db, tx).users[ids[i]] == params[i]
    {
      PendingRow(params, ids, i);
    }
  }

  // ----- the code

  class DataCreator {
    const db: Database

    constructor (db: Database)
      ensures this.db == db
    {
      this.db := db;
    }

    /** One statement of the session and its answer, or the session is cancelled. */
    method Exec(own: OpId) returns (pick: nat)
      requires db.Valid() && own < |db.st.ops| && db.st.ops[own].request.Create? && !db.st.ops[own].pc.Finished?
      modifies db
      ensures db.Valid() && own < |db.st.ops| && db.st.ops[own].request == old(db.st.ops[own].request) && db.Continued(own)
      ensures IsCancelled(db.st, own) || Answered(old(db.st.ops[own]), pick, db.st.ops[own])
    {
      ghost var o := db.st.ops[own];
      var before, drawn, flip := db.Statement(own);
      pick := drawn;
      if !IsCancelled(db.st, own) {
        StatementAnswers(db.initial, o, before, db.st, own, drawn, flip);
      }
    }

    /** The outcome the code returns is the one the protocol reached, and it is honest about the history; on
        success the new rows are there, in the order of the parameters. The call is lost only if a step of another
        session ended it or it waited for an index entry in vain. Undisturbed, it adds all rows and nothing else,
        or is refused with its cause and adds none. */
    method CreateUsers(params: seq<User>) returns (r: Outcome, users: seq<UserId>, own: OpId)
      requires db.Valid()
      modifies db
      ensures db.Valid() && old(db.run) <= db.run && own < |db.st.ops|
      ensures db.st.ops[own].request == Create(params) && db.st.ops[own].pc == Finished(r)
      ensures r.Completed? ==> HasRows(db.st.db, params, users)
      ensures Honest(db.initial, db.since, db.run, own)
      ensures r.Lost? ==> EndedAmong(old(db.others), own) || TimedOut(db.initial, db.since, db.run, db.others, own)
      ensures old(db.others) == [] && old(db.st.locks) == map[] ==> CreateAnswer(old(db.st.db), params, r, db.st.db)
    {
      ghost var k, found, others := |db.run|, db.st, db.others;
      own := db.Open(Create(params));
      r, users := Execute(own, params);
      OutcomesAreHonest(db.initial, db.since, db.run, own);
      assert db.run[..k] == old(db.run);
      if EndedByOthers(db.all, |db.all| - |others|, |db.all| - |db.others|, own) {
        EndIsAmong(db.all, others, |db.all| - |db.others|, own);
      }
      if others == [] && found.locks == map[] {
        CreateIsAnswered(db.initial, db.since, db.run, k, own, db.st.ops[own].request, r);
      }
    }

    method Execute(own: OpId, params: seq<User>) returns (r: Outcome, users: seq<UserId>)
      requires db.Valid() && own < |db.st.ops| && db.st.ops[own] == Op(Create(params), Start, NO_TX)
      modifies db
      ensures db.Valid() && own < |db.st.ops| && db.Continued(own)
      ensures db.st.ops[own].request == Create(params) && db.st.ops[own].pc == Finished(r)
      ensures r.Completed? ==> HasRows(db.st.db, params, users)
    {
      users := [];
      CopyParams(own, params);
      if db.st.ops[own].pc.Finished? {
        return OutcomeOf(db.st, own), [];
      }
      users := InsertSelect(own, params);
      if db.st.ops[own].pc.Finished? {
        return OutcomeOf(db.st, own), users;
      }
      r := CommitUsers(own, params, users);
    }

    /** The transaction begins, and the parameters are copied into a temporary table. */
    method CopyParams(own: OpId, params: seq<User>)
      requires db.Valid() && own < |db.st.ops| && db.st.ops[own] == Op(Create(params), Start, NO_TX)
      modifies db
      ensures db.Valid() && own < |db.st.ops| && db.st.ops[own].request == Create(params) && db.Continued(own)
      ensures
        || (db.st.ops[own].pc.Finished? && !db.st.ops[own].pc.outcome.Completed?)
        || db.st.ops[own].pc == CreateInserting([])
    {
      var pick := Exec(own);
      if !IsCancelled(db.st, own) {
        pick := Exec(own);
      }
    }

    /** INSERT INTO users ... SELECT, row by row. */
    method InsertSelect(own: OpId, params: seq<User>) returns (users: seq<UserId>)
      requires db.Valid() && own < |db.st.ops|
      requires db.st.ops[own].request == Create(params) && db.st.ops[own].pc == CreateInserting([])
      modifies db
      ensures db.Valid() && own < |db.st.ops| && db.st.ops[own].request == Create(params) && db.Continued(own)
      ensures
        || (db.st.ops[own].pc.Finished? && !db.st.ops[own].pc.outcome.Completed?)
        || (db.st.ops[own].pc == CreateInserting(users) && |users| == |params|)
    {
      users := [];
      while |users| < |params|
        invariant db.Valid() && own < |db.st.ops| && db.Continued(own)
        invariant db.st.ops[own].request == Create(params) && db.st.ops[own].pc == CreateInserting(users)
        invariant |users| <= |params|
      {
        var pick := Exec(own);
        if db.st.ops[own].pc.Finished? {
          return;
        }
        users := users + [pick];
      }
    }

    method CommitUsers(own: OpId, params: seq<User>, users: seq<UserId>) returns (r: Outcome)
      requires db.Valid() && own < |db.st.ops| && db.st.ops[own].request == Create(params)
      requires db.st.ops[own].pc == CreateInserting(users) && |users| == |params|
      modifies db
      ensures db.Valid() && own < |db.st.ops| && db.Continued(own)
      ensures db.st.ops[own].request == Create(params) && db.st.ops[own].pc == Finished(r)
      ensures r.Completed? ==> HasRows(db.st.db, params, users)
    {
      ghost var o := db.st.ops[own];
      var before, pick, flip := db.Statement(own);
      if IsCancelled(db.st, own) {
        return OutcomeOf(db.st, own);
      }
      StatementAnswers(db.initial, o, before, db.st, own, pick, flip);
      CommitAddsRows(db.initial, o, before, db.st, own, pick, flip);
      r := Completed;
    }
  }
}
