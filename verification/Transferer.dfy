/** TransferByUsername as the code runs it, statement by statement, among any other sessions. */
module Transferer {
  import opened Wrappers
  import opened Schema
  import opened Ledger
  import opened Protocol
  import opened Invariant
  import opened Refinement
  import opened Outcomes
  import opened Database
  import opened Undisturbed
  import opened Calls

  /** A row of the locking statement: the columns that the code uses. */
  datatype Row = Row(id: UserId, balance: int64)

  /** The rows by id; a later row of the same id wins. */
  function ById(rows: seq<Row>): map<UserId, int64> {
    if rows == [] then map[] else ById(rows[..|rows| - 1])[rows[|rows| - 1].id := rows[|rows| - 1].balance]
  }

  /** The error of a statement that writes. */
  predicate Refuses(o: Op) {
    o.pc.Finished? && o.pc.outcome.Failed?
  }

  /** What each statement of a transfer answers: the next program counter, and what a write has written. */
  predicate Answered(db: Tables, o: Op, pick: nat, o': Op)
    requires o.request.Send?
  {
    var Send(dstUsername, src, amount) := o.request;
    match o.pc
    case Start =>
      o'.pc ==
        (if dstUsername !in db.byName then Finished(Failed(DstUserNotFound))
         else if db.byName[dstUsername] == src then Finished(Failed(SameUser))
         else SendChecked(db.byName[dstUsername]))
    case SendChecked(dst) => o'.pc == SendBegun(dst)
    case SendBegun(dst) => o'.pc.SendLocking? && o'.pc.dst == dst && o'.pc.got == map[]
    case SendLocking(dst, todo, got) =>
      o'.pc ==
        (if todo != [] then
           SendLocking(dst, todo[1..], if todo[0] in db.users then got[todo[0] := db.users[todo[0]].balance] else got)
         else if src !in got || dst !in got then Finished(Failed(UserNotExist))
         else if Sub64(got[src], amount) < 0 then Finished(Failed(NotEnough))
         else SendInsert(dst, Sub64(got[src], amount), Add64(got[dst], amount)))
    case SendInsert(dst, srcBalance, dstBalance) =>
      || Refuses(o')
      || (o'.pc == SendDebit(dst, srcBalance, dstBalance) && o'.tx.balances == o.tx.balances
          && o'.tx.transfers == o.tx.transfers + [Transfer(pick, o.tx.startedAt, dst, src, amount)])
    case SendDebit(dst, srcBalance, dstBalance) =>
      || Refuses(o')
      || (o'.pc == SendCredit(dst, dstBalance) && o'.tx.balances == o.tx.balances[src := srcBalance])
    case SendCredit(dst, dstBalance) =>
      || Refuses(o')
      || (o'.pc == SendCommit(dst) && o'.tx.balances == o.tx.balances[dst := dstBalance])
    case SendCommit(_) => o'.pc == Finished(Completed)
    case _ => true
  }

  lemma AdvanceAnswers(before: State, own: OpId, pick: nat, flip: bool)
    requires own < |before.ops| && before.ops[own].request.Send? && SendInv(before.db, before.ops[own])
    requires TransferRow(pick) !in before.locks
    ensures
      var o, after := before.ops[own], AdvanceSend(before, own, pick, flip);
      |after.ops| == |before.ops| && after.ops[own].request == o.request && Answered(before.db, o, pick, after.ops[own])
  {
    if before.ops[own].pc.SendLocking? && before.ops[own].pc.todo == [] {
      assert AdvanceSend(before, own, pick, flip) == SendCheck(before, own);
    }
  }

  lemma StatementAnswers(t: Tables, o: Op, before: State, after: State, own: OpId, pick: nat, flip: bool)
    requires Executed(t, o, before, after, own, pick, flip) && o.request.Send?
    ensures after.ops[own].request == o.request && Answered(before.db, o, pick, after.ops[own])
  {
    assert SendInv(before.db, o);
    AdvanceAnswers(before, own, pick, flip);
  }

  /** The session holds the lock of each of these rows, and they are the newest committed ones. */
  ghost predicate LockedRows(st: State, own: OpId, rows: map<UserId, int64>) {
    forall id :: id in rows ==>
      && UserRow(id) in st.locks && st.locks[UserRow(id)] == own
      && id in st.db.users && st.db.users[id].balance == rows[id]
  }

  lemma ReadRowsAreLocked(t: Tables, st: State, own: OpId)
    requires Inv(t, st) && own < |st.ops| && st.ops[own].request.Send? && st.ops[own].pc.SendLocking?
    ensures LockedRows(st, own, st.ops[own].pc.got)
  {
    assert SendInv(st.db, st.ops[own]);
    forall id | id in st.ops[own].pc.got
      ensures UserRow(id) in st.ops[own].tx.held
    {
    }
  }

  // ----- the code

  class Transferer {
    const db: Database

    constructor (db: Database)
      ensures this.db == db
    {
      this.db := db;
    }

    /** One statement of the session and its answer, or the session is cancelled. */
    method Exec(own: OpId) returns (seen: Tables, pick: nat)
      requires db.Valid() && own < |db.st.ops| && db.st.ops[own].request.Send? && !db.st.ops[own].pc.Finished?
      modifies db
      ensures db.Valid() && own < |db.st.ops| && db.st.ops[own].request == old(db.st.ops[own].request) && db.Continued(own)
      ensures IsCancelled(db.st, own) || Answered(seen, old(db.st.ops[own]), pick, db.st.ops[own])
    {
      ghost var o := db.st.ops[own];
      var before, drawn, flip := db.Statement(own);
      seen, pick := before.db, drawn;
      if !IsCancelled(db.st, own) {
        StatementAnswers(db.initial, o, before, db.st, own, drawn, flip);
      }
    }

    /** SELECT ... WHERE id = ANY($1) FOR UPDATE: the rows in the order in which they were locked. */
    method SelectForUpdate(own: OpId) returns (rows: seq<Row>)
      requires db.Valid() && own < |db.st.ops|
      requires db.st.ops[own].request.Send? && db.st.ops[own].pc.SendBegun?
      modifies db
      ensures db.Valid() && own < |db.st.ops| && db.Continued(own)
      ensures
        || IsLost(old(db.st.ops[own].request), db.st.ops[own])
        || (db.st.ops[own].request == old(db.st.ops[own].request)
            && db.st.ops[own].pc == SendLocking(old(db.st.ops[own].pc.dst), [], ById(rows))
            && LockedRows(db.st, own, ById(rows)))
    {
      rows := [];
      ghost var request, dst := db.st.ops[own].request, db.st.ops[own].pc.dst;
      var seen, pick := Exec(own);
      if db.st.ops[own].pc.Finished? {
        return;
      }
      while db.st.ops[own].pc.SendLocking? && db.st.ops[own].pc.todo != []
        invariant db.Valid() && own < |db.st.ops| && db.Continued(own)
        invariant
          || IsLost(request, db.st.ops[own])
          || (db.st.ops[own].request == request && db.st.ops[own].pc.SendLocking?
              && db.st.ops[own].pc.dst == dst && db.st.ops[own].pc.got == ById(rows))
        decreases if db.st.ops[own].pc.SendLocking? then 1 + |db.st.ops[own].pc.todo| else 0
      {
        var id := db.st.ops[own].pc.todo[0];
        seen, pick := Exec(own);
        if db.st.ops[own].pc.SendLocking? {
          if id in seen.users {
            rows := rows + [Row(id, seen.users[id].balance)];
            assert rows[..|rows| - 1] + [rows[|rows| - 1]] == rows;
          }
        }
      }
      if db.st.ops[own].pc.SendLocking? {
        Serializable(db.initial, db.since, db.run);
        ReadRowsAreLocked(db.initial, db.st, own);
      }
    }

    /** The map of the locked rows, or nothing when an id is missing. */
    static method UsersMap(rows: seq<Row>, ids: seq<UserId>) returns (users: Option<map<UserId, int64>>)
      ensures users == if (forall id :: id in ids ==> id in ById(rows)) then Some(ById(rows)) else None
    {
      var usersMap: map<UserId, int64> := map[];
      for i := 0 to |rows|
        invariant usersMap == ById(rows[..i])
      {
        assert rows[..i + 1][..i] == rows[..i];
        usersMap := usersMap[rows[i].id := rows[i].balance];
      }
      assert rows[..|rows|] == rows;
      for i := 0 to |ids|
        invariant forall id :: id in ids[..i] ==> id in usersMap
      {
        if ids[i] !in usersMap {
          return None;
        }
      }
      assert ids[..|ids|] == ids;
      users := Some(usersMap);
    }

    /** The outcome the code returns is the one the protocol reached. A completed transfer is in the history
        exactly once; a refusal left nothing there and had its cause at one statement of the call; and the call
        is lost only if a step of another session ended it or it waited for a lock in vain. Undisturbed, it does
        and answers exactly what it does and answers alone. */
    method TransferByUsername(dstUsername: string, srcUserID: UserId, amount: int64) returns (r: Outcome, own: OpId)
      requires db.Valid()
      modifies db
      ensures db.Valid() && old(db.run) <= db.run && own < |db.st.ops|
      ensures db.st.ops[own].request == Send(dstUsername, srcUserID, amount) && db.st.ops[own].pc == Finished(r)
      ensures Honest(db.initial, db.since, db.run, own)
      ensures r.Lost? ==> EndedAmong(old(db.others), own) || TimedOut(db.initial, db.since, db.run, db.others, own)
      ensures old(db.others) == [] && old(db.st.locks) == map[] ==>
        TransferAnswer(old(db.st.db), dstUsername, srcUserID, amount, r, db.st.db)
    {
      ghost var k, found, others := |db.run|, db.st, db.others;
      own := db.Open(Send(dstUsername, srcUserID, amount));
      r := Execute(own, dstUsername, srcUserID, amount);
      OutcomesAreHonest(db.initial, db.since, db.run, own);
      assert db.run[..k] == old(db.run);
      if EndedByOthers(db.all, |db.all| - |others|, |db.all| - |db.others|, own) {
        EndIsAmong(db.all, others, |db.all| - |db.others|, own);
      }
      if others == [] && found.locks == map[] {
        TransferIsAnswered(db.initial, db.since, db.run, k, own, db.st.ops[own].request, r);
      }
    }

    method Execute(own: OpId, dstUsername: string, srcUserID: UserId, amount: int64) returns (r: Outcome)
      requires db.Valid() && own < |db.st.ops| && db.st.ops[own] == Op(Send(dstUsername, srcUserID, amount), Start, NO_TX)
      modifies db
      ensures db.Valid() && own < |db.st.ops| && db.Continued(own)
      ensures db.st.ops[own].request == Send(dstUsername, srcUserID, amount) && db.st.ops[own].pc == Finished(r)
    {
      // The destination is looked up without a lock.
      var seen, pick := Exec(own);
      if IsCancelled(db.st, own) {
        return OutcomeOf(db.st, own);
      }
      if dstUsername !in seen.byName {
        return Failed(DstUserNotFound);
      }
      var dstUserID := seen.byName[dstUsername];
      if srcUserID == dstUserID {
        return Failed(SameUser);
      }

      seen, pick := Exec(own);
      if db.st.ops[own].pc.Finished? {
        return OutcomeOf(db.st, own);
      }

      var rows := SelectForUpdate(own);
      if db.st.ops[own].pc.Finished? {
        return OutcomeOf(db.st, own);
      }
      r := Transact(own, dstUserID, srcUserID, amount, rows);
    }

    /** From the locked rows to the commit. */
    method Transact(own: OpId, dstUserID: UserId, srcUserID: UserId, amount: int64, rows: seq<Row>) returns (r: Outcome)
      requires db.Valid() && own < |db.st.ops|
      requires db.st.ops[own].request.Send? && db.st.ops[own].request.src == srcUserID && db.st.ops[own].request.amount == amount
      requires db.st.ops[own].pc == SendLocking(dstUserID, [], ById(rows))
      modifies db
      ensures db.Valid() && own < |db.st.ops| && db.Continued(own)
      ensures db.st.ops[own].request == old(db.st.ops[own].request) && db.st.ops[own].pc == Finished(r)
    {
      var users := UsersMap(rows, [srcUserID, dstUserID]);
      assert Wants(db.st.db, db.st.ops[own]) == {};
      ghost var o, here := db.st.ops[own], db.st;
      var pick, flip := db.Proceed(own);
      StatementAnswers(db.initial, o, here, db.st, own, pick, flip);
      if users.None? {
        return Failed(UserNotExist);
      }
      var srcUserBalance := users.value[srcUserID];
      srcUserBalance := Sub64(srcUserBalance, amount);
      if srcUserBalance < 0 {
        return Failed(NotEnough);
      }
      var dstUserBalance := users.value[dstUserID];
      dstUserBalance := Add64(dstUserBalance, amount);

      r := Write(own, dstUserID, srcUserID, amount, srcUserBalance, dstUserBalance);
    }

    /** From the insert to the commit. */
    method Write(own: OpId, dstUserID: UserId, srcUserID: UserId, amount: int64, srcUserBalance: int64, dstUserBalance: int64)
      returns (r: Outcome)
      requires db.Valid() && own < |db.st.ops|
      requires db.st.ops[own].request.Send? && db.st.ops[own].request.src == srcUserID && db.st.ops[own].request.amount == amount
      requires db.st.ops[own].pc == SendInsert(dstUserID, srcUserBalance, dstUserBalance)
      modifies db
      ensures db.Valid() && own < |db.st.ops| && db.Continued(own)
      ensures db.st.ops[own].request == old(db.st.ops[own].request) && db.st.ops[own].pc == Finished(r)
    {
      var ok, row := CreateTransfer(own, dstUserID, srcUserID, amount);
      if ok {
        ok := UpdateUserBalance(own, srcUserID, srcUserBalance);
      }
      if ok {
        ok := UpdateUserBalance(own, dstUserID, dstUserBalance);
      }
      if !ok {
        return OutcomeOf(db.st, own);
      }
      r := CommitTransfer(own);
    }

    method CreateTransfer(own: OpId, dstUserID: UserId, srcUserID: UserId, amount: int64) returns (ok: bool, ghost row: Transfer)
      requires db.Valid() && own < |db.st.ops| && db.st.ops[own].request.Send? && db.st.ops[own].pc.SendInsert?
      requires dstUserID == db.st.ops[own].pc.dst
      requires srcUserID == db.st.ops[own].request.src && amount == db.st.ops[own].request.amount
      modifies db
      ensures db.Valid() && own < |db.st.ops| && db.st.ops[own].request == old(db.st.ops[own].request) && db.Continued(own)
      ensures !ok ==> db.st.ops[own].pc.Finished? && !db.st.ops[own].pc.outcome.Completed?
      ensures ok ==>
        && row == Transfer(row.id, old(db.st.ops[own].tx.startedAt), dstUserID, srcUserID, amount)
        && db.st.ops[own].tx.transfers == old(db.st.ops[own].tx.transfers) + [row]
        && db.st.ops[own].tx.balances == old(db.st.ops[own].tx.balances)
        && db.st.ops[own].pc == SendDebit(dstUserID, old(db.st.ops[own].pc.srcBalance), old(db.st.ops[own].pc.dstBalance))
    {
      ghost var startedAt := db.st.ops[own].tx.startedAt;
      var seen, pick := Exec(own);
      row := Transfer(pick, startedAt, dstUserID, srcUserID, amount);
      ok := !db.st.ops[own].pc.Finished?;
    }

    /** On success the private write set of the transaction holds this balance for this user. */
    method UpdateUserBalance(own: OpId, id: UserId, balance: int64) returns (ok: bool)
      requires db.Valid() && own < |db.st.ops| && db.st.ops[own].request.Send?
      requires
        || (db.st.ops[own].pc.SendDebit? && id == db.st.ops[own].request.src && balance == db.st.ops[own].pc.srcBalance)
        || (db.st.ops[own].pc.SendCredit? && id == db.st.ops[own].pc.dst && balance == db.st.ops[own].pc.dstBalance)
      modifies db
      ensures db.Valid() && own < |db.st.ops| && db.st.ops[own].request == old(db.st.ops[own].request) && db.Continued(own)
      ensures !ok ==> db.st.ops[own].pc.Finished? && !db.st.ops[own].pc.outcome.Completed?
      ensures ok ==> db.st.ops[own].tx.balances == old(db.st.ops[own].tx.balances)[id := balance]
      ensures ok && old(db.st.ops[own].pc.SendDebit?) ==>
        db.st.ops[own].pc == SendCredit(old(db.st.ops[own].pc.dst), old(db.st.ops[own].pc.dstBalance))
      ensures ok && old(db.st.ops[own].pc.SendCredit?) ==> db.st.ops[own].pc == SendCommit(old(db.st.ops[own].pc.dst))
    {
      var seen, pick := Exec(own);
      ok := !db.st.ops[own].pc.Finished?;
    }

    method CommitTransfer(own: OpId) returns (r: Outcome)
      requires db.Valid() && own < |db.st.ops| && db.st.ops[own].request.Send? && db.st.ops[own].pc.SendCommit?
      modifies db
      ensures db.Valid() && own < |db.st.ops| && db.Continued(own)
      ensures db.st.ops[own].request == old(db.st.ops[own].request) && db.st.ops[own].pc == Finished(r)
      ensures r.Completed? || r.Lost?
    {
      var seen, pick := Exec(own);
      if IsCancelled(db.st, own) {
        return OutcomeOf(db.st, own);
      }
      r := Completed;
    }
  }
}
