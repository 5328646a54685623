/** PurchaseByName as the code runs it, statement by statement, among any other sessions. */
module Purchaser {
  import opened Schema
  import opened Ledger
  import opened Protocol
  import opened Invariant
  import opened Refinement
  import opened Outcomes
  import opened Database
  import opened Undisturbed
  import opened Calls

  /** The error of a statement that writes. */
  predicate Refuses(o: Op) {
    o.pc.Finished? && o.pc.outcome.Failed?
  }

  /** What each statement of a purchase answers: the next program counter, and what a write has written. */
  predicate Answered(db: Tables, o: Op, pick: nat, o': Op)
    requires o.request.Buy?
  {
    var Buy(itemName, user) := o.request;
    match o.pc
    case Start =>
      o'.pc ==
        (if itemName !in db.itemByName || db.itemByName[itemName] !in db.items then Finished(Failed(ItemNotExist))
         else BuyFound(db.itemByName[itemName], db.items[db.itemByName[itemName]].price))
    case BuyFound(item, price) => o'.pc == BuyBegun(item, price)
    case BuyBegun(item, price) =>
      o'.pc ==
        (if user !in db.users then Finished(Failed(UserNotExist))
         else if Sub64(db.users[user].balance, price) < 0 then Finished(Failed(NotEnough))
         else BuyInsert(item, price, Sub64(db.users[user].balance, price)))
    case BuyInsert(item, price, balance) =>
      || Refuses(o')
      || (o'.pc == BuyDebit(item, balance) && o'.tx.balances == o.tx.balances
          && o'.tx.purchases == o.tx.purchases + [Purchase(pick, o.tx.startedAt, user, item, price)])
    case BuyDebit(item, balance) =>
      || Refuses(o')
      || (o'.pc == BuyCommit(item) && o'.tx.balances == o.tx.balances[user := balance])
    case BuyCommit(_) => o'.pc == Finished(Completed)
    case _ => true
  }

  lemma AdvanceAnswers(before: State, own: OpId, pick: nat)
    requires own < |before.ops| && before.ops[own].request.Buy? && BuyInv(before.db, before.ops[own])
    requires PurchaseRow(pick) !in before.locks
    ensures
      var o, after := before.ops[own], AdvanceBuy(before, own, pick);
      |after.ops| == |before.ops| && after.ops[own].request == o.request && Answered(before.db, o, pick, after.ops[own])
  {
    if before.ops[own].pc.BuyBegun? {
      assert AdvanceBuy(before, own, pick) == BuyLock(before, own);
    }
  }

  lemma StatementAnswers(t: Tables, o: Op, before: State, after: State, own: OpId, pick: nat, flip: bool)
    requires Executed(t, o, before, after, own, pick, flip) && o.request.Buy?
    ensures after.ops[own].request == o.request && Answered(before.db, o, pick, after.ops[own])
  {
    assert BuyInv(before.db, o);
    AdvanceAnswers(before, own, pick);
  }

  // ----- the code

  class Purchaser {
    const db: Database

    constructor (db: Database)
      ensures this.db == db
    {
      this.db := db;
    }

    /** One statement of the session and its answer, or the session is cancelled. */
    method Exec(own: OpId) returns (seen: Tables, pick: nat)
      requires db.Valid() && own < |db.st.ops| && db.st.ops[own].request.Buy? && !db.st.ops[own].pc.Finished?
      modifies db
      ensures db.Valid() && own < |db.st.ops| && db.st.ops[own].request == old(db.st.ops[own].request) && db.Continued(own)
      ensures IsCancelled(db.st, own) || Answered(seen, old(db.st.ops[own]), pick, db.st.ops[own])
    {
      ghost var o := db.st.ops[own];
      var before, drawn, flip := db.Statement(own);
      seen, pick := before.db, drawn;
      if !IsCancelled(db.st, own) {
        StatementAnswers(db.initial, o, before, db.st, own, drawn, flip);
      }
    }

    /** The outcome the code returns is the one the protocol reached, and it is honest about the history; the call
        is lost only if a step of another session ended it or it waited for a lock in vain. Undisturbed, it does
        and answers exactly what it does and answers alone. */
    method PurchaseByName(itemName: string, userID: UserId) returns (r: Outcome, own: OpId)
      requires db.Valid()
      modifies db
      ensures db.Valid() && old(db.run) <= db.run && own < |db.st.ops|
      ensures db.st.ops[own].request == Buy(itemName, userID) && db.st.ops[own].pc == Finished(r)
      ensures Honest(db.initial, db.since, db.run, own)
      ensures r.Lost? ==> EndedAmong(old(db.others), own) || TimedOut(db.initial, db.since, db.run, db.others, own)
      ensures old(db.others) == [] && old(db.st.locks) == map[] ==>
        PurchaseAnswer(old(db.st.db), itemName, userID, r, db.st.db)
    {
      ghost var k, found, others := |db.run|, db.st, db.others;
      own := db.Open(Buy(itemName, userID));
      r := Execute(own, itemName, userID);
      OutcomesAreHonest(db.initial, db.since, db.run, own);
      assert db.run[..k] == old(db.run);
      if EndedByOthers(db.all, |db.all| - |others|, |db.all| - |db.others|, own) {
        EndIsAmong(db.all, others, |db.all| - |db.others|, own);
      }
      if others == [] && found.locks == map[] {
        PurchaseIsAnswered(db.initial, db.since, db.run, k, own, db.st.ops[own].request, r);
      }
    }

    method Execute(own: OpId, itemName: string, userID: UserId) returns (r: Outcome)
      requires db.Valid() && own < |db.st.ops| && db.st.ops[own] == Op(Buy(itemName, userID), Start, NO_TX)
      modifies db
      ensures db.Valid() && own < |db.st.ops| && db.Continued(own)
      ensures db.st.ops[own].request == Buy(itemName, userID) && db.st.ops[own].pc == Finished(r)
    {
      // The item is looked up without a lock.
      var seen, pick := Exec(own);
      if IsCancelled(db.st, own) {
        return OutcomeOf(db.st, own);
      }
      if itemName !in seen.itemByName || seen.itemByName[itemName] !in seen.items {
        return Failed(ItemNotExist);
      }
      var itemID := seen.itemByName[itemName];
      var price := seen.items[itemID].price;

      seen, pick := Exec(own);
      if IsCancelled(db.st, own) {
        return OutcomeOf(db.st, own);
      }
      r := Transact(own, userID, itemID, price);
    }

    /** From the locking statement to the commit. */
    method Transact(own: OpId, userID: UserId, itemID: ItemId, price: int64) returns (r: Outcome)
      requires db.Valid() && own < |db.st.ops|
      requires db.st.ops[own].request.Buy? && db.st.ops[own].request.user == userID
      requires db.st.ops[own].pc == BuyBegun(itemID, price)
      modifies db
      ensures db.Valid() && own < |db.st.ops| && db.Continued(own)
      ensures db.st.ops[own].request == old(db.st.ops[own].request) && db.st.ops[own].pc == Finished(r)
    {
      var seen, pick := Exec(own);
      if IsCancelled(db.st, own) {
        return OutcomeOf(db.st, own);
      }
      if userID !in seen.users {
        return Failed(UserNotExist);
      }
      var balance := seen.users[userID].balance;
      balance := Sub64(balance, price);
      if balance < 0 {
        return Failed(NotEnough);
      }

      r := Write(own, userID, itemID, price, balance);
    }

    /** From the insert to the commit. */
    method Write(own: OpId, userID: UserId, itemID: ItemId, price: int64, balance: int64) returns (r: Outcome)
      requires db.Valid() && own < |db.st.ops| && db.st.ops[own].request.Buy? && db.st.ops[own].request.user == userID
      requires db.st.ops[own].pc == BuyInsert(itemID, price, balance)
      modifies db
      ensures db.Valid() && own < |db.st.ops| && db.Continued(own)
      ensures db.st.ops[own].request == old(db.st.ops[own].request) && db.st.ops[own].pc == Finished(r)
    {
      var ok, row := CreatePurchase(own, userID, itemID, price);
      if ok {
        ok := UpdateUserBalance(own, userID, balance);
      }
      if !ok {
        return OutcomeOf(db.st, own);
      }
      r := CommitPurchase(own);
    }

    method CreatePurchase(own: OpId, userID: UserId, itemID: ItemId, amount: int64) returns (ok: bool, ghost row: Purchase)
      requires db.Valid() && own < |db.st.ops| && db.st.ops[own].request.Buy? && db.st.ops[own].pc.BuyInsert?
      requires userID == db.st.ops[own].request.user && itemID == db.st.ops[own].pc.item && amount == db.st.ops[own].pc.price
      modifies db
      ensures db.Valid() && own < |db.st.ops| && db.st.ops[own].request == old(db.st.ops[own].request) && db.Continued(own)
      ensures !ok ==> db.st.ops[own].pc.Finished? && !db.st.ops[own].pc.outcome.Completed?
      ensures ok ==>
        && row == Purchase(row.id, old(db.st.ops[own].tx.startedAt), userID, itemID, amount)
        && db.st.ops[own].tx.purchases == old(db.st.ops[own].tx.purchases) + [row]
        && db.st.ops[own].tx.balances == old(db.st.ops[own].tx.balances)
        && db.st.ops[own].pc == BuyDebit(itemID, old(db.st.ops[own].pc.balance))
    {
      ghost var startedAt := db.st.ops[own].tx.startedAt;
      var seen, pick := Exec(own);
      row := Purchase(pick, startedAt, userID, itemID, amount);
      ok := !db.st.ops[own].pc.Finished?;
    }

    /** On success the private write set of the transaction holds this balance for this user. */
    method UpdateUserBalance(own: OpId, id: UserId, balance: int64) returns (ok: bool)
      requires db.Valid() && own < |db.st.ops| && db.st.ops[own].request.Buy? && db.st.ops[own].pc.BuyDebit?
      requires id == db.st.ops[own].request.user && balance == db.st.ops[own].pc.balance
      modifies db
      ensures db.Valid() && own < |db.st.ops| && db.st.ops[own].request == old(db.st.ops[own].request) && db.Continued(own)
      ensures !ok ==> db.st.ops[own].pc.Finished? && !db.st.ops[own].pc.outcome.Completed?
      ensures ok ==>
        && db.st.ops[own].tx.balances == old(db.st.ops[own].tx.balances)[id := balance]
        && db.st.ops[own].pc == BuyCommit(old(db.st.ops[own].pc.item))
    {
      var seen, pick := Exec(own);
      ok := !db.st.ops[own].pc.Finished?;
    }

    method CommitPurchase(own: OpId) returns (r: Outcome)
      requires db.Valid() && own < |db.st.ops| && db.st.ops[own].request.Buy? && db.st.ops[own].pc.BuyCommit?
      modifies db
      ensures db.Valid() && own < |db.st.ops| && db.Continued(own)
      ensures db.st.ops[own].request == old(db.st.ops[own].request) && db.st.ops[own].pc == Finished(r)
      ensures r.Completed? || r.Lost?
    {
      var seen, pick := Exec(own);
      if IsCancelled(db.st, own) {
        return OutcomeOf(db.st, own);
      }
      r := Completed;
    }
  }
}
