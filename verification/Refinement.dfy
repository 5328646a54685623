/** Every step keeps the invariant, so every interleaved run refines the atomic ledger. */
module Refinement {
  import opened Schema
  import opened Wrappers
  import opened Ledger
  import opened Accounting
  import opened Protocol
  import opened Invariant

  // ----- steps that leave the committed tables alone

  /** `st'` is `st` with one session replaced and the lock table following that session. */
  ghost predicate Replaces(st: State, st': State, op: OpId) {
    && op < |st.ops| == |st'.ops|
    && st'.ops == st.ops[op := st'.ops[op]]
    && (forall k :: k in st.locks && st.locks[k] != op ==> k in st'.locks && st'.locks[k] == st.locks[k])
    && (forall k :: k in st'.locks && st'.locks[k] != op ==> k in st.locks && st'.locks[k] == st.locks[k])
    && (forall k :: k in st'.ops[op].tx.held <==> k in st'.locks && st'.locks[k] == op)
  }

  lemma LocksFollow(st: State, st': State, op: OpId)
    requires LocksInv(st) && Replaces(st, st', op)
    ensures LocksInv(st')
  {
    forall i, k | 0 <= i < |st'.ops| && k in st'.ops[i].tx.held
      ensures k in st'.locks && st'.locks[k] == i
    {
      if i != op {
        assert k in st.ops[i].tx.held;
      }
    }
  }

  lemma ReplaceKeeps(t: Tables, st: State, st': State, op: OpId)
    requires Inv(t, st) && Replaces(st, st', op)
    requires st'.db == st.db && st'.log == st.log
    requires OpInv(st.db, st'.ops[op])
    ensures Inv(t, st')
  {
    LocksFollow(st, st', op);
    OpsFollow(st.db, st.ops, op, st'.ops[op]);
  }

  lemma OpsFollow(db: Tables, ops: seq<Op>, op: OpId, o: Op)
    requires OpsInv(db, ops) && op < |ops| && OpInv(db, o)
    ensures OpsInv(db, ops[op := o])
  {
  }

  lemma GotoKeeps(t: Tables, st: State, op: OpId, pc: Pc)
    requires Inv(t, st) && op < |st.ops|
    requires OpInv(st.db, st.ops[op].(pc := pc))
    ensures Inv(t, Goto(st, op, pc))
  {
    GotoReplaces(st, op, pc);
    ReplaceKeeps(t, st, Goto(st, op, pc), op);
  }

  lemma GotoReplaces(st: State, op: OpId, pc: Pc)
    requires LocksInv(st) && op < |st.ops|
    ensures Replaces(st, Goto(st, op, pc), op)
  {
  }

  lemma BeginKeeps(t: Tables, st: State, op: OpId, pc: Pc)
    requires Inv(t, st) && op < |st.ops| && st.ops[op].tx == NO_TX
    requires OpInv(st.db, Op(st.ops[op].request, pc, NO_TX.(startedAt := st.now)))
    ensures Inv(t, Begin(st, op, pc))
  {
    BeginReplaces(st, op, pc);
    ReplaceKeeps(t, st, Begin(st, op, pc), op);
  }

  lemma BeginReplaces(st: State, op: OpId, pc: Pc)
    requires LocksInv(st) && op < |st.ops| && st.ops[op].tx == NO_TX
    ensures Replaces(st, Begin(st, op, pc), op)
  {
  }

  lemma FinishKeeps(t: Tables, st: State, op: OpId, outcome: Outcome)
    requires Inv(t, st) && op < |st.ops|
    requires OpInv(st.db, Op(st.ops[op].request, Finished(outcome), NO_TX))
    ensures Inv(t, Finish(st, op, outcome))
  {
    FinishReplaces(st, op, outcome);
    ReplaceKeeps(t, st, Finish(st, op, outcome), op);
  }

  lemma FinishReplaces(st: State, op: OpId, outcome: Outcome)
    requires LocksInv(st) && op < |st.ops|
    ensures Replaces(st, Finish(st, op, outcome), op)
  {
  }

  /** Any session can end with an error at any point; authentication has no error of its own but a
      violated constraint. */
  lemma ErrorKeeps(t: Tables, st: State, op: OpId, outcome: Outcome)
    requires Inv(t, st) && op < |st.ops|
    requires outcome.Failed? || outcome.Lost?
    requires st.ops[op].request.Authenticate? && outcome.Failed? ==> outcome.error == Rejected
    ensures Inv(t, Finish(st, op, outcome))
  {
    ErrorIsFine(st.db, st.ops[op].request, outcome);
    FinishKeeps(t, st, op, outcome);
  }

  lemma ErrorIsFine(db: Tables, request: Request, outcome: Outcome)
    requires outcome.Failed? || outcome.Lost?
    requires request.Authenticate? && outcome.Failed? ==> outcome.error == Rejected
    ensures OpInv(db, Op(request, Finished(outcome), NO_TX))
  {
  }

  lemma AcquireKeeps(t: Tables, st: State, op: OpId, keys: set<Key>, tx: Tx, pc: Pc)
    requires Inv(t, st) && op < |st.ops|
    requires tx.held == st.ops[op].tx.held
    requires forall k :: k in keys && k in st.locks ==> st.locks[k] == op
    requires OpInv(st.db, Op(st.ops[op].request, pc, tx.(held := tx.held + keys)))
    ensures Inv(t, Acquire(st, op, keys, tx, pc))
  {
    AcquireReplaces(st, op, keys, tx, pc);
    ReplaceKeeps(t, st, Acquire(st, op, keys, tx, pc), op);
  }

  lemma AcquireReplaces(st: State, op: OpId, keys: set<Key>, tx: Tx, pc: Pc)
    requires LocksInv(st) && op < |st.ops|
    requires tx.held == st.ops[op].tx.held
    requires forall k :: k in keys && k in st.locks ==> st.locks[k] == op
    ensures Replaces(st, Acquire(st, op, keys, tx, pc), op)
  {
  }

  // ----- commits

  lemma OneMoreTransfer(t: Tables, t': Tables, row: Transfer, id: RowId)
    requires t'.transfers == t.transfers + [row]
    ensures HasTransfer(t', id) <==> HasTransfer(t, id) || row.id == id
  {
    if HasTransfer(t, id) {
      var i :| 0 <= i < |t.transfers| && t.transfers[i].id == id;
      assert t'.transfers[i].id == id;
    }
    assert t'.transfers[|t.transfers|] == row;
  }

  lemma OneMorePurchase(t: Tables, t': Tables, row: Purchase, id: RowId)
    requires t'.purchases == t.purchases + [row]
    ensures HasPurchase(t', id) <==> HasPurchase(t, id) || row.id == id
  {
    if HasPurchase(t, id) {
      var i :| 0 <= i < |t.purchases| && t.purchases[i].id == id;
      assert t'.purchases[i].id == id;
    }
    assert t'.purchases[|t.purchases|] == row;
  }

  lemma SendCommits(db: Tables, o: Op)
    requires Constraints(db) && o.request.Send? && o.pc.SendCommit? && SendInv(db, o)
    ensures RunTransfer(db, o.request.dstUsername, o.request.src, o.request.amount, o.tx.transfers[0].id, o.tx.startedAt)
      == Success(Merge(db, o.tx))
  {
    var r := RunTransfer(db, o.request.dstUsername, o.request.src, o.request.amount, o.tx.transfers[0].id, o.tx.startedAt);
    var m := Merge(db, o.tx);
    assert r.Success?;
    assert m.users == r.value.users;
    assert m.byName == db.byName;
    assert m.transfers == r.value.transfers;
    assert m.purchases == db.purchases;
  }

  lemma SendCommitIsStable(db: Tables, o: Op)
    requires Constraints(db) && o.request.Send? && o.pc.SendCommit? && SendInv(db, o)
    ensures Stable(db, Merge(db, o.tx), o.tx.held)
  {
    forall id
      ensures HasTransfer(Merge(db, o.tx), id) && !HasTransfer(db, id) ==> TransferRow(id) in o.tx.held
    {
      OneMoreTransfer(db, Merge(db, o.tx), o.tx.transfers[0], id);
    }
    assert Merge(db, o.tx).purchases == db.purchases;
    BalancesAreStable(db, o.tx);
  }

  /** Overwriting the balances of held rows and appending held rows to the history is stable. */
  lemma BalancesAreStable(db: Tables, tx: Tx)
    requires tx.users == map[] && tx.names == map[]
    requires forall id :: id in tx.balances ==> UserRow(id) in tx.held
    requires forall id :: HasTransfer(Merge(db, tx), id) && !HasTransfer(db, id) ==> TransferRow(id) in tx.held
    requires forall id :: HasPurchase(Merge(db, tx), id) && !HasPurchase(db, id) ==> PurchaseRow(id) in tx.held
    ensures Stable(db, Merge(db, tx), tx.held)
  {
    assert Merge(db, tx).byName == db.byName;
  }

  lemma BuyCommits(db: Tables, o: Op)
    requires Constraints(db) && o.request.Buy? && o.pc.BuyCommit? && BuyInv(db, o)
    ensures RunPurchase(db, o.request.itemName, o.request.user, o.tx.purchases[0].id, o.tx.startedAt) == Success(Merge(db, o.tx))
  {
    var r := RunPurchase(db, o.request.itemName, o.request.user, o.tx.purchases[0].id, o.tx.startedAt);
    var m := Merge(db, o.tx);
    assert r.Success?;
    assert m.users == r.value.users;
    assert m.byName == db.byName;
    assert m.purchases == r.value.purchases;
    assert m.transfers == db.transfers;
  }

  lemma BuyCommitIsStable(db: Tables, o: Op)
    requires Constraints(db) && o.request.Buy? && o.pc.BuyCommit? && BuyInv(db, o)
    ensures Stable(db, Merge(db, o.tx), o.tx.held)
  {
    forall id
      ensures HasPurchase(Merge(db, o.tx), id) && !HasPurchase(db, id) ==> PurchaseRow(id) in o.tx.held
    {
      OneMorePurchase(db, Merge(db, o.tx), o.tx.purchases[0], id);
    }
    assert Merge(db, o.tx).transfers == db.transfers;
    BalancesAreStable(db, o.tx);
  }

  lemma PendingLastIsNew(db: Tables, params: seq<User>, ids: seq<UserId>)
    requires PendingFree(db, params, ids) && ids != []
    ensures ids[|ids| - 1] !in PendingUsers(params, ids[..|ids| - 1])
    ensures params[|ids| - 1].username !in PendingNames(params, ids[..|ids| - 1])
  {
    var n := |ids| - 1;
    if ids[n] in PendingUsers(params, ids[..n]) {
      var i := PendingIdIndex(params, ids[..n], ids[n]);
      assert false;
    }
    if params[n].username in PendingNames(params, ids[..n]) {
      var i := PendingNameIndex(params, ids[..n], params[n].username);
      assert false;
    }
  }

  /** The rows a session has pending, inserted into the committed tables one after another. */
  lemma {:induction false} PendingInserts(db: Tables, params: seq<User>, ids: seq<UserId>)
    requires PendingFree(db, params, ids)
    ensures InsertUsers(db, params[..|ids|], ids)
      == Success(db.(users := db.users + PendingUsers(params, ids), byName := db.byName + PendingNames(params, ids)))
    decreases |ids|
  {
    if ids == [] {
      assert db.users + map[] == db.users && db.byName + map[] == db.byName;
    } else {
      var n := |ids| - 1;
      assert params[..|ids|][..n] == params[..n];
      PendingInserts(db, params, ids[..n]);
      PendingLastIsNew(db, params, ids);
      InsertUsersUnfolds(db, params[..|ids|], ids, params[..n]);
      InsertPendingUser(db, PendingUsers(params, ids[..n]), PendingNames(params, ids[..n]), params[n], ids[n]);
    }
  }

  lemma InsertUsersUnfolds(db: Tables, params: seq<User>, ids: seq<UserId>, front: seq<User>)
    requires |params| == |ids| > 0 && front == params[..|ids| - 1]
    requires InsertUsers(db, front, ids[..|ids| - 1]).Success?
    ensures InsertUsers(db, params, ids)
      == InsertUser(InsertUsers(db, front, ids[..|ids| - 1]).value, params[|ids| - 1], ids[|ids| - 1])
  {
  }

  lemma InsertPendingUser(db: Tables, users: map<UserId, User>, names: map<string, UserId>, user: User, id: UserId)
    requires NonNegativeInt32(user.balance)
    requires id !in db.users && id !in users && user.username !in db.byName && user.username !in names
    ensures InsertUser(db.(users := db.users + users, byName := db.byName + names), user, id)
      == Success(db.(users := db.users + users[id := user], byName := db.byName + names[user.username := id]))
  {
    assert (db.users + users)[id := user] == db.users + users[id := user];
    assert (db.byName + names)[user.username := id] == db.byName + names[user.username := id];
  }

  lemma CreateCommits(db: Tables, tx: Tx, params: seq<User>, ids: seq<UserId>)
    requires PendingInv(db, tx, params, ids) && |ids| == |params|
    requires forall i :: 0 <= i < |params| ==> Int32(params[i].balance)
    ensures RunCreate(db, params, ids) == Success(Merge(db, tx))
  {
    PendingInserts(db, params, ids);
    assert params[..|ids|] == params;
    var m := Merge(db, tx);
    assert m.users == db.users + tx.users;
    assert m.transfers == db.transfers;
    assert m.purchases == db.purchases;
  }

  lemma CreateCommitIsStable(db: Tables, tx: Tx, params: seq<User>, ids: seq<UserId>)
    requires PendingInv(db, tx, params, ids)
    ensures Stable(db, Merge(db, tx), tx.held)
  {
    var m := Merge(db, tx);
    assert m.transfers == db.transfers && m.purchases == db.purchases;
    forall id | id in tx.users
      ensures UserRow(id) in tx.held && id !in db.users
    {
      var i := PendingIdIndex(params, ids, id);
      PendingCovers(params, ids, i);
    }
    forall name | name in tx.names
      ensures Username(name) in tx.held && name !in db.byName
    {
      var i := PendingNameIndex(params, ids, name);
      PendingCovers(params, ids, i);
    }
  }

  /** A commit is one operation of the atomic ledger, although it overwrites balances with values
      computed from rows read long before. */
  lemma CommitRefines(db: Tables, op: OpId, o: Op)
    requires Coherent(db) && OpInv(db, o) && AtCommit(o)
    ensures var e := LogEntry(op, o); Run(db, e.call, e.ids, e.at) == Success(Merge(db, o.tx))
    ensures Stable(db, Merge(db, o.tx), o.tx.held)
  {
    match o.request
    case Send(_, _, _) =>
      SendCommits(db, o);
      SendCommitIsStable(db, o);
    case Buy(_, _) =>
      BuyCommits(db, o);
      BuyCommitIsStable(db, o);
    case Create(params) =>
      CreateCommits(db, o.tx, params, o.pc.ids);
      CreateCommitIsStable(db, o.tx, params, o.pc.ids);
    case Authenticate(username, newHash, _) =>
      var params := [User(username, newHash, DEFAULT_BALANCE)];
      CreateCommits(db, o.tx, params, [o.pc.id]);
      CreateCommitIsStable(db, o.tx, params, [o.pc.id]);
    case Info(_) =>
  }

  lemma HeldApart(st: State, op: OpId, other: OpId)
    requires LocksInv(st) && op < |st.ops| && other < |st.ops| && op != other
    ensures st.ops[op].tx.held !! st.ops[other].tx.held
  {
    forall k | k in st.ops[op].tx.held
      ensures k !in st.ops[other].tx.held
    {
      assert st.locks[k] == op;
    }
  }

  lemma OthersStay(db: Tables, st: State, op: OpId, o: Op)
    requires LocksInv(st) && OpsInv(st.db, st.ops) && op < |st.ops|
    requires Stable(st.db, db, st.ops[op].tx.held) && OpInv(db, o)
    ensures OpsInv(db, st.ops[op := o])
  {
    forall i | 0 <= i < |st.ops| && i != op
      ensures OpInv(db, st.ops[i])
    {
      HeldApart(st, op, i);
      OpStays(st.db, db, st.ops[op].tx.held, st.ops[i]);
    }
  }

  lemma CommitKeeps(t: Tables, st: State, op: OpId, outcome: Outcome)
    requires Inv(t, st) && op < |st.ops| && AtCommit(st.ops[op])
    requires OpInv(Merge(st.db, st.ops[op].tx), Op(st.ops[op].request, Finished(outcome), NO_TX))
    ensures Inv(t, Commit(st, op, outcome))
  {
    var o := st.ops[op];
    SerialKeeps(t, st.log);
    CommitRefines(st.db, op, o);
    SerialGrows(t, st.log, LogEntry(op, o));
    OthersStay(Merge(st.db, o.tx), st, op, Op(o.request, Finished(outcome), NO_TX));
    CommitReplaces(st, op, outcome);
    LocksFollow(st, Commit(st, op, outcome), op);
  }

  lemma CommitReplaces(st: State, op: OpId, outcome: Outcome)
    requires LocksInv(st) && op < |st.ops| && AtCommit(st.ops[op])
    ensures Replaces(st, Commit(st, op, outcome), op)
    ensures Commit(st, op, outcome).db == Merge(st.db, st.ops[op].tx)
    ensures Commit(st, op, outcome).log == st.log + [LogEntry(op, st.ops[op])]
    ensures Commit(st, op, outcome).ops == st.ops[op := Op(st.ops[op].request, Finished(outcome), NO_TX)]
  {
  }

  lemma SerialGrows(t: Tables, log: seq<Entry>, e: Entry)
    requires Serial(t, log).Success?
    ensures Serial(t, log + [e]) == Run(Serial(t, log).value, e.call, e.ids, e.at)
  {
    assert (log + [e])[..|log|] == log;
  }

  // ----- each session's steps

  /** A session's next state, with its invariant to be shown on the committed tables alone. */
  lemma SendLocksRow(db: Tables, o: Op)
    requires o.request.Send? && o.pc.SendLocking? && SendInv(db, o) && o.pc.todo != []
    ensures var row := o.pc.todo[0];
      row in db.users
      && SendInv(db, Op(o.request, SendLocking(o.pc.dst, o.pc.todo[1..], o.pc.got[row := db.users[row].balance]),
                        o.tx.(held := o.tx.held + {UserRow(row)})))
  {
    var row := o.pc.todo[0];
    var got' := o.pc.got[row := db.users[row].balance];
    assert UserRows(got'.Keys) == UserRows(o.pc.got.Keys) + {UserRow(row)};
  }

  lemma SendHasBothRows(db: Tables, o: Op)
    requires o.request.Send? && o.pc.SendLocking? && SendInv(db, o) && o.pc.todo == []
    requires o.request.src in o.pc.got && o.pc.dst in o.pc.got && Sub64(o.pc.got[o.request.src], o.request.amount) >= 0
    ensures SendInv(db, o.(pc := SendInsert(o.pc.dst, Sub64(o.pc.got[o.request.src], o.request.amount),
                                            Add64(o.pc.got[o.pc.dst], o.request.amount))))
  {
    assert o.pc.got.Keys == {o.request.src, o.pc.dst};
    assert UserRows(o.pc.got.Keys) == {UserRow(o.request.src), UserRow(o.pc.dst)};
  }

  lemma SendInsertsRow(db: Tables, o: Op, row: Transfer)
    requires o.request.Send? && o.pc.SendInsert? && SendInv(db, o)
    requires NonNegativeInt32(o.request.amount) && !HasTransfer(db, row.id)
    requires row == Transfer(row.id, o.tx.startedAt, o.pc.dst, o.request.src, o.request.amount)
    ensures SendInv(db, Op(o.request, SendDebit(o.pc.dst, o.pc.srcBalance, o.pc.dstBalance),
                           o.tx.(transfers := o.tx.transfers + [row], held := o.tx.held + {TransferRow(row.id)})))
  {
    assert o.tx.transfers == [];
    assert o.tx.held + {TransferRow(row.id)} == {UserRow(o.request.src), UserRow(o.pc.dst), TransferRow(row.id)};
  }

  lemma SendDebits(db: Tables, o: Op)
    requires o.request.Send? && o.pc.SendDebit? && SendInv(db, o) && NonNegativeInt32(o.pc.srcBalance)
    ensures SendInv(db, Op(o.request, SendCredit(o.pc.dst, o.pc.dstBalance),
                           o.tx.(balances := o.tx.balances[o.request.src := o.pc.srcBalance], held := o.tx.held + {UserRow(o.request.src)})))
  {
    assert o.tx.held + {UserRow(o.request.src)} == o.tx.held;
  }

  lemma SendCredits(db: Tables, o: Op)
    requires o.request.Send? && o.pc.SendCredit? && SendInv(db, o) && NonNegativeInt32(o.pc.dstBalance)
    ensures SendInv(db, Op(o.request, SendCommit(o.pc.dst),
                           o.tx.(balances := o.tx.balances[o.pc.dst := o.pc.dstBalance], held := o.tx.held + {UserRow(o.pc.dst)})))
  {
    assert o.tx.held + {UserRow(o.pc.dst)} == o.tx.held;
  }

  lemma SendLockKeeps(t: Tables, st: State, op: OpId)
    requires Inv(t, st) && op < |st.ops| && st.ops[op].request.Send? && !Blocked(st, op)
    requires st.ops[op].pc.SendLocking? && st.ops[op].pc.todo != []
    ensures Inv(t, SendLock(st, op))
  {
    var o := st.ops[op];
    var SendLocking(dst, todo, got) := o.pc;
    assert UserRow(todo[0]) in Wants(st.db, o);
    SendLocksRow(st.db, o);
    AcquireKeeps(t, st, op, {UserRow(todo[0])}, o.tx, SendLocking(dst, todo[1..], got[todo[0] := st.db.users[todo[0]].balance]));
  }

  lemma SendCheckKeeps(t: Tables, st: State, op: OpId)
    requires Inv(t, st) && op < |st.ops| && st.ops[op].request.Send?
    requires st.ops[op].pc.SendLocking? && st.ops[op].pc.todo == []
    ensures Inv(t, SendCheck(st, op))
  {
    var o := st.ops[op];
    var src, amount, got := o.request.src, o.request.amount, o.pc.got;
    if src !in got || o.pc.dst !in got {
      ErrorKeeps(t, st, op, Failed(UserNotExist));
    } else if Sub64(got[src], amount) < 0 {
      ErrorKeeps(t, st, op, Failed(NotEnough));
    } else {
      SendHasBothRows(st.db, o);
      GotoKeeps(t, st, op, SendInsert(o.pc.dst, Sub64(got[src], amount), Add64(got[o.pc.dst], amount)));
    }
  }

  lemma SendInsertKeeps(t: Tables, st: State, op: OpId, pick: nat, flip: bool)
    requires Inv(t, st) && op < |st.ops| && st.ops[op].request.Send? && st.ops[op].pc.SendInsert?
    ensures Inv(t, AdvanceSend(st, op, pick, flip))
  {
    var o := st.ops[op];
    var SendInsert(dst, srcBalance, dstBalance) := o.pc;
    if !NonNegativeInt32(o.request.amount) || HasTransfer(st.db, pick) {
      ErrorKeeps(t, st, op, Failed(Rejected));
    } else if TransferRow(pick) !in st.locks {
      var row := Transfer(pick, o.tx.startedAt, dst, o.request.src, o.request.amount);
      SendInsertsRow(st.db, o, row);
      AcquireKeeps(t, st, op, {TransferRow(pick)}, o.tx.(transfers := o.tx.transfers + [row]), SendDebit(dst, srcBalance, dstBalance));
    }
  }

  lemma SendUpdatesKeep(t: Tables, st: State, op: OpId, pick: nat, flip: bool)
    requires Inv(t, st) && op < |st.ops| && st.ops[op].request.Send? && !Blocked(st, op)
    requires st.ops[op].pc.SendDebit? || st.ops[op].pc.SendCredit?
    ensures Inv(t, AdvanceSend(st, op, pick, flip))
  {
    var o := st.ops[op];
    var src := o.request.src;
    match o.pc
    case SendDebit(dst, srcBalance, dstBalance) =>
      if !NonNegativeInt32(srcBalance) {
        ErrorKeeps(t, st, op, Failed(Rejected));
      } else {
        assert UserRow(src) in Wants(st.db, o);
        SendDebits(st.db, o);
        AcquireKeeps(t, st, op, {UserRow(src)}, o.tx.(balances := o.tx.balances[src := srcBalance]), SendCredit(dst, dstBalance));
      }
    case SendCredit(dst, dstBalance) =>
      if !NonNegativeInt32(dstBalance) {
        ErrorKeeps(t, st, op, Failed(Rejected));
      } else {
        assert UserRow(dst) in Wants(st.db, o);
        SendCredits(st.db, o);
        AcquireKeeps(t, st, op, {UserRow(dst)}, o.tx.(balances := o.tx.balances[dst := dstBalance]), SendCommit(dst));
      }
  }

  lemma SendStarts(t: Tables, st: State, op: OpId, pick: nat, flip: bool)
    requires Inv(t, st) && op < |st.ops| && st.ops[op].request.Send?
    requires st.ops[op].pc.Start? || st.ops[op].pc.SendChecked? || st.ops[op].pc.SendBegun?
    ensures Inv(t, AdvanceSend(st, op, pick, flip))
  {
    var o := st.ops[op];
    SerialKeeps(t, st.log);
    match o.pc
    case Start =>
      if o.request.dstUsername !in st.db.byName {
        ErrorKeeps(t, st, op, Failed(DstUserNotFound));
      } else if st.db.byName[o.request.dstUsername] == o.request.src {
        ErrorKeeps(t, st, op, Failed(SameUser));
      } else {
        GotoKeeps(t, st, op, SendChecked(st.db.byName[o.request.dstUsername]));
      }
    case SendChecked(dst) =>
      BeginKeeps(t, st, op, SendBegun(dst));
    case SendBegun(dst) =>
      var a, b := if flip then dst else o.request.src, if flip then o.request.src else dst;
      var todo := (if a in st.db.users then [a] else []) + (if b in st.db.users then [b] else []);
      var none: map<UserId, int64> := map[];
      assert UserRows(none.Keys) == {};
      assert dst in todo;
      GotoKeeps(t, st, op, SendLocking(dst, todo, none));
  }

  lemma SendKeeps(t: Tables, st: State, op: OpId, pick: nat, flip: bool)
    requires Inv(t, st) && op < |st.ops| && st.ops[op].request.Send? && !Blocked(st, op)
    ensures Inv(t, AdvanceSend(st, op, pick, flip))
  {
    var pc := st.ops[op].pc;
    if pc.Start? || pc.SendChecked? || pc.SendBegun? {
      SendStarts(t, st, op, pick, flip);
    } else if pc.SendLocking? {
      if pc.todo != [] {
        SendLockKeeps(t, st, op);
      } else {
        SendCheckKeeps(t, st, op);
      }
    } else if pc.SendInsert? {
      SendInsertKeeps(t, st, op, pick, flip);
    } else if pc.SendDebit? || pc.SendCredit? {
      SendUpdatesKeep(t, st, op, pick, flip);
    } else if pc.SendCommit? {
      CommitKeeps(t, st, op, Completed);
    } else {
      assert AdvanceSend(st, op, pick, flip) == st;
    }
  }

  lemma BuyLocksRow(db: Tables, o: Op, balance: int64)
    requires o.request.Buy? && o.pc.BuyBegun? && BuyInv(db, o)
    requires o.request.user in db.users && 0 <= balance == Sub64(db.users[o.request.user].balance, o.pc.price)
    ensures BuyInv(db, Op(o.request, BuyInsert(o.pc.item, o.pc.price, balance),
                          o.tx.(held := o.tx.held + {UserRow(o.request.user)})))
  {
    assert {} + {UserRow(o.request.user)} == {UserRow(o.request.user)};
  }

  lemma BuyInsertsRow(db: Tables, o: Op, row: Purchase)
    requires o.request.Buy? && o.pc.BuyInsert? && BuyInv(db, o)
    requires NonNegativeInt32(o.pc.price) && !HasPurchase(db, row.id)
    requires row == Purchase(row.id, o.tx.startedAt, o.request.user, o.pc.item, o.pc.price)
    ensures BuyInv(db, Op(o.request, BuyDebit(o.pc.item, o.pc.balance),
                          o.tx.(purchases := o.tx.purchases + [row], held := o.tx.held + {PurchaseRow(row.id)})))
  {
    assert o.tx.purchases == [];
    assert o.tx.held + {PurchaseRow(row.id)} == {UserRow(o.request.user), PurchaseRow(row.id)};
  }

  lemma BuyDebits(db: Tables, o: Op)
    requires o.request.Buy? && o.pc.BuyDebit? && BuyInv(db, o) && NonNegativeInt32(o.pc.balance)
    ensures BuyInv(db, Op(o.request, BuyCommit(o.pc.item),
                          o.tx.(balances := o.tx.balances[o.request.user := o.pc.balance], held := o.tx.held + {UserRow(o.request.user)})))
  {
    assert o.tx.held + {UserRow(o.request.user)} == o.tx.held;
  }

  lemma BuyStarts(t: Tables, st: State, op: OpId, pick: nat)
    requires Inv(t, st) && op < |st.ops| && st.ops[op].request.Buy? && !Blocked(st, op)
    requires st.ops[op].pc.Start? || st.ops[op].pc.BuyFound?
    ensures Inv(t, AdvanceBuy(st, op, pick))
  {
    var o := st.ops[op];
    var user := o.request.user;
    SerialKeeps(t, st.log);
    match o.pc
    case Start =>
      if o.request.itemName !in st.db.itemByName {
        ErrorKeeps(t, st, op, Failed(ItemNotExist));
      } else {
        var item := st.db.itemByName[o.request.itemName];
        GotoKeeps(t, st, op, BuyFound(item, st.db.items[item].price));
      }
    case BuyFound(item, price) =>
      BeginKeeps(t, st, op, BuyBegun(item, price));
  }

  lemma BuyLockGranted(t: Tables, st: State, op: OpId, balance: int64)
    requires Inv(t, st) && op < |st.ops| && st.ops[op].request.Buy? && !Blocked(st, op)
    requires st.ops[op].pc.BuyBegun? && st.ops[op].request.user in st.db.users
    requires 0 <= balance == Sub64(st.db.users[st.ops[op].request.user].balance, st.ops[op].pc.price)
    ensures var o := st.ops[op];
      Inv(t, Acquire(st, op, {UserRow(o.request.user)}, o.tx, BuyInsert(o.pc.item, o.pc.price, balance)))
  {
    var o := st.ops[op];
    assert UserRow(o.request.user) in Wants(st.db, o);
    BuyLocksRow(st.db, o, balance);
    AcquireKeeps(t, st, op, {UserRow(o.request.user)}, o.tx, BuyInsert(o.pc.item, o.pc.price, balance));
  }

  lemma BuyLockKeeps(t: Tables, st: State, op: OpId)
    requires Inv(t, st) && op < |st.ops| && st.ops[op].request.Buy? && !Blocked(st, op)
    requires st.ops[op].pc.BuyBegun?
    ensures Inv(t, BuyLock(st, op))
  {
    var o := st.ops[op];
    if o.request.user !in st.db.users {
      ErrorKeeps(t, st, op, Failed(UserNotExist));
    } else {
      var balance := Sub64(st.db.users[o.request.user].balance, o.pc.price);
      if balance < 0 {
        ErrorKeeps(t, st, op, Failed(NotEnough));
      } else {
        BuyLockGranted(t, st, op, balance);
      }
    }
  }

  lemma BuyWritesKeep(t: Tables, st: State, op: OpId, pick: nat)
    requires Inv(t, st) && op < |st.ops| && st.ops[op].request.Buy? && !Blocked(st, op)
    requires st.ops[op].pc.BuyInsert? || st.ops[op].pc.BuyDebit?
    ensures Inv(t, AdvanceBuy(st, op, pick))
  {
    var o := st.ops[op];
    var user := o.request.user;
    match o.pc
    case BuyInsert(item, price, balance) =>
      if !NonNegativeInt32(price) || HasPurchase(st.db, pick) {
        ErrorKeeps(t, st, op, Failed(Rejected));
      } else if PurchaseRow(pick) !in st.locks {
        var row := Purchase(pick, o.tx.startedAt, user, item, price);
        BuyInsertsRow(st.db, o, row);
        AcquireKeeps(t, st, op, {PurchaseRow(pick)}, o.tx.(purchases := o.tx.purchases + [row]), BuyDebit(item, balance));
      }
    case BuyDebit(item, balance) =>
      if !NonNegativeInt32(balance) {
        ErrorKeeps(t, st, op, Failed(Rejected));
      } else {
        assert UserRow(user) in Wants(st.db, o);
        BuyDebits(st.db, o);
        AcquireKeeps(t, st, op, {UserRow(user)}, o.tx.(balances := o.tx.balances[user := balance]), BuyCommit(item));
      }
  }

  lemma BuyKeeps(t: Tables, st: State, op: OpId, pick: nat)
    requires Inv(t, st) && op < |st.ops| && st.ops[op].request.Buy? && !Blocked(st, op)
    ensures Inv(t, AdvanceBuy(st, op, pick))
  {
    var pc := st.ops[op].pc;
    if pc.Start? || pc.BuyFound? {
      BuyStarts(t, st, op, pick);
    } else if pc.BuyBegun? {
      BuyLockKeeps(t, st, op);
    } else if pc.BuyInsert? || pc.BuyDebit? {
      BuyWritesKeep(t, st, op, pick);
    } else if pc.BuyCommit? {
      CommitKeeps(t, st, op, Completed);
    } else {
      assert AdvanceBuy(st, op, pick) == st;
    }
  }

  /** Inserting one more pending row keeps the pending rows free of collisions. */
  lemma PendingGrows(db: Tables, tx: Tx, params: seq<User>, ids: seq<UserId>, id: UserId)
    requires PendingInv(db, tx, params, ids) && |ids| < |params|
    requires NonNegativeInt32(params[|ids|].balance) && id !in db.users && id !in tx.users
    requires params[|ids|].username !in db.byName && params[|ids|].username !in tx.names
    ensures PendingInv(db, tx.(users := tx.users[id := params[|ids|]], names := tx.names[params[|ids|].username := id],
                               held := tx.held + {UserRow(id), Username(params[|ids|].username)}), params, ids + [id])
  {
    var ids' := ids + [id];
    assert ids'[..|ids|] == ids;
    forall i | 0 <= i < |ids|
      ensures ids[i] != id && params[i].username != params[|ids|].username
    {
      PendingCovers(params, ids, i);
    }
  }

  lemma CreateKeeps(t: Tables, st: State, op: OpId, pick: nat)
    requires Inv(t, st) && op < |st.ops| && st.ops[op].request.Create? && !Blocked(st, op)
    ensures Inv(t, AdvanceCreate(st, op, pick))
  {
    var o := st.ops[op];
    var params := o.request.params;
    match o.pc
    case Start => BeginKeeps(t, st, op, CreateBegun);
    case CreateBegun =>
      if exists i :: 0 <= i < |params| && !Int32(params[i].balance) {
        ErrorKeeps(t, st, op, Failed(Rejected));
      } else {
        assert PendingInv(st.db, o.tx, params, []);
        GotoKeeps(t, st, op, CreateInserting([]));
      }
    case CreateInserting(ids) =>
      if |ids| < |params| {
        var user := params[|ids|];
        if !NonNegativeInt32(user.balance) || pick in st.db.users || pick in o.tx.users {
          ErrorKeeps(t, st, op, Failed(Rejected));
        } else if user.username in st.db.byName || user.username in o.tx.names {
          ErrorKeeps(t, st, op, Failed(UserExists));
        } else if UserRow(pick) !in st.locks {
          assert Username(user.username) in Wants(st.db, o);
          PendingGrows(st.db, o.tx, params, ids, pick);
          AcquireKeeps(t, st, op, {UserRow(pick), Username(user.username)},
                       o.tx.(users := o.tx.users[pick := user], names := o.tx.names[user.username := pick]), CreateInserting(ids + [pick]));
        }
      } else {
        CommitKeeps(t, st, op, Completed);
      }
    case Finished(_) =>
  }

  lemma AuthenticateStarts(t: Tables, st: State, op: OpId, pick: nat)
    requires Inv(t, st) && op < |st.ops| && st.ops[op].request.Authenticate? && st.ops[op].pc.Start?
    ensures Inv(t, AdvanceAuthenticate(st, op, pick))
  {
    var o := st.ops[op];
    var username := o.request.username;
    SerialKeeps(t, st.log);
    if username !in st.db.byName {
      GotoKeeps(t, st, op, AuthMissing);
    } else {
      match o.request.check(st.db.users[st.db.byName[username]].passwordHash)
      case Match => FinishKeeps(t, st, op, Authenticated(st.db.byName[username], Verified));
      case Mismatch => FinishKeeps(t, st, op, BadPassword);
      case Malformed => FinishKeeps(t, st, op, BadHash);
    }
  }

  lemma AuthenticateInserts(t: Tables, st: State, op: OpId, pick: nat)
    requires Inv(t, st) && op < |st.ops| && st.ops[op].request.Authenticate? && st.ops[op].pc.AuthMissing? && !Blocked(st, op)
    ensures Inv(t, AdvanceAuthenticate(st, op, pick))
  {
    var o := st.ops[op];
    var username := o.request.username;
    var user := User(username, o.request.newHash, DEFAULT_BALANCE);
    if pick in st.db.users {
      ErrorKeeps(t, st, op, Failed(Rejected));
    } else if username in st.db.byName {
      GotoKeeps(t, st, op, AuthConflict);
    } else if UserRow(pick) !in st.locks {
      assert Username(username) in Wants(st.db, o);
      assert PendingInv(st.db, o.tx, [user], []);
      PendingGrows(st.db, o.tx, [user], [], pick);
      assert [] + [pick] == [pick];
      AcquireKeeps(t, st, op, {UserRow(pick), Username(username)},
                   o.tx.(users := o.tx.users[pick := user], names := o.tx.names[username := pick]), AuthInserted(pick));
    }
  }

  lemma AuthenticateKeeps(t: Tables, st: State, op: OpId, pick: nat)
    requires Inv(t, st) && op < |st.ops| && st.ops[op].request.Authenticate? && !Blocked(st, op)
    ensures Inv(t, AdvanceAuthenticate(st, op, pick))
  {
    var o := st.ops[op];
    match o.pc
    case Start => AuthenticateStarts(t, st, op, pick);
    case AuthMissing => AuthenticateInserts(t, st, op, pick);
    case AuthInserted(id) =>
      var user := User(o.request.username, o.request.newHash, DEFAULT_BALANCE);
      assert PendingUsers([user], [id])[id] == user && PendingNames([user], [id])[user.username] == id;
      CommitKeeps(t, st, op, Authenticated(id, Created));
    case AuthConflict =>
      SerialKeeps(t, st.log);
      FinishKeeps(t, st, op, Authenticated(st.db.byName[o.request.username], Raced));
    case Finished(_) =>
  }

  lemma InfoKeeps(t: Tables, st: State, op: OpId)
    requires Inv(t, st) && op < |st.ops| && st.ops[op].request.Info?
    ensures Inv(t, AdvanceInfo(st, op))
  {
    var o := st.ops[op];
    var now := Moment(st.db, |st.log|);
    match o.pc
    case Start => GotoKeeps(t, st, op, InfoCounted(now));
    case InfoCounted(first) => GotoKeeps(t, st, op, InfoListed(first, now));
    case InfoListed(first, second) =>
      if o.request.user in st.db.users {
        FinishKeeps(t, st, op, Report(first, second, now));
      } else {
        ErrorKeeps(t, st, op, Failed(UserNotExist));
      }
    case Finished(_) =>
  }

  lemma AdvanceKeeps(t: Tables, st: State, op: OpId, pick: nat, flip: bool)
    requires Inv(t, st) && op < |st.ops| && !Blocked(st, op)
    ensures Inv(t, Next(st, Advance(op, pick, flip)))
  {
    match st.ops[op].request
    case Send(_, _, _) => SendKeeps(t, st, op, pick, flip);
    case Buy(_, _) => BuyKeeps(t, st, op, pick);
    case Create(_) => CreateKeeps(t, st, op, pick);
    case Authenticate(_, _, _) => AuthenticateKeeps(t, st, op, pick);
    case Info(_) => InfoKeeps(t, st, op);
  }

  lemma ArriveKeeps(t: Tables, st: State, request: Request)
    requires Inv(t, st)
    ensures Inv(t, Next(st, Arrive(request)))
  {
    var o := Op(request, Start, NO_TX);
    assert OpInv(st.db, o);
    assert LocksInv(Next(st, Arrive(request)));
  }

  lemma LostKeeps(t: Tables, st: State, op: OpId)
    requires Inv(t, st) && op < |st.ops|
    ensures Inv(t, Finish(st, op, Lost(false)))
    ensures AtCommit(st.ops[op]) ==> Inv(t, Commit(st, op, Lost(true)))
  {
    ErrorKeeps(t, st, op, Lost(false));
    if AtCommit(st.ops[op]) {
      ErrorIsFine(Merge(st.db, st.ops[op].tx), st.ops[op].request, Lost(true));
      CommitKeeps(t, st, op, Lost(true));
    }
  }

  lemma TickKeeps(t: Tables, st: State, elapsed: nat)
    requires Inv(t, st)
    ensures Inv(t, Next(st, Tick(elapsed)))
  {
    assert LocksInv(Next(st, Tick(elapsed)));
  }

  lemma NextKeeps(t: Tables, st: State, step: Step)
    requires Inv(t, st)
    ensures Inv(t, Next(st, step))
  {
    if step.Arrive? {
      ArriveKeeps(t, st, step.request);
    } else if step.Tick? {
      TickKeeps(t, st, step.elapsed);
    } else if step.op < |st.ops| {
      if step.Advance? {
        if !Blocked(st, step.op) {
          AdvanceKeeps(t, st, step.op, step.pick, step.flip);
        }
      } else {
        LostKeeps(t, st, step.op);
      }
    }
  }

  /** Serializability: after any run, whatever the interleaving, the committed tables are those of
      the completed operations run one after another, each alone, in commit order. */
  lemma {:induction false} Serializable(t: Tables, now: int, steps: seq<Step>)
    requires Coherent(t)
    ensures var st := Execute(Initial(t, now), steps);
      Serial(t, st.log) == Success(st.db) && Inv(t, st)
  {
    if steps != [] {
      Serializable(t, now, steps[..|steps| - 1]);
      NextKeeps(t, Execute(Initial(t, now), steps[..|steps| - 1]), steps[|steps| - 1]);
    }
  }
}
