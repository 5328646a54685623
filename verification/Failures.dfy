/** Why a request is refused: every definite failure has its real cause in the committed tables, at the very
    statement of the session that met it. */
module Failures {
  import opened Wrappers
  import opened Schema
  import opened Ledger
  import opened Accounting
  import opened Protocol
  import opened Invariant
  import opened Refinement
  import opened Outcomes
  import opened Batches
  import opened Runs

  /** The definite failures. A `Lost` session says nothing about its request. */
  predicate Refusal(outcome: Outcome) {
    outcome.Failed? || outcome.BadPassword? || outcome.BadHash?
  }

  // ----- the causes

  /** The ends of a transfer exist and differ. */
  predicate EndsKnown(db: Tables, request: Request)
    requires request.Send?
  {
    && request.dstUsername in db.byName && db.byName[request.dstUsername] != request.src
    && request.src in db.users && db.byName[request.dstUsername] in db.users
  }

  predicate SendDue(db: Tables, request: Request, pick: nat, error: Error)
    requires request.Send?
  {
    var name, src, amount := request.dstUsername, request.src, request.amount;
    match error
    case DstUserNotFound => name !in db.byName
    case SameUser => name in db.byName && db.byName[name] == src
    case UserNotExist => name in db.byName && db.byName[name] != src && src !in db.users
    case NotEnough => EndsKnown(db, request) && Sub64(db.users[src].balance, amount) < 0
    case Rejected =>
      && EndsKnown(db, request) && Sub64(db.users[src].balance, amount) >= 0
      && (amount < 0 || amount > MAX_INT32 || HasTransfer(db, pick)
          || db.users[db.byName[name]].balance + amount > MAX_INT32)
    case _ => false
  }

  predicate ItemListed(db: Tables, name: string) {
    name in db.itemByName && db.itemByName[name] in db.items
  }

  predicate BuyDue(db: Tables, request: Request, pick: nat, error: Error)
    requires request.Buy?
  {
    var name, user := request.itemName, request.user;
    match error
    case ItemNotExist => !ItemListed(db, name)
    case UserNotExist => ItemListed(db, name) && user !in db.users
    case NotEnough => ItemListed(db, name) && user in db.users && db.users[user].balance < db.items[db.itemByName[name]].price
    case Rejected =>
      && ItemListed(db, name) && user in db.users && db.users[user].balance >= db.items[db.itemByName[name]].price
      && HasPurchase(db, pick)
    case _ => false
  }

  /** `drawn` are the ids of the rows inserted so far and of the next one. */
  predicate CreateDue(db: Tables, params: seq<User>, drawn: seq<nat>, error: Error) {
    match error
    case Rejected =>
      || (exists i :: 0 <= i < |params| && !NonNegativeInt32(params[i].balance))
      || (0 < |drawn| <= |params| && (drawn[|drawn| - 1] in db.users || drawn[|drawn| - 1] in drawn[..|drawn| - 1]))
    case UserExists =>
      && 0 < |drawn| <= |params|
      && var n := |drawn| - 1;
         params[n].username in db.byName || exists i :: 0 <= i < n && params[i].username == params[n].username
    case _ => false
  }

  /** The committed tables, with the ids the session has drawn, refuse the request in this way. */
  predicate Due(db: Tables, request: Request, drawn: seq<nat>, outcome: Outcome) {
    match request
    case Send(_, _, _) => outcome.Failed? && |drawn| == 1 && SendDue(db, request, drawn[0], outcome.error)
    case Buy(_, _) => outcome.Failed? && |drawn| == 1 && BuyDue(db, request, drawn[0], outcome.error)
    case Create(params) => outcome.Failed? && CreateDue(db, params, drawn, outcome.error)
    case Authenticate(_, _, _) =>
      || (outcome.BadPassword? && StoredHashAnswers(db, request, Mismatch))
      || (outcome.BadHash? && StoredHashAnswers(db, request, Malformed))
      || (outcome == Failed(Rejected) && |drawn| == 1 && drawn[0] in db.users)
    case Info(user) => outcome == Failed(UserNotExist) && user !in db.users
  }

  /** The ids that a session has drawn once its next statement draws `pick`. */
  function Drawn(o: Op, pick: nat): seq<nat> {
    match o.pc
    case CreateInserting(ids) => ids + [pick]
    case CreateBegun => []
    case _ => [pick]
  }

  /** This step is the statement of the session that is refused. */
  ghost predicate RefusedAt(st: State, step: Step, op: OpId, outcome: Outcome) {
    && step.Advance? && step.op == op && op < |st.ops| && !st.ops[op].pc.Finished?
    && Due(st.db, st.ops[op].request, Drawn(st.ops[op], step.pick), outcome)
  }

  ghost predicate Justified(t: Tables, now: int, steps: seq<Step>, op: OpId, outcome: Outcome) {
    exists k :: 0 <= k < |steps| && RefusedAt(Execute(Initial(t, now), steps[..k]), steps[k], op, outcome)
  }

  // ----- the causes are those of the atomic ledger

  /** With the id that was drawn, a transfer or purchase alone on the same tables fails in exactly this way,
      and in no other. */
  lemma DueIsAlone(db: Tables, request: Request, pick: nat, at: int, error: Error)
    requires Constraints(db) && (request.Send? || request.Buy?)
    ensures Due(db, request, [pick], Failed(error)) <==> Run(db, CallOf(request), [pick], at) == Failure(error)
  {
    if request.Send? {
      SendDueIsAlone(db, request, pick, at, error);
    } else {
      BuyDueIsAlone(db, request, pick, at, error);
    }
  }

  lemma SendDueIsAlone(db: Tables, request: Request, pick: nat, at: int, error: Error)
    requires Constraints(db) && request.Send?
    ensures SendDue(db, request, pick, error)
      <==> RunTransfer(db, request.dstUsername, request.src, request.amount, pick, at) == Failure(error)
  {
  }

  lemma BuyDueIsAlone(db: Tables, request: Request, pick: nat, at: int, error: Error)
    requires Constraints(db) && request.Buy?
    ensures BuyDue(db, request, pick, error) <==> RunPurchase(db, request.itemName, request.user, pick, at) == Failure(error)
  {
  }

  /** A refused batch cannot be created under any ids that begin with the drawn ones. */
  lemma DueBatchFails(db: Tables, params: seq<User>, drawn: seq<nat>, ids: seq<nat>, error: Error)
    requires CreateDue(db, params, drawn, error) && |ids| == |params| && drawn <= ids
    ensures RunCreate(db, params, ids).Failure?
  {
    CreateMeaning(db, params, ids);
    if 0 < |drawn| <= |params| {
      var n := |drawn| - 1;
      assert ids[n] == drawn[n] && drawn[..n] == ids[..n];
    }
  }

  // ----- each statement that refuses has such a cause

  /** The locking statement of a transfer did not find the source user. */
  predicate Doomed(o: Op) {
    o.request.Send? && o.pc.SendLocking? && o.request.src !in o.pc.got && o.request.src !in o.pc.todo
  }

  /** The refusal a session has reported, or is bound to report. */
  ghost predicate Refused(o: Op, outcome: Outcome) {
    || (o.pc == Finished(outcome) && Refusal(outcome))
    || (Doomed(o) && outcome == Failed(UserNotExist))
  }

  /** The branch of the code in which a transfer fails. */
  ghost predicate SendReason(db: Tables, o: Op, pick: nat, outcome: Outcome)
    requires o.request.Send?
  {
    match o.pc
    case Start =>
      || (outcome == Failed(DstUserNotFound) && o.request.dstUsername !in db.byName)
      || (outcome == Failed(SameUser) && o.request.dstUsername in db.byName && db.byName[o.request.dstUsername] == o.request.src)
    case SendBegun(_) => outcome == Failed(UserNotExist) && o.request.src !in db.users
    case SendLocking(dst, _, got) =>
      outcome == Failed(NotEnough) && o.request.src in got && dst in got && Sub64(got[o.request.src], o.request.amount) < 0
    case SendInsert(_, _, _) => outcome == Failed(Rejected) && (!NonNegativeInt32(o.request.amount) || HasTransfer(db, pick))
    case SendDebit(_, srcBalance, _) => outcome == Failed(Rejected) && !NonNegativeInt32(srcBalance)
    case SendCredit(_, dstBalance) => outcome == Failed(Rejected) && !NonNegativeInt32(dstBalance)
    case _ => false
  }

  /** The values a transfer computed from its locked rows are those of the committed tables. */
  lemma SendReasonIsDue(db: Tables, o: Op, pick: nat, outcome: Outcome)
    requires Constraints(db) && o.request.Send? && SendInv(db, o) && SendReason(db, o, pick, outcome)
    ensures Due(db, o.request, [pick], outcome)
  {
  }

  lemma SendRefusedWithReason(st: State, op: OpId, pick: nat, flip: bool, outcome: Outcome)
    requires op < |st.ops| && st.ops[op].request.Send? && SendInv(st.db, st.ops[op]) && !st.ops[op].pc.SendLocking?
    requires !Refused(st.ops[op], outcome) && |AdvanceSend(st, op, pick, flip).ops| == |st.ops|
    requires Refused(AdvanceSend(st, op, pick, flip).ops[op], outcome)
    ensures SendReason(st.db, st.ops[op], pick, outcome)
  {
  }

  lemma SendLockingRefusedWithReason(st: State, op: OpId, pick: nat, flip: bool, outcome: Outcome)
    requires op < |st.ops| && st.ops[op].request.Send? && SendInv(st.db, st.ops[op]) && st.ops[op].pc.SendLocking?
    requires !Refused(st.ops[op], outcome) && |AdvanceSend(st, op, pick, flip).ops| == |st.ops|
    requires Refused(AdvanceSend(st, op, pick, flip).ops[op], outcome)
    ensures SendReason(st.db, st.ops[op], pick, outcome)
  {
    if st.ops[op].pc.todo == [] {
      assert AdvanceSend(st, op, pick, flip) == SendCheck(st, op);
    }
  }

  lemma SendRefusalIsDue(t: Tables, st: State, op: OpId, pick: nat, flip: bool, outcome: Outcome)
    requires Inv(t, st) && op < |st.ops| && st.ops[op].request.Send?
    requires !Refused(st.ops[op], outcome) && |AdvanceSend(st, op, pick, flip).ops| == |st.ops|
    requires Refused(AdvanceSend(st, op, pick, flip).ops[op], outcome)
    ensures Due(st.db, st.ops[op].request, [pick], outcome) && !st.ops[op].pc.Finished?
  {
    SerialKeeps(t, st.log);
    assert SendInv(st.db, st.ops[op]);
    if st.ops[op].pc.SendLocking? {
      SendLockingRefusedWithReason(st, op, pick, flip, outcome);
    } else {
      SendRefusedWithReason(st, op, pick, flip, outcome);
    }
    SendReasonIsDue(st.db, st.ops[op], pick, outcome);
  }

  ghost predicate BuyReason(db: Tables, o: Op, pick: nat, outcome: Outcome)
    requires o.request.Buy?
  {
    match o.pc
    case Start => outcome == Failed(ItemNotExist) && !ItemListed(db, o.request.itemName)
    case BuyBegun(_, price) =>
      || (outcome == Failed(UserNotExist) && o.request.user !in db.users)
      || (outcome == Failed(NotEnough) && o.request.user in db.users && Sub64(db.users[o.request.user].balance, price) < 0)
    case BuyInsert(_, price, _) => outcome == Failed(Rejected) && (!NonNegativeInt32(price) || HasPurchase(db, pick))
    case BuyDebit(_, balance) => outcome == Failed(Rejected) && !NonNegativeInt32(balance)
    case _ => false
  }

  lemma BuyReasonIsDue(db: Tables, o: Op, pick: nat, outcome: Outcome)
    requires Constraints(db) && o.request.Buy? && BuyInv(db, o) && BuyReason(db, o, pick, outcome)
    ensures Due(db, o.request, [pick], outcome)
  {
  }

  lemma BuyRefusedWithReason(st: State, op: OpId, pick: nat, outcome: Outcome)
    requires op < |st.ops| && st.ops[op].request.Buy? && BuyInv(st.db, st.ops[op]) && !st.ops[op].pc.BuyBegun?
    requires !Refused(st.ops[op], outcome) && |AdvanceBuy(st, op, pick).ops| == |st.ops|
    requires Refused(AdvanceBuy(st, op, pick).ops[op], outcome)
    ensures BuyReason(st.db, st.ops[op], pick, outcome)
  {
  }

  lemma BuyLockRefusedWithReason(st: State, op: OpId, pick: nat, outcome: Outcome)
    requires op < |st.ops| && st.ops[op].request.Buy? && st.ops[op].pc.BuyBegun?
    requires !Refused(st.ops[op], outcome) && |BuyLock(st, op).ops| == |st.ops|
    requires Refused(BuyLock(st, op).ops[op], outcome)
    ensures BuyReason(st.db, st.ops[op], pick, outcome)
  {
  }

  lemma BuyRefusalIsDue(t: Tables, st: State, op: OpId, pick: nat, outcome: Outcome)
    requires Inv(t, st) && op < |st.ops| && st.ops[op].request.Buy?
    requires !Refused(st.ops[op], outcome) && |AdvanceBuy(st, op, pick).ops| == |st.ops|
    requires Refused(AdvanceBuy(st, op, pick).ops[op], outcome)
    ensures Due(st.db, st.ops[op].request, [pick], outcome) && !st.ops[op].pc.Finished?
  {
    SerialKeeps(t, st.log);
    assert BuyInv(st.db, st.ops[op]);
    if st.ops[op].pc.BuyBegun? {
      assert AdvanceBuy(st, op, pick) == BuyLock(st, op);
      BuyLockRefusedWithReason(st, op, pick, outcome);
    } else {
      BuyRefusedWithReason(st, op, pick, outcome);
    }
    BuyReasonIsDue(st.db, st.ops[op], pick, outcome);
  }

  /** A pending row collides with the rows already pending exactly when its id or its name is repeated. */
  lemma PendingCollision(params: seq<User>, ids: seq<UserId>, pick: nat)
    requires |ids| < |params|
    ensures pick in PendingUsers(params, ids) ==> pick in ids
    ensures params[|ids|].username in PendingNames(params, ids) ==>
      exists i :: 0 <= i < |ids| && params[i].username == params[|ids|].username
  {
    if pick in PendingUsers(params, ids) {
      var i := PendingIdIndex(params, ids, pick);
    }
    if params[|ids|].username in PendingNames(params, ids) {
      var i := PendingNameIndex(params, ids, params[|ids|].username);
    }
  }

  ghost predicate RowReason(db: Tables, tx: Tx, user: User, pick: nat, outcome: Outcome) {
    || (outcome == Failed(Rejected) && (!NonNegativeInt32(user.balance) || pick in db.users || pick in tx.users))
    || (outcome == Failed(UserExists) && (user.username in db.byName || user.username in tx.names))
  }

  lemma RowReasonIsDue(db: Tables, tx: Tx, params: seq<User>, ids: seq<UserId>, pick: nat, outcome: Outcome)
    requires PendingInv(db, tx, params, ids) && |ids| < |params| && RowReason(db, tx, params[|ids|], pick, outcome)
    ensures outcome.Failed? && CreateDue(db, params, ids + [pick], outcome.error)
  {
    assert (ids + [pick])[..|ids|] == ids;
    PendingCollision(params, ids, pick);
  }

  lemma RowRefusedWithReason(st: State, op: OpId, pick: nat, outcome: Outcome)
    requires op < |st.ops| && st.ops[op].request.Create? && st.ops[op].pc.CreateInserting?
    requires |st.ops[op].pc.ids| <= |st.ops[op].request.params|
    requires !Refused(st.ops[op], outcome) && |AdvanceCreate(st, op, pick).ops| == |st.ops|
    requires Refused(AdvanceCreate(st, op, pick).ops[op], outcome)
    ensures |st.ops[op].pc.ids| < |st.ops[op].request.params|
    ensures RowReason(st.db, st.ops[op].tx, st.ops[op].request.params[|st.ops[op].pc.ids|], pick, outcome)
  {
  }

  lemma CreateRefusalIsDue(st: State, op: OpId, pick: nat, outcome: Outcome)
    requires op < |st.ops| && st.ops[op].request.Create? && CreateInv(st.db, st.ops[op])
    requires !Refused(st.ops[op], outcome) && |AdvanceCreate(st, op, pick).ops| == |st.ops|
    requires Refused(AdvanceCreate(st, op, pick).ops[op], outcome)
    ensures Due(st.db, st.ops[op].request, Drawn(st.ops[op], pick), outcome) && !st.ops[op].pc.Finished?
  {
    var o := st.ops[op];
    if o.pc.CreateInserting? {
      RowRefusedWithReason(st, op, pick, outcome);
      RowReasonIsDue(st.db, o.tx, o.request.params, o.pc.ids, pick, outcome);
    }
  }

  lemma AuthenticateRefusalIsDue(st: State, op: OpId, pick: nat, outcome: Outcome)
    requires op < |st.ops| && st.ops[op].request.Authenticate? && AuthInv(st.db, st.ops[op])
    requires !Refused(st.ops[op], outcome) && |AdvanceAuthenticate(st, op, pick).ops| == |st.ops|
    requires Refused(AdvanceAuthenticate(st, op, pick).ops[op], outcome)
    ensures Due(st.db, st.ops[op].request, [pick], outcome) && !st.ops[op].pc.Finished?
  {
  }

  lemma AdvanceRefusalIsDue(t: Tables, st: State, op: OpId, pick: nat, flip: bool, outcome: Outcome)
    requires Inv(t, st) && op < |st.ops| && !Blocked(st, op)
    requires !Refused(st.ops[op], outcome)
    requires |Next(st, Advance(op, pick, flip)).ops| == |st.ops| && Refused(Next(st, Advance(op, pick, flip)).ops[op], outcome)
    ensures RefusedAt(st, Advance(op, pick, flip), op, outcome)
  {
    assert OpInv(st.db, st.ops[op]);
    match st.ops[op].request
    case Send(_, _, _) => SendRefusalIsDue(t, st, op, pick, flip, outcome);
    case Buy(_, _) => BuyRefusalIsDue(t, st, op, pick, outcome);
    case Create(_) => CreateRefusalIsDue(st, op, pick, outcome);
    case Authenticate(_, _, _) => AuthenticateRefusalIsDue(st, op, pick, outcome);
    case Info(_) =>
  }

  lemma StepRefusalIsDue(t: Tables, st: State, step: Step, op: OpId, outcome: Outcome)
    requires Inv(t, st) && op < |Next(st, step).ops| && Refused(Next(st, step).ops[op], outcome)
    requires !(op < |st.ops| && Refused(st.ops[op], outcome))
    ensures RefusedAt(st, step, op, outcome)
  {
    if step.Advance? && step.op < |st.ops| {
      AdvanceTouches(st, step.op, step.pick, step.flip);
      if step.op == op && !Blocked(st, op) {
        AdvanceRefusalIsDue(t, st, op, step.pick, step.flip, outcome);
      }
    }
  }

  lemma JustifiedStays(t: Tables, now: int, steps: seq<Step>, op: OpId, outcome: Outcome)
    requires steps != [] && Justified(t, now, steps[..|steps| - 1], op, outcome)
    ensures Justified(t, now, steps, op, outcome)
  {
    var front := steps[..|steps| - 1];
    var k :| 0 <= k < |front| && RefusedAt(Execute(Initial(t, now), front[..k]), front[k], op, outcome);
    assert front[..k] == steps[..k] && front[k] == steps[k];
  }

  lemma JustifiedNow(t: Tables, now: int, steps: seq<Step>, op: OpId, outcome: Outcome)
    requires steps != []
    requires RefusedAt(Execute(Initial(t, now), steps[..|steps| - 1]), steps[|steps| - 1], op, outcome)
    ensures Justified(t, now, steps, op, outcome)
  {
    assert 0 <= |steps| - 1 < |steps|;
  }

  /** Every refusal that any request reports has its real cause: at one statement of that very session the
      committed tables, with the ids the session had drawn, were such that the request had to be refused in
      this way. */
  lemma {:induction false} FailuresAreJustified(t: Tables, now: int, steps: seq<Step>, op: OpId, outcome: Outcome)
    requires Coherent(t)
    requires var st := Execute(Initial(t, now), steps); op < |st.ops| && Refused(st.ops[op], outcome)
    ensures Justified(t, now, steps, op, outcome)
  {
    if steps != [] {
      var front := steps[..|steps| - 1];
      var st := Execute(Initial(t, now), front);
      Serializable(t, now, front);
      if op < |st.ops| && Refused(st.ops[op], outcome) {
        FailuresAreJustified(t, now, front, op, outcome);
        JustifiedStays(t, now, steps, op, outcome);
      } else {
        StepRefusalIsDue(t, st, steps[|steps| - 1], op, outcome);
        JustifiedNow(t, now, steps, op, outcome);
      }
    }
  }

  // ----- what is never rejected

  ghost predicate FreshAt(st: State, step: Step) {
    step.Advance? ==> !HasTransfer(st.db, step.pick) && !HasPurchase(st.db, step.pick) && step.pick !in st.db.users
  }

  /** No generated id of the run is one that is already committed. */
  ghost predicate FreshPicks(t: Tables, now: int, steps: seq<Step>) {
    forall k :: 0 <= k < |steps| ==> FreshAt(Execute(Initial(t, now), steps[..k]), steps[k])
  }

  lemma FreshPurchaseIsNotRejected(st: State, step: Step, op: OpId)
    requires op < |st.ops| && st.ops[op].request.Buy? && FreshAt(st, step)
    ensures !RefusedAt(st, step, op, Failed(Rejected))
  {
  }

  /** With fresh ids a purchase is refused only for what the buyer asked for, never by a constraint. */
  lemma PurchaseIsNeverRejected(t: Tables, now: int, steps: seq<Step>, op: OpId)
    requires Coherent(t) && FreshPicks(t, now, steps)
    requires var st := Execute(Initial(t, now), steps); op < |st.ops| && st.ops[op].request.Buy?
    ensures Execute(Initial(t, now), steps).ops[op].pc != Finished(Failed(Rejected))
  {
    if Refused(Execute(Initial(t, now), steps).ops[op], Failed(Rejected)) {
      FailuresAreJustified(t, now, steps, op, Failed(Rejected));
      var k :| 0 <= k < |steps| && RefusedAt(Execute(Initial(t, now), steps[..k]), steps[k], op, Failed(Rejected));
      RequestSince(t, now, steps, k, op);
      assert FreshAt(Execute(Initial(t, now), steps[..k]), steps[k]);
      FreshPurchaseIsNotRejected(Execute(Initial(t, now), steps[..k]), steps[k], op);
    }
  }

  lemma FreshTransferIsNotRejected(st: State, step: Step, op: OpId)
    requires Constraints(st.db) && Supply(st.db) <= MAX_INT32
    requires op < |st.ops| && st.ops[op].request.Send? && NonNegativeInt32(st.ops[op].request.amount) && FreshAt(st, step)
    ensures !RefusedAt(st, step, op, Failed(Rejected))
  {
    var request := st.ops[op].request;
    if EndsKnown(st.db, request) {
      TwoBalancesWithinSupply(st.db, request.src, st.db.byName[request.dstUsername]);
    }
  }

  lemma EarlySupplyFits(t: Tables, log: seq<Entry>, n: nat)
    requires Pristine(t) && DefaultGrants(log) && n <= |log| && Serial(t, log).Success?
    requires |Serial(t, log).value.users| <= MAX_SAFE_USERS
    ensures Serial(t, log[..n]).Success?
    ensures Constraints(Serial(t, log[..n]).value) && Supply(Serial(t, log[..n]).value) <= MAX_INT32
  {
    UserCountGrows(t, log, n);
    SerialKeeps(t, log[..n]);
    Conservation(t, log[..n]);
  }

  lemma SupplyFits(t: Tables, early: State, late: State)
    requires Pristine(t) && DefaultGrants(late.log) && early.log <= late.log
    requires Serial(t, early.log) == Success(early.db) && Serial(t, late.log) == Success(late.db)
    requires |late.db.users| <= MAX_SAFE_USERS
    ensures Constraints(early.db) && Supply(early.db) <= MAX_INT32
  {
    EarlySupplyFits(t, late.log, |early.log|);
    assert late.log[..|early.log|] == early.log;
  }

  /** With fresh ids and at most 2147483 users, no transfer of an amount that fits the column is ever rejected
      by a constraint. */
  lemma TransferIsNeverRejected(t: Tables, now: int, steps: seq<Step>, op: OpId)
    requires Pristine(t) && DefaultSteps(steps) && FreshPicks(t, now, steps)
    requires
      var st := Execute(Initial(t, now), steps);
      && |st.db.users| <= MAX_SAFE_USERS
      && op < |st.ops| && st.ops[op].request.Send? && NonNegativeInt32(st.ops[op].request.amount)
    ensures Execute(Initial(t, now), steps).ops[op].pc != Finished(Failed(Rejected))
  {
    if Refused(Execute(Initial(t, now), steps).ops[op], Failed(Rejected)) {
      FailuresAreJustified(t, now, steps, op, Failed(Rejected));
      var k :| 0 <= k < |steps| && RefusedAt(Execute(Initial(t, now), steps[..k]), steps[k], op, Failed(Rejected));
      RequestSince(t, now, steps, k, op);
      HistorySince(t, now, steps, k);
      Serializable(t, now, steps[..k]);
      Serializable(t, now, steps);
      RunsAreDefault(t, now, steps);
      SupplyFits(t, Execute(Initial(t, now), steps[..k]), Execute(Initial(t, now), steps));
      assert FreshAt(Execute(Initial(t, now), steps[..k]), steps[k]);
      FreshTransferIsNotRejected(Execute(Initial(t, now), steps[..k]), steps[k], op);
    }
  }
}
