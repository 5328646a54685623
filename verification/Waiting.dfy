/** Who waits for whom, what a deadlock can look like, and why every finite set of requests finishes. */
module Waiting {
  import opened Schema
  import opened Ledger
  import opened Accounting
  import opened Protocol
  import opened Invariant
  import opened Refinement
  import opened Outcomes

  /** Session `a` cannot run its next statement before session `b` ends. */
  ghost predicate WaitsFor(st: State, a: OpId, b: OpId) {
    && a < |st.ops| && a != b
    && exists k :: k in Wants(st.db, st.ops[a]) && k in st.locks && st.locks[k] == b
  }

  /** A transfer in the middle of its locking statement: one row locked, one still to lock. */
  predicate HalfLocked(o: Op) {
    o.request.Send? && o.pc.SendLocking? && |o.pc.got| == 1 && |o.pc.todo| == 1
  }

  predicate InBatch(o: Op) {
    o.request.Create? && o.pc.CreateInserting? && |o.pc.ids| < |o.request.params|
  }

  predicate Writes(pc: Pc) {
    pc.SendInsert? || pc.SendDebit? || pc.SendCredit? || pc.BuyInsert? || pc.BuyDebit?
  }

  lemma WritesWantOwnRows(db: Tables, o: Op)
    requires OpInv(db, o) && Writes(o.pc)
    ensures Wants(db, o) <= o.tx.held
  {
    if o.request.Send? {
      assert SendInv(db, o);
    } else {
      assert BuyInv(db, o);
    }
  }

  /** The statements of a session are those of its request. */
  lemma PcFits(db: Tables, o: Op)
    requires OpInv(db, o)
    ensures o.pc.SendLocking? ==> o.request.Send?
    ensures o.pc.BuyBegun? ==> o.request.Buy?
    ensures o.pc.CreateInserting? ==> o.request.Create?
    ensures o.pc.AuthMissing? ==> o.request.Authenticate?
  {
  }

  /** The statements that can need a key of another session. */
  predicate CanWait(o: Op) {
    || (o.pc.SendLocking? && o.pc.todo != [])
    || o.pc.BuyBegun?
    || (o.pc.CreateInserting? && o.request.Create? && |o.pc.ids| < |o.request.params|)
    || o.pc.AuthMissing?
  }

  lemma OthersWantNothing(db: Tables, o: Op)
    requires !Writes(o.pc) && !CanWait(o)
    ensures Wants(db, o) == {}
  {
  }

  lemma BlockedWantsOthersKey(t: Tables, st: State, op: OpId) returns (k: Key)
    requires Inv(t, st) && op < |st.ops| && Blocked(st, op)
    ensures k in Wants(st.db, st.ops[op]) && k !in st.ops[op].tx.held
  {
    k :| k in Wants(st.db, st.ops[op]) && k in st.locks && st.locks[k] != op;
  }

  /** Only locking statements and inserts into `users` ever wait: once a transfer or a purchase has its rows,
      nothing stops it, not even the foreign-key checks of its insert. */
  lemma OnlyLockingWaits(t: Tables, st: State, op: OpId)
    requires Inv(t, st) && op < |st.ops| && Blocked(st, op)
    ensures var o := st.ops[op];
      || (o.request.Send? && o.pc.SendLocking? && o.pc.todo != [])
      || (o.request.Buy? && o.pc.BuyBegun?)
      || InBatch(o)
      || (o.request.Authenticate? && o.pc.AuthMissing?)
  {
    var o := st.ops[op];
    var k := BlockedWantsOthersKey(t, st, op);
    if Writes(o.pc) {
      WritesWantOwnRows(st.db, o);
      assert false;
    } else if !CanWait(o) {
      OthersWantNothing(st.db, o);
      assert false;
    }
    PcFits(st.db, o);
  }

  ghost predicate StuckTransfer(st: State, op: OpId) {
    op < |st.ops| && HalfLocked(st.ops[op])
  }

  ghost predicate StuckBatch(st: State, op: OpId) {
    op < |st.ops| && InBatch(st.ops[op])
  }

  /** A session that waits while another session waits for it. */
  lemma WaitingHolder(t: Tables, st: State, a: OpId, b: OpId, c: OpId)
    requires Inv(t, st) && WaitsFor(st, a, b) && WaitsFor(st, b, c)
    ensures StuckTransfer(st, b) || StuckBatch(st, b)
    ensures StuckTransfer(st, b) <==> st.ops[a].request.Send? || st.ops[a].request.Buy?
  {
    var k :| k in Wants(st.db, st.ops[a]) && k in st.locks && st.locks[k] == b;
    var o := st.ops[b];
    assert k in o.tx.held;
    OnlyLockingWaits(t, st, a);
    OnlyLockingWaits(t, st, b);
    assert OpInv(st.db, st.ops[a]) && OpInv(st.db, o);
    if InBatch(o) {
      BatchHolds(st.db, o, k);
    } else if o.request.Send? {
      HalfLockedHolder(st.db, o, k);
    }
  }

  lemma HalfLockedHolder(db: Tables, o: Op, k: Key)
    requires o.request.Send? && o.pc.SendLocking? && SendInv(db, o) && o.pc.todo != [] && k in o.tx.held
    ensures HalfLocked(o) && k.UserRow? && k.id in db.users
  {
    var got, row := o.pc.got, o.pc.todo[0];
    assert got.Keys <= {o.request.src, o.pc.dst} - {row};
    assert k.id in got;
    if row == o.request.src {
      assert got.Keys == {o.pc.dst};
    } else {
      assert got.Keys == {o.request.src};
    }
    assert |got| == |got.Keys| == 1;
  }

  lemma {:induction false} PendingKeysAreNew(db: Tables, params: seq<User>, ids: seq<UserId>, k: Key)
    requires PendingFree(db, params, ids) && k in PendingKeys(params, ids)
    ensures (k.UserRow? && k.id !in db.users) || k.Username?
    decreases |ids|
  {
    if k in PendingKeys(params, ids[..|ids| - 1]) {
      PendingKeysAreNew(db, params, ids[..|ids| - 1], k);
    }
  }

  lemma BatchHolds(db: Tables, o: Op, k: Key)
    requires InBatch(o) && CreateInv(db, o) && k in o.tx.held
    ensures (k.UserRow? && k.id !in db.users) || k.Username?
  {
    PendingKeysAreNew(db, o.request.params, o.pc.ids, k);
  }

  function Following(cycle: seq<OpId>, i: nat): OpId
    requires i < |cycle|
  {
    if i + 1 < |cycle| then cycle[i + 1] else cycle[0]
  }

  ghost predicate CycleEdge(st: State, cycle: seq<OpId>, i: nat)
    requires i < |cycle|
  {
    WaitsFor(st, cycle[i], Following(cycle, i))
  }

  ghost predicate WaitCycle(st: State, cycle: seq<OpId>) {
    cycle != [] && forall i :: 0 <= i < |cycle| ==> CycleEdge(st, cycle, i)
  }

  /** Two edges in a row of a cycle. */
  lemma ConsecutiveEdges(st: State, cycle: seq<OpId>, i: nat)
    requires WaitCycle(st, cycle) && i < |cycle|
    ensures var j := if i == 0 then |cycle| - 1 else i - 1;
      WaitsFor(st, cycle[j], cycle[i]) && WaitsFor(st, cycle[i], Following(cycle, i))
  {
    var j := if i == 0 then |cycle| - 1 else i - 1;
    assert CycleEdge(st, cycle, j) && CycleEdge(st, cycle, i);
  }

  lemma CycleMember(t: Tables, st: State, cycle: seq<OpId>, i: nat)
    requires Inv(t, st) && WaitCycle(st, cycle) && i < |cycle|
    ensures StuckTransfer(st, cycle[i]) || StuckBatch(st, cycle[i])
  {
    ConsecutiveEdges(st, cycle, i);
    WaitingHolder(t, st, cycle[if i == 0 then |cycle| - 1 else i - 1], cycle[i], Following(cycle, i));
  }

  lemma EdgeKeepsKind(t: Tables, st: State, a: OpId, b: OpId, c: OpId)
    requires Inv(t, st) && WaitsFor(st, a, b) && WaitsFor(st, b, c)
    requires StuckTransfer(st, a) || StuckBatch(st, a)
    ensures StuckTransfer(st, b) <==> StuckTransfer(st, a)
  {
    WaitingHolder(t, st, a, b, c);
    assert StuckTransfer(st, a) ==> st.ops[a].request.Send?;
    assert StuckBatch(st, a) ==> st.ops[a].request.Create?;
  }

  ghost predicate KindKept(st: State, cycle: seq<OpId>, i: nat)
    requires 0 < i < |cycle|
  {
    StuckTransfer(st, cycle[i]) <==> StuckTransfer(st, cycle[i - 1])
  }

  lemma EdgeIsOfOneKind(t: Tables, st: State, cycle: seq<OpId>, i: nat)
    requires Inv(t, st) && WaitCycle(st, cycle) && 0 < i < |cycle|
    ensures KindKept(st, cycle, i)
  {
    ConsecutiveEdges(st, cycle, i);
    CycleMember(t, st, cycle, i - 1);
    EdgeKeepsKind(t, st, cycle[i - 1], cycle[i], Following(cycle, i));
  }

  lemma {:induction false} SameKind(st: State, cycle: seq<OpId>, i: nat)
    requires i < |cycle| && forall j :: 0 < j < |cycle| ==> KindKept(st, cycle, j)
    ensures StuckTransfer(st, cycle[i]) <==> StuckTransfer(st, cycle[0])
  {
    if i > 0 {
      SameKind(st, cycle, i - 1);
      assert KindKept(st, cycle, i);
    }
  }

  /** The shape of every deadlock: two or more transfers, each inside its locking statement and holding
      exactly one row; or two or more batch registrations. No purchase, authentication or info request,
      and nothing past its locking statement, is ever part of one. */
  lemma CycleShape(t: Tables, st: State, cycle: seq<OpId>)
    requires Inv(t, st) && WaitCycle(st, cycle)
    ensures |cycle| >= 2
    ensures
      || (forall i :: 0 <= i < |cycle| ==> StuckTransfer(st, cycle[i]))
      || (forall i :: 0 <= i < |cycle| ==> StuckBatch(st, cycle[i]))
  {
    assert CycleEdge(st, cycle, 0);
    forall i | 0 < i < |cycle|
      ensures KindKept(st, cycle, i)
    {
      EdgeIsOfOneKind(t, st, cycle, i);
    }
    forall i | 0 <= i < |cycle|
      ensures StuckTransfer(st, cycle[i]) <==> StuckTransfer(st, cycle[0])
      ensures StuckTransfer(st, cycle[i]) || StuckBatch(st, cycle[i])
    {
      SameKind(st, cycle, i);
      CycleMember(t, st, cycle, i);
    }
  }

  // ----- progress

  predicate Unfinished(st: State, op: OpId) {
    op < |st.ops| && !st.ops[op].pc.Finished?
  }

  lemma HolderIsUnfinished(t: Tables, st: State, a: OpId, b: OpId)
    requires Inv(t, st) && WaitsFor(st, a, b)
    ensures Unfinished(st, b)
  {
    var k :| k in Wants(st.db, st.ops[a]) && k in st.locks && st.locks[k] == b;
    assert k in st.ops[b].tx.held;
    assert OpInv(st.db, st.ops[b]);
  }

  lemma BlockedWaits(t: Tables, st: State, op: OpId) returns (holder: OpId)
    requires Inv(t, st) && op < |st.ops| && Blocked(st, op)
    ensures WaitsFor(st, op, holder) && Unfinished(st, holder)
  {
    var k :| k in Wants(st.db, st.ops[op]) && k in st.locks && st.locks[k] != op;
    holder := st.locks[k];
    HolderIsUnfinished(t, st, op, holder);
  }

  ghost predicate Distinct(path: seq<OpId>) {
    forall i, j :: 0 <= i < j < |path| ==> path[i] != path[j]
  }

  lemma {:induction false} DistinctIsShort(path: seq<OpId>, n: nat)
    requires Distinct(path) && forall i :: 0 <= i < |path| ==> path[i] < n
    ensures |path| <= n
    decreases n
  {
    if path != [] {
      if exists i :: 0 <= i < |path| && path[i] == n - 1 {
        var i :| 0 <= i < |path| && path[i] == n - 1;
        DistinctIsShort(path[..i] + path[i + 1..], n - 1);
      } else {
        assert path[0] < n;
        DistinctIsShort(path, n - 1);
      }
    }
  }

  /** A chain of sessions each waiting for the next one. */
  ghost predicate WaitChain(st: State, path: seq<OpId>) {
    && Distinct(path)
    && (forall i :: 0 <= i < |path| ==> Unfinished(st, path[i]))
    && (forall i :: 0 <= i < |path| - 1 ==> ChainEdge(st, path, i))
  }

  ghost predicate ChainEdge(st: State, path: seq<OpId>, i: nat)
    requires i < |path| - 1
  {
    WaitsFor(st, path[i], path[i + 1])
  }

  /** When every session in progress waits, following the chain runs into a cycle. */
  lemma {:induction false} ChainClosesUp(t: Tables, st: State, path: seq<OpId>)
    requires Inv(t, st) && path != [] && WaitChain(st, path)
    requires forall op :: Unfinished(st, op) ==> Blocked(st, op)
    ensures exists cycle :: WaitCycle(st, cycle)
    decreases |st.ops| - |path|
  {
    var last := path[|path| - 1];
    assert Unfinished(st, last);
    var next := BlockedWaits(t, st, last);
    if next in path {
      var i :| 0 <= i < |path| && path[i] == next;
      SuffixIsCycle(st, path, i);
    } else {
      ChainGrows(st, path, next);
      DistinctIsShort(path + [next], |st.ops|);
      ChainClosesUp(t, st, path + [next]);
    }
  }

  lemma SuffixIsCycle(st: State, path: seq<OpId>, i: nat)
    requires WaitChain(st, path) && i < |path| && WaitsFor(st, path[|path| - 1], path[i])
    ensures WaitCycle(st, path[i..])
  {
    var cycle := path[i..];
    forall j | 0 <= j < |cycle|
      ensures CycleEdge(st, cycle, j)
    {
      if j + 1 < |cycle| {
        assert ChainEdge(st, path, i + j);
      }
    }
  }

  lemma ChainGrows(st: State, path: seq<OpId>, next: OpId)
    requires WaitChain(st, path) && path != [] && next !in path
    requires WaitsFor(st, path[|path| - 1], next) && Unfinished(st, next)
    ensures WaitChain(st, path + [next])
  {
    var longer := path + [next];
    forall i | 0 <= i < |longer| - 1
      ensures ChainEdge(st, longer, i)
    {
      if i < |path| - 1 {
        assert ChainEdge(st, path, i);
      }
    }
  }

  /** Progress: while a request is in progress, some request can run its next statement, or there is a
      deadlock, and then only of the shape above. */
  lemma Progress(t: Tables, st: State, op: OpId)
    requires Inv(t, st) && Unfinished(st, op)
    ensures (exists other :: Unfinished(st, other) && !Blocked(st, other)) || (exists cycle :: WaitCycle(st, cycle))
  {
    if forall other :: Unfinished(st, other) ==> Blocked(st, other) {
      assert WaitChain(st, [op]);
      ChainClosesUp(t, st, [op]);
    }
  }

  // ----- termination

  /** How many statements a session may still run. */
  function Remaining(o: Op): nat {
    match o.pc
    case Finished(_) => 0
    case Start =>
      (match o.request
       case Send(_, _, _) => 10
       case Buy(_, _) => 6
       case Create(params) => |params| + 3
       case Authenticate(_, _, _) => 3
       case Info(_) => 3)
    case SendChecked(_) => 9
    case SendBegun(_) => 8
    case SendLocking(_, todo, _) => 5 + |todo|
    case SendInsert(_, _, _) => 4
    case SendDebit(_, _, _) => 3
    case SendCredit(_, _) => 2
    case SendCommit(_) => 1
    case BuyFound(_, _) => 5
    case BuyBegun(_, _) => 4
    case BuyInsert(_, _, _) => 3
    case BuyDebit(_, _) => 2
    case BuyCommit(_) => 1
    case CreateBegun => if o.request.Create? then |o.request.params| + 2 else 0
    case CreateInserting(ids) => if o.request.Create? && |ids| <= |o.request.params| then 1 + |o.request.params| - |ids| else 0
    case AuthMissing => 2
    case AuthInserted(_) => 1
    case AuthConflict => 1
    case InfoCounted(_) => 2
    case InfoListed(_, _) => 1
  }

  function TotalRemaining(ops: seq<Op>): nat {
    if ops == [] then 0 else TotalRemaining(ops[..|ops| - 1]) + Remaining(ops[|ops| - 1])
  }

  lemma {:induction false} TotalRemainingUpdate(ops: seq<Op>, op: OpId, o: Op)
    requires op < |ops|
    ensures TotalRemaining(ops[op := o]) == TotalRemaining(ops) - Remaining(ops[op]) + Remaining(o)
  {
    var n := |ops| - 1;
    if op < n {
      assert ops[op := o][..n] == ops[..n][op := o];
      TotalRemainingUpdate(ops[..n], op, o);
    } else {
      assert ops[op := o][..n] == ops[..n];
    }
  }

  lemma SendRemaining(st: State, op: OpId, pick: nat, flip: bool)
    requires op < |st.ops| && st.ops[op].request.Send? && SendInv(st.db, st.ops[op]) && !st.ops[op].pc.Finished?
    ensures var st' := AdvanceSend(st, op, pick, flip);
      |st'.ops| == |st.ops| && (Remaining(st'.ops[op]) < Remaining(st.ops[op]) || (st' == st && TransferRow(pick) in st.locks))
  {
  }

  lemma BuyRemaining(st: State, op: OpId, pick: nat)
    requires op < |st.ops| && st.ops[op].request.Buy? && BuyInv(st.db, st.ops[op]) && !st.ops[op].pc.Finished?
    ensures var st' := AdvanceBuy(st, op, pick);
      |st'.ops| == |st.ops| && (Remaining(st'.ops[op]) < Remaining(st.ops[op]) || (st' == st && PurchaseRow(pick) in st.locks))
  {
  }

  lemma CreateRemaining(st: State, op: OpId, pick: nat)
    requires op < |st.ops| && st.ops[op].request.Create? && CreateInv(st.db, st.ops[op]) && !st.ops[op].pc.Finished?
    ensures var st' := AdvanceCreate(st, op, pick);
      |st'.ops| == |st.ops| && (Remaining(st'.ops[op]) < Remaining(st.ops[op]) || (st' == st && UserRow(pick) in st.locks))
  {
  }

  lemma AuthenticateRemaining(st: State, op: OpId, pick: nat)
    requires op < |st.ops| && st.ops[op].request.Authenticate? && AuthInv(st.db, st.ops[op]) && !st.ops[op].pc.Finished?
    ensures var st' := AdvanceAuthenticate(st, op, pick);
      |st'.ops| == |st.ops| && (Remaining(st'.ops[op]) < Remaining(st.ops[op]) || (st' == st && UserRow(pick) in st.locks))
  {
  }

  /** The generated id `pick` is not one that another transaction has just generated. */
  predicate FreshPick(st: State, pick: nat) {
    TransferRow(pick) !in st.locks && PurchaseRow(pick) !in st.locks && UserRow(pick) !in st.locks
  }

  lemma OneStepLess(st: State, op: OpId, pick: nat, flip: bool)
    requires Unfinished(st, op) && OpInv(st.db, st.ops[op]) && !Blocked(st, op)
    ensures var st' := Next(st, Advance(op, pick, flip));
      |st'.ops| == |st.ops| && (Remaining(st'.ops[op]) < Remaining(st.ops[op]) || (st' == st && !FreshPick(st, pick)))
  {
    match st.ops[op].request
    case Send(_, _, _) => SendRemaining(st, op, pick, flip);
    case Buy(_, _) => BuyRemaining(st, op, pick);
    case Create(_) => CreateRemaining(st, op, pick);
    case Authenticate(_, _, _) => AuthenticateRemaining(st, op, pick);
    case Info(_) =>
  }

  lemma AdvanceDecreases(t: Tables, st: State, op: OpId, pick: nat, flip: bool)
    requires Inv(t, st) && Unfinished(st, op) && !Blocked(st, op)
    ensures var st' := Next(st, Advance(op, pick, flip));
      && |st'.ops| == |st.ops|
      && (TotalRemaining(st'.ops) < TotalRemaining(st.ops) || (st' == st && !FreshPick(st, pick)))
  {
    var st' := Next(st, Advance(op, pick, flip));
    OneStepLess(st, op, pick, flip);
    AdvanceTouches(st, op, pick, flip);
    assert st'.ops == st.ops[op := st'.ops[op]];
    TotalRemainingUpdate(st.ops, op, st'.ops[op]);
  }

  lemma UnfinishedRemains(t: Tables, st: State, op: OpId)
    requires Inv(t, st) && Unfinished(st, op)
    ensures Remaining(st.ops[op]) > 0
  {
    assert OpInv(st.db, st.ops[op]);
  }

  lemma EndDecreases(t: Tables, st: State, op: OpId, st': State)
    requires Inv(t, st) && Unfinished(st, op)
    requires st' == Finish(st, op, Lost(false)) || (AtCommit(st.ops[op]) && st' == Commit(st, op, Lost(true)))
    ensures TotalRemaining(st'.ops) < TotalRemaining(st.ops)
  {
    UnfinishedRemains(t, st, op);
    TotalRemainingUpdate(st.ops, op, Op(st.ops[op].request, Finished(if st' == Finish(st, op, Lost(false)) then Lost(false) else Lost(true)), NO_TX));
  }

  /** A step of the requests themselves: no new request, no passing of time. */
  predicate IsWork(step: Step) {
    step.Advance? || step.Abort? || step.CommitLost?
  }

  lemma WorkDecreases(t: Tables, st: State, step: Step)
    requires Inv(t, st) && IsWork(step)
    ensures Next(st, step) == st || TotalRemaining(Next(st, step).ops) < TotalRemaining(st.ops)
  {
    var op := step.op;
    if Unfinished(st, op) {
      match step
      case Advance(_, pick, flip) =>
        if !Blocked(st, op) {
          AdvanceDecreases(t, st, op, pick, flip);
        }
      case Abort(_) => EndDecreases(t, st, op, Next(st, step));
      case CommitLost(_) =>
        if AtCommit(st.ops[op]) {
          EndDecreases(t, st, op, Next(st, step));
        }
    } else if op < |st.ops| {
      FinishedStays(st, step);
    }
  }

  lemma FinishedStays(st: State, step: Step)
    requires IsWork(step) && step.op < |st.ops| && st.ops[step.op].pc.Finished?
    ensures Next(st, step) == st
  {
  }

  /** Every step of the run is work and changes something. */
  ghost predicate Effective(st: State, steps: seq<Step>) {
    steps != [] ==>
      var n := |steps| - 1;
      Effective(st, steps[..n]) && IsWork(steps[n]) && Execute(st, steps) != Execute(st, steps[..n])
  }

  /** Termination: the requests in progress can only take so many steps, whatever their order and
      whatever aborts happen. */
  lemma {:induction false} Terminates(t: Tables, st: State, steps: seq<Step>)
    requires Inv(t, st) && Effective(st, steps)
    ensures Inv(t, Execute(st, steps))
    ensures |steps| + TotalRemaining(Execute(st, steps).ops) <= TotalRemaining(st.ops)
  {
    if steps != [] {
      var n := |steps| - 1;
      Terminates(t, st, steps[..n]);
      WorkDecreases(t, Execute(st, steps[..n]), steps[n]);
      NextKeeps(t, Execute(st, steps[..n]), steps[n]);
    }
  }

  lemma FinishedHolds(db: Tables, o: Op)
    requires OpInv(db, o) && o.pc.Finished?
    ensures o.tx == NO_TX
  {
  }

  /** When every request has ended, no lock is left. */
  lemma FinishedHoldNothing(t: Tables, st: State)
    requires Inv(t, st) && forall op :: 0 <= op < |st.ops| ==> st.ops[op].pc.Finished?
    ensures st.locks == map[]
  {
    if st.locks != map[] {
      var k :| k in st.locks;
      var op := st.locks[k];
      assert k in st.ops[op].tx.held;
      assert st.ops[op].pc.Finished?;
      FinishedHolds(st.db, st.ops[op]);
      assert false;
    }
  }

  function Number(k: Key): nat {
    match k
    case UserRow(id) => id
    case Username(_) => 0
    case TransferRow(row) => row
    case PurchaseRow(row) => row
  }

  lemma {:induction false} SomeNumberIsAbove(keys: set<Key>) returns (n: nat)
    ensures forall k :: k in keys ==> Number(k) < n
    decreases |keys|
  {
    n := 0;
    if keys != {} {
      var k :| k in keys;
      var m := SomeNumberIsAbove(keys - {k});
      n := if m > Number(k) then m else Number(k) + 1;
    }
  }

  /** A step that only a deadlock justifies, or a statement of a session. */
  ghost predicate Fair(st: State, step: Step) {
    step.Advance? || (step.Abort? && exists cycle :: WaitCycle(st, cycle) && step.op in cycle)
  }

  ghost predicate FairRun(st: State, steps: seq<Step>)
    decreases |steps|
  {
    steps == [] || (Fair(st, steps[0]) && FairRun(Next(st, steps[0]), steps[1..]))
  }

  lemma SomeStepHelps(t: Tables, st: State, op: OpId) returns (step: Step)
    requires Inv(t, st) && Unfinished(st, op)
    ensures Fair(st, step) && IsWork(step) && Next(st, step) != st
  {
    Progress(t, st, op);
    if exists other :: Unfinished(st, other) && !Blocked(st, other) {
      var other :| Unfinished(st, other) && !Blocked(st, other);
      var pick := SomeNumberIsAbove(st.locks.Keys);
      assert Number(TransferRow(pick)) == Number(PurchaseRow(pick)) == Number(UserRow(pick)) == pick;
      assert FreshPick(st, pick);
      step := Advance(other, pick, false);
      AdvanceDecreases(t, st, other, pick, false);
    } else {
      var cycle :| WaitCycle(st, cycle);
      CycleMember(t, st, cycle, 0);
      step := Abort(cycle[0]);
      assert Unfinished(st, cycle[0]);
    }
  }

  lemma {:induction false} ExecutePrepend(st: State, step: Step, steps: seq<Step>)
    ensures Execute(st, [step] + steps) == Execute(Next(st, step), steps)
  {
    if steps == [] {
      assert ([step] + steps)[..0] == [];
    } else {
      assert ([step] + steps)[..|steps|] == [step] + steps[..|steps| - 1];
      ExecutePrepend(st, step, steps[..|steps| - 1]);
    }
  }

  lemma {:induction false} ExecuteConcat(st: State, a: seq<Step>, b: seq<Step>)
    ensures Execute(st, a + b) == Execute(Execute(st, a), b)
  {
    if b == [] {
      assert a + b == a;
    } else {
      var n := |b| - 1;
      assert (a + b)[..|a + b| - 1] == a + b[..n];
      ExecuteConcat(st, a, b[..n]);
    }
  }

  /** From every reachable state, running statements and aborting only members of a deadlock brings every
      request to its end, within the remaining number of statements, and releases every lock. */
  lemma {:induction false} Drains(t: Tables, st: State) returns (rest: seq<Step>)
    requires Inv(t, st)
    ensures FairRun(st, rest) && |rest| <= TotalRemaining(st.ops)
    ensures forall op :: 0 <= op < |Execute(st, rest).ops| ==> Execute(st, rest).ops[op].pc.Finished?
    ensures Execute(st, rest).locks == map[]
    decreases TotalRemaining(st.ops)
  {
    rest := [];
    if exists op :: 0 <= op < |st.ops| && Unfinished(st, op) {
      var op :| 0 <= op < |st.ops| && Unfinished(st, op);
      var step := SomeStepHelps(t, st, op);
      WorkDecreases(t, st, step);
      NextKeeps(t, st, step);
      var tail := Drains(t, Next(st, step));
      rest := [step] + tail;
      ExecutePrepend(st, step, tail);
      assert rest[1..] == tail;
    } else {
      forall op | 0 <= op < |st.ops|
        ensures st.ops[op].pc.Finished?
      {
        assert !Unfinished(st, op);
      }
      FinishedHoldNothing(t, st);
    }
  }
}
