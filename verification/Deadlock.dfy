/** Which transfers can end up waiting for each other: exactly those whose ends close a ring. */
module Deadlock {
  import opened Schema
  import opened Ledger
  import opened Accounting
  import opened Protocol
  import opened Invariant
  import opened Refinement
  import opened Outcomes
  import opened Waiting
  import opened Race

  /** A transfer between these two accounts, in either direction. */
  predicate HasEnds(db: Tables, request: Request, x: UserId, y: UserId) {
    && request.Send? && x != y && x in db.users && y in db.users && request.dstUsername in db.byName
    && var dst := db.byName[request.dstUsername];
       (request.src == x && dst == y) || (request.src == y && dst == x)
  }

  ghost predicate RingMember(db: Tables, requests: seq<Request>, members: seq<OpId>, h: seq<UserId>, k: nat)
    requires k < |members| == |h|
  {
    members[k] < |requests| && HasEnds(db, requests[members[k]], h[k], Following(h, k))
  }

  /** At least two different transfers among the requests, and as many different accounts, such that the ends
      of each transfer are its account and the next one, round in a ring. */
  ghost predicate Ring(db: Tables, requests: seq<Request>, members: seq<OpId>, h: seq<UserId>) {
    && |members| == |h| >= 2 && Distinct(members) && Distinct(h)
    && forall k :: 0 <= k < |h| ==> RingMember(db, requests, members, h, k)
  }

  // ----- every cycle of transfers is a ring

  lemma SubcycleIsCycle(st: State, cycle: seq<OpId>, i: nat, j: nat)
    requires WaitCycle(st, cycle) && i < j < |cycle| && cycle[i] == cycle[j]
    ensures WaitCycle(st, cycle[i..j])
  {
    var sub := cycle[i..j];
    forall k | 0 <= k < |sub|
      ensures CycleEdge(st, sub, k)
    {
      assert CycleEdge(st, cycle, i + k);
      assert Following(sub, k) == Following(cycle, i + k);
    }
  }

  /** A cycle that repeats no session. */
  lemma {:induction false} SimpleCycle(st: State, cycle: seq<OpId>) returns (simple: seq<OpId>)
    requires WaitCycle(st, cycle)
    ensures WaitCycle(st, simple) && Distinct(simple) && forall x :: x in simple ==> x in cycle
    decreases |cycle|
  {
    simple := cycle;
    if !Distinct(cycle) {
      var i, j :| 0 <= i < j < |cycle| && cycle[i] == cycle[j];
      SubcycleIsCycle(st, cycle, i, j);
      simple := SimpleCycle(st, cycle[i..j]);
    }
  }

  function WantedRow(o: Op): UserId
    requires HalfLocked(o)
  {
    o.pc.todo[0]
  }

  function HeldRow(o: Op): UserId
    requires HalfLocked(o)
  {
    if o.pc.todo[0] == o.request.src then o.pc.dst else o.request.src
  }

  lemma HoldsOneEnd(db: Tables, o: Op)
    requires HalfLocked(o) && SendInv(db, o)
    ensures o.tx.held == {UserRow(HeldRow(o))}
    ensures HasEnds(db, o.request, HeldRow(o), WantedRow(o))
  {
    var got := o.pc.got;
    assert got.Keys <= {HeldRow(o)};
    var id :| id in got;
    assert got.Keys == {HeldRow(o)};
  }

  /** Whoever a half-locked transfer waits for holds the row it wants. */
  lemma EdgeLinks(t: Tables, st: State, a: OpId, b: OpId)
    requires Inv(t, st) && WaitsFor(st, a, b) && StuckTransfer(st, a) && StuckTransfer(st, b)
    ensures WantedRow(st.ops[a]) == HeldRow(st.ops[b])
  {
    assert SendInv(st.db, st.ops[b]);
    HoldsOneEnd(st.db, st.ops[b]);
  }

  function HeldRows(st: State, cycle: seq<OpId>): (h: seq<UserId>)
    requires forall i :: 0 <= i < |cycle| ==> cycle[i] < |st.ops| && HalfLocked(st.ops[cycle[i]])
    ensures |h| == |cycle| && forall i :: 0 <= i < |h| ==> h[i] == HeldRow(st.ops[cycle[i]])
  {
    if cycle == [] then [] else HeldRows(st, cycle[..|cycle| - 1]) + [HeldRow(st.ops[cycle[|cycle| - 1]])]
  }

  lemma HeldRowIsLocked(t: Tables, st: State, op: OpId)
    requires Inv(t, st) && StuckTransfer(st, op)
    ensures UserRow(HeldRow(st.ops[op])) in st.locks && st.locks[UserRow(HeldRow(st.ops[op]))] == op
  {
    assert SendInv(st.db, st.ops[op]);
    HoldsOneEnd(st.db, st.ops[op]);
    assert UserRow(HeldRow(st.ops[op])) in st.ops[op].tx.held;
  }

  lemma HeldApart(t: Tables, st: State, a: OpId, b: OpId)
    requires Inv(t, st) && StuckTransfer(st, a) && StuckTransfer(st, b) && a != b
    ensures HeldRow(st.ops[a]) != HeldRow(st.ops[b])
  {
    HeldRowIsLocked(t, st, a);
    HeldRowIsLocked(t, st, b);
  }

  function RequestsOf(ops: seq<Op>): (requests: seq<Request>)
    ensures |requests| == |ops| && forall i :: 0 <= i < |ops| ==> requests[i] == ops[i].request
  {
    if ops == [] then [] else RequestsOf(ops[..|ops| - 1]) + [ops[|ops| - 1].request]
  }

  /** In any reachable state, whatever else is going on, the transfers of a wait-for cycle close a ring. */
  lemma CycleIsRing(t: Tables, st: State, cycle: seq<OpId>) returns (members: seq<OpId>, h: seq<UserId>)
    requires Inv(t, st) && WaitCycle(st, cycle)
    requires forall i :: 0 <= i < |cycle| ==> StuckTransfer(st, cycle[i])
    ensures Ring(st.db, RequestsOf(st.ops), members, h)
  {
    members := SimpleCycle(st, cycle);
    forall i | 0 <= i < |members|
      ensures StuckTransfer(st, members[i])
    {
      assert members[i] in cycle;
    }
    h := HeldRows(st, members);
    CycleShape(t, st, members);
    forall i, j | 0 <= i < j < |h|
      ensures h[i] != h[j]
    {
      HeldApart(t, st, members[i], members[j]);
    }
    forall k | 0 <= k < |h|
      ensures RingMember(st.db, RequestsOf(st.ops), members, h, k)
    {
      MemberLinks(t, st, members, h, k);
    }
  }

  lemma MemberLinks(t: Tables, st: State, members: seq<OpId>, h: seq<UserId>, k: nat)
    requires Inv(t, st) && WaitCycle(st, members) && k < |members| == |h|
    requires forall i :: 0 <= i < |members| ==> StuckTransfer(st, members[i]) && h[i] == HeldRow(st.ops[members[i]])
    ensures RingMember(st.db, RequestsOf(st.ops), members, h, k)
  {
    assert CycleEdge(st, members, k);
    EdgeLinks(t, st, members[k], Following(members, k));
    assert SendInv(st.db, st.ops[members[k]]);
    HoldsOneEnd(st.db, st.ops[members[k]]);
  }

  // ----- runs of requests that open no account

  /** A request that registers nobody: anything but a batch registration or a login under an unknown username. */
  predicate OpensNoAccount(t: Tables, request: Request) {
    !request.Create? && (request.Authenticate? ==> request.username in t.byName)
  }

  ghost predicate NoAccounts(t: Tables, ops: seq<Op>) {
    forall i :: 0 <= i < |ops| ==> OpensNoAccount(t, ops[i].request)
  }

  ghost predicate SameAccounts(t: Tables, db: Tables) {
    db.byName == t.byName && db.users.Keys == t.users.Keys
  }

  lemma InsertsNoUsers(db: Tables, o: Op)
    requires OpInv(db, o) && AtCommit(o) && (o.request.Send? || o.request.Buy?)
    ensures o.tx.users == map[] && o.tx.names == map[]
  {
    if o.request.Send? {
      assert SendInv(db, o) && SendInserted(db, o, o.pc.dst);
    } else {
      assert BuyInv(db, o) && BuyInserted(db, o, o.pc.item);
    }
  }

  lemma CommitKeepsAccounts(t: Tables, st: State, op: OpId)
    requires Inv(t, st) && op < |st.ops| && AtCommit(st.ops[op]) && (st.ops[op].request.Send? || st.ops[op].request.Buy?)
    ensures SameAccounts(st.db, Merge(st.db, st.ops[op].tx))
  {
    InsertsNoUsers(st.db, st.ops[op]);
    assert st.db.byName + map[] == st.db.byName;
  }

  /** A session that registers nobody commits only as a transfer or a purchase. */
  lemma CommitsAMove(t: Tables, now: int, steps: seq<Step>, op: OpId)
    requires Coherent(t) && op < |Execute(Initial(t, now), steps).ops|
    requires
      var o := Execute(Initial(t, now), steps).ops[op];
      OpensNoAccount(t, o.request) && AtCommit(o)
    ensures var o := Execute(Initial(t, now), steps).ops[op]; o.request.Send? || o.request.Buy?
  {
    if Execute(Initial(t, now), steps).ops[op].request.Authenticate? {
      assert Execute(Initial(t, now), steps[..0]) == Initial(t, now);
      KnownSince(t, now, steps, 0, op);
    }
  }

  lemma StepKeepsAccounts(t: Tables, now: int, front: seq<Step>, step: Step)
    requires Coherent(t) && NoAccounts(t, Execute(Initial(t, now), front).ops)
    ensures SameAccounts(Execute(Initial(t, now), front).db, Next(Execute(Initial(t, now), front), step).db)
  {
    var st := Execute(Initial(t, now), front);
    var st' := Next(st, step);
    StepShape(st, step);
    if !Quiet(st, st') {
      var op: OpId :| Commits1(st, st', op);
      Serializable(t, now, front);
      CommitsAMove(t, now, front, op);
      CommitKeepsAccounts(t, st, op);
    }
  }

  lemma {:induction false} AccountsStay(t: Tables, now: int, steps: seq<Step>)
    requires Coherent(t) && NoAccounts(t, Execute(Initial(t, now), steps).ops)
    ensures SameAccounts(t, Execute(Initial(t, now), steps).db)
  {
    if steps != [] {
      var front, step := steps[..|steps| - 1], steps[|steps| - 1];
      var st := Execute(Initial(t, now), front);
      forall i | 0 <= i < |st.ops|
        ensures OpensNoAccount(t, st.ops[i].request)
      {
        RequestIsKept(st, step, i);
      }
      AccountsStay(t, now, front);
      StepKeepsAccounts(t, now, front, step);
    }
  }

  /** The run starts sessions for these requests, in this order, and for no others; it may stop early. */
  ghost predicate SessionsOf(requests: seq<Request>, st: State) {
    |st.ops| <= |requests| && forall i :: 0 <= i < |st.ops| ==> st.ops[i].request == requests[i]
  }

  ghost predicate ReachesCycle(t: Tables, now: int, requests: seq<Request>, steps: seq<Step>, cycle: seq<OpId>) {
    SessionsOf(requests, Execute(Initial(t, now), steps)) && WaitCycle(Execute(Initial(t, now), steps), cycle)
  }

  lemma RingOfRequests(t: Tables, st: State, requests: seq<Request>, members: seq<OpId>, h: seq<UserId>)
    requires SessionsOf(requests, st) && SameAccounts(t, st.db) && Ring(st.db, RequestsOf(st.ops), members, h)
    ensures Ring(t, requests, members, h)
  {
    forall k | 0 <= k < |h|
      ensures RingMember(t, requests, members, h, k)
    {
      assert RingMember(st.db, RequestsOf(st.ops), members, h, k);
    }
  }

  lemma NoBatches(t: Tables, st: State, cycle: seq<OpId>)
    requires Inv(t, st) && NoAccounts(t, st.ops) && WaitCycle(st, cycle)
    ensures forall i :: 0 <= i < |cycle| ==> StuckTransfer(st, cycle[i])
  {
    CycleShape(t, st, cycle);
    forall i | 0 <= i < |cycle|
      ensures !StuckBatch(st, cycle[i])
    {
      assert cycle[i] < |st.ops| ==> OpensNoAccount(t, st.ops[cycle[i]].request);
    }
    assert !StuckBatch(st, cycle[0]);
  }

  lemma ReachedIsRing(t: Tables, now: int, requests: seq<Request>, steps: seq<Step>, cycle: seq<OpId>)
      returns (members: seq<OpId>, h: seq<UserId>)
    requires Coherent(t) && ReachesCycle(t, now, requests, steps, cycle)
    requires forall i :: 0 <= i < |requests| ==> OpensNoAccount(t, requests[i])
    ensures Ring(t, requests, members, h)
  {
    var st := Execute(Initial(t, now), steps);
    Serializable(t, now, steps);
    AccountsStay(t, now, steps);
    NoBatches(t, st, cycle);
    members, h := CycleIsRing(t, st, cycle);
    RingOfRequests(t, st, requests, members, h);
  }

  // ----- every ring can lock up

  function DstOf(db: Tables, request: Request): UserId
    requires request.Send? && request.dstUsername in db.byName
  {
    db.byName[request.dstUsername]
  }

  /** A transfer between these accounts is at this statement. */
  ghost predicate At(st: State, op: OpId, first: UserId, second: UserId, pc: Pc) {
    op < |st.ops| && HasEnds(st.db, st.ops[op].request, first, second) && st.ops[op].pc == pc
  }

  /** The statement at which it has locked its first row and wants the second. */
  function HalfWay(st: State, op: OpId, first: UserId, second: UserId): Pc
    requires op < |st.ops| && HasEnds(st.db, st.ops[op].request, first, second)
  {
    SendLocking(DstOf(st.db, st.ops[op].request), [second], map[first := st.db.users[first].balance])
  }

  /** Only session `op` has moved, and it has locked `keys`. */
  ghost predicate Moved(st: State, st': State, op: OpId, keys: set<Key>) {
    && op < |st.ops| == |st'.ops| && st'.db == st.db && st'.ops[op].request == st.ops[op].request
    && (forall i :: 0 <= i < |st.ops| && i != op ==> st'.ops[i] == st.ops[i])
    && (forall k :: k in st'.locks <==> k in st.locks || k in keys)
    && (forall k :: k in st'.locks ==> st'.locks[k] == if k in keys then op else st.locks[k])
  }

  function Step1(st: State, op: OpId, flip: bool): State {
    Next(st, Advance(op, 0, flip))
  }

  lemma LookUp(st: State, op: OpId, first: UserId, second: UserId, flip: bool)
    requires At(st, op, first, second, Start)
    ensures
      var dst := DstOf(st.db, st.ops[op].request);
      At(Step1(st, op, flip), op, first, second, SendChecked(dst)) && Moved(st, Step1(st, op, flip), op, {})
  {
    assert Wants(st.db, st.ops[op]) == {};
  }

  lemma BeginTx(st: State, op: OpId, first: UserId, second: UserId, flip: bool)
    requires op < |st.ops| && HasEnds(st.db, st.ops[op].request, first, second)
    requires At(st, op, first, second, SendChecked(DstOf(st.db, st.ops[op].request)))
    ensures
      var dst := DstOf(st.db, st.ops[op].request);
      At(Step1(st, op, flip), op, first, second, SendBegun(dst)) && Moved(st, Step1(st, op, flip), op, {})
  {
    assert Wants(st.db, st.ops[op]) == {};
  }

  lemma Scan(st: State, op: OpId, first: UserId, second: UserId, flip: bool)
    requires op < |st.ops| && HasEnds(st.db, st.ops[op].request, first, second)
    requires At(st, op, first, second, SendBegun(DstOf(st.db, st.ops[op].request)))
    requires flip <==> st.ops[op].request.src != first
    ensures
      var dst := DstOf(st.db, st.ops[op].request);
      && At(Step1(st, op, flip), op, first, second, SendLocking(dst, [first, second], map[]))
      && Moved(st, Step1(st, op, flip), op, {})
  {
    assert Wants(st.db, st.ops[op]) == {};
    assert [first] + [second] == [first, second];
  }

  lemma LockFirst(st: State, op: OpId, first: UserId, second: UserId, flip: bool)
    requires op < |st.ops| && HasEnds(st.db, st.ops[op].request, first, second)
    requires At(st, op, first, second, SendLocking(DstOf(st.db, st.ops[op].request), [first, second], map[]))
    requires UserRow(first) !in st.locks
    ensures At(Step1(st, op, flip), op, first, second, HalfWay(st, op, first, second))
    ensures Moved(st, Step1(st, op, flip), op, {UserRow(first)})
  {
    assert Wants(st.db, st.ops[op]) == {UserRow(first)};
    assert !Blocked(st, op);
    assert [first, second][1..] == [second];
    assert Step1(st, op, flip) == SendLock(st, op);
  }

  function FourSteps(op: OpId, flip: bool): seq<Step> {
    [Advance(op, 0, flip), Advance(op, 0, flip), Advance(op, 0, flip), Advance(op, 0, flip)]
  }

  lemma FourStepsAre(st: State, op: OpId, flip: bool)
    ensures Execute(st, FourSteps(op, flip)) == Step1(Step1(Step1(Step1(st, op, flip), op, flip), op, flip), op, flip)
  {
    var s := Advance(op, 0, flip);
    assert [s, s, s, s][..3] == [s, s, s] && [s, s, s][..2] == [s, s] && [s, s][..1] == [s] && [s][..0] == [];
    assert Execute(st, [s]) == Step1(st, op, flip);
    assert Execute(st, [s, s]) == Step1(Step1(st, op, flip), op, flip);
    assert Execute(st, [s, s, s]) == Step1(Step1(Step1(st, op, flip), op, flip), op, flip);
  }

  /** A transfer alone can reach the point where it holds either of its rows and wants the other. */
  lemma HoldsFirst(st: State, op: OpId, first: UserId, second: UserId, flip: bool)
    requires At(st, op, first, second, Start) && UserRow(first) !in st.locks
    requires flip <==> st.ops[op].request.src != first
    ensures
      var st' := Execute(st, FourSteps(op, flip));
      At(st', op, first, second, HalfWay(st, op, first, second)) && Moved(st, st', op, {UserRow(first)})
  {
    var s1 := Step1(st, op, flip);
    var s2 := Step1(s1, op, flip);
    var s3 := Step1(s2, op, flip);
    LookUp(st, op, first, second, flip);
    BeginTx(s1, op, first, second, flip);
    Scan(s2, op, first, second, flip);
    LockFirst(s3, op, first, second, flip);
    FourStepsAre(st, op, flip);
  }

  function Arrivals(requests: seq<Request>): seq<Step> {
    if requests == [] then [] else Arrivals(requests[..|requests| - 1]) + [Arrive(requests[|requests| - 1])]
  }

  function Started(requests: seq<Request>): (ops: seq<Op>)
    ensures |ops| == |requests| && forall i :: 0 <= i < |ops| ==> ops[i] == Op(requests[i], Start, NO_TX)
  {
    if requests == [] then [] else Started(requests[..|requests| - 1]) + [Op(requests[|requests| - 1], Start, NO_TX)]
  }

  lemma {:induction false} AllArrive(t: Tables, now: int, requests: seq<Request>)
    ensures Execute(Initial(t, now), Arrivals(requests)) == State(t, map[], Started(requests), [], now)
  {
    if requests != [] {
      var front := requests[..|requests| - 1];
      AllArrive(t, now, front);
      assert Arrivals(requests)[..|Arrivals(requests)| - 1] == Arrivals(front);
    }
  }

  ghost predicate HalfLockedMember(st: State, members: seq<OpId>, h: seq<UserId>, j: nat)
    requires j < |members| == |h|
  {
    && members[j] < |st.ops| && HasEnds(st.db, st.ops[members[j]].request, h[j], Following(h, j))
    && st.ops[members[j]].pc == HalfWay(st, members[j], h[j], Following(h, j))
    && UserRow(h[j]) in st.locks && st.locks[UserRow(h[j])] == members[j]
  }

  ghost predicate WaitingMember(st: State, members: seq<OpId>, h: seq<UserId>, j: nat)
    requires j < |members| == |h|
  {
    members[j] < |st.ops| && HasEnds(st.db, st.ops[members[j]].request, h[j], Following(h, j)) && st.ops[members[j]].pc.Start?
  }

  /** The first `k` members have locked their rows, the others have not begun. */
  ghost predicate Partial(requests: seq<Request>, st: State, members: seq<OpId>, h: seq<UserId>, k: nat) {
    && |members| == |h| >= 2 && Distinct(members) && Distinct(h) && k <= |h|
    && SessionsOf(requests, st)
    && (forall j :: 0 <= j < k ==> HalfLockedMember(st, members, h, j))
    && (forall j :: k <= j < |h| ==> WaitingMember(st, members, h, j))
    && (forall key :: key in st.locks ==> exists j :: 0 <= j < k && key == UserRow(h[j]))
  }

  lemma OneMoreHalfLocked(requests: seq<Request>, st: State, st': State, members: seq<OpId>, h: seq<UserId>, k: nat)
    requires k < |h| == |members| && WaitingMember(st, members, h, k) && Partial(requests, st, members, h, k)
    requires Moved(st, st', members[k], {UserRow(h[k])})
    requires st'.ops[members[k]].pc == HalfWay(st, members[k], h[k], Following(h, k))
    ensures Partial(requests, st', members, h, k + 1)
  {
    forall j | 0 <= j < k + 1
      ensures HalfLockedMember(st', members, h, j)
    {
      if j < k {
        assert HalfLockedMember(st, members, h, j);
      }
    }
    forall j | k + 1 <= j < |h|
      ensures WaitingMember(st', members, h, j)
    {
      assert WaitingMember(st, members, h, j);
    }
    forall key | key in st'.locks
      ensures exists j :: 0 <= j < k + 1 && key == UserRow(h[j])
    {
      if key in st.locks {
        var j :| 0 <= j < k && key == UserRow(h[j]);
        assert 0 <= j < k + 1 && key == UserRow(h[j]);
      } else {
        assert 0 <= k < k + 1 && key == UserRow(h[k]);
      }
    }
  }

  lemma {:induction false} LocksUp(requests: seq<Request>, st: State, members: seq<OpId>, h: seq<UserId>, k: nat)
      returns (steps: seq<Step>)
    requires Partial(requests, st, members, h, k)
    ensures Partial(requests, Execute(st, steps), members, h, |h|)
    decreases |h| - k
  {
    steps := [];
    if k < |h| {
      assert WaitingMember(st, members, h, k);
      var flip := st.ops[members[k]].request.src != h[k];
      assert UserRow(h[k]) !in st.locks;
      HoldsFirst(st, members[k], h[k], Following(h, k), flip);
      var st' := Execute(st, FourSteps(members[k], flip));
      OneMoreHalfLocked(requests, st, st', members, h, k);
      var rest := LocksUp(requests, st', members, h, k + 1);
      steps := FourSteps(members[k], flip) + rest;
      ExecuteConcat(st, FourSteps(members[k], flip), rest);
    }
  }

  lemma LockedRingWaits(requests: seq<Request>, st: State, members: seq<OpId>, h: seq<UserId>)
    requires Partial(requests, st, members, h, |h|)
    ensures WaitCycle(st, members)
  {
    forall k | 0 <= k < |members|
      ensures CycleEdge(st, members, k)
    {
      var next := if k + 1 < |h| then k + 1 else 0;
      assert HalfLockedMember(st, members, h, k) && HalfLockedMember(st, members, h, next);
      assert UserRow(h[next]) in Wants(st.db, st.ops[members[k]]);
      assert members[k] != members[next];
    }
  }

  lemma RingLocksUp(t: Tables, now: int, requests: seq<Request>, members: seq<OpId>, h: seq<UserId>) returns (steps: seq<Step>)
    requires Ring(t, requests, members, h)
    ensures ReachesCycle(t, now, requests, steps, members)
  {
    AllArrive(t, now, requests);
    var st := Execute(Initial(t, now), Arrivals(requests));
    forall j | 0 <= j < |h|
      ensures WaitingMember(st, members, h, j)
    {
      assert RingMember(t, requests, members, h, j);
    }
    var rest := LocksUp(requests, st, members, h, 0);
    steps := Arrivals(requests) + rest;
    ExecuteConcat(Initial(t, now), Arrivals(requests), rest);
    LockedRingWaits(requests, Execute(st, rest), members, h);
  }

  /** Deadlock, exactly: some run of these requests, none of which registers a user, reaches a wait-for cycle if
      and only if the ends of two or more of the transfers among them close a ring of different accounts. */
  lemma DeadlockIffRing(t: Tables, now: int, requests: seq<Request>)
    requires Coherent(t) && forall i :: 0 <= i < |requests| ==> OpensNoAccount(t, requests[i])
    ensures (exists steps, cycle :: ReachesCycle(t, now, requests, steps, cycle))
      <==> (exists members, h :: Ring(t, requests, members, h))
  {
    forall steps, cycle | ReachesCycle(t, now, requests, steps, cycle)
      ensures exists members, h :: Ring(t, requests, members, h)
    {
      var members, h := ReachedIsRing(t, now, requests, steps, cycle);
    }
    forall members, h | Ring(t, requests, members, h)
      ensures exists steps, cycle :: ReachesCycle(t, now, requests, steps, cycle)
    {
      var steps := RingLocksUp(t, now, requests, members, h);
    }
  }

  /** In particular two transfers between the same two accounts, in the same or in opposite directions, can
      come to wait for each other. */
  lemma DeadlockHappens(t: Tables, now: int, a: Request, b: Request, x: UserId, y: UserId) returns (steps: seq<Step>)
    requires HasEnds(t, a, x, y) && HasEnds(t, b, x, y)
    ensures ReachesCycle(t, now, [a, b], steps, [0, 1])
  {
    assert RingMember(t, [a, b], [0, 1], [x, y], 0) && RingMember(t, [a, b], [0, 1], [x, y], 1);
    steps := RingLocksUp(t, now, [a, b], [0, 1], [x, y]);
  }
}
