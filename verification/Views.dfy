/** What a report is not in general, and exactly when it is: a history in commit order, and a single snapshot. */
module Views {
  import opened Wrappers
  import opened Schema
  import opened Ledger
  import opened Accounting
  import opened Ordering
  import opened Queries
  import opened Protocol
  import opened Invariant
  import opened Refinement
  import opened Outcomes
  import opened Waiting
  import opened Race
  import opened Undisturbed
  import opened Info

  // ----- history order and commit order

  /** The transfers of a user in the order in which they were committed. */
  function CommitOrder(ts: seq<Transfer>, user: UserId): seq<Transfer> {
    if ts == [] then []
    else CommitOrder(ts[..|ts| - 1], user) + (if Touches(ts[|ts| - 1], user) then [ts[|ts| - 1]] else [])
  }

  lemma {:induction false} CommitOrderMembers(ts: seq<Transfer>, user: UserId, row: Transfer)
    ensures row in CommitOrder(ts, user) <==> row in ts && Touches(row, user)
  {
    if ts != [] {
      CommitOrderMembers(ts[..|ts| - 1], user, row);
      assert ts == ts[..|ts| - 1] + [ts[|ts| - 1]];
    }
  }

  /** The history is listed in commit order exactly when the transfers of the user were committed in the order
      in which their transactions had started (and, among equal starts, in the order of their ids). */
  lemma HistoryIsCommitOrder(t: Tables, user: UserId)
    requires Constraints(t)
    ensures SelectTransfers(t.transfers, user) == CommitOrder(t.transfers, user) <==> Sorted(CommitOrder(t.transfers, user))
  {
    forall row
      ensures row in CommitOrder(t.transfers, user) <==> row in t.transfers && Touches(row, user)
    {
      CommitOrderMembers(t.transfers, user, row);
    }
    TransferQueryIsDetermined(t, user, CommitOrder(t.transfers, user));
  }

  /** Session 0 has begun its transaction, session 1 has only arrived, and a second has passed. */
  function LateStart(t: Tables, now: int, request: Request): State
    requires request.Send? && request.dstUsername in t.byName
  {
    State(t, map[],
          [Op(request, SendBegun(t.byName[request.dstUsername]), NO_TX.(startedAt := now)), Op(request, Start, NO_TX)],
          [], now + 1)
  }

  function LateStartSteps(request: Request): seq<Step> {
    [Arrive(request), Arrive(request), Advance(0, 0, false), Advance(0, 0, false), Tick(1)]
  }

  lemma FiveSteps(st: State, s: seq<Step>)
    requires |s| == 5
    ensures Execute(st, s) == Next(Next(Next(Next(Next(st, s[0]), s[1]), s[2]), s[3]), s[4])
  {
    assert s[..4][..3] == s[..3] && s[..3][..2] == s[..2] && s[..2][..1] == s[..1] && s[..1][..0] == [];
    RunUnfolds(st, s);
    RunUnfolds(st, s[..4]);
    RunUnfolds(st, s[..3]);
    RunUnfolds(st, s[..2]);
    RunUnfolds(st, s[..1]);
  }

  lemma ReachesLateStart(t: Tables, now: int, request: Request)
    requires request.Send? && request.dstUsername in t.byName && t.byName[request.dstUsername] != request.src
    ensures Execute(Initial(t, now), LateStartSteps(request)) == LateStart(t, now, request)
  {
    FiveSteps(Initial(t, now), LateStartSteps(request));
    var st2 := State(t, map[], [Op(request, Start, NO_TX), Op(request, Start, NO_TX)], [], now);
    assert Next(Next(Initial(t, now), Arrive(request)), Arrive(request)) == st2;
    assert Wants(t, st2.ops[0]) == {};
    var st3 := Goto(st2, 0, SendChecked(t.byName[request.dstUsername]));
    assert Next(st2, Advance(0, 0, false)) == st3;
    assert Wants(t, st3.ops[0]) == {};
    assert Next(st3, Advance(0, 0, false)) == Begin(st3, 0, SendBegun(t.byName[request.dstUsername]));
  }

  /** A transfer of nothing, from `a` to `b`. */
  function Nothing(t: Tables, a: UserId, b: UserId): Request
    requires b in t.users
  {
    Send(t.users[b].username, a, 0)
  }

  function WithRow(t: Tables, row: Transfer): Tables {
    t.(transfers := t.transfers + [row])
  }

  lemma NothingAddsARow(t: Tables, a: UserId, b: UserId, id: RowId, at: int)
    requires Coherent(t) && a in t.users && b in t.users && a != b && !HasTransfer(t, id)
    ensures Run(t, CallOf(Nothing(t, a, b)), [id], at) == Success(WithRow(t, Transfer(id, at, b, a, 0)))
    ensures Coherent(WithRow(t, Transfer(id, at, b, a, 0)))
  {
    var r := RunTransfer(t, t.users[b].username, a, 0, id, at);
    TransferMeaning(t, t.users[b].username, a, 0, id, at);
    assert r.value.users == t.users;
    TransferKeeps(t, t.users[b].username, a, 0, id, at);
  }

  lemma AppendedLast(t: Tables, row: Transfer, id: RowId)
    ensures HasTransfer(WithRow(t, row), id) <==> HasTransfer(t, id) || id == row.id
  {
    var ts := t.transfers + [row];
    assert ts[|t.transfers|] == row;
    if HasTransfer(t, id) {
      var i :| 0 <= i < |t.transfers| && t.transfers[i].id == id;
      assert ts[i].id == id;
    }
  }

  lemma UnusedTransferId(t: Tables) returns (id: RowId)
    ensures !HasTransfer(t, id) && !HasTransfer(t, id + 1)
  {
    var ids := set i | 0 <= i < |t.transfers| :: t.transfers[i].id;
    id := UnusedId(ids);
    assert forall i :: 0 <= i < |t.transfers| ==> t.transfers[i].id in ids;
  }

  lemma CommitOrderAppend(ts: seq<Transfer>, row: Transfer, user: UserId)
    requires Touches(row, user)
    ensures CommitOrder(ts + [row], user) == CommitOrder(ts, user) + [row]
  {
    assert (ts + [row])[..|ts|] == ts;
  }

  lemma LaterRowFirst(ts: seq<Transfer>, early: Transfer, late: Transfer, user: UserId)
    requires early.createdAt < late.createdAt && Touches(early, user) && Touches(late, user)
    ensures !Sorted(CommitOrder(ts + [late] + [early], user))
  {
    CommitOrderAppend(ts, late, user);
    CommitOrderAppend(ts + [late], early, user);
    var c := CommitOrder(ts + [late] + [early], user);
    assert !Before(c[|c| - 2], c[|c| - 1]);
  }

  lemma LateIsReady(t: Tables, now: int, a: UserId, b: UserId, id: RowId)
    requires Coherent(t) && a in t.users && b in t.users && a != b && !HasTransfer(t, id)
    ensures Ready(LateStart(t, now, Nothing(t, a, b)), 1, id, WithRow(t, Transfer(id, now + 1, b, a, 0)))
  {
    NothingAddsARow(t, a, b, id, now + 1);
  }

  lemma EarlyIsReady(t: Tables, now: int, st: State, a: UserId, b: UserId, id: RowId)
    requires Coherent(t) && a in t.users && b in t.users && a != b && !HasTransfer(t, id)
    requires st.db == t && st.locks == map[] && |st.ops| > 0
    requires st.ops[0] == Op(Nothing(t, a, b), SendBegun(b), NO_TX.(startedAt := now))
    ensures Ready(st, 0, id, WithRow(t, Transfer(id, now, b, a, 0)))
  {
    NothingAddsARow(t, a, b, id, now);
  }

  /** Session 1 runs through while session 0 has begun and holds nothing. */
  lemma LateCommitsFirst(t: Tables, now: int, a: UserId, b: UserId, id: RowId) returns (steps: seq<Step>)
    requires Coherent(t) && a in t.users && b in t.users && a != b && !HasTransfer(t, id) && !HasTransfer(t, id + 1)
    ensures
      var request, mid := Nothing(t, a, b), WithRow(t, Transfer(id, now + 1, b, a, 0));
      var st := Execute(LateStart(t, now, request), steps);
      && st.db == mid && Inv(t, st)
      && Ready(st, 0, id + 1, WithRow(mid, Transfer(id + 1, now, b, a, 0)))
  {
    var st, mid := LateStart(t, now, Nothing(t, a, b)), WithRow(t, Transfer(id, now + 1, b, a, 0));
    ReachesLateStart(t, now, Nothing(t, a, b));
    Serializable(t, now, LateStartSteps(Nothing(t, a, b)));
    LateIsReady(t, now, a, b, id);
    steps := RunsThrough(t, st, 1, id, mid);
    ExecuteKeeps(t, st, steps);
    AppendedLast(t, Transfer(id, now + 1, b, a, 0), id + 1);
    NothingAddsARow(t, a, b, id, now + 1);
    EarlyIsReady(mid, now, Execute(st, steps), a, b, id + 1);
  }

  lemma {:induction false} ExecuteKeeps(t: Tables, st: State, steps: seq<Step>)
    requires Inv(t, st)
    ensures Inv(t, Execute(st, steps))
  {
    if steps != [] {
      ExecuteKeeps(t, st, steps[..|steps| - 1]);
      NextKeeps(t, Execute(st, steps[..|steps| - 1]), steps[|steps| - 1]);
    }
  }

  /** The history is not in commit order in general: of two transfers the one that starts first can commit last. */
  lemma HistoryCanDiffer(t: Tables, now: int, a: UserId, b: UserId) returns (steps: seq<Step>)
    requires Coherent(t) && a in t.users && b in t.users && a != b
    ensures
      var ts := Execute(Initial(t, now), steps).db.transfers;
      SelectTransfers(ts, a) != CommitOrder(ts, a)
  {
    var request := Nothing(t, a, b);
    var id := UnusedTransferId(t);
    var late, early := Transfer(id, now + 1, b, a, 0), Transfer(id + 1, now, b, a, 0);
    var first := LateCommitsFirst(t, now, a, b, id);
    var st := Execute(LateStart(t, now, request), first);
    var second := RunsThrough(t, st, 0, id + 1, WithRow(WithRow(t, late), early));
    steps := LateStartSteps(request) + (first + second);
    ReachesLateStart(t, now, request);
    ExecuteConcat(Initial(t, now), LateStartSteps(request), first + second);
    ExecuteConcat(LateStart(t, now, request), first, second);
    Serializable(t, now, steps);
    NotInOrder(t, Execute(Initial(t, now), steps), late, early, a);
  }

  lemma NotInOrder(t: Tables, st: State, late: Transfer, early: Transfer, user: UserId)
    requires Inv(t, st) && st.db.transfers == t.transfers + [late] + [early]
    requires early.createdAt < late.createdAt && Touches(early, user) && Touches(late, user)
    ensures SelectTransfers(st.db.transfers, user) != CommitOrder(st.db.transfers, user)
  {
    SerialKeeps(t, st.log);
    LaterRowFirst(t.transfers, early, late, user);
    HistoryIsCommitOrder(st.db, user);
  }

  // ----- a single snapshot

  lemma {:induction false} InsertUsersKeepNames(t: Tables, params: seq<User>, ids: seq<UserId>, id: UserId)
    requires |params| == |ids| && InsertUsers(t, params, ids).Success? && id in t.users
    ensures id in InsertUsers(t, params, ids).value.users && InsertUsers(t, params, ids).value.users[id] == t.users[id]
  {
    if params != [] {
      InsertUsersKeepNames(t, params[..|params| - 1], ids[..|ids| - 1], id);
    }
  }

  lemma RunKeepsNames(t: Tables, e: Entry, id: UserId)
    requires Run(t, e.call, e.ids, e.at).Success? && id in t.users
    ensures id in Run(t, e.call, e.ids, e.at).value.users
    ensures Run(t, e.call, e.ids, e.at).value.users[id].username == t.users[id].username
  {
    if e.call.CreateUsers? {
      InsertUsersKeepNames(t, e.call.params, e.ids, id);
    }
  }

  /** Usernames never change. */
  lemma {:induction false} NamesSince(t: Tables, log: seq<Entry>, n: nat, id: UserId)
    requires n <= |log| && Serial(t, log).Success? && Serial(t, log[..n]).Success? && id in Serial(t, log[..n]).value.users
    ensures id in Serial(t, log).value.users
    ensures Serial(t, log).value.users[id].username == Serial(t, log[..n]).value.users[id].username
    decreases |log|
  {
    if n < |log| {
      var m := |log| - 1;
      assert log[..m][..n] == log[..n];
      NamesSince(t, log[..m], n, id);
      RunKeepsNames(Serial(t, log[..m]).value, log[m], id);
    } else {
      assert log[..n] == log;
    }
  }

  lemma SameNames(t: Tables, log: seq<Entry>, m: Moment, m': Moment, id: UserId)
    requires IsMoment(t, log, m) && IsMoment(t, log, m') && id in m.tables.users && id in m'.tables.users
    ensures m.tables.users[id].username == m'.tables.users[id].username
  {
    if m.commits <= m'.commits {
      assert log[..m'.commits][..m.commits] == log[..m.commits];
      NamesSince(t, log[..m'.commits], m.commits, id);
    } else {
      assert log[..m.commits][..m'.commits] == log[..m'.commits];
      NamesSince(t, log[..m.commits], m'.commits, id);
    }
  }

  lemma InsertRowLength(row: Transfer, rows: seq<Transfer>)
    ensures |InsertRow(row, rows)| == |rows| + 1
  {
  }

  /** A history that gained no transfer of the user is listed as before. */
  lemma {:induction false} SameListing(ts: seq<Transfer>, more: seq<Transfer>, user: UserId)
    requires ts <= more
    ensures |SelectTransfers(ts, user)| <= |SelectTransfers(more, user)|
    ensures |SelectTransfers(ts, user)| == |SelectTransfers(more, user)| ==> SelectTransfers(ts, user) == SelectTransfers(more, user)
    decreases |more|
  {
    if |ts| < |more| {
      var front, row := more[..|more| - 1], more[|more| - 1];
      SameListing(ts, front, user);
      InsertRowLength(row, SelectTransfers(front, user));
    } else {
      assert ts == more;
    }
  }

  /** A history that gained no purchase of the user is counted as before. */
  lemma {:induction false} SameCounting(rank: Collation, items: map<ItemId, Item>, ps: seq<Purchase>, more: seq<Purchase>, user: UserId)
    requires ps <= more
    ensures PurchasesOf(ps, user) <= PurchasesOf(more, user)
    ensures PurchasesOf(ps, user) == PurchasesOf(more, user) ==>
      GetItemCounts(rank, items, ps, user) == GetItemCounts(rank, items, more, user)
    decreases |more|
  {
    if |ps| < |more| {
      SameCounting(rank, items, ps, more[..|more| - 1], user);
    } else {
      assert ps == more;
    }
  }

  /** The user had made the same number of purchases by `m` as by `m1`, the same number of transfers as by `m2`,
      and held at `m` what it held at `m3`. */
  predicate SameView(m: Tables, m1: Tables, m2: Tables, m3: Tables, user: UserId) {
    && PurchasesOf(m.purchases, user) == PurchasesOf(m1.purchases, user)
    && |SelectTransfers(m.transfers, user)| == |SelectTransfers(m2.transfers, user)|
    && user in m.users && user in m3.users && m.users[user].balance == m3.users[user].balance
  }

  lemma {:induction false} PiecesAdd(counts: seq<ItemCount>, others: seq<ItemCount>)
    requires |counts| == |others| && forall i :: 0 <= i < |counts| ==> counts[i].count == others[i].count
    ensures Pieces(counts) == Pieces(others)
  {
    if counts != [] {
      PiecesAdd(counts[1..], others[1..]);
    }
  }

  lemma SnapshotGivesSameView(rank: Collation, m: Tables, m1: Tables, m2: Tables, m3: Tables, user: UserId, r: InfoResponse)
    requires Coherent(m) && Coherent(m1) && Coherent(m2)
    requires IsReport(rank, m1, m2, m3, user, r) && IsReport(rank, m, m, m, user, r)
    ensures SameView(m, m1, m2, m3, user)
  {
    ItemCountsTotal(rank, m, m.purchases, user);
    ItemCountsTotal(rank, m1, m1.purchases, user);
    PiecesAdd(GetItemCounts(rank, m.items, m.purchases, user), GetItemCounts(rank, m1.items, m1.purchases, user));
    ReportHistory(rank, m1, m2, m3, user, r);
    ReportHistory(rank, m, m, m, user, r);
  }

  lemma SameViews(t: Tables, log: seq<Entry>, m: Moment, m2: Moment, user: UserId)
    requires Coherent(t) && IsMoment(t, log, m) && IsMoment(t, log, m2)
    requires |SelectTransfers(m.tables.transfers, user)| == |SelectTransfers(m2.tables.transfers, user)|
    ensures GetTransfers(m.tables, user) == GetTransfers(m2.tables, user)
  {
    MomentIsCoherent(t, log, m);
    MomentIsCoherent(t, log, m2);
    SameSelection(t, log, m, m2, user);
    TransfersAlwaysHaveUsernames(m.tables, user);
    TransfersAlwaysHaveUsernames(m2.tables, user);
    var rows := SelectTransfers(m.tables.transfers, user);
    var views, views2 := GetTransfers(m.tables, user).value, GetTransfers(m2.tables, user).value;
    forall i | 0 <= i < |rows|
      ensures views[i] == views2[i]
    {
      SameNames(t, log, m, m2, rows[i].dst);
      SameNames(t, log, m, m2, rows[i].src);
    }
    assert views == views2;
  }

  lemma SameSelection(t: Tables, log: seq<Entry>, m: Moment, m2: Moment, user: UserId)
    requires Coherent(t) && IsMoment(t, log, m) && IsMoment(t, log, m2)
    requires |SelectTransfers(m.tables.transfers, user)| == |SelectTransfers(m2.tables.transfers, user)|
    ensures SelectTransfers(m.tables.transfers, user) == SelectTransfers(m2.tables.transfers, user)
  {
    if m.commits <= m2.commits {
      EarlierHistory(t, log, m, m2);
      SameListing(m.tables.transfers, m2.tables.transfers, user);
    } else {
      EarlierHistory(t, log, m2, m);
      SameListing(m2.tables.transfers, m.tables.transfers, user);
    }
  }

  lemma SameCounts(rank: Collation, t: Tables, log: seq<Entry>, m: Moment, m1: Moment, user: UserId)
    requires Coherent(t) && IsMoment(t, log, m) && IsMoment(t, log, m1)
    requires PurchasesOf(m.tables.purchases, user) == PurchasesOf(m1.tables.purchases, user)
    ensures GetItemCounts(rank, m.tables.items, m.tables.purchases, user) == GetItemCounts(rank, m1.tables.items, m1.tables.purchases, user)
  {
    SerialKeeps(t, log[..m.commits]);
    SerialKeeps(t, log[..m1.commits]);
    if m.commits <= m1.commits {
      EarlierHistory(t, log, m, m1);
      SameCounting(rank, t.items, m.tables.purchases, m1.tables.purchases, user);
    } else {
      EarlierHistory(t, log, m1, m);
      SameCounting(rank, t.items, m1.tables.purchases, m.tables.purchases, user);
    }
  }

  /** A report read at three moments of a history is the report of one moment exactly when the user had made
      the same number of purchases by then as by the first, the same number of transfers as by the second, and
      held the same balance as at the third. */
  lemma ReportIsSnapshot(rank: Collation, t: Tables, log: seq<Entry>, user: UserId,
                         m1: Moment, m2: Moment, m3: Moment, m: Moment, r: InfoResponse)
    requires Coherent(t) && IsMoment(t, log, m1) && IsMoment(t, log, m2) && IsMoment(t, log, m3) && IsMoment(t, log, m)
    requires IsReport(rank, m1.tables, m2.tables, m3.tables, user, r)
    ensures IsReport(rank, m.tables, m.tables, m.tables, user, r) <==> SameView(m.tables, m1.tables, m2.tables, m3.tables, user)
  {
    MomentIsCoherent(t, log, m);
    MomentIsCoherent(t, log, m1);
    MomentIsCoherent(t, log, m2);
    if IsReport(rank, m.tables, m.tables, m.tables, user, r) {
      SnapshotGivesSameView(rank, m.tables, m1.tables, m2.tables, m3.tables, user, r);
    }
    if SameView(m.tables, m1.tables, m2.tables, m3.tables, user) {
      SameCounts(rank, t, log, m, m1, user);
      SameViews(t, log, m, m2, user);
    }
  }

  /** The tables after a purchase. */
  function Bought(t: Tables, itemName: string, user: UserId, id: RowId, at: int): Tables
    requires user in t.users && ItemsValid(t) && itemName in t.itemByName
  {
    var item := t.itemByName[itemName];
    var price := t.items[item].price;
    t.(users := t.users[user := t.users[user].(balance := Sub64(t.users[user].balance, price))],
       purchases := t.purchases + [Purchase(id, at, user, item, price)])
  }

  /** The report has counted the purchases, and the purchase has only arrived. */
  function Counted(t: Tables, now: int, itemName: string, user: UserId): State {
    State(t, map[], [Op(Request.Info(user), InfoCounted(Moment(t, 0)), NO_TX), Op(Buy(itemName, user), Start, NO_TX)], [], now)
  }

  function CountedSteps(itemName: string, user: UserId): seq<Step> {
    [Arrive(Request.Info(user)), Arrive(Buy(itemName, user)), Advance(0, 0, false)]
  }

  lemma ReachesCounted(t: Tables, now: int, itemName: string, user: UserId)
    ensures Execute(Initial(t, now), CountedSteps(itemName, user)) == Counted(t, now, itemName, user)
  {
    var s, st := CountedSteps(itemName, user), Initial(t, now);
    assert s[..2][..1] == s[..1] && s[..1][..0] == [];
    RunUnfolds(st, s);
    RunUnfolds(st, s[..2]);
    RunUnfolds(st, s[..1]);
    var st2 := State(t, map[], [Op(Request.Info(user), Start, NO_TX), Op(Buy(itemName, user), Start, NO_TX)], [], now);
    assert Next(Next(st, s[0]), s[1]) == st2;
    assert Wants(t, st2.ops[0]) == {};
  }

  lemma PurchaseIsReady(t: Tables, now: int, itemName: string, user: UserId, id: RowId)
    requires Coherent(t) && user in t.users && itemName in t.itemByName && !HasPurchase(t, id)
    requires t.items[t.itemByName[itemName]].price <= t.users[user].balance
    ensures Ready(Counted(t, now, itemName, user), 1, id, Bought(t, itemName, user, id, now))
  {
  }

  lemma UnusedPurchaseId(t: Tables) returns (id: RowId)
    ensures !HasPurchase(t, id)
  {
    var ids := set i | 0 <= i < |t.purchases| :: t.purchases[i].id;
    id := UnusedId(ids);
    assert forall i :: 0 <= i < |t.purchases| ==> t.purchases[i].id in ids;
  }

  function ReadTwice(): seq<Step> {
    [Advance(0, 0, false), Advance(0, 0, false)]
  }

  /** The two remaining reads of session 0. */
  lemma ReadsTheRest(st: State, first: Moment)
    requires |st.ops| > 0 && st.ops[0].request.Info? && st.ops[0].request.user in st.db.users
    requires st.ops[0].pc == InfoCounted(first)
    ensures
      var st', now := Execute(st, ReadTwice()), Moment(st.db, |st.log|);
      && st'.db == st.db && st'.log == st.log && |st'.ops| == |st.ops|
      && st'.ops[0].request == st.ops[0].request && st'.ops[0].pc == Finished(Report(first, now, now))
  {
    var s := ReadTwice();
    assert s[..1][..0] == [];
    RunUnfolds(st, s);
    RunUnfolds(st, s[..1]);
    assert Wants(st.db, st.ops[0]) == {};
    var st' := Next(st, s[0]);
    assert Wants(st'.db, st'.ops[0]) == {};
  }

  /** No moment of a one-operation history shows both the old inventory and the new balance. */
  lemma NoMomentFits(rank: Collation, t: Tables, log: seq<Entry>, after: Tables, user: UserId, m: Moment, r: InfoResponse)
    requires Coherent(t) && |log| == 1 && Serial(t, log) == Success(after) && IsMoment(t, log, m)
    requires IsReport(rank, t, after, after, user, r)
    requires user in t.users && user in after.users && after.users[user].balance != t.users[user].balance
    requires PurchasesOf(after.purchases, user) != PurchasesOf(t.purchases, user)
    ensures !IsReport(rank, m.tables, m.tables, m.tables, user, r)
  {
    assert log[..0] == [] && log[..1] == log;
    ReportIsSnapshot(rank, t, log, user, Moment(t, 0), Moment(after, 1), Moment(after, 1), m, r);
  }

  lemma BoughtOneMore(t: Tables, itemName: string, user: UserId, id: RowId, at: int)
    requires user in t.users && ItemsValid(t) && itemName in t.itemByName
    ensures PurchasesOf(Bought(t, itemName, user, id, at).purchases, user) == PurchasesOf(t.purchases, user) + 1
  {
    var ps := Bought(t, itemName, user, id, at).purchases;
    assert ps[..|ps| - 1] == t.purchases;
  }

  /** The purchase runs through between the first read and the other two. */
  lemma PurchaseBetweenReads(t: Tables, now: int, itemName: string, user: UserId, id: RowId) returns (steps: seq<Step>)
    requires Coherent(t) && user in t.users && itemName in t.itemByName && !HasPurchase(t, id)
    requires t.items[t.itemByName[itemName]].price <= t.users[user].balance
    ensures
      var st, after := Execute(Initial(t, now), steps), Bought(t, itemName, user, id, now);
      && |st.ops| == 2 && st.ops[0].request == Request.Info(user) && st.db == after && |st.log| == 1
      && st.ops[0].pc == Finished(Report(Moment(t, 0), Moment(after, 1), Moment(after, 1)))
  {
    var start := Counted(t, now, itemName, user);
    ReachesCounted(t, now, itemName, user);
    Serializable(t, now, CountedSteps(itemName, user));
    PurchaseIsReady(t, now, itemName, user, id);
    var bought := RunsThrough(t, start, 1, id, Bought(t, itemName, user, id, now));
    ReadsTheRest(Execute(start, bought), Moment(t, 0));
    steps := CountedSteps(itemName, user) + (bought + ReadTwice());
    ExecuteConcat(Initial(t, now), CountedSteps(itemName, user), bought + ReadTwice());
    ExecuteConcat(start, bought, ReadTwice());
  }

  /** A report is not a snapshot in general: a purchase can commit between its first two reads. */
  lemma SnapshotCanFail(rank: Collation, t: Tables, now: int, itemName: string, user: UserId) returns (steps: seq<Step>)
    requires Coherent(t) && user in t.users && itemName in t.itemByName
    requires 0 < t.items[t.itemByName[itemName]].price <= t.users[user].balance
    ensures
      var st := Execute(Initial(t, now), steps);
      && |st.ops| == 2 && st.ops[0].request == Request.Info(user) && st.ops[0].pc.Finished? && st.ops[0].pc.outcome.Report?
      && var outcome := st.ops[0].pc.outcome;
         forall r: InfoResponse, m: Moment ::
           IsReport(rank, outcome.first.tables, outcome.second.tables, outcome.third.tables, user, r) && IsMoment(t, st.log, m)
           ==> !IsReport(rank, m.tables, m.tables, m.tables, user, r)
  {
    var id := UnusedPurchaseId(t);
    var after := Bought(t, itemName, user, id, now);
    steps := PurchaseBetweenReads(t, now, itemName, user, id);
    Serializable(t, now, steps);
    BoughtOneMore(t, itemName, user, id, now);
    var log := Execute(Initial(t, now), steps).log;
    forall r: InfoResponse, m: Moment | IsReport(rank, t, after, after, user, r) && IsMoment(t, log, m)
      ensures !IsReport(rank, m.tables, m.tables, m.tables, user, r)
    {
      NoMomentFits(rank, t, log, after, user, m, r);
    }
  }
}
