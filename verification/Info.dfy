/** GET /api/info: three separate reads, put together into one report. */
module Info {
  import opened Schema
  import opened Wrappers
  import opened Ledger
  import opened Accounting
  import opened Queries
  import opened Protocol
  import opened Invariant
  import opened Refinement
  import opened Outcomes

  datatype HistoryItem = HistoryItem(amount: int64, username: string)

  datatype InventoryItem = InventoryItem(quantity: nat, kind: string)

  datatype InfoResponse = InfoResponse(
    received: seq<HistoryItem>,
    sent: seq<HistoryItem>,
    coins: int64,
    inventory: seq<InventoryItem>)

  function ReceivedItems(views: seq<TransferView>, user: UserId): seq<HistoryItem> {
    if views == [] then [] else
    var v := views[|views| - 1];
    ReceivedItems(views[..|views| - 1], user) + (if v.row.dst == user then [HistoryItem(v.row.amount, v.srcUsername)] else [])
  }

  function SentItems(views: seq<TransferView>, user: UserId): seq<HistoryItem> {
    if views == [] then [] else
    var v := views[|views| - 1];
    SentItems(views[..|views| - 1], user) + (if v.row.src == user then [HistoryItem(v.row.amount, v.dstUsername)] else [])
  }

  /** The report built from the committed tables of the three moments at which it reads. */
  ghost predicate IsReport(rank: Collation, t1: Tables, t2: Tables, t3: Tables, user: UserId, r: InfoResponse) {
    var counts := GetItemCounts(rank, t1.items, t1.purchases, user);
    var views := GetTransfers(t2, user);
    && views.Some? && user in t3.users
    && r.received == ReceivedItems(views.value, user)
    && r.sent == SentItems(views.value, user)
    && r.coins == t3.users[user].balance
    && |r.inventory| == |counts|
    && forall i :: 0 <= i < |counts| ==> r.inventory[i] == InventoryItem(counts[i].count, counts[i].name)
  }

  /** GetAPIInfo. It fails only if a query fails or the user does not exist. */
  method GetInfo(rank: Collation, t1: Tables, t2: Tables, t3: Tables, user: UserId) returns (r: Option<InfoResponse>)
    ensures r.Some? ==> IsReport(rank, t1, t2, t3, user, r.value)
    ensures r.None? <==> GetTransfers(t2, user).None? || user !in t3.users
  {
    var itemCounts := GetItemCounts(rank, t1.items, t1.purchases, user);
    var transfers := GetTransfers(t2, user);
    if transfers.None? || user !in t3.users {
      return None;
    }
    var balance := t3.users[user].balance;

    var received, sent := [], [];
    for i := 0 to |transfers.value|
      invariant received == ReceivedItems(transfers.value[..i], user)
      invariant sent == SentItems(transfers.value[..i], user)
    {
      var t := transfers.value[i];
      assert transfers.value[..i + 1][..i] == transfers.value[..i];
      if t.row.src == user {
        sent := sent + [HistoryItem(t.row.amount, t.dstUsername)];
      }
      if t.row.dst == user {
        received := received + [HistoryItem(t.row.amount, t.srcUsername)];
      }
    }
    assert transfers.value[..|transfers.value|] == transfers.value;

    var inventory := new InventoryItem[|itemCounts|];
    for i := 0 to |itemCounts|
      invariant forall j :: 0 <= j < i ==> inventory[j] == InventoryItem(itemCounts[j].count, itemCounts[j].name)
    {
      inventory[i] := InventoryItem(itemCounts[i].count, itemCounts[i].name);
    }
    r := Some(InfoResponse(received, sent, balance, inventory[..]));
  }

  function Amounts(items: seq<HistoryItem>): int {
    if items == [] then 0 else Amounts(items[..|items| - 1]) + items[|items| - 1].amount
  }

  lemma AmountsAppend(items: seq<HistoryItem>, item: HistoryItem)
    ensures Amounts(items + [item]) == Amounts(items) + item.amount
  {
    assert (items + [item])[..|items|] == items;
  }

  function RowsReceived(rows: seq<Transfer>, user: UserId): int {
    if rows == [] then 0 else (if rows[0].dst == user then rows[0].amount else 0) + RowsReceived(rows[1..], user)
  }

  function RowsSent(rows: seq<Transfer>, user: UserId): int {
    if rows == [] then 0 else (if rows[0].src == user then rows[0].amount else 0) + RowsSent(rows[1..], user)
  }

  lemma {:induction false} InsertRowSums(row: Transfer, rows: seq<Transfer>, user: UserId)
    ensures RowsReceived(InsertRow(row, rows), user) == RowsReceived(rows, user) + (if row.dst == user then row.amount else 0)
    ensures RowsSent(InsertRow(row, rows), user) == RowsSent(rows, user) + (if row.src == user then row.amount else 0)
  {
    if rows == [] || Before(row, rows[0]) {
      assert ([row] + rows)[1..] == rows;
    } else {
      InsertRowSums(row, rows[1..], user);
      assert InsertRow(row, rows)[1..] == InsertRow(row, rows[1..]);
    }
  }

  /** Sorting and filtering lose no coin. */
  lemma {:induction false} SelectTransfersSums(ts: seq<Transfer>, user: UserId)
    ensures RowsReceived(SelectTransfers(ts, user), user) == Received(ts, user)
    ensures RowsSent(SelectTransfers(ts, user), user) == Sent(ts, user)
  {
    if ts != [] {
      SelectTransfersSums(ts[..|ts| - 1], user);
      InsertRowSums(ts[|ts| - 1], SelectTransfers(ts[..|ts| - 1], user), user);
    }
  }

  lemma {:induction false} RowsSumsFromEnd(rows: seq<Transfer>, user: UserId)
    ensures RowsReceived(rows, user) == Received(rows, user)
    ensures RowsSent(rows, user) == Sent(rows, user)
  {
    if |rows| == 1 {
      assert rows[1..] == [] && rows[..0] == [];
    } else if rows != [] {
      var n := |rows| - 1;
      RowsSumsFromEnd(rows[1..], user);
      RowsSumsFromEnd(rows[..n], user);
      RowsSumsFromEnd(rows[1..n], user);
      assert rows[1..][..n - 1] == rows[1..n] && rows[..n][1..] == rows[1..n];
    }
  }

  ghost predicate RowsOf(views: seq<TransferView>, rows: seq<Transfer>, user: UserId) {
    && |views| == |rows|
    && forall i :: 0 <= i < |rows| ==> views[i].row == rows[i] && Touches(rows[i], user) && rows[i].dst != rows[i].src
  }

  lemma LastItem(views: seq<TransferView>, user: UserId)
    requires views != []
    ensures
      var v, front := views[|views| - 1], views[..|views| - 1];
      && Amounts(ReceivedItems(views, user)) == Amounts(ReceivedItems(front, user)) + (if v.row.dst == user then v.row.amount else 0)
      && Amounts(SentItems(views, user)) == Amounts(SentItems(front, user)) + (if v.row.src == user then v.row.amount else 0)
      && |ReceivedItems(views, user)| == |ReceivedItems(front, user)| + (if v.row.dst == user then 1 else 0)
      && |SentItems(views, user)| == |SentItems(front, user)| + (if v.row.src == user then 1 else 0)
  {
    var v, front := views[|views| - 1], views[..|views| - 1];
    AmountsAppend(ReceivedItems(front, user), HistoryItem(v.row.amount, v.srcUsername));
    AmountsAppend(SentItems(front, user), HistoryItem(v.row.amount, v.dstUsername));
    assert ReceivedItems(front, user) + [] == ReceivedItems(front, user);
    assert SentItems(front, user) + [] == SentItems(front, user);
  }

  /** The lists of the report add up to what its rows say, and every row lands in exactly one list. */
  lemma {:induction false} ItemsSums(views: seq<TransferView>, rows: seq<Transfer>, user: UserId)
    requires RowsOf(views, rows, user)
    ensures Amounts(ReceivedItems(views, user)) == Received(rows, user)
    ensures Amounts(SentItems(views, user)) == Sent(rows, user)
    ensures |ReceivedItems(views, user)| + |SentItems(views, user)| == |rows|
  {
    if views != [] {
      ItemsSums(views[..|views| - 1], rows[..|rows| - 1], user);
      LastItem(views, user);
      assert views[|views| - 1].row == rows[|rows| - 1];
    }
  }

  function PriceOf(t: Tables, name: string): int {
    if name in t.itemByName && t.itemByName[name] in t.items then t.items[t.itemByName[name]].price else 0
  }

  /** What an inventory is worth at the prices of the catalogue, item by item name. */
  function Worth(t: Tables, inventory: seq<InventoryItem>): int {
    if inventory == [] then 0 else inventory[0].quantity * PriceOf(t, inventory[0].kind) + Worth(t, inventory[1..])
  }

  lemma {:induction false} WorthIsValue(t: Tables, counts: seq<ItemCount>, inventory: seq<InventoryItem>)
    requires ItemsValid(t) && |counts| == |inventory|
    requires forall i :: 0 <= i < |counts| ==> counts[i].item in t.items && counts[i].name == t.items[counts[i].item].name
    requires forall i :: 0 <= i < |counts| ==> inventory[i] == InventoryItem(counts[i].count, counts[i].name)
    ensures Worth(t, inventory) == Value(t.items, counts)
  {
    if counts != [] {
      WorthIsValue(t, counts[1..], inventory[1..]);
      assert PriceOf(t, inventory[0].kind) == t.items[counts[0].item].price;
    }
  }

  lemma ReportHistory(rank: Collation, t1: Tables, t2: Tables, t3: Tables, user: UserId, r: InfoResponse)
    requires Coherent(t2) && IsReport(rank, t1, t2, t3, user, r)
    ensures Amounts(r.received) == Received(t2.transfers, user)
    ensures Amounts(r.sent) == Sent(t2.transfers, user)
    ensures |r.received| + |r.sent| == |SelectTransfers(t2.transfers, user)|
  {
    var rows := SelectTransfers(t2.transfers, user);
    SelectTransfersIsResult(t2.transfers, user);
    forall i | 0 <= i < |rows|
      ensures Touches(rows[i], user) && rows[i].dst != rows[i].src
    {
      assert rows[i] in rows;
    }
    ItemsSums(GetTransfers(t2, user).value, rows, user);
    RowsSumsFromEnd(rows, user);
    SelectTransfersSums(t2.transfers, user);
  }

  /** A listed item is a committed transfer of that amount, with the other end's username. */
  ghost predicate Reports(t: Tables, row: Transfer, user: UserId, item: HistoryItem, received: bool) {
    && row in t.transfers && row.amount == item.amount
    && (if received then row.dst else row.src) == user
    && var other := if received then row.src else row.dst;
       other != user && other in t.users && t.users[other].username == item.username
  }

  ghost predicate ViewsAreRows(t: Tables, views: seq<TransferView>) {
    forall i :: 0 <= i < |views| ==>
      var v := views[i];
      && v.row in t.transfers && v.row.dst != v.row.src
      && v.row.dst in t.users && v.dstUsername == t.users[v.row.dst].username
      && v.row.src in t.users && v.srcUsername == t.users[v.row.src].username
  }

  lemma {:induction false} ItemsReport(t: Tables, views: seq<TransferView>, user: UserId, item: HistoryItem)
    requires ViewsAreRows(t, views)
    ensures item in ReceivedItems(views, user) ==> exists row :: Reports(t, row, user, item, true)
    ensures item in SentItems(views, user) ==> exists row :: Reports(t, row, user, item, false)
  {
    if views != [] {
      var front, v := views[..|views| - 1], views[|views| - 1];
      assert forall i :: 0 <= i < |front| ==> front[i] == views[i];
      ItemsReport(t, front, user, item);
      if v.row.dst == user && item == HistoryItem(v.row.amount, v.srcUsername) {
        assert Reports(t, v.row, user, item, true);
      }
      if v.row.src == user && item == HistoryItem(v.row.amount, v.dstUsername) {
        assert Reports(t, v.row, user, item, false);
      }
    }
  }

  /** Every item of the two lists is a committed transfer of the user, under the name of its other end. */
  lemma ReportNames(rank: Collation, t1: Tables, t2: Tables, t3: Tables, user: UserId, r: InfoResponse, item: HistoryItem)
    requires Coherent(t2) && IsReport(rank, t1, t2, t3, user, r)
    ensures item in r.received ==> exists row :: Reports(t2, row, user, item, true)
    ensures item in r.sent ==> exists row :: Reports(t2, row, user, item, false)
  {
    var rows, views := SelectTransfers(t2.transfers, user), GetTransfers(t2, user).value;
    SelectTransfersIsResult(t2.transfers, user);
    forall i | 0 <= i < |views|
      ensures views[i].row in t2.transfers && views[i].row.dst != views[i].row.src
    {
      assert rows[i] in rows;
    }
    ItemsReport(t2, views, user, item);
  }

  lemma ReportInventory(rank: Collation, t1: Tables, t2: Tables, t3: Tables, user: UserId, r: InfoResponse)
    requires Coherent(t1) && IsReport(rank, t1, t2, t3, user, r)
    ensures Worth(t1, r.inventory) == Spent(t1.purchases, user)
  {
    ItemCountsForm(rank, t1.items, t1.purchases, user);
    ItemCountsTotal(rank, t1, t1.purchases, user);
    WorthIsValue(t1, GetItemCounts(rank, t1.items, t1.purchases, user), r.inventory);
  }

  /** The report agrees with the ledger: when nothing commits between its reads, the coins it shows are what
      the account was opened with, plus everything received, minus everything sent, minus the inventory at
      catalogue prices. */
  lemma InfoAgrees(rank: Collation, t: Tables, log: seq<Entry>, user: UserId, r: InfoResponse)
    requires Coherent(t) && Serial(t, log).Success?
    requires var now := Serial(t, log).value; IsReport(rank, now, now, now, user, r)
    ensures r.coins as int == Granted(t, log, user) + Amounts(r.received) - Amounts(r.sent) - Worth(Serial(t, log).value, r.inventory)
  {
    var now := Serial(t, log).value;
    SerialKeeps(t, log);
    ReportHistory(rank, now, now, now, user, r);
    ReportInventory(rank, now, now, now, user, r);
    LedgerEquation(t, log, user);
  }

  // ----- under concurrency

  /** The tables of a moment are the ones the atomic ledger had after that many operations. */
  ghost predicate IsMoment(t: Tables, log: seq<Entry>, m: Moment) {
    m.commits <= |log| && Serial(t, log[..m.commits]) == Success(m.tables)
  }

  /** The moments a session has read at so far are real ones, in the order of its reads. */
  ghost predicate MomentsInv(t: Tables, log: seq<Entry>, o: Op) {
    match o.pc
    case InfoCounted(first) => IsMoment(t, log, first)
    case InfoListed(first, second) =>
      IsMoment(t, log, first) && IsMoment(t, log, second) && first.commits <= second.commits
    case Finished(outcome) =>
      outcome.Report? ==>
        && IsMoment(t, log, outcome.first) && IsMoment(t, log, outcome.second) && IsMoment(t, log, outcome.third)
        && outcome.first.commits <= outcome.second.commits <= outcome.third.commits
        && o.request.Info? && o.request.user in outcome.third.tables.users
    case _ => true
  }

  lemma MomentStays(t: Tables, log: seq<Entry>, log': seq<Entry>, m: Moment)
    requires IsMoment(t, log, m) && log <= log'
    ensures IsMoment(t, log', m)
  {
    assert log'[..m.commits] == log[..m.commits];
  }

  lemma MomentsStay(t: Tables, log: seq<Entry>, log': seq<Entry>, o: Op)
    requires MomentsInv(t, log, o) && log <= log'
    ensures MomentsInv(t, log', o)
  {
    match o.pc
    case InfoCounted(first) => MomentStays(t, log, log', first);
    case InfoListed(first, second) =>
      MomentStays(t, log, log', first);
      MomentStays(t, log, log', second);
    case Finished(outcome) =>
      if outcome.Report? {
        MomentStays(t, log, log', outcome.first);
        MomentStays(t, log, log', outcome.second);
        MomentStays(t, log, log', outcome.third);
      }
    case _ =>
  }

  lemma InfoStepKeepsMoments(t: Tables, st: State, op: OpId)
    requires Inv(t, st) && op < |st.ops| && st.ops[op].request.Info? && MomentsInv(t, st.log, st.ops[op])
    ensures |AdvanceInfo(st, op).ops| == |st.ops| && MomentsInv(t, st.log, AdvanceInfo(st, op).ops[op])
  {
    assert st.log[..|st.log|] == st.log;
    assert IsMoment(t, st.log, Moment(st.db, |st.log|));
  }

  /** Only info requests read moments. */
  lemma OthersReadNoMoment(t: Tables, db: Tables, log: seq<Entry>, o: Op)
    requires OpInv(db, o) && !o.request.Info?
    ensures MomentsInv(t, log, o)
  {
  }

  lemma StepKeepsMoments(t: Tables, st: State, step: Step, i: OpId)
    requires Inv(t, st) && i < |st.ops| && MomentsInv(t, st.log, st.ops[i])
    ensures i < |Next(st, step).ops| && MomentsInv(t, Next(st, step).log, Next(st, step).ops[i])
  {
    var st' := Next(st, step);
    RequestIsKept(st, step, i);
    if !st.ops[i].request.Info? {
      NextKeeps(t, st, step);
      OthersReadNoMoment(t, st'.db, st'.log, st'.ops[i]);
    } else if step.Advance? && step.op == i {
      InfoStepKeepsMoments(t, st, i);
    } else {
      InfoUntouched(st, step, i);
      if st'.ops[i] == st.ops[i] {
        MomentsStay(t, st.log, st'.log, st.ops[i]);
      }
    }
  }

  lemma InfoUntouched(st: State, step: Step, i: OpId)
    requires i < |st.ops| && st.ops[i].request.Info? && !(step.Advance? && step.op == i)
    ensures i < |Next(st, step).ops|
    ensures Next(st, step).ops[i] == st.ops[i] || Next(st, step).ops[i].pc == Finished(Lost(false))
  {
    if step.Advance? && step.op < |st.ops| {
      AdvanceTouches(st, step.op, step.pick, step.flip);
    }
  }

  lemma {:induction false} MomentsAreReal(t: Tables, now: int, steps: seq<Step>, i: OpId)
    requires Coherent(t) && i < |Execute(Initial(t, now), steps).ops|
    ensures MomentsInv(t, Execute(Initial(t, now), steps).log, Execute(Initial(t, now), steps).ops[i])
  {
    if steps != [] {
      var front, step := steps[..|steps| - 1], steps[|steps| - 1];
      var st := Execute(Initial(t, now), front);
      Serializable(t, now, front);
      if i < |st.ops| {
        MomentsAreReal(t, now, front, i);
        StepKeepsMoments(t, st, step, i);
      } else {
        ArrivesAtStart(st, step, i);
      }
    }
  }

  /** The history only grows: what was committed by one moment is still there at a later one. */
  lemma {:induction false} HistoryGrows(t: Tables, log: seq<Entry>, n: nat)
    requires Coherent(t) && n <= |log| && Serial(t, log).Success?
    ensures Serial(t, log[..n]).Success?
    ensures Serial(t, log[..n]).value.transfers <= Serial(t, log).value.transfers
    ensures Serial(t, log[..n]).value.purchases <= Serial(t, log).value.purchases
    decreases |log|
  {
    if n < |log| {
      var m := |log| - 1;
      assert log[..m][..n] == log[..n];
      HistoryGrows(t, log[..m], n);
      SerialKeeps(t, log[..m]);
      OneRunGrows(Serial(t, log[..m]).value, log[m]);
    } else {
      assert log[..n] == log;
    }
  }

  lemma OneRunGrows(u: Tables, e: Entry)
    requires Run(u, e.call, e.ids, e.at).Success?
    ensures u.transfers <= Run(u, e.call, e.ids, e.at).value.transfers
    ensures u.purchases <= Run(u, e.call, e.ids, e.at).value.purchases
  {
    if e.call.CreateUsers? {
      InsertUsersTouchesOnlyUsers(u, e.call.params, e.ids);
    }
  }

  // ----- the lists, entry by entry

  function EndOf(row: Transfer, received: bool): UserId {
    if received then row.dst else row.src
  }

  /** The items are, index by index, exactly the committed transfers to the user (or from it), each once, ordered
      by creation time and then by id, with their amounts and the usernames of their other ends. */
  ghost predicate ListsTransfers(t: Tables, user: UserId, items: seq<HistoryItem>, received: bool, rows: seq<Transfer>) {
    && |rows| == |items|
    && (forall i :: 0 <= i < |rows| ==>
          && rows[i] in t.transfers && EndOf(rows[i], received) == user && items[i].amount == rows[i].amount
          && EndOf(rows[i], !received) in t.users && t.users[EndOf(rows[i], !received)].username == items[i].username)
    && (forall i, j :: 0 <= i < j < |rows| ==>
          rows[i].createdAt < rows[j].createdAt || (rows[i].createdAt == rows[j].createdAt && rows[i].id < rows[j].id))
    && (forall row :: row in t.transfers && EndOf(row, received) == user ==> row in rows)
  }

  /** The positions of a user's purchases of an item. */
  function Positions(ps: seq<Purchase>, user: UserId, item: ItemId): set<nat> {
    set i: nat | i < |ps| && ps[i].user == user && ps[i].item == item
  }

  /** The entries are, index by index, exactly the items that the user has bought, each once, ordered by name and
      then by id, with their numbers. */
  ghost predicate ListsInventory(rank: Collation, t: Tables, user: UserId, inventory: seq<InventoryItem>, items: seq<ItemId>) {
    && |items| == |inventory|
    && (forall i :: 0 <= i < |items| ==>
          && items[i] in t.items && inventory[i].kind == t.items[items[i]].name
          && inventory[i].quantity == |Positions(t.purchases, user, items[i])| > 0)
    && (forall i, j :: 0 <= i < j < |items| ==>
          || rank(inventory[i].kind) < rank(inventory[j].kind)
          || (rank(inventory[i].kind) == rank(inventory[j].kind) && items[i] < items[j]))
    && (forall i :: 0 <= i < |t.purchases| && t.purchases[i].user == user ==> t.purchases[i].item in items)
  }

  /** The rows behind the items of a list. */
  function RowsOfList(views: seq<TransferView>, user: UserId, received: bool): seq<Transfer> {
    if views == [] then [] else
    var v := views[|views| - 1];
    RowsOfList(views[..|views| - 1], user, received) + (if EndOf(v.row, received) == user then [v.row] else [])
  }

  function ListOf(views: seq<TransferView>, user: UserId, received: bool): seq<HistoryItem> {
    if received then ReceivedItems(views, user) else SentItems(views, user)
  }

  ghost predicate EntryMatches(t: Tables, user: UserId, received: bool, row: Transfer, item: HistoryItem) {
    && row in t.transfers && EndOf(row, received) == user && item.amount == row.amount
    && EndOf(row, !received) in t.users && t.users[EndOf(row, !received)].username == item.username
  }

  lemma {:induction false} ListMatchesRows(t: Tables, views: seq<TransferView>, user: UserId, received: bool)
    requires ViewsAreRows(t, views)
    ensures |ListOf(views, user, received)| == |RowsOfList(views, user, received)|
    ensures forall i :: 0 <= i < |RowsOfList(views, user, received)| ==>
      EntryMatches(t, user, received, RowsOfList(views, user, received)[i], ListOf(views, user, received)[i])
  {
    if views != [] {
      var front, v := views[..|views| - 1], views[|views| - 1];
      assert forall i :: 0 <= i < |front| ==> front[i] == views[i];
      ListMatchesRows(t, front, user, received);
      var item := HistoryItem(v.row.amount, if received then v.srcUsername else v.dstUsername);
      if EndOf(v.row, received) == user {
        assert ListOf(views, user, received) == ListOf(front, user, received) + [item];
        assert EntryMatches(t, user, received, v.row, item);
      } else {
        assert ListOf(views, user, received) == ListOf(front, user, received);
      }
    }
  }

  lemma {:induction false} RowsOfListMembers(views: seq<TransferView>, user: UserId, received: bool, row: Transfer)
    ensures row in RowsOfList(views, user, received)
      <==> EndOf(row, received) == user && exists i :: 0 <= i < |views| && views[i].row == row
  {
    if views != [] {
      var front, v := views[..|views| - 1], views[|views| - 1];
      RowsOfListMembers(front, user, received, row);
      if exists i :: 0 <= i < |front| && front[i].row == row {
        var i :| 0 <= i < |front| && front[i].row == row;
        assert views[i].row == row;
      }
      if exists i :: 0 <= i < |views| && views[i].row == row {
        var i :| 0 <= i < |views| && views[i].row == row;
        assert i < |front| ==> front[i].row == row;
      }
    }
  }

  ghost predicate ViewsInOrder(views: seq<TransferView>) {
    forall i, j :: 0 <= i < j < |views| ==> Before(views[i].row, views[j].row)
  }

  lemma {:induction false} RowsOfListInOrder(views: seq<TransferView>, user: UserId, received: bool)
    requires ViewsInOrder(views)
    ensures Sorted(RowsOfList(views, user, received))
  {
    if views != [] {
      var front, v := views[..|views| - 1], views[|views| - 1];
      RowsOfListInOrder(front, user, received);
      var rows := RowsOfList(front, user, received);
      forall i | 0 <= i < |rows|
        ensures Before(rows[i], v.row)
      {
        RowsOfListMembers(front, user, received, rows[i]);
        var j :| 0 <= j < |front| && front[j].row == rows[i];
        assert views[j] == front[j];
      }
    }
  }

  lemma SelectedViews(t: Tables, user: UserId)
    requires Coherent(t)
    ensures GetTransfers(t, user).Some? ==>
      var views := GetTransfers(t, user).value;
      && ViewsAreRows(t, views) && ViewsInOrder(views)
      && forall row :: row in t.transfers && Touches(row, user) ==> exists i :: 0 <= i < |views| && views[i].row == row
  {
    var selected := SelectTransfers(t.transfers, user);
    SelectTransfersIsResult(t.transfers, user);
    if GetTransfers(t, user).Some? {
      var views := GetTransfers(t, user).value;
      forall i | 0 <= i < |views|
        ensures views[i].row in t.transfers && views[i].row.dst != views[i].row.src
      {
        assert selected[i] in selected;
      }
      forall row | row in t.transfers && Touches(row, user)
        ensures exists i :: 0 <= i < |views| && views[i].row == row
      {
        assert row in selected;
        var i :| 0 <= i < |selected| && selected[i] == row;
        assert views[i].row == row;
      }
    }
  }

  lemma MatchingRowsAreListed(t: Tables, user: UserId, items: seq<HistoryItem>, received: bool, rows: seq<Transfer>)
    requires |rows| == |items| && Sorted(rows)
    requires forall i :: 0 <= i < |rows| ==> EntryMatches(t, user, received, rows[i], items[i])
    requires forall row :: row in t.transfers && EndOf(row, received) == user ==> row in rows
    ensures ListsTransfers(t, user, items, received, rows)
  {
    assert forall i, j :: 0 <= i < j < |rows| ==> Before(rows[i], rows[j]);
  }

  /** Both lists of a report are the user's transfers, entry by entry. */
  lemma ReportLists(rank: Collation, t1: Tables, t2: Tables, t3: Tables, user: UserId, r: InfoResponse, received: bool)
      returns (rows: seq<Transfer>)
    requires Coherent(t2) && IsReport(rank, t1, t2, t3, user, r)
    ensures ListsTransfers(t2, user, if received then r.received else r.sent, received, rows)
  {
    var views := GetTransfers(t2, user).value;
    SelectedViews(t2, user);
    rows := RowsOfList(views, user, received);
    ListMatchesRows(t2, views, user, received);
    RowsOfListInOrder(views, user, received);
    forall row | row in t2.transfers && EndOf(row, received) == user
      ensures row in rows
    {
      RowsOfListMembers(views, user, received, row);
    }
    MatchingRowsAreListed(t2, user, ListOf(views, user, received), received, rows);
  }

  lemma {:induction false} CountIsBought(ps: seq<Purchase>, user: UserId, item: ItemId)
    ensures CountOf(ps, user, item) == |Positions(ps, user, item)|
  {
    if ps != [] {
      var n := |ps| - 1;
      CountIsBought(ps[..n], user, item);
      var front := Positions(ps[..n], user, item);
      assert Positions(ps, user, item) == if ps[n].user == user && ps[n].item == item then front + {n} else front;
    }
  }

  function ItemsOf(counts: seq<ItemCount>): (items: seq<ItemId>)
    ensures |items| == |counts| && forall i :: 0 <= i < |items| ==> items[i] == counts[i].item
  {
    if counts == [] then [] else ItemsOf(counts[..|counts| - 1]) + [counts[|counts| - 1].item]
  }

  lemma BoughtIsListed(t: Tables, counts: seq<ItemCount>, user: UserId, i: nat)
    requires i < |t.purchases| && t.purchases[i].user == user
    requires CountIn(counts, t.purchases[i].item) == CountOf(t.purchases, user, t.purchases[i].item)
    ensures t.purchases[i].item in ItemsOf(counts)
  {
    var item := t.purchases[i].item;
    CountIsBought(t.purchases, user, item);
    assert i in Positions(t.purchases, user, item);
    if forall j :: 0 <= j < |counts| ==> counts[j].item != item {
      AbsentCount(counts, item);
    }
    var j :| 0 <= j < |counts| && counts[j].item == item;
    assert ItemsOf(counts)[j] == item;
  }

  /** The inventory of a report is what the user has bought, entry by entry. */
  lemma ReportInventoryLists(rank: Collation, t1: Tables, t2: Tables, t3: Tables, user: UserId, r: InfoResponse) returns (items: seq<ItemId>)
    requires Coherent(t1) && IsReport(rank, t1, t2, t3, user, r)
    ensures ListsInventory(rank, t1, user, r.inventory, items)
  {
    var counts := GetItemCounts(rank, t1.items, t1.purchases, user);
    items := ItemsOf(counts);
    ItemCountsForm(rank, t1.items, t1.purchases, user);
    forall i | 0 <= i < |items|
      ensures r.inventory[i].quantity == |Positions(t1.purchases, user, items[i])|
    {
      EntryCount(rank, t1.items, counts, i);
      CountIsBought(t1.purchases, user, items[i]);
    }
    forall i, j | 0 <= i < j < |items|
      ensures rank(r.inventory[i].kind) < rank(r.inventory[j].kind)
              || (rank(r.inventory[i].kind) == rank(r.inventory[j].kind) && items[i] < items[j])
    {
      assert CountBefore(rank, counts[i], counts[j]);
    }
    forall i | 0 <= i < |t1.purchases| && t1.purchases[i].user == user
      ensures t1.purchases[i].item in items
    {
      BoughtIsListed(t1, counts, user, i);
    }
  }

  /** A report read at three moments of one history. Its coins satisfy the ledger equation at the third one; its
      lists are the user's transfers at the second one and its inventory the user's purchases at the first one,
      entry by entry and in order; and every purchase it counts and every transfer it lists belongs to the history
      that the equation adds up. */
  ghost predicate ReportMeans(rank: Collation, t: Tables, log: seq<Entry>, user: UserId,
                              m1: Moment, m2: Moment, m3: Moment, r: InfoResponse) {
    && IsMoment(t, log, m1) && IsMoment(t, log, m2) && IsMoment(t, log, m3)
    && m1.commits <= m2.commits <= m3.commits
    && r.coins as int == Granted(t, log[..m3.commits], user) + Received(m3.tables.transfers, user)
                         - Sent(m3.tables.transfers, user) - Spent(m3.tables.purchases, user)
    && (exists rows :: ListsTransfers(m2.tables, user, r.received, true, rows))
    && (exists rows :: ListsTransfers(m2.tables, user, r.sent, false, rows))
    && (exists items :: ListsInventory(rank, m1.tables, user, r.inventory, items))
    && Amounts(r.received) == Received(m2.tables.transfers, user)
    && Amounts(r.sent) == Sent(m2.tables.transfers, user)
    && Worth(m1.tables, r.inventory) == Spent(m1.tables.purchases, user)
    && m1.tables.purchases <= m3.tables.purchases
    && m2.tables.transfers <= m3.tables.transfers
  }

  lemma MomentIsCoherent(t: Tables, log: seq<Entry>, m: Moment)
    requires Coherent(t) && IsMoment(t, log, m)
    ensures Coherent(m.tables)
  {
    SerialKeeps(t, log[..m.commits]);
  }

  lemma EarlierHistory(t: Tables, log: seq<Entry>, early: Moment, late: Moment)
    requires Coherent(t) && IsMoment(t, log, early) && IsMoment(t, log, late) && early.commits <= late.commits
    ensures early.tables.purchases <= late.tables.purchases && early.tables.transfers <= late.tables.transfers
  {
    assert log[..late.commits][..early.commits] == log[..early.commits];
    HistoryGrows(t, log[..late.commits], early.commits);
  }

  lemma ThreeMoments(rank: Collation, t: Tables, log: seq<Entry>, user: UserId, m1: Moment, m2: Moment, m3: Moment, r: InfoResponse)
    requires Coherent(t)
    requires IsMoment(t, log, m1) && IsMoment(t, log, m2) && IsMoment(t, log, m3)
    requires m1.commits <= m2.commits <= m3.commits
    requires IsReport(rank, m1.tables, m2.tables, m3.tables, user, r)
    ensures ReportMeans(rank, t, log, user, m1, m2, m3, r)
  {
    MomentIsCoherent(t, log, m1);
    MomentIsCoherent(t, log, m2);
    ReportHistory(rank, m1.tables, m2.tables, m3.tables, user, r);
    ReportInventory(rank, m1.tables, m2.tables, m3.tables, user, r);
    var received := ReportLists(rank, m1.tables, m2.tables, m3.tables, user, r, true);
    var sent := ReportLists(rank, m1.tables, m2.tables, m3.tables, user, r, false);
    var items := ReportInventoryLists(rank, m1.tables, m2.tables, m3.tables, user, r);
    LedgerEquation(t, log[..m3.commits], user);
    EarlierHistory(t, log, m1, m3);
    EarlierHistory(t, log, m2, m3);
  }
}
