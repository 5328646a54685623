/** The atomic ledger: what each operation does when it runs alone, with nothing in between.
    The concurrent protocol is proved to refine it. */
module Ledger {
  import opened Schema
  import opened Wrappers

  const DEFAULT_BALANCE: int := 1000

  /** The definite failures of an operation. `Rejected` is any constraint or range violation
      reported by the database. */
  datatype Error =
    | DstUserNotFound
    | SameUser
    | UserNotExist
    | ItemNotExist
    | NotEnough
    | UserExists
    | Rejected

  datatype Call =
    | SendCoins(dstUsername: string, src: UserId, amount: int64)
    | BuyItem(itemName: string, user: UserId)
    | CreateUsers(params: seq<User>)

  predicate HasTransfer(t: Tables, id: RowId) {
    exists i :: 0 <= i < |t.transfers| && t.transfers[i].id == id
  }

  predicate HasPurchase(t: Tables, id: RowId) {
    exists i :: 0 <= i < |t.purchases| && t.purchases[i].id == id
  }

  /** TransferByUsername, alone. `id` and `at` are the row's generated columns. */
  function RunTransfer(t: Tables, dstUsername: string, src: UserId, amount: int64, id: RowId, at: int): Result<Tables, Error> {
    if dstUsername !in t.byName then Failure(DstUserNotFound) else
    var dst := t.byName[dstUsername];
    if src == dst then Failure(SameUser) else
    if src !in t.users || dst !in t.users then Failure(UserNotExist) else
    var srcBalance := Sub64(t.users[src].balance, amount);
    if srcBalance < 0 then Failure(NotEnough) else
    var dstBalance := Add64(t.users[dst].balance, amount);
    if !NonNegativeInt32(amount) || HasTransfer(t, id) then Failure(Rejected) else
    if !NonNegativeInt32(srcBalance) then Failure(Rejected) else
    if !NonNegativeInt32(dstBalance) then Failure(Rejected) else
    Success(t.(
      users := t.users[src := t.users[src].(balance := srcBalance)][dst := t.users[dst].(balance := dstBalance)],
      transfers := t.transfers + [Transfer(id, at, dst, src, amount)]))
  }

  /** PurchaseByName, alone. */
  function RunPurchase(t: Tables, itemName: string, user: UserId, id: RowId, at: int): Result<Tables, Error> {
    if itemName !in t.itemByName || t.itemByName[itemName] !in t.items then Failure(ItemNotExist) else
    var item := t.itemByName[itemName];
    var price := t.items[item].price;
    if user !in t.users then Failure(UserNotExist) else
    var balance := Sub64(t.users[user].balance, price);
    if balance < 0 then Failure(NotEnough) else
    if !NonNegativeInt32(price) || HasPurchase(t, id) then Failure(Rejected) else
    if !NonNegativeInt32(balance) then Failure(Rejected) else
    Success(t.(
      users := t.users[user := t.users[user].(balance := balance)],
      purchases := t.purchases + [Purchase(id, at, user, item, price)]))
  }

  /** One row of INSERT INTO users: the check constraint, then the two unique indexes. */
  function InsertUser(t: Tables, user: User, id: UserId): Result<Tables, Error> {
    if !NonNegativeInt32(user.balance) || id in t.users then Failure(Rejected)
    else if user.username in t.byName then Failure(UserExists)
    else Success(t.(users := t.users[id := user], byName := t.byName[user.username := id]))
  }

  function InsertUsers(t: Tables, params: seq<User>, ids: seq<UserId>): Result<Tables, Error>
    requires |params| == |ids|
  {
    if params == [] then Success(t) else
    var n := |params| - 1;
    match InsertUsers(t, params[..n], ids[..n])
    case Failure(e) => Failure(e)
    case Success(u) => InsertUser(u, params[n], ids[n])
  }

  /** CreateUsers, alone: the copy into the temporary table checks the integer range of every row
      before the first one is inserted. */
  function RunCreate(t: Tables, params: seq<User>, ids: seq<UserId>): Result<Tables, Error> {
    if |params| != |ids| || exists i :: 0 <= i < |params| && !Int32(params[i].balance) then Failure(Rejected)
    else InsertUsers(t, params, ids)
  }

  function Run(t: Tables, call: Call, ids: seq<nat>, at: int): Result<Tables, Error> {
    match call
    case SendCoins(dstUsername, src, amount) =>
      if |ids| != 1 then Failure(Rejected) else RunTransfer(t, dstUsername, src, amount, ids[0], at)
    case BuyItem(itemName, user) =>
      if |ids| != 1 then Failure(Rejected) else RunPurchase(t, itemName, user, ids[0], at)
    case CreateUsers(params) => RunCreate(t, params, ids)
  }

  // ----- sums over the history

  function Received(ts: seq<Transfer>, u: UserId): int {
    if ts == [] then 0
    else Received(ts[..|ts| - 1], u) + (if ts[|ts| - 1].dst == u then ts[|ts| - 1].amount else 0)
  }

  function Sent(ts: seq<Transfer>, u: UserId): int {
    if ts == [] then 0
    else Sent(ts[..|ts| - 1], u) + (if ts[|ts| - 1].src == u then ts[|ts| - 1].amount else 0)
  }

  function Spent(ps: seq<Purchase>, u: UserId): int {
    if ps == [] then 0
    else Spent(ps[..|ps| - 1], u) + (if ps[|ps| - 1].user == u then ps[|ps| - 1].amount else 0)
  }

  function SpentByAll(ps: seq<Purchase>): int {
    if ps == [] then 0 else SpentByAll(ps[..|ps| - 1]) + ps[|ps| - 1].amount
  }

  /** What a user must have started with, judged from the balance and the history. */
  function Opening(t: Tables, u: UserId): int
    requires u in t.users
  {
    t.users[u].balance - Received(t.transfers, u) + Sent(t.transfers, u) + Spent(t.purchases, u)
  }

  /** Every account of `t` is still there in `t'` and its history still explains its balance. */
  ghost predicate KeepsOpenings(t: Tables, t': Tables) {
    forall u :: u in t.users ==> u in t'.users && Opening(t', u) == Opening(t, u)
  }

  ghost function Total(users: map<UserId, User>): int {
    if users == map[] then 0 else
    var id :| id in users;
    users[id].balance + Total(users - {id})
  }

  lemma {:induction false} TotalRemove(users: map<UserId, User>, id: UserId)
    requires id in users
    ensures Total(users) == users[id].balance + Total(users - {id})
    decreases |users|
  {
    var x :| x in users && Total(users) == users[x].balance + Total(users - {x});
    if x != id {
      TotalRemove(users - {x}, id);
      TotalRemove(users - {id}, x);
      assert users - {x} - {id} == users - {id} - {x};
    }
  }

  lemma TotalUpdate(users: map<UserId, User>, id: UserId, user: User)
    ensures Total(users[id := user]) == user.balance + Total(users) - (if id in users then users[id].balance else 0)
  {
    TotalRemove(users[id := user], id);
    assert users[id := user] - {id} == users - {id};
    if id in users {
      TotalRemove(users, id);
    } else {
      assert users - {id} == users;
    }
  }

  /** Every coin in the system: those still held and those spent on items. */
  ghost function Supply(t: Tables): int {
    Total(t.users) + SpentByAll(t.purchases)
  }

  function Minted(params: seq<User>): int {
    if params == [] then 0 else Minted(params[..|params| - 1]) + params[|params| - 1].balance
  }

  // ----- what a single operation keeps

  lemma NoHistoryBefore(t: Tables, u: UserId)
    requires Constraints(t) && u !in t.users
    ensures Received(t.transfers, u) == Sent(t.transfers, u) == Spent(t.purchases, u) == 0
  {
    NoTransfers(t.transfers, u);
    NoPurchases(t.purchases, u);
  }

  lemma {:induction false} NoTransfers(ts: seq<Transfer>, u: UserId)
    requires forall i :: 0 <= i < |ts| ==> ts[i].dst != u && ts[i].src != u
    ensures Received(ts, u) == Sent(ts, u) == 0
  {
    if ts != [] {
      NoTransfers(ts[..|ts| - 1], u);
    }
  }

  lemma {:induction false} NoPurchases(ps: seq<Purchase>, u: UserId)
    requires forall i :: 0 <= i < |ps| ==> ps[i].user != u
    ensures Spent(ps, u) == 0
  {
    if ps != [] {
      NoPurchases(ps[..|ps| - 1], u);
    }
  }

  /** When a transfer run alone succeeds, and what it then does: exactly the rows of the two ends
      change, by `amount`, and one row is appended. The 64-bit arithmetic of the code and the
      32-bit columns leave no other successful case, negative and extreme amounts included. */
  lemma TransferMeaning(t: Tables, dstUsername: string, src: UserId, amount: int64, id: RowId, at: int)
    requires Constraints(t)
    ensures var r := RunTransfer(t, dstUsername, src, amount, id, at);
      (r.Success? <==>
        && dstUsername in t.byName && t.byName[dstUsername] != src && src in t.users && !HasTransfer(t, id)
        && 0 <= amount <= t.users[src].balance
        && t.users[t.byName[dstUsername]].balance + amount <= MAX_INT32)
    ensures var r := RunTransfer(t, dstUsername, src, amount, id, at);
      r.Success? ==>
        var dst := t.byName[dstUsername];
        && r.value.users.Keys == t.users.Keys
        && (forall u :: u in t.users ==> r.value.users[u] == t.users[u].(balance := t.users[u].balance
              - (if u == src then amount else 0) + (if u == dst then amount else 0)))
        && r.value == t.(users := r.value.users, transfers := t.transfers + [Transfer(id, at, dst, src, amount)])
  {
  }

  /** The code's "not enough" test is the intended `balance < amount` exactly for the amounts whose
      subtraction does not wrap; the remaining, hugely negative ones are reported as "not enough" too. */
  lemma NotEnoughMeaning(balance: int, amount: int64)
    requires NonNegativeInt32(balance)
    ensures Sub64(balance, amount) < 0 <==> balance < amount || balance - amount > MAX_INT64
    ensures (Sub64(balance, amount) < 0 <==> balance < amount) <==> balance - amount <= MAX_INT64
    ensures Sub64(0, MIN_INT64) < 0 && !(0 < MIN_INT64)
  {
  }

  /** Changing balances within range and adding users keeps the references of the history valid. */
  lemma HistoryStaysValid(t: Tables, t': Tables)
    requires Coherent(t) && UsersValid(t')
    requires t' == t.(users := t'.users, byName := t'.byName) && t.users.Keys <= t'.users.Keys
    ensures Coherent(t')
  {
    assert ItemsValid(t');
    assert TransfersValid(t');
    assert PurchasesValid(t');
  }

  lemma AppendTransferValid(t: Tables, row: Transfer)
    requires TransfersValid(t) && row.dst in t.users && row.src in t.users
    requires NonNegativeInt32(row.amount) && !HasTransfer(t, row.id)
    ensures TransfersValid(t.(transfers := t.transfers + [row]))
  {
    var ts := t.transfers + [row];
    forall i, j | 0 <= i < j < |ts|
      ensures ts[i].id != ts[j].id
    {
      assert ts[i] == t.transfers[i];
    }
  }

  lemma AppendPurchaseValid(t: Tables, row: Purchase)
    requires PurchasesValid(t) && row.user in t.users && row.item in t.items
    requires NonNegativeInt32(row.amount) && !HasPurchase(t, row.id)
    ensures PurchasesValid(t.(purchases := t.purchases + [row]))
  {
    var ps := t.purchases + [row];
    forall i, j | 0 <= i < j < |ps|
      ensures ps[i].id != ps[j].id
    {
      assert ps[i] == t.purchases[i];
    }
  }

  lemma AppendTransferCoherent(t: Tables, row: Transfer)
    requires Coherent(t) && row.dst in t.users && row.src in t.users && row.dst != row.src
    requires NonNegativeInt32(row.amount) && !HasTransfer(t, row.id)
    ensures Coherent(t.(transfers := t.transfers + [row]))
  {
    AppendTransferValid(t, row);
    var t' := t.(transfers := t.transfers + [row]);
    assert UsersValid(t') && ItemsValid(t') && PurchasesValid(t');
  }

  lemma MovedUsersValid(t: Tables, t': Tables)
    requires UsersValid(t) && t'.byName == t.byName && t'.users.Keys == t.users.Keys
    requires forall u :: u in t.users ==> t'.users[u] == t.users[u].(balance := t'.users[u].balance)
    requires forall u :: u in t.users ==> NonNegativeInt32(t'.users[u].balance)
    ensures UsersValid(t')
  {
  }

  lemma TransferCoherent(t: Tables, dstUsername: string, src: UserId, amount: int64, id: RowId, at: int)
    requires Coherent(t)
    requires RunTransfer(t, dstUsername, src, amount, id, at).Success?
    ensures Coherent(RunTransfer(t, dstUsername, src, amount, id, at).value)
  {
    var t' := RunTransfer(t, dstUsername, src, amount, id, at).value;
    TransferMeaning(t, dstUsername, src, amount, id, at);
    var moved := t.(users := t'.users);
    MovedUsersValid(t, moved);
    HistoryStaysValid(t, moved);
    AppendTransferCoherent(moved, Transfer(id, at, t.byName[dstUsername], src, amount));
  }

  lemma PurchaseCoherent(t: Tables, itemName: string, user: UserId, id: RowId, at: int)
    requires Coherent(t)
    requires RunPurchase(t, itemName, user, id, at).Success?
    ensures Coherent(RunPurchase(t, itemName, user, id, at).value)
  {
    var t' := RunPurchase(t, itemName, user, id, at).value;
    PurchaseMeaning(t, itemName, user, id, at);
    var item := t.itemByName[itemName];
    var charged := t.(users := t'.users);
    HistoryStaysValid(t, charged);
    AppendPurchaseValid(charged, Purchase(id, at, user, item, t.items[item].price));
    assert t' == charged.(purchases := t'.purchases);
    assert ItemsValid(t') && TransfersValid(t');
  }

  lemma TransferSupply(t: Tables, dstUsername: string, src: UserId, amount: int64, id: RowId, at: int)
    requires Constraints(t)
    requires RunTransfer(t, dstUsername, src, amount, id, at).Success?
    ensures Supply(RunTransfer(t, dstUsername, src, amount, id, at).value) == Supply(t)
  {
    var t' := RunTransfer(t, dstUsername, src, amount, id, at).value;
    var dst := t.byName[dstUsername];
    var mid := t.users[src := t'.users[src]];
    TotalUpdate(t.users, src, t'.users[src]);
    TotalUpdate(mid, dst, t'.users[dst]);
    assert t'.users == mid[dst := t'.users[dst]];
  }

  lemma TransferKeeps(t: Tables, dstUsername: string, src: UserId, amount: int64, id: RowId, at: int)
    requires Coherent(t)
    requires RunTransfer(t, dstUsername, src, amount, id, at).Success?
    ensures var t' := RunTransfer(t, dstUsername, src, amount, id, at).value;
      && Coherent(t')
      && t'.users.Keys == t.users.Keys
      && KeepsOpenings(t, t')
      && Supply(t') == Supply(t)
      && t'.items == t.items && t'.itemByName == t.itemByName
  {
    var t' := RunTransfer(t, dstUsername, src, amount, id, at).value;
    TransferMeaning(t, dstUsername, src, amount, id, at);
    TransferCoherent(t, dstUsername, src, amount, id, at);
    TransferSupply(t, dstUsername, src, amount, id, at);
    assert t'.transfers[..|t.transfers|] == t.transfers;
  }

  lemma PurchaseMeaning(t: Tables, itemName: string, user: UserId, id: RowId, at: int)
    requires Constraints(t)
    ensures var r := RunPurchase(t, itemName, user, id, at);
      (r.Success? <==>
        && itemName in t.itemByName && user in t.users && !HasPurchase(t, id)
        && t.items[t.itemByName[itemName]].price <= t.users[user].balance)
    ensures var r := RunPurchase(t, itemName, user, id, at);
      r.Success? ==>
        var item := t.itemByName[itemName];
        var price := t.items[item].price;
        r.value == t.(
          users := t.users[user := t.users[user].(balance := t.users[user].balance - price)],
          purchases := t.purchases + [Purchase(id, at, user, item, price)])
  {
  }

  lemma PurchaseKeeps(t: Tables, itemName: string, user: UserId, id: RowId, at: int)
    requires Coherent(t)
    requires RunPurchase(t, itemName, user, id, at).Success?
    ensures var t' := RunPurchase(t, itemName, user, id, at).value;
      && Coherent(t')
      && t'.users.Keys == t.users.Keys
      && KeepsOpenings(t, t')
      && Supply(t') == Supply(t)
      && t'.items == t.items && t'.itemByName == t.itemByName
  {
    var t' := RunPurchase(t, itemName, user, id, at).value;
    PurchaseMeaning(t, itemName, user, id, at);
    assert t'.purchases[..|t.purchases|] == t.purchases;
    TotalUpdate(t.users, user, t'.users[user]);
    PurchaseCoherent(t, itemName, user, id, at);
  }

  lemma InsertUserCoherent(t: Tables, user: User, id: UserId)
    requires Coherent(t)
    requires InsertUser(t, user, id).Success?
    ensures Coherent(InsertUser(t, user, id).value)
  {
    var t' := InsertUser(t, user, id).value;
    assert UsersValid(t');
    HistoryStaysValid(t, t');
  }

  /** Inserting one user opens an account at exactly the given balance and nothing else changes. */
  lemma InsertUserKeeps(t: Tables, user: User, id: UserId)
    requires Coherent(t)
    requires InsertUser(t, user, id).Success?
    ensures var t' := InsertUser(t, user, id).value;
      && t'.users.Keys == t.users.Keys + {id} && id !in t.users
      && KeepsOpenings(t, t')
      && Opening(t', id) == user.balance
      && Supply(t') == Supply(t) + user.balance
  {
    NoHistoryBefore(t, id);
    TotalUpdate(t.users, id, user);
  }

  lemma {:induction false} InsertUsersCoherent(t: Tables, params: seq<User>, ids: seq<UserId>)
    requires Coherent(t) && |params| == |ids|
    requires InsertUsers(t, params, ids).Success?
    ensures var t' := InsertUsers(t, params, ids).value;
      Coherent(t') && |t'.users| == |t.users| + |params| && (forall u :: u in t'.users <==> u in t.users || u in ids)
  {
    if params != [] {
      var n := |params| - 1;
      InsertUsersCoherent(t, params[..n], ids[..n]);
      InsertUserCoherent(InsertUsers(t, params[..n], ids[..n]).value, params[n], ids[n]);
      assert ids == ids[..n] + [ids[n]];
    }
  }

  /** The accounts opened between `t` and `t'` are those of `ids`, each at its given balance. */
  ghost predicate Opens(t: Tables, t': Tables, params: seq<User>, ids: seq<UserId>)
    requires |params| == |ids|
  {
    forall i :: 0 <= i < |ids| ==> ids[i] in t'.users && ids[i] !in t.users && Opening(t', ids[i]) == params[i].balance
  }

  lemma {:induction false} InsertUsersKeeps(t: Tables, params: seq<User>, ids: seq<UserId>)
    requires Coherent(t) && |params| == |ids|
    requires InsertUsers(t, params, ids).Success?
    ensures KeepsOpenings(t, InsertUsers(t, params, ids).value)
    ensures Opens(t, InsertUsers(t, params, ids).value, params, ids)
    ensures Supply(InsertUsers(t, params, ids).value) == Supply(t) + Minted(params)
  {
    if params != [] {
      var n := |params| - 1;
      var u := InsertUsers(t, params[..n], ids[..n]).value;
      InsertUsersCoherent(t, params[..n], ids[..n]);
      InsertUsersKeeps(t, params[..n], ids[..n]);
      InsertUserKeeps(u, params[n], ids[n]);
      OpensOneMore(t, u, InsertUsers(t, params, ids).value, params, ids);
    }
  }

  lemma OpensOneMore(t: Tables, u: Tables, t': Tables, params: seq<User>, ids: seq<UserId>)
    requires |params| == |ids| > 0
    requires Opens(t, u, params[..|ids| - 1], ids[..|ids| - 1])
    requires KeepsOpenings(t, u) && KeepsOpenings(u, t')
    requires ids[|ids| - 1] !in u.users && ids[|ids| - 1] in t'.users
    requires Opening(t', ids[|ids| - 1]) == params[|ids| - 1].balance
    ensures KeepsOpenings(t, t') && Opens(t, t', params, ids)
  {
    forall i | 0 <= i < |ids|
      ensures ids[i] in t'.users && ids[i] !in t.users && Opening(t', ids[i]) == params[i].balance
    {
      if i < |ids| - 1 {
        assert ids[..|ids| - 1][i] == ids[i] && params[..|ids| - 1][i] == params[i];
      }
    }
  }

  // ----- runs of the atomic ledger

  /** One completed operation: which session ran it, its arguments and its generated columns. */
  datatype Entry = Entry(op: nat, call: Call, ids: seq<nat>, at: int)

  /** The operations of `log`, one after another, each alone. */
  function Serial(t: Tables, log: seq<Entry>): Result<Tables, Error> {
    if log == [] then Success(t) else
    var e := log[|log| - 1];
    match Serial(t, log[..|log| - 1])
    case Failure(err) => Failure(err)
    case Success(u) => Run(u, e.call, e.ids, e.at)
  }
}
