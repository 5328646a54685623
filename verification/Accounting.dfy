/** The accounting laws of the atomic ledger, over every run. */
module Accounting {
  import opened Schema
  import opened Wrappers
  import opened Ledger

  ghost predicate Keeps(t: Tables, t': Tables, call: Call) {
    && Coherent(t')
    && KeepsOpenings(t, t')
    && t'.items == t.items && t'.itemByName == t.itemByName
    && Supply(t') == Supply(t) + (if call.CreateUsers? then Minted(call.params) else 0)
    && |t'.users| == |t.users| + (if call.CreateUsers? then |call.params| else 0)
  }

  lemma {:induction false} InsertUsersTouchesOnlyUsers(t: Tables, params: seq<User>, ids: seq<UserId>)
    requires |params| == |ids| && InsertUsers(t, params, ids).Success?
    ensures var t' := InsertUsers(t, params, ids).value; t' == t.(users := t'.users, byName := t'.byName)
  {
    if params != [] {
      InsertUsersTouchesOnlyUsers(t, params[..|params| - 1], ids[..|ids| - 1]);
    }
  }

  lemma CreateKeeps(t: Tables, params: seq<User>, ids: seq<nat>, at: int)
    requires Coherent(t) && Run(t, CreateUsers(params), ids, at).Success?
    ensures Keeps(t, Run(t, CreateUsers(params), ids, at).value, CreateUsers(params))
    ensures |ids| == |params| && Opens(t, Run(t, CreateUsers(params), ids, at).value, params, ids)
    ensures forall u :: u in Run(t, CreateUsers(params), ids, at).value.users <==> u in t.users || u in ids
  {
    InsertUsersCoherent(t, params, ids);
    InsertUsersKeeps(t, params, ids);
    InsertUsersTouchesOnlyUsers(t, params, ids);
  }

  lemma MoveKeeps(t: Tables, t': Tables, call: Call)
    requires !call.CreateUsers?
    requires Coherent(t') && KeepsOpenings(t, t') && Supply(t') == Supply(t) && t'.users.Keys == t.users.Keys
    requires t'.items == t.items && t'.itemByName == t.itemByName
    ensures Keeps(t, t', call)
    ensures forall u :: u in t'.users <==> u in t.users
  {
    assert |t'.users| == |t'.users.Keys| && |t.users| == |t.users.Keys|;
  }

  lemma SendKeeps(t: Tables, dstUsername: string, src: UserId, amount: int64, ids: seq<nat>, at: int)
    requires Coherent(t) && |ids| == 1 && RunTransfer(t, dstUsername, src, amount, ids[0], at).Success?
    ensures Keeps(t, RunTransfer(t, dstUsername, src, amount, ids[0], at).value, SendCoins(dstUsername, src, amount))
    ensures forall u :: u in RunTransfer(t, dstUsername, src, amount, ids[0], at).value.users <==> u in t.users
  {
    TransferKeeps(t, dstUsername, src, amount, ids[0], at);
    MoveKeeps(t, RunTransfer(t, dstUsername, src, amount, ids[0], at).value, SendCoins(dstUsername, src, amount));
  }

  lemma BuyKeeps(t: Tables, itemName: string, user: UserId, ids: seq<nat>, at: int)
    requires Coherent(t) && |ids| == 1 && RunPurchase(t, itemName, user, ids[0], at).Success?
    ensures Keeps(t, RunPurchase(t, itemName, user, ids[0], at).value, BuyItem(itemName, user))
    ensures forall u :: u in RunPurchase(t, itemName, user, ids[0], at).value.users <==> u in t.users
  {
    PurchaseKeeps(t, itemName, user, ids[0], at);
    MoveKeeps(t, RunPurchase(t, itemName, user, ids[0], at).value, BuyItem(itemName, user));
  }

  lemma RunKeeps(t: Tables, call: Call, ids: seq<nat>, at: int)
    requires Coherent(t) && Run(t, call, ids, at).Success?
    ensures Keeps(t, Run(t, call, ids, at).value, call)
    ensures call.CreateUsers? ==> |ids| == |call.params| && Opens(t, Run(t, call, ids, at).value, call.params, ids)
    ensures forall u :: u in Run(t, call, ids, at).value.users <==> u in t.users || (call.CreateUsers? && u in ids)
  {
    match call
    case SendCoins(dstUsername, src, amount) =>
      SendKeeps(t, dstUsername, src, amount, ids, at);
    case BuyItem(itemName, user) =>
      BuyKeeps(t, itemName, user, ids, at);
    case CreateUsers(params) =>
      CreateKeeps(t, params, ids, at);
  }

  /** The number of coins created by the registrations of a log. */
  function MintedBy(log: seq<Entry>): int {
    if log == [] then 0 else
    var call := log[|log| - 1].call;
    MintedBy(log[..|log| - 1]) + (if call.CreateUsers? then Minted(call.params) else 0)
  }

  lemma {:induction false} SerialKeeps(t: Tables, log: seq<Entry>)
    requires Coherent(t) && Serial(t, log).Success?
    ensures Coherent(Serial(t, log).value)
    ensures Serial(t, log).value.items == t.items && Serial(t, log).value.itemByName == t.itemByName
    ensures Supply(Serial(t, log).value) == Supply(t) + MintedBy(log)
  {
    if log != [] {
      var e := log[|log| - 1];
      SerialKeeps(t, log[..|log| - 1]);
      RunKeeps(Serial(t, log[..|log| - 1]).value, e.call, e.ids, e.at);
    }
  }

  function IndexOf(ids: seq<UserId>, u: UserId): (i: nat)
    requires u in ids
    ensures i < |ids| && ids[i] == u
  {
    if ids[0] == u then 0 else 1 + IndexOf(ids[1..], u)
  }

  /** What a user's account was opened with: the amount it held in `t`, or the amount granted by the
      registration in `log` that created it. */
  function Granted(t: Tables, log: seq<Entry>, u: UserId): int {
    if u in t.users then Opening(t, u)
    else if log == [] then 0
    else
      var e := log[|log| - 1];
      if e.call.CreateUsers? && |e.ids| == |e.call.params| && u in e.ids then e.call.params[IndexOf(e.ids, u)].balance
      else Granted(t, log[..|log| - 1], u)
  }

  /** The ledger equation: over every run, every balance is what the account was opened with, plus
      all transfers received, minus all transfers sent, minus all purchases. */
  lemma {:induction false} LedgerEquation(t: Tables, log: seq<Entry>, u: UserId)
    requires Coherent(t) && Serial(t, log).Success?
    requires u in Serial(t, log).value.users
    ensures var t' := Serial(t, log).value;
      t'.users[u].balance == Granted(t, log, u) + Received(t'.transfers, u) - Sent(t'.transfers, u) - Spent(t'.purchases, u)
  {
    if log != [] {
      var front, e := log[..|log| - 1], log[|log| - 1];
      var mid := Serial(t, front).value;
      SerialKeeps(t, front);
      RunKeeps(mid, e.call, e.ids, e.at);
      if u in mid.users {
        LedgerEquation(t, front, u);
        assert Opening(Serial(t, log).value, u) == Opening(mid, u);
        if u !in t.users {
          assert !(e.call.CreateUsers? && u in e.ids);
        }
      } else {
        UsersOnlyGrow(t, front, u);
        assert e.ids[IndexOf(e.ids, u)] == u;
      }
    }
  }

  lemma {:induction false} UsersOnlyGrow(t: Tables, log: seq<Entry>, u: UserId)
    requires Coherent(t) && Serial(t, log).Success?
    ensures u in t.users ==> u in Serial(t, log).value.users
  {
    if log != [] {
      UsersOnlyGrow(t, log[..|log| - 1], u);
      SerialKeeps(t, log[..|log| - 1]);
      RunKeeps(Serial(t, log[..|log| - 1]).value, log[|log| - 1].call, log[|log| - 1].ids, log[|log| - 1].at);
    }
  }

  /** A history never loses a user. */
  lemma {:induction false} UserCountGrows(t: Tables, log: seq<Entry>, n: nat)
    requires Coherent(t) && n <= |log| && Serial(t, log).Success?
    ensures Serial(t, log[..n]).Success? && |Serial(t, log[..n]).value.users| <= |Serial(t, log).value.users|
    decreases |log|
  {
    if n < |log| {
      var m := |log| - 1;
      assert log[..m][..n] == log[..n];
      UserCountGrows(t, log[..m], n);
      SerialKeeps(t, log[..m]);
      RunKeeps(Serial(t, log[..m]).value, log[m].call, log[m].ids, log[m].at);
    } else {
      assert log[..n] == log;
    }
  }

  /** Every registration of the log grants exactly the default balance. */
  ghost predicate DefaultGrants(log: seq<Entry>) {
    forall i, j :: 0 <= i < |log| && log[i].call.CreateUsers? && 0 <= j < |log[i].call.params| ==>
      log[i].call.params[j].balance == DEFAULT_BALANCE
  }

  /** No user, no transfer and no purchase yet. */
  ghost predicate Pristine(t: Tables) {
    Coherent(t) && t.users == map[] && t.transfers == [] && t.purchases == []
  }

  lemma {:induction false} MintedDefault(params: seq<User>)
    requires forall j :: 0 <= j < |params| ==> params[j].balance == DEFAULT_BALANCE
    ensures Minted(params) == DEFAULT_BALANCE * |params|
  {
    if params != [] {
      MintedDefault(params[..|params| - 1]);
    }
  }

  /** Global conservation: coins held plus coins spent are always 1000 for each user. */
  lemma {:induction false} Conservation(t: Tables, log: seq<Entry>)
    requires Pristine(t) && DefaultGrants(log) && Serial(t, log).Success?
    ensures Supply(Serial(t, log).value) == DEFAULT_BALANCE * |Serial(t, log).value.users|
  {
    if log != [] {
      var front, e := log[..|log| - 1], log[|log| - 1];
      Conservation(t, front);
      SerialKeeps(t, front);
      RunKeeps(Serial(t, front).value, e.call, e.ids, e.at);
      if e.call.CreateUsers? {
        MintedDefault(e.call.params);
      }
    }
  }

  lemma {:induction false} TotalIsNonNegative(users: map<UserId, User>)
    requires forall id :: id in users ==> users[id].balance >= 0
    ensures Total(users) >= 0
    decreases |users|
  {
    if users != map[] {
      var id :| id in users;
      TotalRemove(users, id);
      TotalIsNonNegative(users - {id});
    }
  }

  lemma {:induction false} SpentByAllIsNonNegative(ps: seq<Purchase>)
    requires forall i :: 0 <= i < |ps| ==> ps[i].amount >= 0
    ensures SpentByAll(ps) >= 0
  {
    if ps != [] {
      SpentByAllIsNonNegative(ps[..|ps| - 1]);
    }
  }

  /** Two different accounts never hold more than the whole supply. */
  lemma TwoBalancesWithinSupply(t: Tables, u: UserId, v: UserId)
    requires Constraints(t) && u in t.users && v in t.users && u != v
    ensures t.users[u].balance + t.users[v].balance <= Supply(t)
  {
    TotalRemove(t.users, u);
    TotalRemove(t.users - {u}, v);
    TotalIsNonNegative(t.users - {u} - {v});
    SpentByAllIsNonNegative(t.purchases);
  }

  // The largest number of users whose coins all together fit one balance column.
  const MAX_SAFE_USERS: nat := 2_147_483

  /** The supply bound rules out overflow: with at most 2147483 users, each granted the default balance,
      a transfer succeeds exactly when its ends exist and differ and the source can pay; the range of
      the destination column never matters. */
  lemma NoOverflow(t: Tables, log: seq<Entry>, dstUsername: string, src: UserId, amount: int64, id: RowId, at: int)
    requires Pristine(t) && DefaultGrants(log) && Serial(t, log).Success?
    requires |Serial(t, log).value.users| <= MAX_SAFE_USERS
    ensures var t' := Serial(t, log).value;
      RunTransfer(t', dstUsername, src, amount, id, at).Success? <==>
        && dstUsername in t'.byName && src in t'.users && t'.byName[dstUsername] != src
        && !HasTransfer(t', id) && 0 <= amount <= t'.users[src].balance
  {
    var t' := Serial(t, log).value;
    SerialKeeps(t, log);
    Conservation(t, log);
    TransferMeaning(t', dstUsername, src, amount, id, at);
    if dstUsername in t'.byName && src in t'.users && t'.byName[dstUsername] != src {
      TwoBalancesWithinSupply(t', src, t'.byName[dstUsername]);
    }
  }
}
