/** What holds in every reachable state: each session's locals agree with the committed rows it has
    locked, locks are exclusive, and the committed tables are those of the atomic ledger. */
module Invariant {
  import opened Schema
  import opened Wrappers
  import opened Ledger
  import opened Accounting
  import opened Protocol

  function UserRows(ids: set<UserId>): set<Key> {
    set id | id in ids :: UserRow(id)
  }

  /** A transaction that has begun and written nothing, holding `held`. */
  function Holding(tx: Tx, held: set<Key>): Tx {
    NO_TX.(startedAt := tx.startedAt, held := held)
  }

  /** The unlocked lookup by name is still right: users are never renamed or deleted. */
  ghost predicate DstKnown(db: Tables, request: Request, dst: UserId)
    requires request.Send?
  {
    request.src != dst && request.dstUsername in db.byName && db.byName[request.dstUsername] == dst && dst in db.users
  }

  ghost predicate ItemKnown(db: Tables, request: Request, item: ItemId, price: int64)
    requires request.Buy?
  {
    request.itemName in db.itemByName && db.itemByName[request.itemName] == item && item in db.items && db.items[item].price == price
  }

  ghost predicate SendInv(db: Tables, o: Op)
    requires o.request.Send?
  {
    var src, amount := o.request.src, o.request.amount;
    match o.pc
    case Start => o.tx == NO_TX
    case SendChecked(dst) => DstKnown(db, o.request, dst) && o.tx == NO_TX
    case SendBegun(dst) => DstKnown(db, o.request, dst) && o.tx == Holding(o.tx, {})
    case SendLocking(dst, todo, got) =>
      && DstKnown(db, o.request, dst)
      && o.tx == Holding(o.tx, UserRows(got.Keys))
      && got.Keys <= {src, dst}
      && (forall id :: id in got ==> id in db.users && got[id] == db.users[id].balance)
      && (forall i :: 0 <= i < |todo| ==> todo[i] in {src, dst} && todo[i] in db.users && todo[i] !in got)
      && |todo| <= 2 && (|todo| == 2 ==> todo[0] != todo[1])
      && (dst in got || dst in todo)
    case SendInsert(dst, srcBalance, dstBalance) =>
      && DstKnown(db, o.request, dst) && src in db.users
      && o.tx == Holding(o.tx, {UserRow(src), UserRow(dst)})
      && 0 <= srcBalance == Sub64(db.users[src].balance, amount)
      && dstBalance == Add64(db.users[dst].balance, amount)
    case SendDebit(dst, srcBalance, dstBalance) =>
      && DstKnown(db, o.request, dst) && src in db.users
      && SendInserted(db, o, dst)
      && o.tx.balances == map[]
      && 0 <= srcBalance == Sub64(db.users[src].balance, amount)
      && dstBalance == Add64(db.users[dst].balance, amount)
    case SendCredit(dst, dstBalance) =>
      && DstKnown(db, o.request, dst) && src in db.users
      && SendInserted(db, o, dst)
      && o.tx.balances == map[src := Sub64(db.users[src].balance, amount)]
      && NonNegativeInt32(Sub64(db.users[src].balance, amount))
      && dstBalance == Add64(db.users[dst].balance, amount)
    case SendCommit(dst) =>
      && DstKnown(db, o.request, dst) && src in db.users
      && SendInserted(db, o, dst)
      && o.tx.balances == map[src := Sub64(db.users[src].balance, amount), dst := Add64(db.users[dst].balance, amount)]
      && NonNegativeInt32(Sub64(db.users[src].balance, amount))
      && NonNegativeInt32(Add64(db.users[dst].balance, amount))
    case Finished(outcome) => o.tx == NO_TX && !outcome.Authenticated? && !outcome.Report?
    case _ => false
  }

  ghost predicate SendInserted(db: Tables, o: Op, dst: UserId)
    requires o.request.Send?
  {
    && NonNegativeInt32(o.request.amount)
    && |o.tx.transfers| == 1
    && !HasTransfer(db, o.tx.transfers[0].id)
    && o.tx.transfers[0] == Transfer(o.tx.transfers[0].id, o.tx.startedAt, dst, o.request.src, o.request.amount)
    && o.tx == Holding(o.tx, {UserRow(o.request.src), UserRow(dst), TransferRow(o.tx.transfers[0].id)})
                 .(balances := o.tx.balances, transfers := o.tx.transfers)
  }

  ghost predicate BuyInv(db: Tables, o: Op)
    requires o.request.Buy?
  {
    var user := o.request.user;
    match o.pc
    case Start => o.tx == NO_TX
    case BuyFound(item, price) => ItemKnown(db, o.request, item, price) && o.tx == NO_TX
    case BuyBegun(item, price) => ItemKnown(db, o.request, item, price) && o.tx == Holding(o.tx, {})
    case BuyInsert(item, price, balance) =>
      && ItemKnown(db, o.request, item, price) && user in db.users
      && o.tx == Holding(o.tx, {UserRow(user)})
      && 0 <= balance == Sub64(db.users[user].balance, price)
    case BuyDebit(item, balance) =>
      && item in db.items && ItemKnown(db, o.request, item, db.items[item].price) && user in db.users
      && BuyInserted(db, o, item)
      && o.tx.balances == map[]
      && 0 <= balance == Sub64(db.users[user].balance, db.items[item].price)
    case BuyCommit(item) =>
      && item in db.items && ItemKnown(db, o.request, item, db.items[item].price) && user in db.users
      && BuyInserted(db, o, item)
      && o.tx.balances == map[user := Sub64(db.users[user].balance, db.items[item].price)]
      && NonNegativeInt32(Sub64(db.users[user].balance, db.items[item].price))
    case Finished(outcome) => o.tx == NO_TX && !outcome.Authenticated? && !outcome.Report?
    case _ => false
  }

  ghost predicate BuyInserted(db: Tables, o: Op, item: ItemId)
    requires o.request.Buy? && item in db.items
  {
    && |o.tx.purchases| == 1
    && !HasPurchase(db, o.tx.purchases[0].id)
    && o.tx.purchases[0] == Purchase(o.tx.purchases[0].id, o.tx.startedAt, o.request.user, item, db.items[item].price)
    && o.tx == Holding(o.tx, {UserRow(o.request.user), PurchaseRow(o.tx.purchases[0].id)})
                 .(balances := o.tx.balances, purchases := o.tx.purchases)
  }

  function PendingUsers(params: seq<User>, ids: seq<UserId>): map<UserId, User>
    requires |ids| <= |params|
  {
    if ids == [] then map[] else PendingUsers(params, ids[..|ids| - 1])[ids[|ids| - 1] := params[|ids| - 1]]
  }

  function PendingNames(params: seq<User>, ids: seq<UserId>): map<string, UserId>
    requires |ids| <= |params|
  {
    if ids == [] then map[] else PendingNames(params, ids[..|ids| - 1])[params[|ids| - 1].username := ids[|ids| - 1]]
  }

  function PendingKeys(params: seq<User>, ids: seq<UserId>): set<Key>
    requires |ids| <= |params|
  {
    if ids == [] then {}
    else PendingKeys(params, ids[..|ids| - 1]) + {UserRow(ids[|ids| - 1]), Username(params[|ids| - 1].username)}
  }

  /** The rows inserted so far by one session collide neither with each other nor with committed rows. */
  ghost predicate PendingFree(db: Tables, params: seq<User>, ids: seq<UserId>) {
    && |ids| <= |params|
    && (forall i :: 0 <= i < |ids| ==>
          NonNegativeInt32(params[i].balance) && ids[i] !in db.users && params[i].username !in db.byName)
    && (forall i, j :: 0 <= i < j < |ids| ==> ids[i] != ids[j] && params[i].username != params[j].username)
  }

  ghost predicate PendingInv(db: Tables, tx: Tx, params: seq<User>, ids: seq<UserId>) {
    && PendingFree(db, params, ids)
    && tx == Holding(tx, PendingKeys(params, ids)).(users := PendingUsers(params, ids), names := PendingNames(params, ids))
  }

  ghost predicate CreateInv(db: Tables, o: Op)
    requires o.request.Create?
  {
    match o.pc
    case Start => o.tx == NO_TX
    case CreateBegun => o.tx == Holding(o.tx, {})
    case CreateInserting(ids) =>
      && PendingInv(db, o.tx, o.request.params, ids)
      && (forall i :: 0 <= i < |o.request.params| ==> Int32(o.request.params[i].balance))
    case Finished(outcome) => o.tx == NO_TX && !outcome.Authenticated? && !outcome.Report?
    case _ => false
  }

  /** The check of the request gives this verdict on the hash stored under its username. */
  predicate StoredHashAnswers(db: Tables, request: Request, verdict: Verdict)
    requires request.Authenticate?
  {
    && request.username in db.byName && db.byName[request.username] in db.users
    && request.check(db.users[db.byName[request.username]].passwordHash) == verdict
  }

  ghost predicate AuthInv(db: Tables, o: Op)
    requires o.request.Authenticate?
  {
    var username := o.request.username;
    match o.pc
    case Start => o.tx == NO_TX
    case AuthMissing => o.tx == NO_TX
    case AuthInserted(id) => PendingInv(db, o.tx, [User(username, o.request.newHash, DEFAULT_BALANCE)], [id])
    case AuthConflict => o.tx == NO_TX && username in db.byName
    case Finished(outcome) =>
      && o.tx == NO_TX && !outcome.Report? && !outcome.Completed?
      && (outcome.Failed? ==> outcome.error == Rejected)
      && (outcome.BadPassword? ==> StoredHashAnswers(db, o.request, Mismatch))
      && (outcome.BadHash? ==> StoredHashAnswers(db, o.request, Malformed))
      && (outcome.Authenticated? ==>
            && username in db.byName && db.byName[username] == outcome.user && outcome.user in db.users
            && (outcome.via.Verified? ==> o.request.check(db.users[outcome.user].passwordHash).Match?)
            && (outcome.via.Created? ==> db.users[outcome.user].passwordHash == o.request.newHash))
    case _ => false
  }

  ghost predicate InfoInv(db: Tables, o: Op)
    requires o.request.Info?
  {
    && o.tx == NO_TX
    && (o.pc.Start? || o.pc.InfoCounted? || o.pc.InfoListed? || o.pc.Finished?)
    && (o.pc.Finished? ==> !o.pc.outcome.Authenticated? && !o.pc.outcome.Completed?)
  }

  ghost predicate OpInv(db: Tables, o: Op) {
    match o.request
    case Send(_, _, _) => SendInv(db, o)
    case Buy(_, _) => BuyInv(db, o)
    case Create(_) => CreateInv(db, o)
    case Authenticate(_, _, _) => AuthInv(db, o)
    case Info(_) => InfoInv(db, o)
  }

  /** The lock table says exactly what the sessions hold; in particular no key is held twice. */
  ghost predicate LocksInv(st: State) {
    && (forall k :: k in st.locks ==> st.locks[k] < |st.ops| && k in st.ops[st.locks[k]].tx.held)
    && (forall op, k :: 0 <= op < |st.ops| && k in st.ops[op].tx.held ==> k in st.locks && st.locks[k] == op)
  }

  ghost predicate OpsInv(db: Tables, ops: seq<Op>) {
    forall op :: 0 <= op < |ops| ==> OpInv(db, ops[op])
  }

  ghost predicate Inv(t: Tables, st: State) {
    && Coherent(t)
    && Serial(t, st.log) == Success(st.db)
    && LocksInv(st)
    && OpsInv(st.db, st.ops)
  }

  // ----- what a step of one session guarantees to every other session

  /** Committed rows only change where the stepping session `op` holds the key. */
  ghost predicate Stable(db: Tables, db': Tables, held: set<Key>) {
    && (forall id :: id in db.users ==>
          && id in db'.users
          && db'.users[id].username == db.users[id].username
          && db'.users[id].passwordHash == db.users[id].passwordHash
          && (UserRow(id) !in held ==> db'.users[id] == db.users[id]))
    && (forall id :: id in db'.users && id !in db.users ==> UserRow(id) in held)
    && (forall name :: name in db.byName ==> name in db'.byName && db'.byName[name] == db.byName[name])
    && (forall name :: name in db'.byName && name !in db.byName ==> Username(name) in held)
    && db'.items == db.items && db'.itemByName == db.itemByName
    && (forall id :: HasTransfer(db', id) && !HasTransfer(db, id) ==> TransferRow(id) in held)
    && (forall id :: HasPurchase(db', id) && !HasPurchase(db, id) ==> PurchaseRow(id) in held)
  }

  lemma {:induction false} PendingCovers(params: seq<User>, ids: seq<UserId>, i: nat)
    requires i < |ids| <= |params|
    ensures UserRow(ids[i]) in PendingKeys(params, ids) && Username(params[i].username) in PendingKeys(params, ids)
    ensures ids[i] in PendingUsers(params, ids) && params[i].username in PendingNames(params, ids)
  {
    if i < |ids| - 1 {
      PendingCovers(params, ids[..|ids| - 1], i);
    }
  }

  lemma {:induction false} PendingIdIndex(params: seq<User>, ids: seq<UserId>, id: UserId) returns (i: nat)
    requires |ids| <= |params| && id in PendingUsers(params, ids)
    ensures i < |ids| && ids[i] == id
  {
    i := |ids| - 1;
    if ids[i] != id {
      i := PendingIdIndex(params, ids[..i], id);
    }
  }

  lemma {:induction false} PendingNameIndex(params: seq<User>, ids: seq<UserId>, name: string) returns (i: nat)
    requires |ids| <= |params| && name in PendingNames(params, ids)
    ensures i < |ids| && params[i].username == name
  {
    i := |ids| - 1;
    if params[i].username != name {
      i := PendingNameIndex(params, ids[..i], name);
    }
  }

  lemma PendingStays(db: Tables, db': Tables, held: set<Key>, tx: Tx, params: seq<User>, ids: seq<UserId>)
    requires Stable(db, db', held) && PendingInv(db, tx, params, ids) && held !! tx.held
    ensures PendingInv(db', tx, params, ids)
  {
    forall i | 0 <= i < |ids|
      ensures ids[i] !in db'.users && params[i].username !in db'.byName
    {
      PendingCovers(params, ids, i);
    }
  }

  /** Rely-guarantee: a session's invariant survives every change made under keys it does not hold. */
  lemma OpStays(db: Tables, db': Tables, held: set<Key>, o: Op)
    requires Stable(db, db', held) && OpInv(db, o) && held !! o.tx.held
    ensures OpInv(db', o)
  {
    match o.request
    case Send(_, src, _) =>
      SendStays(db, db', held, o);
    case Buy(_, user) =>
      BuyStays(db, db', held, o);
    case Create(params) =>
      if o.pc.CreateInserting? {
        PendingStays(db, db', held, o.tx, params, o.pc.ids);
      }
    case Authenticate(username, newHash, _) =>
      if o.pc.AuthInserted? {
        PendingStays(db, db', held, o.tx, [User(username, newHash, DEFAULT_BALANCE)], [o.pc.id]);
      }
    case Info(_) =>
  }

  lemma SendStays(db: Tables, db': Tables, held: set<Key>, o: Op)
    requires o.request.Send?
    requires Stable(db, db', held) && SendInv(db, o) && held !! o.tx.held
    ensures SendInv(db', o)
  {
    match o.pc
    case SendLocking(dst, todo, got) =>
      forall id | id in got
        ensures id in db'.users && got[id] == db'.users[id].balance
      {
        assert UserRow(id) in o.tx.held;
      }
    case SendInsert(dst, _, _) =>
      assert UserRow(o.request.src) in o.tx.held && UserRow(dst) in o.tx.held;
    case SendDebit(dst, _, _) =>
      assert UserRow(o.request.src) in o.tx.held && UserRow(dst) in o.tx.held;
      assert TransferRow(o.tx.transfers[0].id) in o.tx.held;
    case SendCredit(dst, _) =>
      assert UserRow(o.request.src) in o.tx.held && UserRow(dst) in o.tx.held;
      assert TransferRow(o.tx.transfers[0].id) in o.tx.held;
    case SendCommit(dst) =>
      assert UserRow(o.request.src) in o.tx.held && UserRow(dst) in o.tx.held;
      assert TransferRow(o.tx.transfers[0].id) in o.tx.held;
    case _ =>
  }

  lemma BuyStays(db: Tables, db': Tables, held: set<Key>, o: Op)
    requires o.request.Buy?
    requires Stable(db, db', held) && BuyInv(db, o) && held !! o.tx.held
    ensures BuyInv(db', o)
  {
    match o.pc
    case BuyInsert(_, _, _) =>
      assert UserRow(o.request.user) in o.tx.held;
    case BuyDebit(_, _) =>
      assert UserRow(o.request.user) in o.tx.held && PurchaseRow(o.tx.purchases[0].id) in o.tx.held;
    case BuyCommit(_) =>
      assert UserRow(o.request.user) in o.tx.held && PurchaseRow(o.tx.purchases[0].id) in o.tx.held;
    case _ =>
  }
}
