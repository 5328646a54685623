/** The concurrent protocol: any number of sessions, each running one request statement by statement
    against one database under READ COMMITTED isolation. A run is an arbitrary sequence of steps. */
module Protocol {
  import opened Schema
  import opened Ledger

  type OpId = nat

  /** What a transaction can hold exclusively until it ends: a row of `users` (FOR UPDATE, or its own
      new row), and its own new entries in the unique indexes of the three tables. */
  datatype Key = UserRow(id: UserId) | Username(name: string) | TransferRow(row: RowId) | PurchaseRow(row: RowId)

  /** The private side of a session's transaction: what it holds and what it has written so far. */
  datatype Tx = Tx(
    startedAt: int,
    held: set<Key>,
    balances: map<UserId, int64>,
    users: map<UserId, User>,
    names: map<string, UserId>,
    transfers: seq<Transfer>,
    purchases: seq<Purchase>)

  const NO_TX: Tx := Tx(0, {}, map[], map[], map[], [], [])

  /** The result of checking a password against a stored hash. */
  datatype Verdict = Match | Mismatch | Malformed

  /** A request with its arguments. Authentication carries the hash that the creator would store and
      the check of its password against a stored hash. */
  datatype Request =
    | Send(dstUsername: string, src: UserId, amount: int64)
    | Buy(itemName: string, user: UserId)
    | Create(params: seq<User>)
    | Authenticate(username: string, newHash: string, check: string -> Verdict)
    | Info(user: UserId)

  datatype Via = Verified | Created | Raced

  /** How a request ended. `Lost` is an error unrelated to the request: a cancelled context, a broken
      connection, a deadlock victim, or a failing commit, whose real outcome is `committed`. */
  datatype Outcome =
    | Completed
    | Failed(error: Error)
    | Lost(committed: bool)
    | Authenticated(user: UserId, via: Via)
    | BadPassword
    | BadHash
    | Report(first: Moment, second: Moment, third: Moment)

  /** The committed tables a query saw, and how many operations had been committed by then. */
  datatype Moment = Moment(tables: Tables, commits: nat)

  /** The next statement of a session, with the Go locals it needs. */
  datatype Pc =
    | Start
    | Finished(outcome: Outcome)
    | SendChecked(dst: UserId)
    | SendBegun(dst: UserId)
    | SendLocking(dst: UserId, todo: seq<UserId>, got: map<UserId, int64>)
    | SendInsert(dst: UserId, srcBalance: int64, dstBalance: int64)
    | SendDebit(dst: UserId, srcBalance: int64, dstBalance: int64)
    | SendCredit(dst: UserId, dstBalance: int64)
    | SendCommit(dst: UserId)
    | BuyFound(item: ItemId, price: int64)
    | BuyBegun(item: ItemId, price: int64)
    | BuyInsert(item: ItemId, price: int64, balance: int64)
    | BuyDebit(item: ItemId, balance: int64)
    | BuyCommit(item: ItemId)
    | CreateBegun
    | CreateInserting(ids: seq<UserId>)
    | AuthMissing
    | AuthInserted(id: UserId)
    | AuthConflict
    | InfoCounted(first: Moment)
    | InfoListed(first: Moment, second: Moment)

  datatype Op = Op(request: Request, pc: Pc, tx: Tx)

  datatype State = State(db: Tables, locks: map<Key, OpId>, ops: seq<Op>, log: seq<Entry>, now: int)

  /** One step of a run. `pick` is the uuid the database generates, `flip` the order in which it scans
      the two rows of a transfer. A step that is not possible changes nothing. */
  datatype Step =
    | Arrive(request: Request)
    | Tick(elapsed: nat)
    | Advance(op: OpId, pick: nat, flip: bool)
    | Abort(op: OpId)
    | CommitLost(op: OpId)

  // ----- the database side

  function Release(locks: map<Key, OpId>, op: OpId): map<Key, OpId> {
    map k | k in locks && locks[k] != op :: locks[k]
  }

  function Goto(st: State, op: OpId, pc: Pc): State
    requires op < |st.ops|
  {
    st.(ops := st.ops[op := st.ops[op].(pc := pc)])
  }

  /** Commit or rollback: every lock is released and the private writes are gone. */
  function Finish(st: State, op: OpId, outcome: Outcome): State
    requires op < |st.ops|
  {
    st.(locks := Release(st.locks, op), ops := st.ops[op := Op(st.ops[op].request, Finished(outcome), NO_TX)])
  }

  function Begin(st: State, op: OpId, pc: Pc): State
    requires op < |st.ops|
  {
    st.(ops := st.ops[op := Op(st.ops[op].request, pc, NO_TX.(startedAt := st.now))])
  }

  function Acquire(st: State, op: OpId, keys: set<Key>, tx: Tx, pc: Pc): State
    requires op < |st.ops|
  {
    st.(locks := st.locks + (map k | k in keys :: op),
        ops := st.ops[op := Op(st.ops[op].request, pc, tx.(held := tx.held + keys))])
  }

  /** The tables once a transaction's writes are merged in: balances are overwritten, not adjusted. */
  function Merge(t: Tables, tx: Tx): Tables {
    t.(users := (map id | id in t.users :: if id in tx.balances then t.users[id].(balance := tx.balances[id]) else t.users[id]) + tx.users,
       byName := t.byName + tx.names,
       transfers := t.transfers + tx.transfers,
       purchases := t.purchases + tx.purchases)
  }

  predicate AtCommit(o: Op) {
    || (o.request.Send? && o.pc.SendCommit? && |o.tx.transfers| == 1)
    || (o.request.Buy? && o.pc.BuyCommit? && |o.tx.purchases| == 1)
    || (o.request.Create? && o.pc.CreateInserting? && |o.pc.ids| == |o.request.params|)
    || (o.request.Authenticate? && o.pc.AuthInserted?)
  }

  /** What a commit of this session adds to the history of completed operations. */
  function LogEntry(op: OpId, o: Op): Entry
    requires AtCommit(o)
  {
    match o.request
    case Send(dstUsername, src, amount) => Entry(op, SendCoins(dstUsername, src, amount), [o.tx.transfers[0].id], o.tx.startedAt)
    case Buy(itemName, user) => Entry(op, BuyItem(itemName, user), [o.tx.purchases[0].id], o.tx.startedAt)
    case Create(params) => Entry(op, CreateUsers(params), o.pc.ids, o.tx.startedAt)
    case Authenticate(username, newHash, _) =>
      Entry(op, CreateUsers([User(username, newHash, DEFAULT_BALANCE)]), [o.pc.id], o.tx.startedAt)
  }

  function Commit(st: State, op: OpId, outcome: Outcome): State
    requires op < |st.ops| && AtCommit(st.ops[op])
  {
    var o := st.ops[op];
    Finish(st.(db := Merge(st.db, o.tx), log := st.log + [LogEntry(op, o)]), op, outcome)
  }

  /** The keys the next statement of a session must be able to hold or share: the row it locks or
      updates, the rows its foreign keys reference, the unique-index entry it inserts. */
  function Wants(db: Tables, o: Op): set<Key> {
    match o.pc
    case SendLocking(_, todo, _) => if todo == [] then {} else {UserRow(todo[0])}
    case SendInsert(dst, _, _) => if o.request.Send? then {UserRow(o.request.src), UserRow(dst)} else {}
    case SendDebit(_, _, _) => if o.request.Send? then {UserRow(o.request.src)} else {}
    case SendCredit(dst, _) => {UserRow(dst)}
    case BuyBegun(_, _) => if o.request.Buy? && o.request.user in db.users then {UserRow(o.request.user)} else {}
    case BuyInsert(_, _, _) => if o.request.Buy? then {UserRow(o.request.user)} else {}
    case BuyDebit(_, _) => if o.request.Buy? then {UserRow(o.request.user)} else {}
    case CreateInserting(ids) =>
      if o.request.Create? && |ids| < |o.request.params| then {Username(o.request.params[|ids|].username)} else {}
    case AuthMissing => if o.request.Authenticate? then {Username(o.request.username)} else {}
    case _ => {}
  }

  predicate Blocked(st: State, op: OpId)
    requires op < |st.ops|
  {
    exists k :: k in Wants(st.db, st.ops[op]) && k in st.locks && st.locks[k] != op
  }

  // ----- the sessions

  /** One row of SELECT ... FOR UPDATE: the lock is granted and the newest committed row is read. */
  function SendLock(st: State, op: OpId): State
    requires op < |st.ops| && st.ops[op].pc.SendLocking? && st.ops[op].pc.todo != []
  {
    var SendLocking(dst, todo, got) := st.ops[op].pc;
    if todo[0] !in st.db.users then Goto(st, op, SendLocking(dst, todo[1..], got))
    else Acquire(st, op, {UserRow(todo[0])}, st.ops[op].tx, SendLocking(dst, todo[1..], got[todo[0] := st.db.users[todo[0]].balance]))
  }

  /** The code between the locking statement and the insert. */
  function SendCheck(st: State, op: OpId): State
    requires op < |st.ops| && st.ops[op].request.Send? && st.ops[op].pc.SendLocking?
  {
    var src, amount := st.ops[op].request.src, st.ops[op].request.amount;
    var SendLocking(dst, _, got) := st.ops[op].pc;
    if src !in got || dst !in got then Finish(st, op, Failed(UserNotExist)) else
    var srcBalance := Sub64(got[src], amount);
    if srcBalance < 0 then Finish(st, op, Failed(NotEnough))
    else Goto(st, op, SendInsert(dst, srcBalance, Add64(got[dst], amount)))
  }

  function AdvanceSend(st: State, op: OpId, pick: nat, flip: bool): State
    requires op < |st.ops| && st.ops[op].request.Send?
  {
    var o := st.ops[op];
    var src, amount := o.request.src, o.request.amount;
    match o.pc
    case Start =>
      if o.request.dstUsername !in st.db.byName then Finish(st, op, Failed(DstUserNotFound))
      else if st.db.byName[o.request.dstUsername] == src then Finish(st, op, Failed(SameUser))
      else Goto(st, op, SendChecked(st.db.byName[o.request.dstUsername]))
    case SendChecked(dst) => Begin(st, op, SendBegun(dst))
    case SendBegun(dst) =>
      // The locking statement sees the users committed by now, in an order of its own.
      var a, b := if flip then dst else src, if flip then src else dst;
      var todo := (if a in st.db.users then [a] else []) + (if b in st.db.users then [b] else []);
      Goto(st, op, SendLocking(dst, todo, map[]))
    case SendLocking(_, todo, _) => if todo != [] then SendLock(st, op) else SendCheck(st, op)
    case SendInsert(dst, srcBalance, dstBalance) =>
      if !NonNegativeInt32(amount) || HasTransfer(st.db, pick) || src !in st.db.users || dst !in st.db.users then
        Finish(st, op, Failed(Rejected))
      else if TransferRow(pick) in st.locks then st
      else
        var row := Transfer(pick, o.tx.startedAt, dst, src, amount);
        Acquire(st, op, {TransferRow(pick)}, o.tx.(transfers := o.tx.transfers + [row]), SendDebit(dst, srcBalance, dstBalance))
    case SendDebit(dst, srcBalance, dstBalance) =>
      if src !in st.db.users then Finish(st, op, Failed(UserNotExist))
      else if !NonNegativeInt32(srcBalance) then Finish(st, op, Failed(Rejected))
      else Acquire(st, op, {UserRow(src)}, o.tx.(balances := o.tx.balances[src := srcBalance]), SendCredit(dst, dstBalance))
    case SendCredit(dst, dstBalance) =>
      if dst !in st.db.users then Finish(st, op, Failed(UserNotExist))
      else if !NonNegativeInt32(dstBalance) then Finish(st, op, Failed(Rejected))
      else Acquire(st, op, {UserRow(dst)}, o.tx.(balances := o.tx.balances[dst := dstBalance]), SendCommit(dst))
    case SendCommit(_) => if AtCommit(o) then Commit(st, op, Completed) else st
    case _ => st
  }

  /** SELECT ... FOR UPDATE of one row and the code up to the insert. */
  function BuyLock(st: State, op: OpId): State
    requires op < |st.ops| && st.ops[op].request.Buy? && st.ops[op].pc.BuyBegun?
  {
    var user := st.ops[op].request.user;
    var BuyBegun(item, price) := st.ops[op].pc;
    if user !in st.db.users then Finish(st, op, Failed(UserNotExist)) else
    var balance := Sub64(st.db.users[user].balance, price);
    if balance < 0 then Finish(st, op, Failed(NotEnough))
    else Acquire(st, op, {UserRow(user)}, st.ops[op].tx, BuyInsert(item, price, balance))
  }

  function AdvanceBuy(st: State, op: OpId, pick: nat): State
    requires op < |st.ops| && st.ops[op].request.Buy?
  {
    var o := st.ops[op];
    var user := o.request.user;
    match o.pc
    case Start =>
      if o.request.itemName !in st.db.itemByName || st.db.itemByName[o.request.itemName] !in st.db.items then
        Finish(st, op, Failed(ItemNotExist))
      else
        var item := st.db.itemByName[o.request.itemName];
        Goto(st, op, BuyFound(item, st.db.items[item].price))
    case BuyFound(item, price) => Begin(st, op, BuyBegun(item, price))
    case BuyBegun(_, _) => BuyLock(st, op)
    case BuyInsert(item, price, balance) =>
      if !NonNegativeInt32(price) || HasPurchase(st.db, pick) || user !in st.db.users || item !in st.db.items then
        Finish(st, op, Failed(Rejected))
      else if PurchaseRow(pick) in st.locks then st
      else
        var row := Purchase(pick, o.tx.startedAt, user, item, price);
        Acquire(st, op, {PurchaseRow(pick)}, o.tx.(purchases := o.tx.purchases + [row]), BuyDebit(item, balance))
    case BuyDebit(item, balance) =>
      if user !in st.db.users then Finish(st, op, Failed(UserNotExist))
      else if !NonNegativeInt32(balance) then Finish(st, op, Failed(Rejected))
      else Acquire(st, op, {UserRow(user)}, o.tx.(balances := o.tx.balances[user := balance]), BuyCommit(item))
    case BuyCommit(_) => if AtCommit(o) then Commit(st, op, Completed) else st
    case _ => st
  }

  /** One row of INSERT INTO users inside a transaction. The row's index entries are not visible to
      others before the commit, but a second insert of the same name waits for them. */
  function InsertPending(st: State, op: OpId, user: User, id: UserId, pc: Pc, conflict: State): State
    requires op < |st.ops|
  {
    var tx := st.ops[op].tx;
    if !NonNegativeInt32(user.balance) || id in st.db.users || id in tx.users then Finish(st, op, Failed(Rejected))
    else if user.username in st.db.byName || user.username in tx.names then conflict
    else if UserRow(id) in st.locks then st
    else Acquire(st, op, {UserRow(id), Username(user.username)},
                 tx.(users := tx.users[id := user], names := tx.names[user.username := id]), pc)
  }

  function AdvanceCreate(st: State, op: OpId, pick: nat): State
    requires op < |st.ops| && st.ops[op].request.Create?
  {
    var o := st.ops[op];
    var params := o.request.params;
    match o.pc
    case Start => Begin(st, op, CreateBegun)
    case CreateBegun =>
      if exists i :: 0 <= i < |params| && !Int32(params[i].balance) then Finish(st, op, Failed(Rejected))
      else Goto(st, op, CreateInserting([]))
    case CreateInserting(ids) =>
      if |ids| < |params| then
        InsertPending(st, op, params[|ids|], pick, CreateInserting(ids + [pick]), Finish(st, op, Failed(UserExists)))
      else if AtCommit(o) then Commit(st, op, Completed)
      else st
    case _ => st
  }

  function AdvanceAuthenticate(st: State, op: OpId, pick: nat): State
    requires op < |st.ops| && st.ops[op].request.Authenticate?
  {
    var o := st.ops[op];
    var username := o.request.username;
    match o.pc
    case Start =>
      if username !in st.db.byName || st.db.byName[username] !in st.db.users then Goto(st, op, AuthMissing) else
      var id := st.db.byName[username];
      (match o.request.check(st.db.users[id].passwordHash)
       case Match => Finish(st, op, Authenticated(id, Verified))
       case Mismatch => Finish(st, op, BadPassword)
       case Malformed => Finish(st, op, BadHash))
    case AuthMissing =>
      InsertPending(st, op, User(username, o.request.newHash, DEFAULT_BALANCE), pick, AuthInserted(pick), Goto(st, op, AuthConflict))
    case AuthInserted(id) => if AtCommit(o) then Commit(st, op, Authenticated(id, Created)) else st
    case AuthConflict =>
      if username !in st.db.byName then Finish(st, op, Failed(UserNotExist))
      else Finish(st, op, Authenticated(st.db.byName[username], Raced))
    case _ => st
  }

  function AdvanceInfo(st: State, op: OpId): State
    requires op < |st.ops| && st.ops[op].request.Info?
  {
    var o := st.ops[op];
    var now := Moment(st.db, |st.log|);
    match o.pc
    case Start => Goto(st, op, InfoCounted(now))
    case InfoCounted(first) => Goto(st, op, InfoListed(first, now))
    case InfoListed(first, second) =>
      if o.request.user in st.db.users then Finish(st, op, Report(first, second, now))
      else Finish(st, op, Failed(UserNotExist))
    case _ => st
  }

  function Next(st: State, step: Step): State {
    match step
    case Arrive(request) => st.(ops := st.ops + [Op(request, Start, NO_TX)])
    case Tick(elapsed) => st.(now := st.now + elapsed)
    case Abort(op) =>
      if op < |st.ops| && !st.ops[op].pc.Finished? then Finish(st, op, Lost(false)) else st
    case CommitLost(op) =>
      if op < |st.ops| && AtCommit(st.ops[op]) then Commit(st, op, Lost(true)) else st
    case Advance(op, pick, flip) =>
      if op >= |st.ops| || Blocked(st, op) then st else
      match st.ops[op].request
      case Send(_, _, _) => AdvanceSend(st, op, pick, flip)
      case Buy(_, _) => AdvanceBuy(st, op, pick)
      case Create(_) => AdvanceCreate(st, op, pick)
      case Authenticate(_, _, _) => AdvanceAuthenticate(st, op, pick)
      case Info(_) => AdvanceInfo(st, op)
  }

  /** No session yet, on a given database. */
  function Initial(t: Tables, now: int): State {
    State(t, map[], [], [], now)
  }

  function Execute(st: State, steps: seq<Step>): State {
    if steps == [] then st else Next(Execute(st, steps[..|steps| - 1]), steps[|steps| - 1])
  }
}
