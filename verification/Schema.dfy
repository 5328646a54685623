/** The database schema: rows, tables and the constraints PostgreSQL enforces on them. */
module Schema {

  // The SQL type `integer` and the Go type `int`.
  const MAX_INT32: int := 0x7fff_ffff
  const MIN_INT64: int := -0x8000_0000_0000_0000
  const MAX_INT64: int := 0x7fff_ffff_ffff_ffff

  type int64 = x: int | MIN_INT64 <= x <= MAX_INT64

  // The number of 64-bit values.
  const WRAP: int := 0x1_0000_0000_0000_0000

  /** The 64-bit value of a sum or difference of two 64-bit values. */
  function Wrap64(x: int): int64
    requires 2 * MIN_INT64 <= x < WRAP
  {
    if x > MAX_INT64 then x - WRAP else if x < MIN_INT64 then x + WRAP else x
  }

  // Go addition and subtraction wrap around at 64 bits.
  function Add64(a: int64, b: int64): int64 {
    Wrap64(a as int + b as int)
  }

  function Sub64(a: int64, b: int64): int64 {
    Wrap64(a as int - b as int)
  }

  /** True of a value that fits an `integer` column with a `>= 0` check. */
  predicate NonNegativeInt32(x: int) {
    0 <= x <= MAX_INT32
  }

  /** True of a value that fits an `integer` column. */
  predicate Int32(x: int) {
    -MAX_INT32 - 1 <= x <= MAX_INT32
  }

  // Every id is a uuid; only its identity and its order matter.
  type UserId = nat
  type ItemId = nat
  type RowId = nat

  datatype User = User(username: string, passwordHash: string, balance: int64)

  datatype Item = Item(name: string, price: int64)

  datatype Transfer = Transfer(id: RowId, createdAt: int, dst: UserId, src: UserId, amount: int64)

  datatype Purchase = Purchase(id: RowId, createdAt: int, user: UserId, item: ItemId, amount: int64)

  /** The committed rows. `byName` and `itemByName` are the two unique indexes;
      `transfers` and `purchases` are kept in the order in which their rows were committed. */
  datatype Tables = Tables(
    users: map<UserId, User>,
    byName: map<string, UserId>,
    items: map<ItemId, Item>,
    itemByName: map<string, ItemId>,
    transfers: seq<Transfer>,
    purchases: seq<Purchase>)

  ghost predicate UsersValid(t: Tables) {
    && (forall id :: id in t.users ==>
          && NonNegativeInt32(t.users[id].balance)
          && t.users[id].username in t.byName
          && t.byName[t.users[id].username] == id)
    && (forall name :: name in t.byName ==> t.byName[name] in t.users && t.users[t.byName[name]].username == name)
  }

  ghost predicate ItemsValid(t: Tables) {
    && (forall id :: id in t.items ==>
          && NonNegativeInt32(t.items[id].price)
          && t.items[id].name in t.itemByName
          && t.itemByName[t.items[id].name] == id)
    && (forall name :: name in t.itemByName ==>
          t.itemByName[name] in t.items && t.items[t.itemByName[name]].name == name)
  }

  ghost predicate TransfersValid(t: Tables) {
    && (forall i :: 0 <= i < |t.transfers| ==>
          && t.transfers[i].dst in t.users
          && t.transfers[i].src in t.users
          && NonNegativeInt32(t.transfers[i].amount))
    && (forall i, j :: 0 <= i < j < |t.transfers| ==> t.transfers[i].id != t.transfers[j].id)
  }

  ghost predicate PurchasesValid(t: Tables) {
    && (forall i :: 0 <= i < |t.purchases| ==>
          && t.purchases[i].user in t.users
          && t.purchases[i].item in t.items
          && NonNegativeInt32(t.purchases[i].amount))
    && (forall i, j :: 0 <= i < j < |t.purchases| ==> t.purchases[i].id != t.purchases[j].id)
  }

  /** The CHECK, UNIQUE, PRIMARY KEY and FOREIGN KEY constraints. */
  ghost predicate Constraints(t: Tables) {
    UsersValid(t) && ItemsValid(t) && TransfersValid(t) && PurchasesValid(t)
  }

  /** What the service keeps true beyond the constraints: the two ends of a transfer differ,
      and a purchase is charged the catalogue price. */
  ghost predicate Coherent(t: Tables) {
    && Constraints(t)
    && (forall i :: 0 <= i < |t.transfers| ==> t.transfers[i].dst != t.transfers[i].src)
    && (forall i :: 0 <= i < |t.purchases| ==>
          t.purchases[i].item in t.items && t.purchases[i].amount == t.items[t.purchases[i].item].price)
  }
}
