/** Lists in strict order. */
module Ordering {
  ghost predicate SortedBy<T(!new)>(before: (T, T) -> bool, xs: seq<T>) {
    forall i, j :: 0 <= i < j < |xs| ==> before(xs[i], xs[j])
  }

  /** A relation in which no two elements precede each other. */
  ghost predicate Asymmetric<T(!new)>(before: (T, T) -> bool) {
    forall x, y :: before(x, y) ==> !before(y, x)
  }

  lemma SameHead<T(!new)>(before: (T, T) -> bool, a: seq<T>, b: seq<T>)
    requires Asymmetric(before) && SortedBy(before, a) && SortedBy(before, b)
    requires a != [] && b != [] && a[0] in b && b[0] in a
    ensures a[0] == b[0]
  {
    var i :| 0 <= i < |a| && a[i] == b[0];
    var j :| 0 <= j < |b| && b[j] == a[0];
    if i > 0 && j > 0 {
      assert false;
    }
  }

  lemma TailMembers<T(!new)>(before: (T, T) -> bool, a: seq<T>, x: T)
    requires Asymmetric(before) && SortedBy(before, a) && a != []
    ensures x in a[1..] <==> x in a && x != a[0]
  {
    if x in a[1..] {
      var i :| 0 <= i < |a[1..]| && a[1..][i] == x;
      assert before(a[0], a[i + 1]);
    }
  }

  lemma FirstIsMember<T>(a: seq<T>)
    ensures a != [] ==> a[0] in a
  {
  }

  /** Two strictly ordered lists with the same members are equal. */
  lemma {:induction false} SortedIsUnique<T(!new)>(before: (T, T) -> bool, a: seq<T>, b: seq<T>)
    requires Asymmetric(before) && SortedBy(before, a) && SortedBy(before, b)
    requires forall x :: x in a <==> x in b
    ensures a == b
  {
    FirstIsMember(a);
    FirstIsMember(b);
    if a != [] {
      SameHead(before, a, b);
      forall x
        ensures x in a[1..] <==> x in b[1..]
      {
        TailMembers(before, a, x);
        TailMembers(before, b, x);
      }
      SortedIsUnique(before, a[1..], b[1..]);
      assert a == [a[0]] + a[1..] && b == [b[0]] + b[1..];
    }
  }
}

/** The two history queries: what SELECT ... ORDER BY returns on given committed tables. */
module Queries {
  import opened Schema
  import opened Wrappers
  import opened Ledger
  import opened Ordering

  // ----- transfers touching a user, with both usernames, ordered by (created_at, id)

  datatype TransferView = TransferView(row: Transfer, dstUsername: string, srcUsername: string)

  predicate Touches(row: Transfer, user: UserId) {
    row.dst == user || row.src == user
  }

  predicate Before(a: Transfer, b: Transfer) {
    a.createdAt < b.createdAt || (a.createdAt == b.createdAt && a.id < b.id)
  }

  ghost predicate Sorted(rows: seq<Transfer>) {
    SortedBy(Before, rows)
  }

  function InsertRow(row: Transfer, rows: seq<Transfer>): seq<Transfer> {
    if rows == [] || Before(row, rows[0]) then [row] + rows else [rows[0]] + InsertRow(row, rows[1..])
  }

  function SelectTransfers(ts: seq<Transfer>, user: UserId): seq<Transfer> {
    if ts == [] then [] else
    var rows := SelectTransfers(ts[..|ts| - 1], user);
    if Touches(ts[|ts| - 1], user) then InsertRow(ts[|ts| - 1], rows) else rows
  }

  /** What the query promises: exactly the touching rows, each once, in order. */
  ghost predicate IsTransferResult(ts: seq<Transfer>, user: UserId, rows: seq<Transfer>) {
    && Sorted(rows)
    && (forall row :: row in rows <==> row in ts && Touches(row, user))
  }

  lemma {:induction false} InsertRowSorts(row: Transfer, rows: seq<Transfer>)
    requires Sorted(rows) && forall i :: 0 <= i < |rows| ==> rows[i].id != row.id
    ensures Sorted(InsertRow(row, rows))
    ensures forall x :: x in InsertRow(row, rows) <==> x == row || x in rows
  {
    if rows != [] && !Before(row, rows[0]) {
      var rest := InsertRow(row, rows[1..]);
      InsertRowSorts(row, rows[1..]);
      assert rows == [rows[0]] + rows[1..];
      forall i | 0 <= i < |rest|
        ensures Before(rows[0], rest[i])
      {
        assert rest[i] in rest;
      }
    }
  }

  lemma {:induction false} SelectTransfersIsResult(ts: seq<Transfer>, user: UserId)
    requires forall i, j :: 0 <= i < j < |ts| ==> ts[i].id != ts[j].id
    ensures IsTransferResult(ts, user, SelectTransfers(ts, user))
  {
    if ts != [] {
      var front, last := ts[..|ts| - 1], ts[|ts| - 1];
      SelectTransfersIsResult(front, user);
      assert ts == front + [last];
      var rows := SelectTransfers(front, user);
      if Touches(last, user) {
        forall i | 0 <= i < |rows|
          ensures rows[i].id != last.id
        {
          assert rows[i] in front;
        }
        InsertRowSorts(last, rows);
      }
    }
  }

  /** The query returns each transfer touching the user exactly once, in (created_at, id) order, and that
      determines its result: any list with this property is the result. */
  lemma TransferQueryIsDetermined(t: Tables, user: UserId, rows: seq<Transfer>)
    requires Constraints(t)
    ensures IsTransferResult(t.transfers, user, rows) <==> rows == SelectTransfers(t.transfers, user)
  {
    SelectTransfersIsResult(t.transfers, user);
    if IsTransferResult(t.transfers, user, rows) {
      SortedIsUnique(Before, rows, SelectTransfers(t.transfers, user));
    }
  }

  function WithUsernames(t: Tables, rows: seq<Transfer>): (views: Option<seq<TransferView>>)
    ensures views.Some? <==> forall i :: 0 <= i < |rows| ==> rows[i].dst in t.users && rows[i].src in t.users
    ensures views.Some? ==> |views.value| == |rows| && forall i :: 0 <= i < |rows| ==>
      && rows[i].dst in t.users && rows[i].src in t.users
      && views.value[i] == TransferView(rows[i], t.users[rows[i].dst].username, t.users[rows[i].src].username)
  {
    if rows == [] then Some([]) else
    var n := |rows| - 1;
    var front := WithUsernames(t, rows[..n]);
    if front.None? || rows[n].dst !in t.users || rows[n].src !in t.users then
      assert front.None? ==> exists i :: 0 <= i < n && !(rows[..n][i].dst in t.users && rows[..n][i].src in t.users);
      None
    else
      Some(front.value + [TransferView(rows[n], t.users[rows[n].dst].username, t.users[rows[n].src].username)])
  }

  /** GetTransfersByUserID. The joins are left joins, and a missing username cannot be scanned. */
  function GetTransfers(t: Tables, user: UserId): Option<seq<TransferView>> {
    WithUsernames(t, SelectTransfers(t.transfers, user))
  }

  /** The foreign keys keep both usernames present, so the query never fails. */
  lemma TransfersAlwaysHaveUsernames(t: Tables, user: UserId)
    requires Constraints(t)
    ensures GetTransfers(t, user).Some?
  {
    var rows := SelectTransfers(t.transfers, user);
    SelectTransfersIsResult(t.transfers, user);
    forall i | 0 <= i < |rows|
      ensures rows[i].dst in t.users && rows[i].src in t.users
    {
      assert rows[i] in rows;
    }
  }

  // ----- purchases of a user, counted by item, ordered by (name, id)

  datatype ItemCount = ItemCount(item: ItemId, name: string, count: nat)

  /** Where the database's collation places a name. */
  type Collation = string -> real

  predicate CountBefore(rank: Collation, a: ItemCount, b: ItemCount) {
    rank(a.name) < rank(b.name) || (rank(a.name) == rank(b.name) && a.item < b.item)
  }

  ghost predicate CountsSorted(rank: Collation, xs: seq<ItemCount>) {
    forall i, j :: 0 <= i < j < |xs| ==> CountBefore(rank, xs[i], xs[j])
  }

  function CountOf(ps: seq<Purchase>, user: UserId, item: ItemId): nat {
    if ps == [] then 0 else
    var p := ps[|ps| - 1];
    CountOf(ps[..|ps| - 1], user, item) + (if p.user == user && p.item == item then 1 else 0)
  }

  /** Grouping: one more purchase of an item. */
  function AddOne(rank: Collation, xs: seq<ItemCount>, item: ItemId, name: string): seq<ItemCount> {
    var one := ItemCount(item, name, 1);
    if xs == [] then [one]
    else if xs[0].item == item then [xs[0].(count := xs[0].count + 1)] + xs[1..]
    else if CountBefore(rank, one, xs[0]) then [one] + xs
    else [xs[0]] + AddOne(rank, xs[1..], item, name)
  }

  /** GetItemCountsByUserID: the join with items, the grouping and the order. */
  function GetItemCounts(rank: Collation, items: map<ItemId, Item>, ps: seq<Purchase>, user: UserId): seq<ItemCount> {
    if ps == [] then [] else
    var p := ps[|ps| - 1];
    var xs := GetItemCounts(rank, items, ps[..|ps| - 1], user);
    if p.user == user && p.item in items then AddOne(rank, xs, p.item, items[p.item].name) else xs
  }

  function CountIn(xs: seq<ItemCount>, item: ItemId): nat {
    if xs == [] then 0 else (if xs[0].item == item then xs[0].count else 0) + CountIn(xs[1..], item)
  }

  /** What a list of counts is worth at given prices, and how many pieces it has. */
  function Value(items: map<ItemId, Item>, xs: seq<ItemCount>): int {
    if xs == [] then 0
    else (if xs[0].item in items then xs[0].count * items[xs[0].item].price else 0) + Value(items, xs[1..])
  }

  function Pieces(xs: seq<ItemCount>): nat {
    if xs == [] then 0 else xs[0].count + Pieces(xs[1..])
  }

  /** Every entry is positive, carries the name of its item, and entries are in strict order. */
  ghost predicate WellFormedCounts(rank: Collation, items: map<ItemId, Item>, xs: seq<ItemCount>) {
    && CountsSorted(rank, xs)
    && (forall i :: 0 <= i < |xs| ==> xs[i].count > 0 && xs[i].item in items && xs[i].name == items[xs[i].item].name)
  }

  lemma {:induction false} AddOneKeepsForm(rank: Collation, items: map<ItemId, Item>, xs: seq<ItemCount>, item: ItemId)
    requires WellFormedCounts(rank, items, xs) && item in items
    ensures WellFormedCounts(rank, items, AddOne(rank, xs, item, items[item].name))
    ensures forall x :: x in AddOne(rank, xs, item, items[item].name) ==> x.item == item || x in xs
  {
    if xs != [] {
      var name := items[item].name;
      var one := ItemCount(item, name, 1);
      if xs[0].item == item {
        var ys := AddOne(rank, xs, item, name);
        forall i, j | 0 <= i < j < |ys|
          ensures CountBefore(rank, ys[i], ys[j])
        {
          assert CountBefore(rank, xs[i], xs[j]);
        }
      } else if CountBefore(rank, one, xs[0]) {
        var ys := [one] + xs;
        forall j | 0 < j < |ys|
          ensures CountBefore(rank, one, ys[j])
        {
          assert j > 1 ==> CountBefore(rank, xs[0], xs[j - 1]);
        }
      } else {
        var rest := AddOne(rank, xs[1..], item, name);
        AddOneKeepsForm(rank, items, xs[1..], item);
        assert rank(xs[0].name) < rank(name) || xs[0].item < item;
        forall j | 0 <= j < |rest|
          ensures CountBefore(rank, xs[0], rest[j])
        {
          assert rest[j] in rest;
        }
      }
    }
  }

  lemma {:induction false} AddOneCounts(rank: Collation, items: map<ItemId, Item>, xs: seq<ItemCount>, item: ItemId)
    requires item in items
    ensures var ys := AddOne(rank, xs, item, items[item].name);
      && (forall x :: CountIn(ys, x) == CountIn(xs, x) + (if x == item then 1 else 0))
      && Pieces(ys) == Pieces(xs) + 1
      && Value(items, ys) == Value(items, xs) + items[item].price
  {
    var ys := AddOne(rank, xs, item, items[item].name);
    if xs == [] {
    } else if xs[0].item == item {
      assert ys[1..] == xs[1..];
      assert (xs[0].count + 1) * items[item].price == xs[0].count * items[item].price + items[item].price;
    } else if CountBefore(rank, ItemCount(item, items[item].name, 1), xs[0]) {
      assert ys[1..] == xs;
    } else {
      AddOneCounts(rank, items, xs[1..], item);
      assert ys[1..] == AddOne(rank, xs[1..], item, items[item].name);
    }
  }

  /** What the query promises: one positive count for each distinct item the user has bought. */
  ghost predicate IsCountResult(rank: Collation, t: Tables, user: UserId, xs: seq<ItemCount>) {
    && WellFormedCounts(rank, t.items, xs)
    && (forall item :: item in t.items ==> CountIn(xs, item) == CountOf(t.purchases, user, item))
  }

  lemma {:induction false} ItemCountsForm(rank: Collation, items: map<ItemId, Item>, ps: seq<Purchase>, user: UserId)
    ensures WellFormedCounts(rank, items, GetItemCounts(rank, items, ps, user))
    ensures forall item :: item in items ==> CountIn(GetItemCounts(rank, items, ps, user), item) == CountOf(ps, user, item)
  {
    if ps != [] {
      var p := ps[|ps| - 1];
      var xs := GetItemCounts(rank, items, ps[..|ps| - 1], user);
      ItemCountsForm(rank, items, ps[..|ps| - 1], user);
      if p.user == user && p.item in items {
        AddOneKeepsForm(rank, items, xs, p.item);
        AddOneCounts(rank, items, xs, p.item);
      }
    }
  }

  /** Grouping and joining lose nothing: the pieces add up to the number of the user's purchases, and their
      value at the unchanging prices to what the user has spent. */
  lemma {:induction false} ItemCountsTotal(rank: Collation, t: Tables, ps: seq<Purchase>, user: UserId)
    requires forall i :: 0 <= i < |ps| ==> ps[i].item in t.items && ps[i].amount == t.items[ps[i].item].price
    ensures Pieces(GetItemCounts(rank, t.items, ps, user)) == PurchasesOf(ps, user)
    ensures Value(t.items, GetItemCounts(rank, t.items, ps, user)) == Spent(ps, user)
  {
    if ps != [] {
      var front, p := ps[..|ps| - 1], ps[|ps| - 1];
      assert forall i :: 0 <= i < |front| ==> front[i] == ps[i];
      ItemCountsTotal(rank, t, front, user);
      if p.user == user {
        AddOneCounts(rank, t.items, GetItemCounts(rank, t.items, front, user), p.item);
      }
    }
  }

  function PurchasesOf(ps: seq<Purchase>, user: UserId): nat {
    if ps == [] then 0 else PurchasesOf(ps[..|ps| - 1], user) + (if ps[|ps| - 1].user == user then 1 else 0)
  }

  lemma {:induction false} AbsentCount(xs: seq<ItemCount>, item: ItemId)
    requires forall i :: 0 <= i < |xs| ==> xs[i].item != item
    ensures CountIn(xs, item) == 0
  {
    if xs != [] {
      AbsentCount(xs[1..], item);
    }
  }

  lemma {:induction false} EntryCount(rank: Collation, items: map<ItemId, Item>, xs: seq<ItemCount>, i: nat)
    requires WellFormedCounts(rank, items, xs) && i < |xs|
    ensures CountIn(xs, xs[i].item) == xs[i].count
  {
    if i == 0 {
      forall j | 0 <= j < |xs[1..]|
        ensures xs[1..][j].item != xs[0].item
      {
        assert CountBefore(rank, xs[0], xs[j + 1]);
      }
      AbsentCount(xs[1..], xs[0].item);
    } else {
      assert CountBefore(rank, xs[0], xs[i]);
      EntryCount(rank, items, xs[1..], i - 1);
    }
  }

  lemma SameCountsSameEntries(rank: Collation, items: map<ItemId, Item>, xs: seq<ItemCount>, ys: seq<ItemCount>, x: ItemCount)
    requires WellFormedCounts(rank, items, xs) && WellFormedCounts(rank, items, ys) && x in xs
    requires forall item :: item in items ==> CountIn(xs, item) == CountIn(ys, item)
    ensures x in ys
  {
    var i :| 0 <= i < |xs| && xs[i] == x;
    EntryCount(rank, items, xs, i);
    if forall j :: 0 <= j < |ys| ==> ys[j].item != x.item {
      AbsentCount(ys, x.item);
    } else {
      var j :| 0 <= j < |ys| && ys[j].item == x.item;
      EntryCount(rank, items, ys, j);
    }
  }

  /** The inventory query returns one positive count for each distinct item bought, in strict (name, id)
      order, and that determines its result. */
  lemma CountQueryIsDetermined(rank: Collation, t: Tables, user: UserId, xs: seq<ItemCount>)
    ensures IsCountResult(rank, t, user, xs) <==> xs == GetItemCounts(rank, t.items, t.purchases, user)
  {
    var ys := GetItemCounts(rank, t.items, t.purchases, user);
    ItemCountsForm(rank, t.items, t.purchases, user);
    if IsCountResult(rank, t, user, xs) {
      var before := (a, b) => CountBefore(rank, a, b);
      forall x
        ensures x in xs <==> x in ys
      {
        if x in xs {
          SameCountsSameEntries(rank, t.items, xs, ys, x);
        }
        if x in ys {
          SameCountsSameEntries(rank, t.items, ys, xs, x);
        }
      }
      assert SortedBy(before, xs) && SortedBy(before, ys);
      SortedIsUnique(before, xs, ys);
    }
  }
}
