/** The item catalogue that the first migration inserts with ON CONFLICT DO NOTHING. */
module Catalogue {
  import opened Schema
  import opened Ledger
  import opened Accounting

  const CATALOGUE: seq<(ItemId, Item)> := [
    (0x158acfe8_95cc_4573_b3e7_4edf89823f45, Item("t-shirt", 80)),
    (0x5317464e_36c7_4678_98af_2e2cf3138ec0, Item("cup", 20)),
    (0x93e4b592_77c1_4928_8e45_b0ec86cdf035, Item("book", 50)),
    (0x95d5a283_97be_4fb8_b3b4_0ef723877b7a, Item("pen", 10)),
    (0x133ce041_eac7_4f99_81ce_f72e23ec7399, Item("powerbank", 200)),
    (0x8f6e5480_a188_4626_a1de_87adbddbc932, Item("hoody", 300)),
    (0xc4273781_c5ed_4fe3_8554_eb5ee4e1ba00, Item("umbrella", 200)),
    (0x9b5da2b6_1024_48b4_81f7_e56ca9c711fe, Item("socks", 10)),
    (0xf4c77264_a433_4775_ac80_1898517ff8cd, Item("wallet", 50)),
    (0x4ca8f1f5_d719_42bf_8939_5e7ef51885c2, Item("pink-hoody", 500))
  ]

  /** A freshly created database, before any row is inserted. */
  const EMPTY: Tables := Tables(map[], map[], map[], map[], [], [])

  /** An item row collides with the table when its id or its name is already taken. */
  predicate Conflicts(t: Tables, row: (ItemId, Item)) {
    row.0 in t.items || row.1.name in t.itemByName
  }

  function InsertItem(t: Tables, row: (ItemId, Item)): Tables {
    if Conflicts(t, row) then t
    else t.(items := t.items[row.0 := row.1], itemByName := t.itemByName[row.1.name := row.0])
  }

  function InsertItems(t: Tables, rows: seq<(ItemId, Item)>): Tables {
    if rows == [] then t else InsertItem(InsertItems(t, rows[..|rows| - 1]), rows[|rows| - 1])
  }

  ghost predicate Extends(t: Tables, t': Tables) {
    && t' == t.(items := t'.items, itemByName := t'.itemByName)
    && (forall id :: id in t.items ==> id in t'.items && t'.items[id] == t.items[id])
    && (forall name :: name in t.itemByName ==> name in t'.itemByName && t'.itemByName[name] == t.itemByName[name])
  }

  lemma InsertItemGrows(t: Tables, row: (ItemId, Item))
    requires Coherent(t) && NonNegativeInt32(row.1.price)
    ensures Coherent(InsertItem(t, row)) && Extends(t, InsertItem(t, row)) && Conflicts(InsertItem(t, row), row)
  {
    var t' := InsertItem(t, row);
    assert ItemsValid(t');
    assert UsersValid(t') && TransfersValid(t');
    forall i | 0 <= i < |t'.purchases|
      ensures t'.purchases[i].item in t'.items && t'.purchases[i].amount == t'.items[t'.purchases[i].item].price
    {
      assert t.purchases[i].item in t.items;
    }
    assert PurchasesValid(t');
  }

  /** Inserting rows keeps the table coherent, keeps every row that was there,
      touches nothing but the items, and leaves every inserted row in conflict. */
  lemma {:induction false} InsertItemsGrows(t: Tables, rows: seq<(ItemId, Item)>)
    requires Coherent(t)
    requires forall i :: 0 <= i < |rows| ==> NonNegativeInt32(rows[i].1.price)
    ensures Coherent(InsertItems(t, rows)) && Extends(t, InsertItems(t, rows))
    ensures forall i :: 0 <= i < |rows| ==> Conflicts(InsertItems(t, rows), rows[i])
  {
    if rows != [] {
      var front, last := rows[..|rows| - 1], rows[|rows| - 1];
      InsertItemsGrows(t, front);
      var u := InsertItems(t, front);
      InsertItemGrows(u, last);
      forall i | 0 <= i < |rows|
        ensures Conflicts(InsertItem(u, last), rows[i])
      {
        if i < |front| {
          assert Conflicts(u, front[i]);
        }
      }
    }
  }

  lemma {:induction false} InsertItemsSkips(t: Tables, rows: seq<(ItemId, Item)>)
    requires forall i :: 0 <= i < |rows| ==> Conflicts(t, rows[i])
    ensures InsertItems(t, rows) == t
  {
    if rows != [] {
      assert forall i :: 0 <= i < |rows| - 1 ==> rows[..|rows| - 1][i] == rows[i];
      InsertItemsSkips(t, rows[..|rows| - 1]);
    }
  }

  /** The migration can be repeated: on any coherent database a second run changes nothing,
      and no run changes a price that is already there. */
  lemma MigrationIsIdempotent(t: Tables)
    requires Coherent(t)
    ensures InsertItems(InsertItems(t, CATALOGUE), CATALOGUE) == InsertItems(t, CATALOGUE)
    ensures Coherent(InsertItems(t, CATALOGUE))
    ensures forall id :: id in t.items ==>
      id in InsertItems(t, CATALOGUE).items && InsertItems(t, CATALOGUE).items[id] == t.items[id]
  {
    InsertItemsGrows(t, CATALOGUE);
    InsertItemsSkips(InsertItems(t, CATALOGUE), CATALOGUE);
  }

  /** A database that has only been migrated meets the starting condition of the accounting laws. */
  lemma MigratedIsPristine()
    ensures Pristine(InsertItems(EMPTY, CATALOGUE))
  {
    assert Coherent(EMPTY);
    InsertItemsGrows(EMPTY, CATALOGUE);
  }

  // ----- which rows are inserted

  predicate DistinctRows(rows: seq<(ItemId, Item)>) {
    forall i, j :: 0 <= i < j < |rows| ==> rows[i].0 != rows[j].0 && rows[i].1.name != rows[j].1.name
  }

  /** `row` is one of the rows that were free. */
  ghost predicate IsNew(t: Tables, rows: seq<(ItemId, Item)>, row: (ItemId, Item)) {
    row in rows && row.0 !in t.items && row.1.name !in t.itemByName
  }

  ghost predicate Stores(t: Tables, row: (ItemId, Item)) {
    && row.0 in t.items && t.items[row.0] == row.1
    && row.1.name in t.itemByName && t.itemByName[row.1.name] == row.0
  }

  ghost predicate IsNewId(t: Tables, rows: seq<(ItemId, Item)>, id: ItemId) {
    exists row :: IsNew(t, rows, row) && row.0 == id
  }

  ghost predicate IsNewName(t: Tables, rows: seq<(ItemId, Item)>, name: string) {
    exists row :: IsNew(t, rows, row) && row.1.name == name
  }

  /** Exactly the free rows are inserted, as they are, and nothing else changes. */
  ghost predicate AddsFreeRows(t: Tables, rows: seq<(ItemId, Item)>, t': Tables) {
    && Extends(t, t')
    && (forall row :: IsNew(t, rows, row) ==> Stores(t', row))
    && (forall id :: id in t'.items ==> id in t.items || IsNewId(t, rows, id))
    && (forall name :: name in t'.itemByName ==> name in t.itemByName || IsNewName(t, rows, name))
  }

  lemma NewInFront(t: Tables, rows: seq<(ItemId, Item)>, row: (ItemId, Item))
    requires rows != []
    ensures IsNew(t, rows, row) <==>
      || IsNew(t, rows[..|rows| - 1], row)
      || (row == rows[|rows| - 1] && !Conflicts(t, row))
  {
    assert rows == rows[..|rows| - 1] + [rows[|rows| - 1]];
  }

  lemma LastIsApart(rows: seq<(ItemId, Item)>, row: (ItemId, Item))
    requires rows != [] && DistinctRows(rows) && row in rows[..|rows| - 1]
    ensures row.0 != rows[|rows| - 1].0 && row.1.name != rows[|rows| - 1].1.name
  {
  }

  /** The last row collides exactly when it did before the rows in front of it were inserted. */
  lemma LastConflicts(t: Tables, rows: seq<(ItemId, Item)>, u: Tables)
    requires rows != [] && DistinctRows(rows) && AddsFreeRows(t, rows[..|rows| - 1], u)
    ensures Conflicts(u, rows[|rows| - 1]) <==> Conflicts(t, rows[|rows| - 1])
  {
    forall row | IsNew(t, rows[..|rows| - 1], row)
      ensures row.0 != rows[|rows| - 1].0 && row.1.name != rows[|rows| - 1].1.name
    {
      LastIsApart(rows, row);
    }
  }

  lemma StoresLastRow(t: Tables, rows: seq<(ItemId, Item)>, u: Tables, row: (ItemId, Item))
    requires rows != [] && DistinctRows(rows) && AddsFreeRows(t, rows[..|rows| - 1], u)
    requires IsNew(t, rows, row)
    ensures Stores(InsertItem(u, rows[|rows| - 1]), row)
  {
    LastConflicts(t, rows, u);
    NewInFront(t, rows, row);
    if IsNew(t, rows[..|rows| - 1], row) {
      assert Stores(u, row);
      LastIsApart(rows, row);
    }
  }

  lemma OnlyNewItems(t: Tables, rows: seq<(ItemId, Item)>, u: Tables, id: ItemId, name: string)
    requires rows != [] && DistinctRows(rows) && AddsFreeRows(t, rows[..|rows| - 1], u)
    ensures id in InsertItem(u, rows[|rows| - 1]).items ==> id in t.items || IsNewId(t, rows, id)
    ensures name in InsertItem(u, rows[|rows| - 1]).itemByName ==> name in t.itemByName || IsNewName(t, rows, name)
  {
    var last := rows[|rows| - 1];
    LastConflicts(t, rows, u);
    NewInFront(t, rows, last);
    if IsNewId(t, rows[..|rows| - 1], id) {
      var row :| IsNew(t, rows[..|rows| - 1], row) && row.0 == id;
      NewInFront(t, rows, row);
    }
    if IsNewName(t, rows[..|rows| - 1], name) {
      var row :| IsNew(t, rows[..|rows| - 1], row) && row.1.name == name;
      NewInFront(t, rows, row);
    }
  }

  lemma AddsLastRow(t: Tables, rows: seq<(ItemId, Item)>, u: Tables)
    requires rows != [] && DistinctRows(rows) && AddsFreeRows(t, rows[..|rows| - 1], u)
    ensures AddsFreeRows(t, rows, InsertItem(u, rows[|rows| - 1]))
  {
    forall row | IsNew(t, rows, row)
      ensures Stores(InsertItem(u, rows[|rows| - 1]), row)
    {
      StoresLastRow(t, rows, u, row);
    }
    forall id, name
      ensures id in InsertItem(u, rows[|rows| - 1]).items ==> id in t.items || IsNewId(t, rows, id)
      ensures name in InsertItem(u, rows[|rows| - 1]).itemByName ==> name in t.itemByName || IsNewName(t, rows, name)
    {
      OnlyNewItems(t, rows, u, id, name);
    }
    ExtendsOne(t, u, rows[|rows| - 1]);
  }

  lemma ExtendsOne(t: Tables, u: Tables, row: (ItemId, Item))
    requires Extends(t, u)
    ensures Extends(t, InsertItem(u, row))
  {
  }

  lemma {:induction false} InsertItemsMeaning(t: Tables, rows: seq<(ItemId, Item)>)
    requires DistinctRows(rows)
    ensures AddsFreeRows(t, rows, InsertItems(t, rows))
  {
    if rows != [] {
      InsertItemsMeaning(t, rows[..|rows| - 1]);
      AddsLastRow(t, rows, InsertItems(t, rows[..|rows| - 1]));
    }
  }

  lemma CatalogueIsDistinct()
    ensures DistinctRows(CATALOGUE)
  {
  }

  /** The name is in the catalogue of this database, at this price. */
  predicate Sells(t: Tables, name: string, price: int64) {
    && name in t.itemByName && t.itemByName[name] in t.items
    && t.items[t.itemByName[name]] == Item(name, price)
  }

  lemma NewIsSold(t: Tables, rows: seq<(ItemId, Item)>, t': Tables, i: nat)
    requires AddsFreeRows(t, rows, t') && t.items == map[] && t.itemByName == map[] && i < |rows|
    ensures Sells(t', rows[i].1.name, rows[i].1.price)
  {
    assert IsNew(t, rows, rows[i]);
  }

  lemma OnlyNewIsSold(t: Tables, rows: seq<(ItemId, Item)>, t': Tables, name: string) returns (i: nat)
    requires AddsFreeRows(t, rows, t') && t.itemByName == map[] && name in t'.itemByName
    ensures i < |rows| && rows[i].1.name == name
  {
    var row :| IsNew(t, rows, row) && row.1.name == name;
    i :| 0 <= i < |rows| && rows[i] == row;
  }

  predicate SellsTheTen(t: Tables) {
    && Sells(t, "t-shirt", 80) && Sells(t, "cup", 20) && Sells(t, "book", 50) && Sells(t, "pen", 10)
    && Sells(t, "powerbank", 200) && Sells(t, "hoody", 300) && Sells(t, "umbrella", 200)
    && Sells(t, "socks", 10) && Sells(t, "wallet", 50) && Sells(t, "pink-hoody", 500)
  }

  predicate IsOneOfTheTen(name: string) {
    name in {"t-shirt", "cup", "book", "pen", "powerbank", "hoody", "umbrella", "socks", "wallet", "pink-hoody"}
  }

  /** The names and prices of the ten rows. */
  ghost predicate AreTheTen(rows: seq<(ItemId, Item)>) {
    && |rows| == 10
    && rows[0].1 == Item("t-shirt", 80) && rows[1].1 == Item("cup", 20)
    && rows[2].1 == Item("book", 50) && rows[3].1 == Item("pen", 10)
    && rows[4].1 == Item("powerbank", 200) && rows[5].1 == Item("hoody", 300)
    && rows[6].1 == Item("umbrella", 200) && rows[7].1 == Item("socks", 10)
    && rows[8].1 == Item("wallet", 50) && rows[9].1 == Item("pink-hoody", 500)
  }

  lemma TenPrices(t: Tables, rows: seq<(ItemId, Item)>)
    requires AreTheTen(rows) && forall i :: 0 <= i < |rows| ==> Sells(t, rows[i].1.name, rows[i].1.price)
    ensures SellsTheTen(t)
  {
    assert forall i :: 0 <= i < 10 ==> Sells(t, rows[i].1.name, rows[i].1.price);
  }

  lemma TenNames(rows: seq<(ItemId, Item)>, i: nat)
    requires AreTheTen(rows) && i < |rows|
    ensures IsOneOfTheTen(rows[i].1.name)
  {
  }

  /** What a freshly migrated database sells: the ten items at these prices, and nothing else. */
  lemma CataloguePrices(t: Tables, name: string)
    requires t == InsertItems(EMPTY, CATALOGUE)
    ensures SellsTheTen(t)
    ensures name in t.itemByName ==> IsOneOfTheTen(name)
  {
    CatalogueIsDistinct();
    InsertItemsMeaning(EMPTY, CATALOGUE);
    var rows := CatalogueRows();
    PricesOf(EMPTY, rows, t, name);
  }

  lemma CatalogueRows() returns (rows: seq<(ItemId, Item)>)
    ensures rows == CATALOGUE && AreTheTen(rows)
  {
    rows := CATALOGUE;
  }

  lemma PricesOf(before: Tables, rows: seq<(ItemId, Item)>, t: Tables, name: string)
    requires AreTheTen(rows) && AddsFreeRows(before, rows, t) && before.items == map[] && before.itemByName == map[]
    ensures SellsTheTen(t)
    ensures name in t.itemByName ==> IsOneOfTheTen(name)
  {
    forall i | 0 <= i < |rows|
      ensures Sells(t, rows[i].1.name, rows[i].1.price)
    {
      NewIsSold(before, rows, t, i);
    }
    TenPrices(t, rows);
    if name in t.itemByName {
      var i := OnlyNewIsSold(before, rows, t, name);
      TenNames(rows, i);
    }
  }

  class Migrator {
    var tables: Tables

    constructor (tables: Tables)
      ensures this.tables == tables
    {
      this.tables := tables;
    }

    /** INSERT INTO items ... ON CONFLICT DO NOTHING, row by row: every row whose id and name were both free is
        stored as it is, and nothing else changes. A second run changes nothing. */
    method InsertCatalogue()
      requires Coherent(tables)
      modifies this
      ensures tables == InsertItems(old(tables), CATALOGUE)
      ensures AddsFreeRows(old(tables), CATALOGUE, tables)
      ensures InsertItems(tables, CATALOGUE) == tables && Coherent(tables)
    {
      ghost var before := tables;
      for i := 0 to |CATALOGUE|
        invariant tables == InsertItems(before, CATALOGUE[..i])
      {
        var row := CATALOGUE[i];
        assert CATALOGUE[..i + 1][..i] == CATALOGUE[..i];
        if !Conflicts(tables, row) {
          tables := tables.(items := tables.items[row.0 := row.1], itemByName := tables.itemByName[row.1.name := row.0]);
        }
      }
      assert CATALOGUE[..|CATALOGUE|] == CATALOGUE;
      MigrationIsIdempotent(before);
      CatalogueIsDistinct();
      InsertItemsMeaning(before, CATALOGUE);
    }
  }
}
