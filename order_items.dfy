/**
 * The order stage of `migrate_data.py` and the orders it leaves without an item.
 *
 * The order is flushed before its product is looked up. When the product is not mapped the
 * order is expunged from the session, but its INSERT has already been sent inside the open
 * transaction, so the next successful commit stores an order that has no item. At a batch
 * end the same branch rolls back the whole pending batch, losing the complete orders flushed
 * since the last commit. The code's own comments state the intent: an order whose product
 * cannot be mapped is not created. `OrderPlacedChecked` looks the product up first, and keeps
 * "every order has an item" over the committed rows and over all rows of the session.
 */
module OrderItems {

  import opened Options
  import opened Dates
  import opened Records
  import opened Store
  import opened Migration

  /** Every order among `v` has an item among `v`. */
  predicate EveryOrderHasItem(v: seq<Row>) {
    forall x | x in v && x.OrderRow? :: exists y | y in v :: y.ItemRow? && y.orderId == x.id
  }

  /** What the session holds: the committed and flushed rows, then the rows only added. */
  function AllRows(db: Db): seq<Row> {
    Visible(db) + db.added
  }

  /** The invariant the intended order stage keeps: no order without an item, committed or pending. */
  predicate ItemsComplete(db: Db) {
    EveryOrderHasItem(db.committed) && EveryOrderHasItem(AllRows(db))
  }

  // ================================================================ as written

  /**
   * An order with an unmapped product, flushed and not at a batch end, stays flushed without an
   * item: the visible rows break `EveryOrderHasItem`, and the next successful commit stores it.
   */
  lemma OrderLeftWithoutItem(db: Db, m: Maps, row: Row, o: LegacyOrder, p: nat)
    requires row.OrderRow? && ProductNamed(m, o.productName).None?
    requires FlushDb(AddRow(db, row).0).1 == Ok && !AtBatchEnd(p)
    requires forall y | y in AllRows(db) && y.ItemRow? :: y.orderId != db.nextId
    ensures var r := OrderPlaced(db, m, row, o, p);
            !EveryOrderHasItem(Visible(r.db)) && (CommitDb(r.db).1 == Ok ==> !EveryOrderHasItem(CommitDb(r.db).0.committed))
  {
    var added := AddRow(db, row);
    var order := added.0.added[|added.0.added| - 1];
    assert order.OrderRow? && order.id == db.nextId;
    var r := OrderPlaced(db, m, row, o, p);
    assert r.db.flushed == db.flushed + added.0.added && r.db.committed == db.committed && r.db.added == [];
    assert Visible(r.db) == AllRows(db) + [order];
    assert order in Visible(r.db);
    assert !EveryOrderHasItem(Visible(r.db)) by {
      forall y | y in Visible(r.db) && y.ItemRow? ensures y.orderId != order.id {
        assert y in AllRows(db) || y == order;
      }
    }
    if CommitDb(r.db).1 == Ok {
      assert FlushOutcome(Visible(r.db), []) == Ok;
      assert CommitDb(r.db).0.committed == Visible(r.db);
    }
  }

  /**
   * The same branch at a batch end rolls back everything pending: the orders flushed since the
   * last commit, with their items, are gone, and only the committed rows remain.
   */
  lemma BatchEndDropsPendingOrders(db: Db, m: Maps, row: Row, o: LegacyOrder, p: nat)
    requires ProductNamed(m, o.productName).None?
    requires FlushDb(AddRow(db, row).0).1 == Ok && AtBatchEnd(p)
    ensures var r := OrderPlaced(db, m, row, o, p);
            Visible(r.db) == db.committed && r.db.added == [] && r.maps == m
  {
  }

  // ================================================================ corrected

  /**
   * The order as its comments intend: the product is looked up first, and an order without a
   * mapped product is skipped like one without a known user. Otherwise as `OrderStep`.
   */
  function OrderStepChecked(st: Run, users: map<string, nat>, o: LegacyOrder, parse: Parser, now: DateTime): Run
  {
    if ProductNamed(st.maps, o.productName).None? then st.(processed := st.processed + 1)
    else OrderStep(st, users, o, parse, now)
  }

  function OrdersLoopChecked(st: Run, users: map<string, nat>, orders: seq<LegacyOrder>, parse: Parser, now: DateTime): Run
    decreases |orders|
  {
    if orders == [] then st
    else OrderStepChecked(OrdersLoopChecked(st, users, orders[..|orders| - 1], parse, now), users, orders[|orders| - 1], parse, now)
  }

  // ---------------------------------------------------------------- the session keeps the invariant

  lemma AppendOrderAndItem(v: seq<Row>, a: Row, b: Row)
    requires EveryOrderHasItem(v) && b.ItemRow? && (a.OrderRow? ==> b.orderId == a.id)
    ensures EveryOrderHasItem(v + [a, b])
  {
    forall x | x in v + [a, b] && x.OrderRow?
      ensures exists y | y in v + [a, b] :: y.ItemRow? && y.orderId == x.id
    {
      if x in v {
        var y :| y in v && y.ItemRow? && y.orderId == x.id;
        assert y in v + [a, b];
      } else {
        assert x == a;
        assert b in v + [a, b];
      }
    }
  }

  lemma FlushKeepsItems(db: Db)
    requires ItemsComplete(db)
    ensures ItemsComplete(FlushDb(db).0)
  {
    if FlushDb(db).1 == Ok {
      assert AllRows(FlushDb(db).0) == AllRows(db);
    }
  }

  lemma RollbackKeepsItems(db: Db)
    requires EveryOrderHasItem(db.committed)
    ensures ItemsComplete(RollbackDb(db))
  {
    assert AllRows(RollbackDb(db)) == db.committed;
  }

  lemma CommitOrRollbackKeepsItems(db: Db)
    requires ItemsComplete(db)
    ensures ItemsComplete(CommitOrRollback(db))
  {
    var flushed := FlushDb(db);
    FlushKeepsItems(db);
    if flushed.1 == Ok {
      var committed := CommitDb(db).0;
      assert committed.committed == AllRows(flushed.0);
      assert AllRows(committed) == committed.committed;
    } else {
      RollbackKeepsItems(flushed.0);
    }
  }

  lemma BatchEndKeepsItems(db: Db, p: nat)
    requires ItemsComplete(db)
    ensures ItemsComplete(BatchEnd(db, p))
  {
    if AtBatchEnd(p) {
      CommitOrRollbackKeepsItems(db);
    }
  }

  /** An order flushed, then its item added and the batch ended, keeps the invariant. */
  lemma OrderWithItemKeepsItems(db: Db, row: Row, item: Row, p: nat)
    requires ItemsComplete(db) && FlushDb(AddRow(db, row).0).1 == Ok
    requires item.ItemRow? && item.orderId == db.nextId
    ensures ItemsComplete(BatchEnd(AddRow(FlushDb(AddRow(db, row).0).0, item).0, p))
  {
    var added := AddRow(db, row);
    var flushed := FlushDb(added.0);
    var order := added.0.added[|added.0.added| - 1];
    var withItem := AddRow(flushed.0, item).0;
    var stored := withItem.added[|withItem.added| - 1];
    assert stored.ItemRow? && stored.orderId == order.id;
    assert AllRows(withItem) == AllRows(db) + [order, stored];
    AppendOrderAndItem(AllRows(db), order, stored);
    assert withItem.committed == db.committed;
    BatchEndKeepsItems(withItem, p);
  }

  /** An order whose product is mapped keeps every order with an item, committed or pending. */
  lemma OrderPlacedKeepsItems(db: Db, m: Maps, row: Row, o: LegacyOrder, p: nat)
    requires ItemsComplete(db) && ProductNamed(m, o.productName).Some?
    ensures ItemsComplete(OrderPlaced(db, m, row, o, p).db)
  {
    var added := AddRow(db, row);
    var flushed := FlushDb(added.0);
    if flushed.1 != Ok {
      RollbackKeepsItems(flushed.0);
    } else {
      OrderWithItemKeepsItems(db, row, NewItem(added.1, ProductNamed(m, o.productName).value, o), p);
    }
  }

  /** Whatever its row, an order whose product is mapped keeps the invariant. */
  lemma OrderWithRowKeepsItems(st: Run, row: Option<Row>, o: LegacyOrder)
    requires ItemsComplete(st.db) && ProductNamed(st.maps, o.productName).Some?
    ensures ItemsComplete(OrderWithRow(st, row, o).db)
  {
    hide OrderPlaced, ItemsComplete, ProductNamed;
    if row.Some? {
      OrderPlacedKeepsItems(st.db, st.maps, row.value, o, st.processed + 1);
    }
  }

  /** The corrected step keeps the invariant; without a mapped product it changes nothing. */
  lemma OrderStepCheckedKeepsItems(st: Run, users: map<string, nat>, o: LegacyOrder, parse: Parser, now: DateTime)
    requires ItemsComplete(st.db)
    ensures ItemsComplete(OrderStepChecked(st, users, o, parse, now).db)
    ensures ProductNamed(st.maps, o.productName).None? ==> OrderStepChecked(st, users, o, parse, now).db == st.db
  {
    if ProductNamed(st.maps, o.productName).Some? {
      OrderWithRowKeepsItems(st, OrderRowFor(Visible(st.db), users, o, parse, now), o);
    }
  }

  /** The corrected order stage, with its final commit, never leaves an order without an item. */
  lemma {:induction false} OrdersLoopCheckedKeepsItems(st: Run, users: map<string, nat>, orders: seq<LegacyOrder>,
                                                       parse: Parser, now: DateTime)
    requires ItemsComplete(st.db)
    ensures ItemsComplete(OrdersLoopChecked(st, users, orders, parse, now).db)
    ensures ItemsComplete(Finish(OrdersLoopChecked(st, users, orders, parse, now)).db)
    decreases |orders|
  {
    if orders != [] {
      OrdersLoopCheckedKeepsItems(st, users, orders[..|orders| - 1], parse, now);
      OrderStepCheckedKeepsItems(OrdersLoopChecked(st, users, orders[..|orders| - 1], parse, now), users, orders[|orders| - 1], parse, now);
    }
    CommitOrRollbackKeepsItems(OrdersLoopChecked(st, users, orders, parse, now).db);
  }
}
