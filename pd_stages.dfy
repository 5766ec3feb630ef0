/**
 * The stages of `migrate_with_pandas.py` as they run: the module's dictionaries are an object
 * the loops update, the session is the store's `Session`, and every method is proved to do
 * what the step functions of `PdMigration` say.
 */
module PdStages {

  import opened Options
  import opened Dates
  import opened Records
  import opened Store
  import opened PdMigration
  import Migration

  /** The six module-level dictionaries of `migrate_with_pandas.py`. */
  class PdIdentityMaps {
    var userIds: map<nat, nat>
    var usernameIds: map<string, nat>
    var defaultAddressIds: map<nat, nat>
    var categoryIds: map<string, nat>
    var productIds: map<nat, nat>
    var productIdsByName: map<string, nat>

    function Value(): PdMaps
      reads this
    {
      PdMaps(userIds, usernameIds, defaultAddressIds, categoryIds, productIds, productIdsByName)
    }

    constructor ()
      ensures Value() == NoPdMaps
    {
      userIds, usernameIds, defaultAddressIds := map[], map[], map[];
      categoryIds, productIds, productIdsByName := map[], map[], map[];
    }

    method PutCategory(row: CategoryFrameRow, id: nat)
      modifies this
      ensures Value() == MapCategoryPd(old(Value()), row, id)
    {
      categoryIds := categoryIds[row.raw := id];
      categoryIds := categoryIds[row.name := id];
    }

    method PutUser(row: UserFrameRow, id: nat)
      modifies this
      ensures Value() == MapUserPd(old(Value()), row, id)
    {
      userIds := userIds[row.legacyId := id];
      usernameIds := usernameIds[row.username := id];
    }

    method PutDefaultAddress(userId: nat, addressId: nat)
      modifies this
      ensures Value() == old(Value()).(defaultAddressIds := old(defaultAddressIds)[userId := addressId])
    {
      defaultAddressIds := defaultAddressIds[userId := addressId];
    }

    method PutProduct(row: ProductFrameRow, id: nat)
      modifies this
      ensures Value() == MapProductPd(old(Value()), row, id)
    {
      productIds := productIds[row.legacyId := id];
      productIdsByName := productIdsByName[row.name := id];
    }
  }

  // ================================================================ categories

  /** The body of the loop of `migrate_categories_pd` for one row of the category frame. */
  method MigrateCategoryPd(session: Session, maps: PdIdentityMaps, row: CategoryFrameRow, migrated: nat)
    returns (count: nat)
    modifies session, maps
    ensures PdRun(session.State(), maps.Value(), count) ==
            CategoryStepPd(PdRun(old(session.State()), old(maps.Value()), migrated), row)
  {
    count := migrated;
    var existing := Truthy(CategoryNamed(session.Visible(), row.name));
    if existing.Some? {
      maps.PutCategory(row, existing.value);
      return;
    }
    var id := session.Add(NewCategoryPd(row.name));
    var outcome := session.Flush();
    if outcome == Ok {
      maps.PutCategory(row, id);
      count := count + 1;
    } else {
      session.Rollback();
      if outcome == IntegrityError {
        var found := Truthy(CategoryNamed(session.Visible(), row.name));
        if found.Some? {
          maps.PutCategory(row, found.value);
        }
      }
    }
  }

  /** `migrate_categories_pd`: the loop over the category frame, then the final commit's outcome. */
  method MigrateCategoriesPd(session: Session, maps: PdIdentityMaps, products: seq<LegacyProduct>)
    returns (outcome: Outcome)
    modifies session, maps
    ensures var after := CategoriesLoopPd(PdRun(old(session.State()), old(maps.Value()), 0), CategoryFrame(products));
            (session.State(), outcome) == CommitDb(after.db) && maps.Value() == after.maps
  {
    var rows := CategoryFrame(products);
    var count := 0;
    for i := 0 to |rows|
      invariant PdRun(session.State(), maps.Value(), count) ==
                CategoriesLoopPd(PdRun(old(session.State()), old(maps.Value()), 0), rows[..i])
    {
      assert rows[..i + 1][..i] == rows[..i];
      count := MigrateCategoryPd(session, maps, rows[i], count);
    }
    assert rows[..|rows|] == rows;
    outcome := session.Commit();
  }

  // ================================================================ users and addresses

  /** The body of the loop of `migrate_users_and_addresses_pd` for one user row. */
  method MigrateUserPd(session: Session, maps: PdIdentityMaps, row: UserFrameRow, migrated: nat)
    returns (count: nat)
    modifies session, maps
    ensures PdRun(session.State(), maps.Value(), count) ==
            UserStepPd(PdRun(old(session.State()), old(maps.Value()), migrated), row)
  {
    count := migrated;
    var existing := Truthy(UserNamed(session.Visible(), row.username));
    if existing.Some? {
      var address := Truthy(DefaultShippingOf(session.Visible(), existing.value));
      maps.PutUser(row, existing.value);
      if address.Some? {
        maps.PutDefaultAddress(existing.value, address.value);
      }
      return;
    }
    count := UserInsertPdIn(session, maps, row, migrated);
  }

  /** A new user: its insert and flush, then its address, under the handlers. */
  method UserInsertPdIn(session: Session, maps: PdIdentityMaps, row: UserFrameRow, migrated: nat)
    returns (count: nat)
    modifies session, maps
    ensures PdRun(session.State(), maps.Value(), count) ==
            UserInsertPd(PdRun(old(session.State()), old(maps.Value()), migrated), row)
  {
    ghost var st := PdRun(session.State(), maps.Value(), migrated);
    var userId := session.Add(row.user);
    ghost var added := (session.State(), userId);
    var outcome := session.Flush();
    ghost var flushed := (session.State(), outcome);
    if outcome != Ok {
      UserFailurePdIn(session, maps, row, outcome, migrated);
      UserInsertFails(st, row, added, flushed);
      return migrated;
    }
    maps.PutUser(row, userId);
    count := migrated + 1;
    AddressInsertPdIn(session, maps, row, userId, count);
    UserInsertSucceeds(st, row, added, flushed);
  }

  lemma UserInsertFails(st: PdRun, row: UserFrameRow, added: (Db, nat), flushed: (Db, Outcome))
    requires added == AddRow(st.db, row.user) && flushed == FlushDb(added.0) && flushed.1 != Ok
    ensures UserInsertPd(st, row) == UserFailurePd(flushed.0, st.maps, row, flushed.1, st.migrated)
  {
  }

  lemma UserInsertSucceeds(st: PdRun, row: UserFrameRow, added: (Db, nat), flushed: (Db, Outcome))
    requires added == AddRow(st.db, row.user) && flushed == FlushDb(added.0) && flushed.1 == Ok
    ensures UserInsertPd(st, row) ==
            AddressInsertPd(flushed.0, MapUserPd(st.maps, row, added.1), row, added.1, st.migrated + 1)
  {
  }

  /** The address of a user just flushed, its flush, and the batch commit. */
  method AddressInsertPdIn(session: Session, maps: PdIdentityMaps, row: UserFrameRow, userId: nat, migrated: nat)
    modifies session, maps
    ensures PdRun(session.State(), maps.Value(), migrated) ==
            AddressInsertPd(old(session.State()), old(maps.Value()), row, userId, migrated)
  {
    ghost var db0, m0 := session.State(), maps.Value();
    var addressId := session.Add(NewAddressPd(userId, row.address));
    ghost var added := (session.State(), addressId);
    var outcome := session.Flush();
    ghost var flushed := (session.State(), outcome);
    if outcome != Ok {
      UserFailurePdIn(session, maps, row, outcome, migrated);
      AddressInsertFails(db0, m0, row, userId, migrated, added, flushed);
      return;
    }
    maps.PutDefaultAddress(userId, addressId);
    AddressInsertSucceeds(db0, m0, row, userId, migrated, added, flushed);
    if migrated % BatchInsertSize == 0 {
      outcome := session.Commit();
      if outcome != Ok {
        UserFailurePdIn(session, maps, row, outcome, migrated);
      }
    }
  }

  lemma AddressInsertFails(db: Db, m: PdMaps, row: UserFrameRow, userId: nat, migrated: nat,
                           added: (Db, nat), flushed: (Db, Outcome))
    requires added == AddRow(db, NewAddressPd(userId, row.address)) && flushed == FlushDb(added.0)
    requires flushed.1 != Ok
    ensures AddressInsertPd(db, m, row, userId, migrated) == UserFailurePd(flushed.0, m, row, flushed.1, migrated)
  {
  }

  lemma AddressInsertSucceeds(db: Db, m: PdMaps, row: UserFrameRow, userId: nat, migrated: nat,
                              added: (Db, nat), flushed: (Db, Outcome))
    requires added == AddRow(db, NewAddressPd(userId, row.address)) && flushed == FlushDb(added.0)
    requires flushed.1 == Ok
    ensures var mapped := m.(defaultAddressIds := m.defaultAddressIds[userId := added.1]);
            var committed := CommitDb(flushed.0);
            AddressInsertPd(db, m, row, userId, migrated) ==
            if migrated % BatchInsertSize != 0 then PdRun(flushed.0, mapped, migrated)
            else if committed.1 == Ok then PdRun(committed.0, mapped, migrated)
            else UserFailurePd(committed.0, mapped, row, committed.1, migrated)
  {
  }

  /** The handlers of `migrate_users_and_addresses_pd` for one user row. */
  method UserFailurePdIn(session: Session, maps: PdIdentityMaps, row: UserFrameRow, o: Outcome, migrated: nat)
    modifies session, maps
    ensures PdRun(session.State(), maps.Value(), migrated) ==
            UserFailurePd(old(session.State()), old(maps.Value()), row, o, migrated)
  {
    session.Rollback();
    if o == IntegrityError {
      var found := Truthy(UserNamed(session.Visible(), row.username));
      if found.Some? {
        maps.PutUser(row, found.value);
      }
    }
  }

  /** `migrate_users_and_addresses_pd`: the loop over the user frame, then the final commit's outcome. */
  method MigrateUsersPd(session: Session, maps: PdIdentityMaps, users: seq<LegacyUser>, parse: Parser, now: DateTime)
    returns (outcome: Outcome)
    modifies session, maps
    ensures var after := UsersLoopPd(PdRun(old(session.State()), old(maps.Value()), 0), UserFrames(users, parse, now));
            (session.State(), outcome) == CommitDb(after.db) && maps.Value() == after.maps
  {
    var rows := UserFrames(users, parse, now);
    var count := 0;
    for i := 0 to |rows|
      invariant PdRun(session.State(), maps.Value(), count) ==
                UsersLoopPd(PdRun(old(session.State()), old(maps.Value()), 0), rows[..i])
    {
      assert rows[..i + 1][..i] == rows[..i];
      count := MigrateUserPd(session, maps, rows[i], count);
    }
    assert rows[..|rows|] == rows;
    outcome := session.Commit();
  }

  // ================================================================ products

  /** The body of the loop of `migrate_products_pd` for one product row. */
  method MigrateProductPd(session: Session, maps: PdIdentityMaps, row: ProductFrameRow, migrated: nat)
    returns (count: nat)
    modifies session, maps
    ensures PdRun(session.State(), maps.Value(), count) ==
            ProductStepPd(PdRun(old(session.State()), old(maps.Value()), migrated), row)
  {
    count := migrated;
    if row.categoryId.None? {
      return;
    }
    var existing := Truthy(ProductWithSku(session.Visible(), row.sku));
    if existing.Some? {
      maps.PutProduct(row, existing.value);
      return;
    }
    var id := session.Add(row.product);
    var outcome := session.Flush();
    if outcome == Ok {
      maps.PutProduct(row, id);
      count := count + 1;
      if count % BatchInsertSize == 0 {
        outcome := session.Commit();
      }
    }
    if outcome != Ok {
      session.Rollback();
      if outcome == IntegrityError {
        var found := Truthy(ProductWithSku(session.Visible(), row.sku));
        if found.Some? {
          maps.PutProduct(row, found.value);
        }
      }
    }
  }

  /**
   * `migrate_products_pd`: the product frame, its category ids looked up in the map as the
   * stage starts, walked, then the final commit's outcome.
   */
  method MigrateProductsPd(session: Session, maps: PdIdentityMaps, products: seq<LegacyProduct>, stocks: seq<int>,
                           parse: Parser, now: DateTime)
    returns (outcome: Outcome)
    requires |stocks| == |products|
    modifies session, maps
    ensures var after := ProductsLoopPd(PdRun(old(session.State()), old(maps.Value()), 0),
                                        ProductFrames(products, old(maps.categoryIds), stocks, parse, now));
            (session.State(), outcome) == CommitDb(after.db) && maps.Value() == after.maps
  {
    var rows := ProductFrames(products, maps.categoryIds, stocks, parse, now);
    ghost var st0 := PdRun(session.State(), maps.Value(), 0);
    var count := 0;
    for i := 0 to |rows|
      invariant PdRun(session.State(), maps.Value(), count) == ProductsLoopPd(st0, rows[..i])
    {
      assert rows[..i + 1][..i] == rows[..i];
      count := MigrateProductPd(session, maps, rows[i], count);
    }
    assert rows[..|rows|] == rows;
    outcome := session.Commit();
  }

  // ================================================================ orders and items

  /** The body of the loop of `migrate_orders_and_items_pd`: the order and its item, one flush. */
  method MigrateOrderPd(session: Session, k: KeptOrder, migrated: nat) returns (count: nat)
    modifies session
    ensures session.State() == OrderStepPd(PdRun(old(session.State()), NoPdMaps, migrated), k).db
    ensures count == OrderStepPd(PdRun(old(session.State()), NoPdMaps, migrated), k).migrated
  {
    count := migrated;
    var orderId := session.Add(NewOrderPd(k));
    var itemId := session.Add(NewItemPd(orderId, k));
    var outcome := session.Flush();
    if outcome == Ok {
      count := count + 1;
      if count % BatchInsertSize == 0 {
        outcome := session.Commit();
      }
    }
    if outcome != Ok {
      session.Rollback();
    }
  }

  /** `migrate_orders_and_items_pd`: the order frame resolved and filtered, walked, then committed. */
  method MigrateOrdersPd(session: Session, maps: PdIdentityMaps, orders: seq<LegacyOrder>, parse: Parser, now: DateTime)
    returns (outcome: Outcome)
    modifies session
    ensures var after := OrdersLoopPd(PdRun(old(session.State()), maps.Value(), 0),
                                      DropUnresolved(OrderFrames(orders, maps.Value(), parse, now)));
            (session.State(), outcome) == CommitDb(after.db)
  {
    var rows := DropUnresolved(OrderFrames(orders, maps.Value(), parse, now));
    var count := 0;
    for i := 0 to |rows|
      invariant session.State() == OrdersLoopPd(PdRun(old(session.State()), maps.Value(), 0), rows[..i]).db
      invariant count == OrdersLoopPd(PdRun(old(session.State()), maps.Value(), 0), rows[..i]).migrated
    {
      assert rows[..i + 1][..i] == rows[..i];
      ghost var before := OrdersLoopPd(PdRun(old(session.State()), maps.Value(), 0), rows[..i]);
      count := MigrateOrderPd(session, rows[i], count);
      OrderStepPdMaps(before, rows[i]);
    }
    assert rows[..|rows|] == rows;
    outcome := session.Commit();
  }

  /** The order step reads the maps nowhere: only the database and the counter move. */
  lemma OrderStepPdMaps(st: PdRun, k: KeptOrder)
    ensures OrderStepPd(st, k).maps == st.maps
    ensures OrderStepPd(st, k).db == OrderStepPd(PdRun(st.db, NoPdMaps, st.migrated), k).db
    ensures OrderStepPd(st, k).migrated == OrderStepPd(PdRun(st.db, NoPdMaps, st.migrated), k).migrated
  {
  }

  // ================================================================ main_pandas

  /**
   * `main_pandas` once the legacy tables are read: the four stages in order; a stage whose
   * final commit fails is answered by a rollback, and the stages after it do not run.
   */
  method MainPandas(session: Session, maps: PdIdentityMaps, legacy: Migration.Legacy, stocks: seq<int>,
                    parse: Parser, now: DateTime)
    requires |stocks| == |legacy.products|
    modifies session, maps
    ensures var after := PdMigrationRun(old(session.State()), old(maps.Value()), legacy, stocks, parse, now);
            session.State() == after.db && maps.Value() == after.maps
  {
    ghost var st0 := PdRun(session.State(), maps.Value(), 0);
    var outcome := MigrateCategoriesPd(session, maps, legacy.products);
    CategoriesStageLink(st0, legacy.products, session.State(), maps.Value(), outcome);
    ghost var c := CategoriesStagePd(st0, legacy.products);
    if outcome != Ok {
      session.Rollback();
      return;
    }
    outcome := MigrateUsersPd(session, maps, legacy.users, parse, now);
    UsersStageLink(c.0, legacy.users, parse, now, session.State(), maps.Value(), outcome);
    ghost var u := UsersStagePd(c.0, legacy.users, parse, now);
    if outcome != Ok {
      session.Rollback();
      return;
    }
    outcome := MigrateProductsPd(session, maps, legacy.products, stocks, parse, now);
    ProductsStageLink(u.0, legacy.products, stocks, parse, now, session.State(), maps.Value(), outcome);
    ghost var p := ProductsStagePd(u.0, legacy.products, stocks, parse, now);
    if outcome != Ok {
      session.Rollback();
      return;
    }
    outcome := MigrateOrdersPd(session, maps, legacy.orders, parse, now);
    OrdersStageLink(p.0, legacy.orders, parse, now, session.State(), maps.Value(), outcome);
    if outcome != Ok {
      session.Rollback();
    }
  }

  lemma CategoriesStageLink(st: PdRun, products: seq<LegacyProduct>, db: Db, m: PdMaps, outcome: Outcome)
    requires st.migrated == 0
    requires (db, outcome) == CommitDb(CategoriesLoopPd(PdRun(st.db, st.maps, 0), CategoryFrame(products)).db)
    requires m == CategoriesLoopPd(PdRun(st.db, st.maps, 0), CategoryFrame(products)).maps
    ensures var c := CategoriesStagePd(st, products);
            c.1 == (outcome == Ok) && c.0.db == (if outcome == Ok then db else RollbackDb(db)) && c.0.maps == m
  {
    assert st.(migrated := 0) == PdRun(st.db, st.maps, 0);
  }

  lemma UsersStageLink(st: PdRun, users: seq<LegacyUser>, parse: Parser, now: DateTime, db: Db, m: PdMaps, outcome: Outcome)
    requires (db, outcome) == CommitDb(UsersLoopPd(PdRun(st.db, st.maps, 0), UserFrames(users, parse, now)).db)
    requires m == UsersLoopPd(PdRun(st.db, st.maps, 0), UserFrames(users, parse, now)).maps
    ensures var c := UsersStagePd(st, users, parse, now);
            c.1 == (outcome == Ok) && c.0.db == (if outcome == Ok then db else RollbackDb(db)) && c.0.maps == m
  {
    assert st.(migrated := 0) == PdRun(st.db, st.maps, 0);
  }

  lemma ProductsStageLink(st: PdRun, products: seq<LegacyProduct>, stocks: seq<int>, parse: Parser, now: DateTime,
                          db: Db, m: PdMaps, outcome: Outcome)
    requires |stocks| == |products|
    requires (db, outcome) == CommitDb(ProductsLoopPd(PdRun(st.db, st.maps, 0),
                                                      ProductFrames(products, st.maps.categoryIds, stocks, parse, now)).db)
    requires m == ProductsLoopPd(PdRun(st.db, st.maps, 0), ProductFrames(products, st.maps.categoryIds, stocks, parse, now)).maps
    ensures var c := ProductsStagePd(st, products, stocks, parse, now);
            c.1 == (outcome == Ok) && c.0.db == (if outcome == Ok then db else RollbackDb(db)) && c.0.maps == m
  {
    assert st.(migrated := 0) == PdRun(st.db, st.maps, 0);
  }

  lemma OrdersStageLink(st: PdRun, orders: seq<LegacyOrder>, parse: Parser, now: DateTime, db: Db, m: PdMaps, outcome: Outcome)
    requires (db, outcome) == CommitDb(OrdersLoopPd(PdRun(st.db, st.maps, 0), DropUnresolved(OrderFrames(orders, st.maps, parse, now))).db)
    requires m == st.maps
    ensures var c := OrdersStagePd(st, orders, parse, now);
            c.1 == (outcome == Ok) && c.0.db == (if outcome == Ok then db else RollbackDb(db)) && c.0.maps == m
  {
    OrdersLoopPdKeepsMaps(PdRun(st.db, st.maps, 0), DropUnresolved(OrderFrames(orders, st.maps, parse, now)));
    assert st.(migrated := 0) == PdRun(st.db, st.maps, 0);
  }

  lemma {:induction false} OrdersLoopPdKeepsMaps(st: PdRun, rows: seq<KeptOrder>)
    ensures OrdersLoopPd(st, rows).maps == st.maps
    decreases |rows|
  {
    if rows != [] {
      OrdersLoopPdKeepsMaps(st, rows[..|rows| - 1]);
    }
  }
}
