/**
 * The stage loops of `migrate_data.py` as methods on the session and on the run's identity
 * maps. Each method's effect is the row function of `Migration` it is proved against.
 */
module MigrationStages {

  import opened Options
  import opened Decimals
  import opened Dates
  import opened Records
  import opened Store
  import opened Addresses
  import opened Migration
  import Prices
  import Statuses

  /** The four module-level dictionaries of one run. */
  class IdentityMaps {
    var categoryIds: map<string, nat>
    var userIds: map<nat, nat>
    var productIds: map<nat, nat>
    var productIdsByName: map<string, nat>

    function Value(): Maps
      reads this
    {
      Maps(categoryIds, userIds, productIds, productIdsByName)
    }

    constructor ()
      ensures Value() == NoMaps
    {
      categoryIds, userIds, productIds, productIdsByName := map[], map[], map[], map[];
    }

    method PutCategory(raw: string, name: string, id: nat)
      modifies this
      ensures Value() == MapCategory(old(Value()), raw, name, id)
    {
      categoryIds := categoryIds[name := id];
      if raw != name {
        categoryIds := categoryIds[raw := id];
      }
    }

    method PutUser(legacyId: nat, id: nat)
      modifies this
      ensures Value() == MapUser(old(Value()), legacyId, id)
    {
      userIds := userIds[legacyId := id];
    }

    method PutProduct(prod: LegacyProduct, id: nat)
      modifies this
      ensures Value() == MapProduct(old(Value()), prod, id)
    {
      productIds := productIds[prod.id := id];
      productIdsByName := productIdsByName[prod.name := id];
    }
  }

  /** `commit()` inside its own `try`, a failure answered by `rollback()`. */
  method CommitBatch(session: Session)
    modifies session
    ensures session.State() == CommitOrRollback(old(session.State()))
  {
    var outcome := session.Commit();
    if outcome != Ok {
      session.Rollback();
    }
  }

  // ---------------------------------------------------------------- categories

  /** The `try` block and handlers for a category name not yet mapped. */
  method CreateCategoryIn(session: Session, maps: IdentityMaps, raw: string, name: string)
    modifies session, maps
    ensures (session.State(), maps.Value()) == CreateCategory(old(session.State()), old(maps.Value()), raw, name)
  {
    var existing := CategoryNamed(session.Visible(), name);
    if existing.Some? {
      maps.PutCategory(raw, name, existing.value);
      return;
    }
    var id := session.Add(CategoryRow(0, name, Some("Categoría para " + name)));
    var outcome := session.Flush();
    if outcome == Ok {
      maps.PutCategory(raw, name, id);
      return;
    }
    session.Rollback();
    if outcome == IntegrityError {
      var found := CategoryNamed(session.Visible(), name);
      if found.Some? {
        maps.PutCategory(raw, name, found.value);
      }
    }
  }

  /** A category name not yet mapped, then the batch commit when `processed` ends a batch. */
  method CreateCategoryCounted(session: Session, maps: IdentityMaps, raw: string, name: string, processed: nat)
    modifies session, maps
    ensures var created := CreateCategory(old(session.State()), old(maps.Value()), raw, name);
            session.State() == BatchEnd(created.0, processed) && maps.Value() == created.1
  {
    CreateCategoryIn(session, maps, raw, name);
    if AtBatchEnd(processed) {
      CommitBatch(session);
    }
  }

  /** The body of the loop of `migrate_product_categories` for one distinct value. */
  method MigrateCategory(session: Session, maps: IdentityMaps, raw: Option<string>, processed: nat)
    returns (count: nat)
    modifies session, maps
    ensures Run(session.State(), maps.Value(), count) ==
            CategoryStep(Run(old(session.State()), old(maps.Value()), processed), raw)
  {
    count := processed;
    if raw.None? || raw.value == [] {
      return;
    }
    var name := Normalized(raw);
    count := count + 1;
    if name in maps.categoryIds {
      return;
    }
    ghost var db0, m0 := session.State(), maps.Value();
    CreateCategoryCounted(session, maps, raw.value, name, count);
    CategoryStepCreates(db0, m0, processed, raw, name, session.State(), maps.Value());
  }

  lemma CategoryStepCreates(db0: Db, m0: Maps, processed: nat, raw: Option<string>, name: string, db: Db, m: Maps)
    requires raw.Some? && raw.value != [] && name == Normalized(raw) && name !in m0.categoryIds
    requires db == BatchEnd(CreateCategory(db0, m0, raw.value, name).0, processed + 1)
    requires m == CreateCategory(db0, m0, raw.value, name).1
    ensures CategoryStep(Run(db0, m0, processed), raw) == Run(db, m, processed + 1)
  {
    hide Normalized, CreateCategory;
  }

  /** `migrate_product_categories` over the distinct legacy category values. */
  method MigrateProductCategories(session: Session, maps: IdentityMaps, names: seq<Option<string>>)
    modifies session, maps
    ensures var after := Finish(CategoriesLoop(Run(old(session.State()), old(maps.Value()), 0), names));
            session.State() == after.db && maps.Value() == after.maps
  {
    var count := 0;
    for i := 0 to |names|
      invariant Run(session.State(), maps.Value(), count) ==
                CategoriesLoop(Run(old(session.State()), old(maps.Value()), 0), names[..i])
    {
      assert names[..i + 1][..i] == names[..i];
      count := MigrateCategory(session, maps, names[i], count);
    }
    assert names[..|names|] == names;
    CommitBatch(session);
  }

  // ---------------------------------------------------------------- users and addresses

  /** The handlers of `migrate_users_and_addresses` for one user. */
  method UserFailureIn(session: Session, maps: IdentityMaps, u: LegacyUser, o: Outcome, p: nat)
    modifies session, maps
    ensures Run(session.State(), maps.Value(), p) == UserFailure(old(session.State()), old(maps.Value()), u, o, p)
  {
    session.Rollback();
    if o == IntegrityError {
      var found := UserNamed(session.Visible(), u.username);
      if found.Some? {
        maps.PutUser(u.id, found.value);
      }
    }
  }

  /** The rest of the `try` block once the user is flushed. */
  method UserCreatedIn(session: Session, maps: IdentityMaps, u: LegacyUser, id: nat, p: nat)
    modifies session, maps
    ensures Run(session.State(), maps.Value(), p) == UserCreated(old(session.State()), old(maps.Value()), u, id, p)
  {
    var address := UserAddress(id, u.addressCombined);
    if address.Some? {
      var addressId := session.Add(address.value);
    }
    if AtBatchEnd(p) {
      var outcome := session.Commit();
      if outcome != Ok {
        UserFailureIn(session, maps, u, outcome, p);
      }
    }
  }

  /** The body of the loop of `migrate_users_and_addresses` for one legacy user. */
  method MigrateUser(session: Session, maps: IdentityMaps, u: LegacyUser, parse: Parser, now: DateTime,
                     processed: nat)
    returns (count: nat)
    modifies session, maps
    ensures Run(session.State(), maps.Value(), count) ==
            UserStep(Run(old(session.State()), old(maps.Value()), processed), u, parse, now)
  {
    hide *;
    count := processed + 1;
    ghost var st := Run(session.State(), maps.Value(), processed);
    var id := session.Add(NewUser(u, parse, now));
    UserStepUnfold(st, u, parse, now, (session.State(), id));
    var outcome := session.Flush();
    ghost var flushed := (session.State(), outcome);
    if outcome != Ok {
      UserFailureIn(session, maps, u, outcome, count);
      UserFlushFailed(flushed, st.maps, u, id, count);
      return;
    }
    maps.PutUser(u.id, id);
    UserCreatedIn(session, maps, u, id, count);
    UserFlushSucceeded(flushed, st.maps, u, id, count);
  }

  lemma UserFlushFailed(flushed: (Db, Outcome), m: Maps, u: LegacyUser, id: nat, p: nat)
    requires flushed.1 != Ok
    ensures UserFlushed(flushed, m, u, id, p) == UserFailure(flushed.0, m, u, flushed.1, p)
  {
  }

  lemma UserFlushSucceeded(flushed: (Db, Outcome), m: Maps, u: LegacyUser, id: nat, p: nat)
    requires flushed.1 == Ok
    ensures UserFlushed(flushed, m, u, id, p) == UserCreated(flushed.0, MapUser(m, u.id, id), u, id, p)
  {
  }

  /** `migrate_users_and_addresses` over the legacy users. */
  method MigrateUsersAndAddresses(session: Session, maps: IdentityMaps, users: seq<LegacyUser>,
                                  parse: Parser, now: DateTime)
    modifies session, maps
    ensures var after := Finish(UsersLoop(Run(old(session.State()), old(maps.Value()), 0), users, parse, now));
            session.State() == after.db && maps.Value() == after.maps
  {
    var count := 0;
    for i := 0 to |users|
      invariant Run(session.State(), maps.Value(), count) ==
                UsersLoop(Run(old(session.State()), old(maps.Value()), 0), users[..i], parse, now)
    {
      assert users[..i + 1][..i] == users[..i];
      count := MigrateUser(session, maps, users[i], parse, now, count);
    }
    assert users[..|users|] == users;
    CommitBatch(session);
  }

  // ---------------------------------------------------------------- products

  /** The creation of the "Unknown" category inside the product loop, committed at once. */
  method CreateUnknownCategoryIn(session: Session, maps: IdentityMaps) returns (category: Option<nat>)
    modifies session, maps
    ensures (session.State(), maps.Value(), category) == CreateUnknownCategory(old(session.State()), old(maps.Value()))
  {
    var id := session.Add(CategoryRow(0, UnknownCategory, Some(UnknownDescription)));
    var outcome := session.Flush();
    if outcome != Ok {
      session.Rollback();
      return None;
    }
    maps.PutCategory(UnknownCategory, UnknownCategory, id);
    outcome := session.Commit();
    if outcome != Ok {
      session.Rollback();
      return None;
    }
    return Some(id);
  }

  /** The category id of a product, from the map or the "Unknown" category. */
  method ProductCategoryIn(session: Session, maps: IdentityMaps, name: string) returns (category: Option<nat>)
    modifies session, maps
    ensures (session.State(), maps.Value(), category) == ProductCategory(old(session.State()), old(maps.Value()), name)
  {
    if name in maps.categoryIds && maps.categoryIds[name] != 0 {
      return Some(maps.categoryIds[name]);
    }
    if UnknownCategory in maps.categoryIds {
      return Some(maps.categoryIds[UnknownCategory]);
    }
    category := CreateUnknownCategoryIn(session, maps);
  }

  /** The handlers of `migrate_products` for one product. */
  method ProductFailureIn(session: Session, maps: IdentityMaps, prod: LegacyProduct, sku: string, o: Outcome, p: nat)
    modifies session, maps
    ensures Run(session.State(), maps.Value(), p) ==
            ProductFailure(old(session.State()), old(maps.Value()), prod, sku, o, p)
  {
    session.Rollback();
    if o == IntegrityError {
      var found := ProductWithSku(session.Visible(), sku);
      if found.Some? {
        maps.PutProduct(prod, found.value);
      }
    }
  }

  /** The batch commit after a flushed product, inside the `try`. */
  method ProductCommitIn(session: Session, maps: IdentityMaps, prod: LegacyProduct, sku: string, p: nat)
    modifies session, maps
    ensures var committed := CommitDb(old(session.State()));
            Run(session.State(), maps.Value(), p) ==
            if committed.1 == Ok then Run(committed.0, old(maps.Value()), p)
            else ProductFailure(committed.0, old(maps.Value()), prod, sku, committed.1, p)
  {
    var outcome := session.Commit();
    if outcome != Ok {
      ProductFailureIn(session, maps, prod, sku, outcome, p);
    }
  }

  lemma ProductInsertUnfold(db0: Db, m0: Maps, prod: LegacyProduct, row: Row, p: nat, db1: Db, id: nat, db2: Db, o: Outcome)
    requires row.ProductRow?
    requires (db1, id) == AddRow(db0, row)
    requires (db2, o) == FlushDb(db1)
    ensures ProductInsert(db0, m0, prod, row, p) ==
            if o != Ok then ProductFailure(db2, m0, prod, row.sku, o, p)
            else if AtBatchEnd(p) then
              var committed := CommitDb(db2);
              if committed.1 == Ok then Run(committed.0, MapProduct(m0, prod, id), p)
              else ProductFailure(committed.0, MapProduct(m0, prod, id), prod, row.sku, committed.1, p)
            else Run(db2, MapProduct(m0, prod, id), p)
  {
  }

  /** The product row added and flushed, then mapped and the batch committed. */
  method ProductInsertIn(session: Session, maps: IdentityMaps, prod: LegacyProduct, row: Row, p: nat)
    requires row.ProductRow?
    modifies session, maps
    ensures Run(session.State(), maps.Value(), p) == ProductInsert(old(session.State()), old(maps.Value()), prod, row, p)
  {
    ghost var db0, m0 := session.State(), maps.Value();
    var id := session.Add(row);
    ghost var db1 := session.State();
    var outcome := session.Flush();
    ProductInsertUnfold(db0, m0, prod, row, p, db1, id, session.State(), outcome);
    if outcome != Ok {
      ProductFailureIn(session, maps, prod, row.sku, outcome, p);
      return;
    }
    maps.PutProduct(prod, id);
    if AtBatchEnd(p) {
      ProductCommitIn(session, maps, prod, row.sku, p);
    }
  }

  /** The product once its category is resolved. */
  method ProductResolvedIn(session: Session, maps: IdentityMaps, category: Option<nat>, prod: LegacyProduct,
                           row: Row, p: nat)
    requires row.ProductRow?
    modifies session, maps
    ensures Run(session.State(), maps.Value(), p) ==
            ProductResolved((old(session.State()), old(maps.Value()), category), prod, row, p)
  {
    if category.Some? {
      ProductInsertIn(session, maps, prod, row.(categoryId := category.value), p);
    }
  }

  /** The body of the loop of `migrate_products` for one legacy product and its row. */
  method MigrateProduct(session: Session, maps: IdentityMaps, prod: LegacyProduct, row: Row, processed: nat)
    returns (count: nat)
    requires row.ProductRow?
    modifies session, maps
    ensures Run(session.State(), maps.Value(), count) ==
            ProductStep(Run(old(session.State()), old(maps.Value()), processed), prod, row)
  {
    hide ProductResolved, ProductCategory, Normalized;
    count := processed + 1;
    var category := ProductCategoryIn(session, maps, Normalized(prod.category));
    ProductResolvedIn(session, maps, category, prod, row, count);
  }

  /** `migrate_products` over the legacy products, `draws[i]` being what `random` gives for `products[i]`. */
  method MigrateProducts(session: Session, maps: IdentityMaps, products: seq<LegacyProduct>, draws: seq<Draw>,
                         parse: Parser)
    requires |draws| == |products|
    modifies session, maps
    ensures var after := Finish(ProductsLoop(Run(old(session.State()), old(maps.Value()), 0), products, draws, parse));
            session.State() == after.db && maps.Value() == after.maps
  {
    var count := 0;
    for i := 0 to |products|
      invariant Run(session.State(), maps.Value(), count) ==
                ProductsLoop(Run(old(session.State()), old(maps.Value()), 0), products[..i], draws[..i], parse)
    {
      assert products[..i + 1][..i] == products[..i] && draws[..i + 1][..i] == draws[..i];
      count := MigrateProduct(session, maps, products[i], NewProduct(products[i], draws[i], parse), count);
    }
    assert products[..|products|] == products && draws[..|draws|] == draws;
    CommitBatch(session);
  }

  // ---------------------------------------------------------------- orders and items

  /** The order added and flushed, then its item; `expunge` leaves a flushed order in place. */
  method OrderPlacedIn(session: Session, m: Maps, row: Row, o: LegacyOrder, p: nat)
    modifies session
    ensures Run(session.State(), m, p) == OrderPlaced(old(session.State()), m, row, o, p)
  {
    var orderId := session.Add(row);
    var outcome := session.Flush();
    if outcome != Ok {
      session.Rollback();
      return;
    }
    var product := ProductNamed(m, o.productName);
    if product.None? {
      if AtBatchEnd(p) {
        session.Rollback();
      }
      return;
    }
    var itemId := session.Add(NewItem(orderId, product.value, o));
    if AtBatchEnd(p) {
      CommitBatch(session);
    }
  }

  /** The body of the loop of `migrate_orders_and_items` for one legacy order. */
  method MigrateOrder(session: Session, maps: IdentityMaps, users: map<string, nat>, o: LegacyOrder,
                      parse: Parser, now: DateTime, processed: nat)
    returns (count: nat)
    modifies session
    ensures Run(session.State(), maps.Value(), count) ==
            OrderStep(Run(old(session.State()), maps.Value(), processed), users, o, parse, now)
  {
    count := processed + 1;
    ghost var st := Run(session.State(), maps.Value(), processed);
    ghost var row := OrderRowFor(session.Visible(), users, o, parse, now);
    OrderStepUnfold(st, users, o, parse, now, row);
    if o.userIdentifier.None? || o.userIdentifier.value !in users {
      assert row == None;
      return;
    }
    var userId := users[o.userIdentifier.value];
    var addresses := AddressesOf(session.Visible(), userId);
    if addresses == [] {
      assert row == None;
      return;
    }
    var placed := NewOrder(userId, addresses, o, parse, now);
    assert row == Some(placed);
    OrderPlacedIn(session, maps.Value(), placed, o, count);
  }

  lemma OrderStepUnfold(st: Run, users: map<string, nat>, o: LegacyOrder, parse: Parser, now: DateTime, row: Option<Row>)
    requires row == OrderRowFor(Visible(st.db), users, o, parse, now)
    ensures OrderStep(st, users, o, parse, now) == OrderWithRow(st, row, o)
  {
  }

  /** `migrate_orders_and_items`: the username index is read when the stage starts. */
  method MigrateOrdersAndItems(session: Session, maps: IdentityMaps, orders: seq<LegacyOrder>,
                               parse: Parser, now: DateTime)
    modifies session
    ensures var users := UsersByUsername(old(session.Visible()));
            session.State() == Finish(OrdersLoop(Run(old(session.State()), maps.Value(), 0), users, orders, parse, now)).db
  {
    var users := UsersByUsername(session.Visible());
    var count := 0;
    for i := 0 to |orders|
      invariant Run(session.State(), maps.Value(), count) ==
                OrdersLoop(Run(old(session.State()), maps.Value(), 0), users, orders[..i], parse, now)
    {
      assert orders[..i + 1][..i] == orders[..i];
      count := MigrateOrder(session, maps, users, orders[i], parse, now, count);
    }
    assert orders[..|orders|] == orders;
    CommitBatch(session);
  }

  // ---------------------------------------------------------------- the whole run

  lemma MigrationRunStages(db0: Db, m0: Maps, legacy: Legacy, draws: seq<Draw>, parse: Parser, now: DateTime,
                           db1: Db, m1: Maps, db2: Db, m2: Maps, db3: Db, m3: Maps, db4: Db)
    requires |draws| == |legacy.products|
    requires var after := Finish(CategoriesLoop(Run(db0, m0, 0), legacy.categories)); db1 == after.db && m1 == after.maps
    requires var after := Finish(UsersLoop(Run(db1, m1, 0), legacy.users, parse, now)); db2 == after.db && m2 == after.maps
    requires var after := Finish(ProductsLoop(Run(db2, m2, 0), legacy.products, draws, parse));
             db3 == after.db && m3 == after.maps
    requires db4 == Finish(OrdersLoop(Run(db3, m3, 0), UsersByUsername(Visible(db3)), legacy.orders, parse, now)).db
    ensures MigrationRun(db0, m0, legacy, draws, parse, now).db == db4
    ensures MigrationRun(db0, m0, legacy, draws, parse, now).maps == m3
  {
    OrdersLoopKeepsMaps(Run(db3, m3, 0), UsersByUsername(Visible(db3)), legacy.orders, parse, now);
  }

  lemma {:induction false} OrdersLoopKeepsMaps(st: Run, users: map<string, nat>, orders: seq<LegacyOrder>,
                                               parse: Parser, now: DateTime)
    ensures OrdersLoop(st, users, orders, parse, now).maps == st.maps
    decreases |orders|
  {
    if orders != [] {
      OrdersLoopKeepsMaps(st, users, orders[..|orders| - 1], parse, now);
    }
  }

  /** `main_migration_process`, the four stages in order on one session and the module's maps. */
  method MainMigrationProcess(session: Session, maps: IdentityMaps, legacy: Legacy, draws: seq<Draw>,
                              parse: Parser, now: DateTime)
    requires |draws| == |legacy.products|
    modifies session, maps
    ensures var after := MigrationRun(old(session.State()), old(maps.Value()), legacy, draws, parse, now);
            session.State() == after.db && maps.Value() == after.maps
  {
    ghost var db0, m0 := session.State(), maps.Value();
    MigrateProductCategories(session, maps, legacy.categories);
    ghost var db1, m1 := session.State(), maps.Value();
    MigrateUsersAndAddresses(session, maps, legacy.users, parse, now);
    ghost var db2, m2 := session.State(), maps.Value();
    MigrateProducts(session, maps, legacy.products, draws, parse);
    ghost var db3, m3 := session.State(), maps.Value();
    MigrateOrdersAndItems(session, maps, legacy.orders, parse, now);
    MigrationRunStages(db0, m0, legacy, draws, parse, now, db1, m1, db2, m2, db3, m3, session.State());
  }
}
