/**
 * What the stages of the columnar migration promise: one category row per normalized name,
 * reuse of existing users and SKUs, one default address per new user, products without a
 * mapped category skipped, and the order filter keeping exactly the resolved rows, each
 * order stored with its one item.
 */
module PdFacts {

  import opened Options
  import opened Dates
  import opened Records
  import opened Store
  import opened PdNormalizers
  import opened PdAddresses
  import opened PdMigration
  import Addresses
  import OrderItems

  // ================================================================ the category frame

  /** `.dropna().unique()`: no value twice, and exactly the values that occur non-null. */
  lemma {:induction false} UniqueSpec(values: seq<Option<string>>)
    ensures forall i, j | 0 <= i < j < |Unique(values)| :: Unique(values)[i] != Unique(values)[j]
    ensures forall x :: x in Unique(values) <==> Some(x) in values
    decreases |values|
  {
    if values != [] {
      var init := values[..|values| - 1];
      UniqueSpec(init);
      assert values == init + [values[|values| - 1]];
    }
  }

  predicate NamesDistinct(rows: seq<CategoryFrameRow>) {
    forall i, j | 0 <= i < j < |rows| :: rows[i].name != rows[j].name
  }

  /** `drop_duplicates` keeps no name twice. */
  lemma {:induction false} DropDuplicateNamesDistinct(rows: seq<CategoryFrameRow>)
    ensures NamesDistinct(DropDuplicateNames(rows))
    decreases |rows|
  {
    if rows != [] {
      var kept := DropDuplicateNames(rows[..|rows| - 1]);
      var last := rows[|rows| - 1];
      DropDuplicateNamesDistinct(rows[..|rows| - 1]);
      if last.name !in Names(kept) {
        var result := kept + [last];
        assert DropDuplicateNames(rows) == result;
        forall i, j | 0 <= i < j < |result| ensures result[i].name != result[j].name {
          if j == |kept| {
            assert result[i] == kept[i] && kept[i] in kept;
            assert kept[i].name in Names(kept) && result[j] == last;
          } else {
            assert result[i] == kept[i] && result[j] == kept[j];
          }
        }
      }
    }
  }

  /** Every kept row is one of the rows, and every row's name is kept. */
  lemma {:induction false} DropDuplicateNamesRows(rows: seq<CategoryFrameRow>)
    ensures forall r | r in DropDuplicateNames(rows) :: r in rows
    ensures Names(DropDuplicateNames(rows)) == Names(rows)
    decreases |rows|
  {
    if rows != [] {
      var init := rows[..|rows| - 1];
      DropDuplicateNamesRows(init);
      assert rows == init + [rows[|rows| - 1]];
      assert Names(rows) == Names(init) + {rows[|rows| - 1].name};
    }
  }

  /**
   * The categories the stage walks through: one row per normalized name, each a product's
   * non-null category beside its normalized name, and every product's non-null category
   * has its row.
   */
  lemma CategoryFrameSpec(products: seq<LegacyProduct>)
    ensures var rows := CategoryFrame(products);
            NamesDistinct(rows) &&
            (forall r | r in rows :: r.name == NormalizeCategoryNamePd(Some(r.raw)) &&
                                    exists p | p in products :: p.category == Some(r.raw)) &&
            (forall p | p in products && p.category.Some? :: NormalizeCategoryNamePd(p.category) in Names(rows))
  {
    var column := CategoryColumn(products);
    var normalized := NormalizedRows(Unique(column));
    UniqueSpec(column);
    DropDuplicateNamesDistinct(normalized);
    DropDuplicateNamesRows(normalized);
    var rows := CategoryFrame(products);
    forall r | r in rows ensures r.name == NormalizeCategoryNamePd(Some(r.raw)) && exists p | p in products :: p.category == Some(r.raw) {
      assert r in normalized;
      assert r.raw in Unique(column);
      var k :| 0 <= k < |column| && column[k] == Some(r.raw);
      assert products[k] in products;
    }
    forall p | p in products && p.category.Some? ensures NormalizeCategoryNamePd(p.category) in Names(rows) {
      var k :| 0 <= k < |products| && products[k] == p;
      assert column[k] == p.category;
      assert p.category.value in Unique(column);
      var u :| 0 <= u < |Unique(column)| && Unique(column)[u] == p.category.value;
      assert normalized[u] in normalized;
    }
  }

  /**
   * After a category row the maps are unchanged, or its raw value and its name both map to
   * one category of that name that the session then sees: reused, inserted or adopted.
   */
  lemma CategoryStepPdMaps(st: PdRun, row: CategoryFrameRow)
    ensures var r := CategoryStepPd(st, row);
            r.maps == st.maps ||
            (row.name in r.maps.categoryIds && r.maps == MapCategoryPd(st.maps, row, r.maps.categoryIds[row.name]) &&
             exists x | x in Visible(r.db) :: x.CategoryRow? && x.name == row.name && x.id == r.maps.categoryIds[row.name])
  {
    if Truthy(CategoryNamed(Visible(st.db), row.name)).None? {
      var added := AddRow(st.db, NewCategoryPd(row.name));
      var flushed := FlushDb(added.0);
      if flushed.1 == Ok {
        var x := added.0.added[|added.0.added| - 1];
        assert x in Visible(flushed.0);
      }
    }
  }

  /**
   * The category stage commits only at its end, so an insert that fails rolls back every
   * category inserted before it in the stage, yet their map entries stay: a key mapped to a
   * category that is not committed keeps its id, and no category the session sees has it.
   */
  lemma CategoryFailurePdLeavesStaleIds(st: PdRun, row: CategoryFrameRow, key: string)
    requires Truthy(CategoryNamed(Visible(st.db), row.name)).None?
    requires FlushDb(AddRow(st.db, NewCategoryPd(row.name)).0).1 != Ok
    requires key in st.maps.categoryIds && key != row.raw && key != row.name
    requires !IsCategory(st.db.committed, st.maps.categoryIds[key])
    ensures var r := CategoryStepPd(st, row);
            Visible(r.db) == st.db.committed && r.migrated == st.migrated &&
            key in r.maps.categoryIds && r.maps.categoryIds[key] == st.maps.categoryIds[key] &&
            !IsCategory(Visible(r.db), r.maps.categoryIds[key])
  {
    hide NewCategoryPd, FlushOutcome;
  }

  // ================================================================ users and addresses

  /** An existing username is reused: nothing is inserted, and both maps point at that user. */
  lemma UserStepPdReuses(st: PdRun, row: UserFrameRow)
    requires Truthy(UserNamed(Visible(st.db), row.username)).Some?
    ensures var r := UserStepPd(st, row);
            r.db == st.db && r.migrated == st.migrated &&
            row.username in r.maps.usernameIds && row.legacyId in r.maps.userIds &&
            r.maps.userIds[row.legacyId] == r.maps.usernameIds[row.username] &&
            exists x | x in Visible(st.db) :: x.UserRow? && x.username == row.username && x.id == r.maps.usernameIds[row.username]
  {
  }

  /** A reused user's default address, when one is found, is a default-shipping address of that user. */
  lemma UserStepPdReusesAddress(st: PdRun, row: UserFrameRow)
    requires Truthy(UserNamed(Visible(st.db), row.username)).Some?
    ensures var r := UserStepPd(st, row);
            var id := r.maps.usernameIds[row.username];
            id in r.maps.defaultAddressIds ==>
              (id in st.maps.defaultAddressIds && r.maps.defaultAddressIds[id] == st.maps.defaultAddressIds[id]) ||
              exists a | a in Visible(st.db) :: a.AddressRow? && a.userId == id && a.defaultShipping && a.id == r.maps.defaultAddressIds[id]
  {
    var id := Truthy(UserNamed(Visible(st.db), row.username)).value;
    var addresses := AddressesOf(Visible(st.db), id);
    var i := Migration.FirstFlagged(addresses, false);
    if Truthy(DefaultShippingOf(Visible(st.db), id)).Some? {
      assert addresses[i.value] in addresses;
    }
  }

  /** The address stored for a new user: its fields are never empty, and its ZIP code is one. */
  lemma NewAddressPdFields(userId: nat, address: Option<string>)
    ensures var a := NewAddressPd(userId, ParseCombinedAddressPd(address));
            a.AddressRow? && a.userId == userId && a.defaultShipping && a.defaultBilling &&
            a.street != [] && a.city != [] && a.country != [] && Addresses.IsZipCode(a.zip)
  {
    StoredZipIsZip(address);
  }

  /**
   * A new user whose two flushes succeed is stored with exactly one address, flagged default
   * shipping and billing, and both maps and the default-address map point at them.
   */
  lemma NewUserGetsOneAddress(st: PdRun, u: LegacyUser, parse: Parser, now: DateTime)
    requires Truthy(UserNamed(Visible(st.db), u.username)).None?
    requires FlushDb(AddRow(st.db, UserFrame(u, parse, now).user).0).1 == Ok
    requires FlushDb(AddRow(FlushDb(AddRow(st.db, UserFrame(u, parse, now).user).0).0,
                            NewAddressPd(st.db.nextId, UserFrame(u, parse, now).address)).0).1 == Ok
    ensures var r := UserStepPd(st, UserFrame(u, parse, now));
            var n := st.db.nextId;
            var a := ParseCombinedAddressPd(u.addressCombined);
            OrderItems.AllRows(r.db) == OrderItems.AllRows(st.db) + [
              UserRow(n, u.username, u.email, u.fullName, PasswordPd, true, false,
                      CellDate(u.registrationDate, RegistrationFormatsPd, parse).GetOr(now), u.phone),
              AddressRow(n + 1, n, OrDefault(a.street, Addresses.NotAvailable), OrDefault(a.city, Addresses.NotAvailable),
                         a.state, OrDefault(a.zip, PlaceholderZip), OrDefault(a.country, UnknownCountry), true, true)] &&
            r.maps.userIds == st.maps.userIds[u.id := n] && r.maps.usernameIds == st.maps.usernameIds[u.username := n] &&
            r.maps.defaultAddressIds == st.maps.defaultAddressIds[n := n + 1] && r.migrated == st.migrated + 1
  {
    hide ParseCombinedAddressPd, CellDate, UserNamed, UserFailurePd;
    var row := UserFrame(u, parse, now);
    var user := AddRow(st.db, row.user);
    var flushed := FlushDb(user.0);
    var address := AddRow(flushed.0, NewAddressPd(user.1, row.address));
    var stored := FlushDb(address.0).0;
    assert OrderItems.AllRows(stored) == OrderItems.AllRows(st.db) + [user.0.added[|user.0.added| - 1], address.0.added[|address.0.added| - 1]];
    if (st.migrated + 1) % BatchInsertSize == 0 {
      assert FlushOutcome(Visible(stored), []) == Ok;
      assert OrderItems.AllRows(CommitDb(stored).0) == OrderItems.AllRows(stored);
    }
  }

  /** The user handlers roll back, and adopt only a visible user of that username. */
  lemma UserFailurePdAdopts(db: Db, m: PdMaps, row: UserFrameRow, o: Outcome, migrated: nat)
    ensures var r := UserFailurePd(db, m, row, o, migrated);
            r.db == RollbackDb(db) && r.migrated == migrated &&
            (r.maps == m || (o == IntegrityError && row.username in r.maps.usernameIds &&
                             r.maps == MapUserPd(m, row, r.maps.usernameIds[row.username]) &&
                             exists x | x in db.committed :: x.UserRow? && x.username == row.username && x.id == r.maps.usernameIds[row.username]))
  {
    assert Visible(RollbackDb(db)) == db.committed;
  }

  // ================================================================ products

  /**
   * A product whose category is null is skipped unless a category "Unknown Category" was
   * mapped: the null name is filled with that name before the lookup.
   */
  lemma NullCategorySkipped(st: PdRun, p: LegacyProduct, categoryIds: map<string, nat>, stock: int, parse: Parser, now: DateTime)
    requires p.category.None? && UnknownCategory !in categoryIds
    ensures ProductStepPd(st, ProductFrame(p, categoryIds, stock, parse, now)) == st
  {
  }

  /** An existing SKU is reused: nothing is inserted, and both maps point at that product. */
  lemma ProductStepPdReuses(st: PdRun, row: ProductFrameRow)
    requires row.categoryId.Some? && Truthy(ProductWithSku(Visible(st.db), row.sku)).Some?
    ensures var r := ProductStepPd(st, row);
            r.db == st.db && r.migrated == st.migrated &&
            row.legacyId in r.maps.productIds && row.name in r.maps.productIdsByName &&
            r.maps.productIds[row.legacyId] == r.maps.productIdsByName[row.name] &&
            exists x | x in Visible(st.db) :: x.ProductRow? && x.sku == row.sku && x.id == r.maps.productIds[row.legacyId]
  {
  }

  /**
   * A product with a mapped category and a new SKU whose flush succeeds is stored once, with
   * the deterministic SKU, the price or 0.00, the mapped category and the date or now.
   */
  lemma NewProductStored(st: PdRun, p: LegacyProduct, categoryIds: map<string, nat>, stock: int, parse: Parser, now: DateTime)
    requires NormalizeCategoryNamePd(p.category) in categoryIds
    requires Truthy(ProductWithSku(Visible(st.db), SkuPd(p.id, p.name))).None?
    requires FlushDb(AddRow(st.db, ProductFrame(p, categoryIds, stock, parse, now).product).0).1 == Ok
    ensures var r := ProductStepPd(st, ProductFrame(p, categoryIds, stock, parse, now));
            var n := st.db.nextId;
            OrderItems.AllRows(r.db) == OrderItems.AllRows(st.db) + [
              ProductRow(n, p.name, p.description, PriceOrZero(ConvertPrice(p.price)), SkuPd(p.id, p.name), stock,
                         categoryIds[NormalizeCategoryNamePd(p.category)],
                         Some(CellDate(p.createdAt, ProductDateFormatsPd, parse).GetOr(now)))] &&
            r.maps.productIds == st.maps.productIds[p.id := n] &&
            r.maps.productIdsByName == st.maps.productIdsByName[p.name := n] && r.migrated == st.migrated + 1
  {
    hide ConvertPrice, CellDate, SkuPd, NormalizeCategoryNamePd, FlushOutcome, ProductInsertPd, ProductWithSku, CommitDb;
    var row := ProductFrame(p, categoryIds, stock, parse, now);
    var added := AddRow(st.db, row.product);
    assert ProductStepPd(st, row) == ProductInsertPd(st, row);
    ProductInsertStored(st, row);
    assert OrderItems.AllRows(FlushDb(added.0).0) == OrderItems.AllRows(st.db) + [added.0.added[|added.0.added| - 1]];
  }

  /** A product insert whose flush succeeds keeps the rows it flushed, whether or not the batch commits. */
  lemma ProductInsertStored(st: PdRun, row: ProductFrameRow)
    requires FlushDb(AddRow(st.db, row.product).0).1 == Ok
    ensures var r := ProductInsertPd(st, row);
            OrderItems.AllRows(r.db) == OrderItems.AllRows(FlushDb(AddRow(st.db, row.product).0).0) &&
            r.maps == MapProductPd(st.maps, row, st.db.nextId) && r.migrated == st.migrated + 1
  {
    CleanBatchCommitPd(FlushDb(AddRow(st.db, row.product).0).0, MapProductPd(st.maps, row, st.db.nextId), st.migrated + 1);
  }

  /** With nothing left to flush, a batch commit succeeds and keeps every row. */
  lemma CleanBatchCommitPd(db: Db, m: PdMaps, migrated: nat)
    requires db.added == []
    ensures forall failure: (Db, Outcome) -> PdRun ::
              OrderItems.AllRows(BatchCommitPd(db, m, migrated, failure).db) == OrderItems.AllRows(db) &&
              BatchCommitPd(db, m, migrated, failure).maps == m && BatchCommitPd(db, m, migrated, failure).migrated == migrated
  {
    assert FlushOutcome(Visible(db), []) == Ok;
    assert OrderItems.AllRows(CommitDb(db).0) == OrderItems.AllRows(db);
  }

  /** The product handlers roll back, and adopt only a visible product with that SKU. */
  lemma ProductFailurePdAdopts(db: Db, m: PdMaps, row: ProductFrameRow, o: Outcome, migrated: nat)
    ensures var r := ProductFailurePd(db, m, row, o, migrated);
            r.db == RollbackDb(db) && r.migrated == migrated &&
            (r.maps == m || (o == IntegrityError && row.legacyId in r.maps.productIds &&
                             r.maps == MapProductPd(m, row, r.maps.productIds[row.legacyId]) &&
                             exists x | x in db.committed :: x.ProductRow? && x.sku == row.sku && x.id == r.maps.productIds[row.legacyId]))
  {
    assert Visible(RollbackDb(db)) == db.committed;
  }

  /**
   * A product mapped to such a stale category id is not stored: its flush fails on the foreign
   * key, and the rollback leaves only the committed rows.
   */
  lemma StaleCategoryBlocksProduct(st: PdRun, row: ProductFrameRow)
    requires row.categoryId.Some? && row.product.ProductRow? && row.product.categoryId == row.categoryId.value
    requires st.db.added == [] && !IsCategory(Visible(st.db), row.categoryId.value)
    requires Truthy(ProductWithSku(Visible(st.db), row.sku)).None?
    ensures var r := ProductStepPd(st, row);
            Visible(r.db) == st.db.committed && r.db.added == [] && r.migrated == st.migrated
  {
  }

  // ================================================================ orders and items

  /** The filter keeps exactly the rows whose three ids are resolved, in their order, and no more. */
  lemma {:induction false} DropUnresolvedSpec(rows: seq<OrderFrameRow>)
    ensures |DropUnresolved(rows)| <= |rows|
    ensures forall k :: k in DropUnresolved(rows) <==> exists r | r in rows :: Resolved(r) == Some(k)
    decreases |rows|
  {
    if rows != [] {
      var init := rows[..|rows| - 1];
      DropUnresolvedSpec(init);
      assert rows == init + [rows[|rows| - 1]];
    }
  }

  /**
   * The orders the loop walks through: each has a mapped user whose default address is its
   * shipping address, a mapped product and a quantity of at least 1; and every order whose
   * user, default address and product are all mapped is among them.
   */
  lemma KeptOrdersResolved(orders: seq<LegacyOrder>, m: PdMaps, parse: Parser, now: DateTime)
    ensures var kept := DropUnresolved(OrderFrames(orders, m, parse, now));
            (forall k | k in kept :: k.quantity >= 1 && k.userId in m.usernameIds.Values &&
                                     k.userId in m.defaultAddressIds && m.defaultAddressIds[k.userId] == k.shippingId &&
                                     k.productId in m.productIdsByName.Values) &&
            (forall o | o in orders && MapGet(m.usernameIds, o.userIdentifier).Some? &&
                        MapGet(m.defaultAddressIds, MapGet(m.usernameIds, o.userIdentifier)).Some? &&
                        MapGet(m.productIdsByName, o.productName).Some? ::
               Resolved(OrderFrame(o, m, parse, now)).value in kept)
  {
    var frames := OrderFrames(orders, m, parse, now);
    DropUnresolvedSpec(frames);
    forall o | o in orders && MapGet(m.usernameIds, o.userIdentifier).Some? &&
               MapGet(m.defaultAddressIds, MapGet(m.usernameIds, o.userIdentifier)).Some? &&
               MapGet(m.productIdsByName, o.productName).Some?
      ensures Resolved(OrderFrame(o, m, parse, now)).value in DropUnresolved(frames)
    {
      var i :| 0 <= i < |orders| && orders[i] == o;
      assert frames[i] in frames;
    }
  }

  /**
   * An order whose flush succeeds is stored with exactly one item: billing is shipping, it was
   * created at its order date, and the item carries the product, quantity and price. A failed
   * flush rolls back to the committed rows, neither the order nor its item left behind.
   */
  lemma OrderStepPdStores(st: PdRun, k: KeptOrder)
    ensures var r := OrderStepPd(st, k);
            var n := st.db.nextId;
            var flushed := FlushDb(AddRow(AddRow(st.db, NewOrderPd(k)).0, NewItemPd(n, k)).0);
            r.maps == st.maps &&
            (flushed.1 == Ok ==>
               OrderItems.AllRows(r.db) == OrderItems.AllRows(st.db) + [
                 OrderRow(n, k.userId, k.date, k.status, k.shippingId, k.shippingId, Some(k.date)),
                 ItemRow(n + 1, n, k.productId, k.quantity, k.unitPrice)] && r.migrated == st.migrated + 1) &&
            (flushed.1 != Ok ==> OrderItems.AllRows(r.db) == st.db.committed && r.migrated == st.migrated)
  {
    var order := AddRow(st.db, NewOrderPd(k));
    var item := AddRow(order.0, NewItemPd(order.1, k));
    var flushed := FlushDb(item.0);
    if flushed.1 == Ok {
      var stored := flushed.0;
      var n := st.db.nextId;
      assert order.0.added[|order.0.added| - 1] == OrderRow(n, k.userId, k.date, k.status, k.shippingId, k.shippingId, Some(k.date));
      assert item.0.added[|item.0.added| - 1] == ItemRow(n + 1, n, k.productId, k.quantity, k.unitPrice);
      assert OrderItems.AllRows(stored) == OrderItems.AllRows(st.db) + [order.0.added[|order.0.added| - 1], item.0.added[|item.0.added| - 1]];
      if (st.migrated + 1) % BatchInsertSize == 0 {
        assert FlushOutcome(Visible(stored), []) == Ok;
        assert CommitDb(stored).1 == Ok;
        assert OrderItems.AllRows(CommitOrRollback(stored)) == OrderItems.AllRows(stored);
      }
    }
  }

  // ================================================================ no order without its item

  /** A row that is not an order keeps every order with an item. */
  lemma AppendNonOrder(v: seq<Row>, x: Row)
    requires OrderItems.EveryOrderHasItem(v) && !x.OrderRow?
    ensures OrderItems.EveryOrderHasItem(v + [x])
  {
    forall o | o in v + [x] && o.OrderRow?
      ensures exists y | y in v + [x] :: y.ItemRow? && y.orderId == o.id
    {
      var y :| y in v && y.ItemRow? && y.orderId == o.id;
      assert y in v + [x];
    }
  }

  /** Adding a row that is not an order, then flushing, keeps the invariant. */
  lemma AddFlushKeepsItems(db: Db, x: Row)
    requires OrderItems.ItemsComplete(db) && !x.OrderRow?
    ensures OrderItems.ItemsComplete(FlushDb(AddRow(db, x).0).0)
  {
    var added := AddRow(db, x).0;
    assert OrderItems.AllRows(added) == OrderItems.AllRows(db) + [added.added[|added.added| - 1]];
    AppendNonOrder(OrderItems.AllRows(db), added.added[|added.added| - 1]);
    OrderItems.FlushKeepsItems(added);
  }

  lemma BatchCommitPdKeepsItems(db: Db, m: PdMaps, migrated: nat, failure: (Db, Outcome) -> PdRun)
    requires OrderItems.ItemsComplete(db)
    requires forall d: Db, o: Outcome | d.committed == db.committed :: OrderItems.ItemsComplete(failure(d, o).db)
    ensures OrderItems.ItemsComplete(BatchCommitPd(db, m, migrated, failure).db)
  {
    if migrated % BatchInsertSize == 0 {
      OrderItems.CommitOrRollbackKeepsItems(db);
      if CommitDb(db).1 == Ok {
        assert CommitDb(db).0 == CommitOrRollback(db);
      }
    }
  }

  lemma CategoryStepPdKeepsItems(st: PdRun, row: CategoryFrameRow)
    requires OrderItems.ItemsComplete(st.db)
    ensures OrderItems.ItemsComplete(CategoryStepPd(st, row).db)
  {
    AddFlushKeepsItems(st.db, NewCategoryPd(row.name));
    OrderItems.RollbackKeepsItems(FlushDb(AddRow(st.db, NewCategoryPd(row.name)).0).0);
  }

  lemma UserStepPdKeepsItems(st: PdRun, row: UserFrameRow)
    requires OrderItems.ItemsComplete(st.db) && !row.user.OrderRow?
    ensures OrderItems.ItemsComplete(UserStepPd(st, row).db)
  {
    var user := AddRow(st.db, row.user);
    var flushed := FlushDb(user.0);
    AddFlushKeepsItems(st.db, row.user);
    OrderItems.RollbackKeepsItems(flushed.0);
    if flushed.1 == Ok {
      var address := AddRow(flushed.0, NewAddressPd(user.1, row.address));
      var stored := FlushDb(address.0);
      AddFlushKeepsItems(flushed.0, NewAddressPd(user.1, row.address));
      OrderItems.RollbackKeepsItems(stored.0);
      if stored.1 == Ok {
        var m := MapUserPd(st.maps, row, user.1);
        var mapped := m.(defaultAddressIds := m.defaultAddressIds[user.1 := address.1]);
        BatchCommitPdKeepsItems(stored.0, mapped, st.migrated + 1,
                                (d, o) => UserFailurePd(d, mapped, row, o, st.migrated + 1));
      }
    }
  }

  lemma ProductStepPdKeepsItems(st: PdRun, row: ProductFrameRow)
    requires OrderItems.ItemsComplete(st.db) && !row.product.OrderRow?
    ensures OrderItems.ItemsComplete(ProductStepPd(st, row).db)
  {
    var flushed := FlushDb(AddRow(st.db, row.product).0);
    AddFlushKeepsItems(st.db, row.product);
    OrderItems.RollbackKeepsItems(flushed.0);
    if flushed.1 == Ok {
      var mapped := MapProductPd(st.maps, row, st.db.nextId);
      BatchCommitPdKeepsItems(flushed.0, mapped, st.migrated + 1,
                              (d, o) => ProductFailurePd(d, mapped, row, o, st.migrated + 1));
    }
  }

  lemma OrderStepPdKeepsItems(st: PdRun, k: KeptOrder)
    requires OrderItems.ItemsComplete(st.db)
    ensures OrderItems.ItemsComplete(OrderStepPd(st, k).db)
  {
    var order := AddRow(st.db, NewOrderPd(k));
    var item := AddRow(order.0, NewItemPd(order.1, k));
    var stored := order.0.added[|order.0.added| - 1];
    var storedItem := item.0.added[|item.0.added| - 1];
    assert OrderItems.AllRows(item.0) == OrderItems.AllRows(st.db) + [stored, storedItem];
    OrderItems.AppendOrderAndItem(OrderItems.AllRows(st.db), stored, storedItem);
    OrderItems.FlushKeepsItems(item.0);
    var flushed := FlushDb(item.0);
    if flushed.1 == Ok {
      OrderItems.CommitOrRollbackKeepsItems(flushed.0);
    } else {
      OrderItems.RollbackKeepsItems(flushed.0);
    }
  }

  lemma {:induction false} CategoriesLoopPdKeepsItems(st: PdRun, rows: seq<CategoryFrameRow>)
    requires OrderItems.ItemsComplete(st.db)
    ensures OrderItems.ItemsComplete(CategoriesLoopPd(st, rows).db)
    decreases |rows|
  {
    if rows != [] {
      CategoriesLoopPdKeepsItems(st, rows[..|rows| - 1]);
      CategoryStepPdKeepsItems(CategoriesLoopPd(st, rows[..|rows| - 1]), rows[|rows| - 1]);
    }
  }

  lemma {:induction false} UsersLoopPdKeepsItems(st: PdRun, rows: seq<UserFrameRow>)
    requires OrderItems.ItemsComplete(st.db) && forall r | r in rows :: !r.user.OrderRow?
    ensures OrderItems.ItemsComplete(UsersLoopPd(st, rows).db)
    decreases |rows|
  {
    if rows != [] {
      var init := rows[..|rows| - 1];
      assert forall r | r in init :: r in rows;
      UsersLoopPdKeepsItems(st, init);
      UserStepPdKeepsItems(UsersLoopPd(st, init), rows[|rows| - 1]);
    }
  }

  lemma {:induction false} ProductsLoopPdKeepsItems(st: PdRun, rows: seq<ProductFrameRow>)
    requires OrderItems.ItemsComplete(st.db) && forall r | r in rows :: !r.product.OrderRow?
    ensures OrderItems.ItemsComplete(ProductsLoopPd(st, rows).db)
    decreases |rows|
  {
    if rows != [] {
      var init := rows[..|rows| - 1];
      assert forall r | r in init :: r in rows;
      ProductsLoopPdKeepsItems(st, init);
      ProductStepPdKeepsItems(ProductsLoopPd(st, init), rows[|rows| - 1]);
    }
  }

  lemma {:induction false} OrdersLoopPdKeepsItems(st: PdRun, rows: seq<KeptOrder>)
    requires OrderItems.ItemsComplete(st.db)
    ensures OrderItems.ItemsComplete(OrdersLoopPd(st, rows).db)
    decreases |rows|
  {
    if rows != [] {
      OrdersLoopPdKeepsItems(st, rows[..|rows| - 1]);
      OrderStepPdKeepsItems(OrdersLoopPd(st, rows[..|rows| - 1]), rows[|rows| - 1]);
    }
  }

  lemma FinalCommitPdKeepsItems(st: PdRun)
    requires OrderItems.ItemsComplete(st.db)
    ensures OrderItems.ItemsComplete(FinalCommitPd(st).0.db)
  {
    OrderItems.CommitOrRollbackKeepsItems(st.db);
    var committed := CommitDb(st.db);
    if committed.1 == Ok {
      assert committed.0 == CommitOrRollback(st.db);
    } else {
      OrderItems.FlushKeepsItems(st.db);
      OrderItems.RollbackKeepsItems(committed.0);
    }
  }

  lemma CategoriesStagePdKeepsItems(st: PdRun, products: seq<LegacyProduct>)
    requires OrderItems.ItemsComplete(st.db)
    ensures OrderItems.ItemsComplete(CategoriesStagePd(st, products).0.db)
  {
    CategoriesLoopPdKeepsItems(st.(migrated := 0), CategoryFrame(products));
    FinalCommitPdKeepsItems(CategoriesLoopPd(st.(migrated := 0), CategoryFrame(products)));
  }

  lemma UsersStagePdKeepsItems(st: PdRun, users: seq<LegacyUser>, parse: Parser, now: DateTime)
    requires OrderItems.ItemsComplete(st.db)
    ensures OrderItems.ItemsComplete(UsersStagePd(st, users, parse, now).0.db)
  {
    var rows := UserFrames(users, parse, now);
    assert forall r | r in rows :: !r.user.OrderRow?;
    UsersLoopPdKeepsItems(st.(migrated := 0), rows);
    FinalCommitPdKeepsItems(UsersLoopPd(st.(migrated := 0), rows));
  }

  lemma ProductsStagePdKeepsItems(st: PdRun, products: seq<LegacyProduct>, stocks: seq<int>, parse: Parser, now: DateTime)
    requires OrderItems.ItemsComplete(st.db) && |stocks| == |products|
    ensures OrderItems.ItemsComplete(ProductsStagePd(st, products, stocks, parse, now).0.db)
  {
    var rows := ProductFrames(products, st.maps.categoryIds, stocks, parse, now);
    assert forall r | r in rows :: !r.product.OrderRow?;
    ProductsLoopPdKeepsItems(st.(migrated := 0), rows);
    FinalCommitPdKeepsItems(ProductsLoopPd(st.(migrated := 0), rows));
  }

  lemma OrdersStagePdKeepsItems(st: PdRun, orders: seq<LegacyOrder>, parse: Parser, now: DateTime)
    requires OrderItems.ItemsComplete(st.db)
    ensures OrderItems.ItemsComplete(OrdersStagePd(st, orders, parse, now).0.db)
  {
    var kept := DropUnresolved(OrderFrames(orders, st.maps, parse, now));
    OrdersLoopPdKeepsItems(st.(migrated := 0), kept);
    FinalCommitPdKeepsItems(OrdersLoopPd(st.(migrated := 0), kept));
  }

  /**
   * Unlike the row-by-row order stage, the columnar run never leaves an order without its item:
   * from a database where every order has one, neither the committed rows nor the session's
   * rows ever hold an order without an item, whichever stage ends the run.
   */
  lemma PdMigrationRunKeepsItems(db: Db, m: PdMaps, legacy: Migration.Legacy, stocks: seq<int>, parse: Parser, now: DateTime)
    requires OrderItems.ItemsComplete(db) && |stocks| == |legacy.products|
    ensures OrderItems.ItemsComplete(PdMigrationRun(db, m, legacy, stocks, parse, now).db)
  {
    var categories := CategoriesStagePd(PdRun(db, m, 0), legacy.products);
    CategoriesStagePdKeepsItems(PdRun(db, m, 0), legacy.products);
    UsersStagePdKeepsItems(categories.0, legacy.users, parse, now);
    var users := UsersStagePd(categories.0, legacy.users, parse, now);
    ProductsStagePdKeepsItems(users.0, legacy.products, stocks, parse, now);
    var products := ProductsStagePd(users.0, legacy.products, stocks, parse, now);
    OrdersStagePdKeepsItems(products.0, legacy.orders, parse, now);
  }
}
