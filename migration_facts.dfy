/**
 * What the stages of `migrate_data.py` guarantee, stated over the row functions of
 * `Migration`: the category map is keyed consistently, the handlers adopt the record that
 * holds the natural key, the "Unknown" category is reused once mapped, and the order stage
 * stitches orders to their user's own addresses.
 */
module MigrationFacts {

  import opened Options
  import opened Records
  import opened Store
  import opened Migration
  import opened Dates
  import opened Addresses
  import CategoryNames
  import Prices
  import Decimals

  // ================================================================ the category map

  /**
   * Every non-empty key of the category map is mapped to the same id as its normalized
   * form, which is itself a key: a raw spelling never points at another category than the
   * name it normalizes to.
   */
  predicate AliasesAgree(ids: map<string, nat>) {
    forall k | k in ids && k != [] :: Normalized(Some(k)) in ids && ids[Normalized(Some(k))] == ids[k]
  }

  /** Mapping a raw name and its normalized form to one id keeps the keys consistent. */
  lemma MapCategoryAliases(m: Maps, raw: string, id: nat)
    requires raw != [] && AliasesAgree(m.categoryIds) && Normalized(Some(raw)) !in m.categoryIds
    ensures AliasesAgree(MapCategory(m, raw, Normalized(Some(raw)), id).categoryIds)
  {
    var name := Normalized(Some(raw));
    var ids := MapCategory(m, raw, name, id).categoryIds;
    assert raw !in m.categoryIds;
    forall k | k in ids && k != []
      ensures Normalized(Some(k)) in ids && ids[Normalized(Some(k))] == ids[k]
    {
      if k == name {
        CategoryNames.NormalizeCategoryIdempotent(Some(raw));
      } else if k != raw {
        var n := Normalized(Some(k));
        assert n in m.categoryIds && m.categoryIds[n] == m.categoryIds[k];
        assert n != name && n != raw;
      }
    }
  }

  /** The category map after the `try` block: unchanged, or the name and raw spelling mapped to one id. */
  lemma CreateCategoryMaps(db: Db, m: Maps, raw: string, name: string) returns (id: nat)
    ensures CreateCategory(db, m, raw, name).1 in {m, MapCategory(m, raw, name, id)}
  {
    match CategoryNamed(Visible(db), name)
    case Some(found) => id := found;
    case None =>
      id := db.nextId;
      var flushed := FlushDb(AddRow(db, CategoryRow(0, name, Some("Categoría para " + name))).0);
      if flushed.1 != Ok && flushed.1 == IntegrityError {
        var found := CategoryNamed(Visible(RollbackDb(flushed.0)), name);
        if found.Some? {
          id := found.value;
        }
      }
  }

  /** One distinct legacy value keeps the category map consistent. */
  lemma CategoryStepAliases(st: Run, raw: Option<string>)
    requires AliasesAgree(st.maps.categoryIds)
    ensures AliasesAgree(CategoryStep(st, raw).maps.categoryIds)
  {
    if raw.Some? && raw.value != [] && Normalized(raw) !in st.maps.categoryIds {
      var id := CreateCategoryMaps(st.db, st.maps, raw.value, Normalized(raw));
      MapCategoryAliases(st.maps, raw.value, id);
    }
  }

  lemma {:induction false} CategoriesLoopAliases(st: Run, names: seq<Option<string>>)
    requires AliasesAgree(st.maps.categoryIds)
    ensures AliasesAgree(CategoriesLoop(st, names).maps.categoryIds)
    decreases |names|
  {
    if names != [] {
      CategoriesLoopAliases(st, names[..|names| - 1]);
      CategoryStepAliases(CategoriesLoop(st, names[..|names| - 1]), names[|names| - 1]);
    }
  }

  /**
   * After `migrate_product_categories` on empty maps, two legacy spellings with the same
   * normalized form that are both mapped point at one target category.
   */
  lemma CategoriesShareIds(db: Db, names: seq<Option<string>>, a: string, b: string)
    requires var ids := CategoriesLoop(Run(db, NoMaps, 0), names).maps.categoryIds;
             a in ids && b in ids && a != [] && b != []
    requires Normalized(Some(a)) == Normalized(Some(b))
    ensures var ids := CategoriesLoop(Run(db, NoMaps, 0), names).maps.categoryIds;
            ids[a] == ids[b]
  {
    CategoriesLoopAliases(Run(db, NoMaps, 0), names);
  }

  /**
   * A category `try` block maps the name only to a category row of that name that the session
   * can see afterwards; when it maps nothing, no such row is visible.
   */
  lemma CreateCategoryMapsExisting(db: Db, m: Maps, raw: string, name: string)
    requires name !in m.categoryIds
    ensures var created := CreateCategory(db, m, raw, name);
            (created.1 == m && !NameTaken(Visible(created.0), name)) ||
            (name in created.1.categoryIds && created.1 == MapCategory(m, raw, name, created.1.categoryIds[name]) &&
             exists x | x in Visible(created.0) :: x.CategoryRow? && x.name == name && x.id == created.1.categoryIds[name])
  {
    match CategoryNamed(Visible(db), name)
    case Some(id) =>
    case None =>
      var row := CategoryRow(0, name, Some("Categoría para " + name));
      var added := AddRow(db, row);
      var flushed := FlushDb(added.0);
      if flushed.1 == Ok {
        var stored := CategoryRow(added.1, name, Some("Categoría para " + name));
        assert flushed.0.flushed == db.flushed + db.added + [stored];
        assert stored in Visible(flushed.0);
      } else {
        var rolled := RollbackDb(flushed.0);
        assert Visible(rolled) == db.committed;
        assert !NameTaken(db.committed, name) by {
          assert forall x | x in db.committed :: x in Visible(db);
        }
      }
  }

  // ================================================================ the handlers' adoption

  /**
   * The user handlers leave only the committed rows visible, and map the legacy id exactly when
   * the error was an integrity error and a committed user holds the username: to that user.
   */
  lemma UserFailureAdopts(db: Db, m: Maps, u: LegacyUser, o: Outcome, p: nat)
    ensures var r := UserFailure(db, m, u, o, p);
            Visible(r.db) == db.committed && r.db.added == [] && r.db.nextId == db.nextId && r.processed == p
    ensures var r := UserFailure(db, m, u, o, p);
            if o == IntegrityError && UsernameTaken(db.committed, u.username) then
              u.id in r.maps.userIds && r.maps == MapUser(m, u.id, r.maps.userIds[u.id]) &&
              exists x | x in db.committed :: x.UserRow? && x.username == u.username && x.id == r.maps.userIds[u.id]
            else r.maps == m
  {
    assert Visible(RollbackDb(db)) == db.committed;
  }

  /**
   * The rollback in the user handlers discards every user flushed since the last batch commit,
   * not only the failing one, but their map entries stay: a legacy id mapped to a user that was
   * not committed keeps that id, which no user the session sees carries any more.
   */
  lemma UserFailureLeavesStaleIds(db: Db, m: Maps, u: LegacyUser, o: Outcome, p: nat, legacyId: nat)
    requires legacyId in m.userIds && legacyId != u.id && !IsUser(db.committed, m.userIds[legacyId])
    ensures var r := UserFailure(db, m, u, o, p);
            legacyId in r.maps.userIds && r.maps.userIds[legacyId] == m.userIds[legacyId] &&
            !IsUser(Visible(r.db), r.maps.userIds[legacyId])
  {
    UserFailureAdopts(db, m, u, o, p);
  }

  /**
   * A product whose normalized category is mapped to a truthy id and whose flush succeeds is
   * stored once: its name and description, the price or 0.00, the SKU from its legacy id and the
   * drawn suffix, the drawn stock, the mapped category and the parsed date. Only the product maps
   * change, whether or not the batch commits.
   */
  lemma NewProductStoredRow(st: Run, prod: LegacyProduct, draw: Draw, parse: Parser, made: Row, category: nat)
    requires made == NewProduct(prod, draw, parse)
    requires Normalized(prod.category) in st.maps.categoryIds && st.maps.categoryIds[Normalized(prod.category)] == category
    requires category != 0
    requires FlushDb(AddRow(st.db, made.(categoryId := category)).0).1 == Ok
    ensures var r := ProductStep(st, prod, made);
            var n := st.db.nextId;
            Visible(r.db) == Visible(st.db) + st.db.added + [
              ProductRow(n, prod.name, prod.description, Prices.ExtractPriceDecimal(prod.price).GetOr(Decimals.Zero),
                         LegacySku(prod.id, draw.skuSuffix), draw.stock, category,
                         FlexibleDate(prod.createdAt, ProductDateFormats, parse))] &&
            r.db.added == [] && r.maps == MapProduct(st.maps, prod, n) && r.processed == st.processed + 1
  {
    hide ProductInsert, FlushDb, CommitDb, FlexibleDate, Prices.ExtractPriceDecimal, LegacySku, NewProduct;
    var row := made.(categoryId := category);
    assert ProductStep(st, prod, made) == ProductInsert(st.db, st.maps, prod, row, st.processed + 1);
    ProductInsertStoredRow(st.db, st.maps, prod, row, st.processed + 1);
  }

  /** A product insert whose flush succeeds keeps the rows it flushed, whether or not the batch commits. */
  lemma ProductInsertStoredRow(db: Db, m: Maps, prod: LegacyProduct, row: Row, p: nat)
    requires row.ProductRow?
    requires FlushDb(AddRow(db, row).0).1 == Ok
    ensures var r := ProductInsert(db, m, prod, row, p);
            Visible(r.db) == Visible(db) + AddRow(db, row).0.added && r.db.added == [] &&
            r.maps == MapProduct(m, prod, db.nextId) && r.processed == p
  {
    var flushed := FlushDb(AddRow(db, row).0);
    assert flushed.0.added == [];
    assert FlushOutcome(Visible(flushed.0), []) == Ok;
    assert Visible(CommitDb(flushed.0).0) == Visible(flushed.0);
  }

  /** The product handlers: the same, keyed by the SKU. */
  lemma ProductFailureAdopts(db: Db, m: Maps, prod: LegacyProduct, sku: string, o: Outcome, p: nat)
    ensures var r := ProductFailure(db, m, prod, sku, o, p);
            Visible(r.db) == db.committed && r.db.added == [] && r.db.nextId == db.nextId && r.processed == p
    ensures var r := ProductFailure(db, m, prod, sku, o, p);
            if o == IntegrityError && SkuTaken(db.committed, sku) then
              prod.id in r.maps.productIds && r.maps == MapProduct(m, prod, r.maps.productIds[prod.id]) &&
              exists x | x in db.committed :: x.ProductRow? && x.sku == sku && x.id == r.maps.productIds[prod.id]
            else r.maps == m
  {
    assert Visible(RollbackDb(db)) == db.committed;
  }

  // ================================================================ the "Unknown" category

  /**
   * A product's category: its own mapped id, else the mapped "Unknown" id; the maps gain at most
   * an "Unknown" entry, and only when none was there, in which case nothing else changes.
   */
  lemma ProductCategoryMaps(db: Db, m: Maps, name: string)
    ensures var r := ProductCategory(db, m, name);
            r.1 == m || (UnknownCategory !in m.categoryIds && UnknownCategory in r.1.categoryIds &&
                         r.1 == m.(categoryIds := m.categoryIds[UnknownCategory := r.1.categoryIds[UnknownCategory]]))
    ensures UnknownCategory in m.categoryIds ==> ProductCategory(db, m, name) == (db, m, ProductCategory(db, m, name).2) && ProductCategory(db, m, name).2.Some?
    ensures var r := ProductCategory(db, m, name);
            r.2.Some? ==> (name in m.categoryIds && m.categoryIds[name] != 0 && r.2.value == m.categoryIds[name]) ||
                          (!(name in m.categoryIds && m.categoryIds[name] != 0) &&
                           UnknownCategory in r.1.categoryIds && r.2.value == r.1.categoryIds[UnknownCategory])
  {
  }

  /** Inserting a product, and its handlers, change only the product maps. */
  lemma ProductInsertKeepsCategories(db: Db, m: Maps, prod: LegacyProduct, row: Row, p: nat)
    requires row.ProductRow?
    ensures ProductInsert(db, m, prod, row, p).maps.categoryIds == m.categoryIds
    ensures ProductInsert(db, m, prod, row, p).maps.userIds == m.userIds
  {
  }

  /** One product adds at most the "Unknown" category to the map, and only when it was missing. */
  lemma ProductStepCategories(st: Run, prod: LegacyProduct, row: Row)
    requires row.ProductRow?
    ensures var ids := ProductStep(st, prod, row).maps.categoryIds;
            ids == st.maps.categoryIds ||
            (UnknownCategory !in st.maps.categoryIds && UnknownCategory in ids &&
             ids == st.maps.categoryIds[UnknownCategory := ids[UnknownCategory]])
  {
    var resolved := ProductCategory(st.db, st.maps, Normalized(prod.category));
    ProductCategoryMaps(st.db, st.maps, Normalized(prod.category));
    if resolved.2.Some? {
      ProductInsertKeepsCategories(resolved.0, resolved.1, prod, row.(categoryId := resolved.2.value), st.processed + 1);
    }
  }

  /**
   * Over the whole product stage the category map gains at most one entry, "Unknown": it is
   * created at most once and reused by every later product without a mapped category.
   */
  lemma {:induction false} ProductsLoopCategories(st: Run, products: seq<LegacyProduct>, draws: seq<Draw>, parse: Parser)
    requires |draws| == |products|
    ensures var ids := ProductsLoop(st, products, draws, parse).maps.categoryIds;
            ids == st.maps.categoryIds ||
            (UnknownCategory !in st.maps.categoryIds && UnknownCategory in ids &&
             ids == st.maps.categoryIds[UnknownCategory := ids[UnknownCategory]])
    decreases |products|
  {
    if products != [] {
      var k := |products| - 1;
      var before := ProductsLoop(st, products[..k], draws[..k], parse);
      ProductsLoopCategories(st, products[..k], draws[..k], parse);
      var row := NewProduct(products[k], draws[k], parse);
      ProductStepCategories(before, products[k], row);
    }
  }

  // ================================================================ orders

  /**
   * The order row of a known user with addresses: it belongs to that user, and both its shipping
   * and its billing address are addresses of that user.
   */
  lemma NewOrderStitched(v: seq<Row>, userId: nat, o: LegacyOrder, parse: Parser, now: DateTime)
    requires AddressesOf(v, userId) != []
    ensures var r := NewOrder(userId, AddressesOf(v, userId), o, parse, now);
            r.OrderRow? && r.userId == userId &&
            (exists a | a in v :: a.AddressRow? && a.userId == userId && a.id == r.shippingId) &&
            (exists a | a in v :: a.AddressRow? && a.userId == userId && a.id == r.billingId)
  {
    var selected := SelectAddresses(AddressesOf(v, userId));
    assert selected.0 in v && selected.1 in v;
  }

  /** An order without a known user, or whose user has no address, only counts. */
  lemma OrderStepSkips(st: Run, users: map<string, nat>, o: LegacyOrder, parse: Parser, now: DateTime)
    requires o.userIdentifier.None? || o.userIdentifier.value !in users ||
             AddressesOf(Visible(st.db), users[o.userIdentifier.value]) == []
    ensures OrderStep(st, users, o, parse, now) == st.(processed := st.processed + 1)
  {
  }

  // ================================================================ addresses

  /**
   * The address of a new user belongs to that user, is both default shipping and default
   * billing, fits its columns, and has a ZIP that is "N/A" or a ZIP code.
   */
  lemma UserAddressShape(userId: nat, combined: Option<string>)
    ensures var r := UserAddress(userId, combined);
            r.Some? ==> r.value.AddressRow? && r.value.userId == userId && r.value.defaultShipping &&
                        r.value.defaultBilling && WithinWidths(r.value) &&
                        (r.value.zip == NotAvailable || IsZipCode(r.value.zip))
    ensures UserAddress(userId, combined).Some? <==>
            combined.Some? && combined.value != [] && HasUsableField(ParseAddress(combined.value))
  {
    if combined.Some? && combined.value != [] {
      ParseAddressShape(combined.value);
    }
  }
}
