/**
 * The four stages of `migrate_with_pandas.py`, row by row. Each DataFrame is a sequence of
 * frame rows: the column transforms before a stage's loop become the functions that build
 * them, and the body of the `iterrows` loop becomes a step on the database, the module's
 * dictionaries and the stage's counter.
 */
module PdMigration {

  import opened Options
  import opened Decimals
  import opened Dates
  import opened Records
  import opened Store
  import opened PdNormalizers
  import opened PdAddresses
  import Addresses
  import Migration

  /** `BATCH_INSERT_SIZE`. */
  const BatchInsertSize: nat := 500

  /** The module-level dictionaries of the columnar variant. */
  datatype PdMaps = PdMaps(userIds: map<nat, nat>, usernameIds: map<string, nat>,
                           defaultAddressIds: map<nat, nat>, categoryIds: map<string, nat>,
                           productIds: map<nat, nat>, productIdsByName: map<string, nat>)

  const NoPdMaps: PdMaps := PdMaps(map[], map[], map[], map[], map[], map[])

  /** The target database, the dictionaries and the stage's counter of inserted rows. */
  datatype PdRun = PdRun(db: Db, maps: PdMaps, migrated: nat)

  /** `if existing:` on a `.scalar()` id: an id of 0 is false, like no row. */
  function Truthy(found: Option<nat>): Option<nat>
  {
    if found.Some? && found.value != 0 then found else None
  }

  /** `d.get(key)` on a key that may itself be null. */
  function MapGet<K, V>(m: map<K, V>, key: Option<K>): Option<V>
  {
    if key.Some? && key.value in m then Some(m[key.value]) else None
  }

  // ================================================================ categories

  /** `.dropna().unique()`: the non-null values, each once, in order of first appearance. */
  function Unique(values: seq<Option<string>>): seq<string>
    decreases |values|
  {
    if values == [] then []
    else
      var kept := Unique(values[..|values| - 1]);
      var last := values[|values| - 1];
      if last.None? || last.value in kept then kept else kept + [last.value]
  }

  /** A row of `df_new_categories`: the raw value and its normalized name. */
  datatype CategoryFrameRow = CategoryFrameRow(raw: string, name: string)

  /** The names of some frame rows. */
  function Names(rows: seq<CategoryFrameRow>): set<string> {
    set r | r in rows :: r.name
  }

  /** `df_new_categories['name']`: each raw value beside its normalized name. */
  function NormalizedRows(raws: seq<string>): (r: seq<CategoryFrameRow>)
    ensures |r| == |raws|
    ensures forall i | 0 <= i < |raws| :: r[i] == CategoryFrameRow(raws[i], NormalizeCategoryNamePd(Some(raws[i])))
  {
    seq(|raws|, i requires 0 <= i < |raws| => CategoryFrameRow(raws[i], NormalizeCategoryNamePd(Some(raws[i]))))
  }

  /** `drop_duplicates(subset=['name'])`: the first row of each name. */
  function DropDuplicateNames(rows: seq<CategoryFrameRow>): seq<CategoryFrameRow>
    decreases |rows|
  {
    if rows == [] then []
    else
      var kept := DropDuplicateNames(rows[..|rows| - 1]);
      var last := rows[|rows| - 1];
      if last.name in Names(kept) then kept else kept + [last]
  }

  function CategoryColumn(products: seq<LegacyProduct>): (r: seq<Option<string>>)
    ensures |r| == |products| && forall i | 0 <= i < |products| :: r[i] == products[i].category
  {
    seq(|products|, i requires 0 <= i < |products| => products[i].category)
  }

  /** `df_new_categories` built from the products' category column. */
  function CategoryFrame(products: seq<LegacyProduct>): seq<CategoryFrameRow>
  {
    DropDuplicateNames(NormalizedRows(Unique(CategoryColumn(products))))
  }

  /** Both the raw value and the normalized name are mapped to the category's id. */
  function MapCategoryPd(m: PdMaps, row: CategoryFrameRow, id: nat): PdMaps
  {
    m.(categoryIds := m.categoryIds[row.raw := id][row.name := id])
  }

  /** One row of the category loop: an existing category is reused, otherwise one is inserted. */
  function CategoryStepPd(st: PdRun, row: CategoryFrameRow): PdRun
  {
    var existing := Truthy(CategoryNamed(Visible(st.db), row.name));
    if existing.Some? then st.(maps := MapCategoryPd(st.maps, row, existing.value))
    else CategoryInsertPd(st, row)
  }

  function NewCategoryPd(name: string): Row
  {
    CategoryRow(0, name, Some("Categoría para " + name))
  }

  /**
   * The insert: a flush that succeeds maps the new id and counts it; an integrity error rolls
   * back and adopts a category of that name if one is visible then; any other error rolls back.
   */
  function CategoryInsertPd(st: PdRun, row: CategoryFrameRow): PdRun
  {
    var added := AddRow(st.db, NewCategoryPd(row.name));
    var flushed := FlushDb(added.0);
    if flushed.1 == Ok then PdRun(flushed.0, MapCategoryPd(st.maps, row, added.1), st.migrated + 1)
    else
      var rolled := RollbackDb(flushed.0);
      var found := if flushed.1 == IntegrityError then Truthy(CategoryNamed(Visible(rolled), row.name)) else None;
      PdRun(rolled, if found.Some? then MapCategoryPd(st.maps, row, found.value) else st.maps, st.migrated)
  }

  function CategoriesLoopPd(st: PdRun, rows: seq<CategoryFrameRow>): PdRun
    decreases |rows|
  {
    if rows == [] then st
    else CategoryStepPd(CategoriesLoopPd(st, rows[..|rows| - 1]), rows[|rows| - 1])
  }

  // ================================================================ users and addresses

  const PasswordPd: string := "placeholder_password_needs_reset_pd"
  const RegistrationFormatsPd: seq<Format> := ["%Y-%m-%d %H:%M"]

  /** A row of `df_new_users`: the legacy id, the user to insert and the parsed address columns. */
  datatype UserFrameRow = UserFrameRow(legacyId: nat, username: string, user: Row, address: PdAddress)

  function UserFrame(u: LegacyUser, parse: Parser, now: DateTime): UserFrameRow
  {
    var registered := CellDate(u.registrationDate, RegistrationFormatsPd, parse).GetOr(now);
    UserFrameRow(u.id, u.username,
                 UserRow(0, u.username, u.email, u.fullName, PasswordPd, true, false, registered, u.phone),
                 ParseCombinedAddressPd(u.addressCombined))
  }

  function UserFrames(users: seq<LegacyUser>, parse: Parser, now: DateTime): (r: seq<UserFrameRow>)
    ensures |r| == |users| && forall i | 0 <= i < |users| :: r[i] == UserFrame(users[i], parse, now)
  {
    seq(|users|, i requires 0 <= i < |users| => UserFrame(users[i], parse, now))
  }

  /** The user's address: empty or null fields take "N/A", "00000" or "Unknown"; both default flags. */
  function NewAddressPd(userId: nat, a: PdAddress): Row
  {
    AddressRow(0, userId, OrDefault(a.street, Addresses.NotAvailable), OrDefault(a.city, Addresses.NotAvailable),
               a.state, OrDefault(a.zip, PlaceholderZip), OrDefault(a.country, UnknownCountry), true, true)
  }

  function MapUserPd(m: PdMaps, row: UserFrameRow, id: nat): PdMaps
  {
    m.(userIds := m.userIds[row.legacyId := id], usernameIds := m.usernameIds[row.username := id])
  }

  /** `query(Address.id).filter(user_id == id, is_default_shipping).scalar()`. */
  function DefaultShippingOf(v: seq<Row>, userId: nat): Option<nat>
  {
    var addresses := AddressesOf(v, userId);
    var i := Migration.FirstFlagged(addresses, false);
    if i.Some? then Some(addresses[i.value].id) else None
  }

  /** An existing user of that name is mapped, with its default shipping address when it has one. */
  function UserReusedPd(m: PdMaps, v: seq<Row>, row: UserFrameRow, id: nat): PdMaps
  {
    var mapped := MapUserPd(m, row, id);
    var address := Truthy(DefaultShippingOf(v, id));
    if address.Some? then mapped.(defaultAddressIds := mapped.defaultAddressIds[id := address.value]) else mapped
  }

  /** One row of the user loop. */
  function UserStepPd(st: PdRun, row: UserFrameRow): PdRun
  {
    var existing := Truthy(UserNamed(Visible(st.db), row.username));
    if existing.Some? then st.(maps := UserReusedPd(st.maps, Visible(st.db), row, existing.value))
    else UserInsertPd(st, row)
  }

  /** The user is added and flushed; then its address, under the same handlers. */
  function UserInsertPd(st: PdRun, row: UserFrameRow): PdRun
  {
    var added := AddRow(st.db, row.user);
    var flushed := FlushDb(added.0);
    if flushed.1 != Ok then UserFailurePd(flushed.0, st.maps, row, flushed.1, st.migrated)
    else AddressInsertPd(flushed.0, MapUserPd(st.maps, row, added.1), row, added.1, st.migrated + 1)
  }

  /** The address flush, the default-address entry, and the batch commit when the count is a multiple of 500. */
  function AddressInsertPd(db: Db, m: PdMaps, row: UserFrameRow, userId: nat, migrated: nat): PdRun
  {
    var added := AddRow(db, NewAddressPd(userId, row.address));
    var flushed := FlushDb(added.0);
    if flushed.1 != Ok then UserFailurePd(flushed.0, m, row, flushed.1, migrated)
    else
      var mapped := m.(defaultAddressIds := m.defaultAddressIds[userId := added.1]);
      BatchCommitPd(flushed.0, mapped, migrated, (d, o) => UserFailurePd(d, mapped, row, o, migrated))
  }

  /** `if count % BATCH_INSERT_SIZE == 0: commit()` inside the `try`, a failure going to its handler. */
  function BatchCommitPd(db: Db, m: PdMaps, migrated: nat, failure: (Db, Outcome) -> PdRun): PdRun
  {
    if migrated % BatchInsertSize == 0 then
      var committed := CommitDb(db);
      if committed.1 == Ok then PdRun(committed.0, m, migrated) else failure(committed.0, committed.1)
    else PdRun(db, m, migrated)
  }

  /** The handlers: a rollback; on an integrity error a user of that name, if visible, is adopted. */
  function UserFailurePd(db: Db, m: PdMaps, row: UserFrameRow, o: Outcome, migrated: nat): PdRun
  {
    var rolled := RollbackDb(db);
    var found := if o == IntegrityError then Truthy(UserNamed(Visible(rolled), row.username)) else None;
    PdRun(rolled, if found.Some? then MapUserPd(m, row, found.value) else m, migrated)
  }

  function UsersLoopPd(st: PdRun, rows: seq<UserFrameRow>): PdRun
    decreases |rows|
  {
    if rows == [] then st
    else UserStepPd(UsersLoopPd(st, rows[..|rows| - 1]), rows[|rows| - 1])
  }

  // ================================================================ products

  const ProductDateFormatsPd: seq<Format> := ["%d/%m/%Y"]

  /** A row of `df_new_products`: the category id is `None` when the normalized name is unmapped. */
  datatype ProductFrameRow = ProductFrameRow(legacyId: nat, name: string, sku: string,
                                             categoryId: Option<nat>, product: Row)

  /** The product's columns: price or 0.00, date or now, the mapped category, the SKU and the stock draw. */
  function ProductFrame(p: LegacyProduct, categoryIds: map<string, nat>, stock: int, parse: Parser, now: DateTime): ProductFrameRow
  {
    var categoryId := MapGet(categoryIds, Some(NormalizeCategoryNamePd(p.category)));
    var sku := SkuPd(p.id, p.name);
    var created := CellDate(p.createdAt, ProductDateFormatsPd, parse).GetOr(now);
    ProductFrameRow(p.id, p.name, sku, categoryId,
                    ProductRow(0, p.name, p.description, PriceOrZero(ConvertPrice(p.price)), sku, stock,
                               categoryId.GetOr(0), Some(created)))
  }

  function ProductFrames(products: seq<LegacyProduct>, categoryIds: map<string, nat>, stocks: seq<int>,
                         parse: Parser, now: DateTime): (r: seq<ProductFrameRow>)
    requires |stocks| == |products|
    ensures |r| == |products|
    ensures forall i | 0 <= i < |products| :: r[i] == ProductFrame(products[i], categoryIds, stocks[i], parse, now)
  {
    seq(|products|, i requires 0 <= i < |products| => ProductFrame(products[i], categoryIds, stocks[i], parse, now))
  }

  function MapProductPd(m: PdMaps, row: ProductFrameRow, id: nat): PdMaps
  {
    m.(productIds := m.productIds[row.legacyId := id], productIdsByName := m.productIdsByName[row.name := id])
  }

  /** One row of the product loop: skipped without a category, reused by SKU, otherwise inserted. */
  function ProductStepPd(st: PdRun, row: ProductFrameRow): PdRun
  {
    if row.categoryId.None? then st
    else
      var existing := Truthy(ProductWithSku(Visible(st.db), row.sku));
      if existing.Some? then st.(maps := MapProductPd(st.maps, row, existing.value))
      else ProductInsertPd(st, row)
  }

  function ProductInsertPd(st: PdRun, row: ProductFrameRow): PdRun
  {
    var added := AddRow(st.db, row.product);
    var flushed := FlushDb(added.0);
    if flushed.1 != Ok then ProductFailurePd(flushed.0, st.maps, row, flushed.1, st.migrated)
    else
      var mapped := MapProductPd(st.maps, row, added.1);
      BatchCommitPd(flushed.0, mapped, st.migrated + 1, (d, o) => ProductFailurePd(d, mapped, row, o, st.migrated + 1))
  }

  /** The handlers: a rollback; on an integrity error a product with that SKU, if visible, is adopted. */
  function ProductFailurePd(db: Db, m: PdMaps, row: ProductFrameRow, o: Outcome, migrated: nat): PdRun
  {
    var rolled := RollbackDb(db);
    var found := if o == IntegrityError then Truthy(ProductWithSku(Visible(rolled), row.sku)) else None;
    PdRun(rolled, if found.Some? then MapProductPd(m, row, found.value) else m, migrated)
  }

  function ProductsLoopPd(st: PdRun, rows: seq<ProductFrameRow>): PdRun
    decreases |rows|
  {
    if rows == [] then st
    else ProductStepPd(ProductsLoopPd(st, rows[..|rows| - 1]), rows[|rows| - 1])
  }

  // ================================================================ orders and items

  const OrderDateFormatsPd: seq<Format> := ["%Y-%m-%d", "%m/%d/%Y %I:%M %p"]

  /** A row of `df_new_orders` before the filter: the three ids may be unresolved. */
  datatype OrderFrameRow = OrderFrameRow(userId: Option<nat>, shippingId: Option<nat>, productId: Option<nat>,
                                         date: DateTime, status: OrderStatus, quantity: int, unitPrice: Decimal)

  function OrderFrame(o: LegacyOrder, m: PdMaps, parse: Parser, now: DateTime): OrderFrameRow
  {
    var userId := MapGet(m.usernameIds, o.userIdentifier);
    OrderFrameRow(userId, MapGet(m.defaultAddressIds, userId), MapGet(m.productIdsByName, o.productName),
                  CellDate(o.orderDate, OrderDateFormatsPd, parse).GetOr(now), StatusLookupPd(o.status),
                  QuantityNormPd(o.quantity), PriceOrZero(ConvertPrice(o.unitPrice)))
  }

  function OrderFrames(orders: seq<LegacyOrder>, m: PdMaps, parse: Parser, now: DateTime): (r: seq<OrderFrameRow>)
    ensures |r| == |orders| && forall i | 0 <= i < |orders| :: r[i] == OrderFrame(orders[i], m, parse, now)
  {
    seq(|orders|, i requires 0 <= i < |orders| => OrderFrame(orders[i], m, parse, now))
  }

  /** A row that survives the filter, its ids resolved. */
  datatype KeptOrder = KeptOrder(userId: nat, shippingId: nat, productId: nat, date: DateTime,
                                 status: OrderStatus, quantity: int, unitPrice: Decimal)

  function Resolved(r: OrderFrameRow): Option<KeptOrder>
  {
    if r.userId.Some? && r.shippingId.Some? && r.productId.Some? then
      Some(KeptOrder(r.userId.value, r.shippingId.value, r.productId.value, r.date, r.status, r.quantity, r.unitPrice))
    else None
  }

  /** `dropna(subset=['new_user_id', 'shipping_address_id', 'new_product_id'])`. */
  function DropUnresolved(rows: seq<OrderFrameRow>): seq<KeptOrder>
    decreases |rows|
  {
    if rows == [] then []
    else
      var kept := DropUnresolved(rows[..|rows| - 1]);
      var last := Resolved(rows[|rows| - 1]);
      if last.Some? then kept + [last.value] else kept
  }

  /** The order: billing is the shipping address, and `created_at` is the order date. */
  function NewOrderPd(k: KeptOrder): Row
  {
    OrderRow(0, k.userId, k.date, k.status, k.shippingId, k.shippingId, Some(k.date))
  }

  function NewItemPd(orderId: nat, k: KeptOrder): Row
  {
    ItemRow(0, orderId, k.productId, k.quantity, k.unitPrice)
  }

  /**
   * One row of the order loop: the order and its item, added together and flushed once. A
   * failure of the flush or of the batch commit rolls back.
   */
  function OrderStepPd(st: PdRun, k: KeptOrder): PdRun
  {
    var order := AddRow(st.db, NewOrderPd(k));
    var item := AddRow(order.0, NewItemPd(order.1, k));
    var flushed := FlushDb(item.0);
    if flushed.1 != Ok then st.(db := RollbackDb(flushed.0))
    else
      var migrated := st.migrated + 1;
      PdRun(if migrated % BatchInsertSize == 0 then CommitOrRollback(flushed.0) else flushed.0, st.maps, migrated)
  }

  function OrdersLoopPd(st: PdRun, rows: seq<KeptOrder>): PdRun
    decreases |rows|
  {
    if rows == [] then st
    else OrderStepPd(OrdersLoopPd(st, rows[..|rows| - 1]), rows[|rows| - 1])
  }

  // ================================================================ main_pandas

  /**
   * A stage's final `commit()`, outside any handler: a failure propagates to `main_pandas`,
   * whose handler rolls back; the flag says whether the run goes on.
   */
  function FinalCommitPd(st: PdRun): (PdRun, bool)
  {
    var committed := CommitDb(st.db);
    if committed.1 == Ok then (st.(db := committed.0), true) else (st.(db := RollbackDb(committed.0)), false)
  }

  /** `migrate_categories_pd`: the category frame built from the products, walked, then committed. */
  function CategoriesStagePd(st: PdRun, products: seq<LegacyProduct>): (PdRun, bool)
  {
    FinalCommitPd(CategoriesLoopPd(st.(migrated := 0), CategoryFrame(products)))
  }

  /** `migrate_users_and_addresses_pd`. */
  function UsersStagePd(st: PdRun, users: seq<LegacyUser>, parse: Parser, now: DateTime): (PdRun, bool)
  {
    FinalCommitPd(UsersLoopPd(st.(migrated := 0), UserFrames(users, parse, now)))
  }

  /** `migrate_products_pd`: the category ids are looked up in the map as it is when the stage starts. */
  function ProductsStagePd(st: PdRun, products: seq<LegacyProduct>, stocks: seq<int>, parse: Parser, now: DateTime): (PdRun, bool)
    requires |stocks| == |products|
  {
    FinalCommitPd(ProductsLoopPd(st.(migrated := 0), ProductFrames(products, st.maps.categoryIds, stocks, parse, now)))
  }

  /** `migrate_orders_and_items_pd`: the frame resolved against the maps, filtered, walked, committed. */
  function OrdersStagePd(st: PdRun, orders: seq<LegacyOrder>, parse: Parser, now: DateTime): (PdRun, bool)
  {
    FinalCommitPd(OrdersLoopPd(st.(migrated := 0), DropUnresolved(OrderFrames(orders, st.maps, parse, now))))
  }

  /**
   * `main_pandas` after the legacy tables are read, on the module's dictionaries `m`:
   * categories from the products' column, users and addresses, products, then orders and
   * items. A stage whose final commit fails ends the run.
   */
  function PdMigrationRun(db: Db, m: PdMaps, legacy: Migration.Legacy, stocks: seq<int>, parse: Parser, now: DateTime): PdRun
    requires |stocks| == |legacy.products|
  {
    var categories := CategoriesStagePd(PdRun(db, m, 0), legacy.products);
    if !categories.1 then categories.0
    else
      var users := UsersStagePd(categories.0, legacy.users, parse, now);
      if !users.1 then users.0
      else
        var products := ProductsStagePd(users.0, legacy.products, stocks, parse, now);
        if !products.1 then products.0
        else OrdersStagePd(products.0, legacy.orders, parse, now).0
  }
}
