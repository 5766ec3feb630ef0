/**
 * The row-by-row migration of `migrate_data.py`: four stages, each a loop over legacy rows
 * that normalizes the row, creates the target row through the session (or finds the one
 * already there by its natural key), and records the new id in the run's identity maps.
 * Failures are answered by a rollback of everything pending since the last commit; a batch
 * commit follows every 500 processed rows, and a final commit ends each stage.
 *
 * Here each row's effect is a function on the run state; `MigrationStages` runs the loops.
 */
module Migration {

  import opened Options
  import opened Text
  import opened Decimals
  import opened Dates
  import opened Records
  import opened Store
  import opened Addresses
  import CategoryNames
  import Prices
  import Statuses

  const BatchSize: nat := 500

  /**
   * The module-level dictionaries: category name (raw or normalized) to category id, legacy
   * user id to user id, legacy product id to product id, legacy product name to product id.
   */
  datatype Maps = Maps(categoryIds: map<string, nat>, userIds: map<nat, nat>,
                       productIds: map<nat, nat>, productIdsByName: map<string, nat>)

  const NoMaps: Maps := Maps(map[], map[], map[], map[])

  /** The target database, the identity maps and the stage's processed-row counter. */
  datatype Run = Run(db: Db, maps: Maps, processed: nat)

  /** `processed_count % BATCH_SIZE == 0`. */
  predicate AtBatchEnd(processed: nat) {
    processed % BatchSize == 0
  }

  /** The batch commit after the row counted as `processed`, a failure answered by a rollback. */
  function BatchEnd(db: Db, processed: nat): Db
  {
    if AtBatchEnd(processed) then CommitOrRollback(db) else db
  }

  // ================================================================ categories

  const UnknownCategory: string := "Unknown"

  function Normalized(raw: Option<string>): string {
    CategoryNames.NormalizeCategoryName(raw)
  }

  /** Map the normalized name, and the raw name too when it differs. */
  function MapCategory(m: Maps, raw: string, name: string, id: nat): Maps
  {
    var ids := m.categoryIds[name := id];
    m.(categoryIds := if raw != name then ids[raw := id] else ids)
  }

  /** The existing category found after a rollback, if any, mapped as in the handler. */
  function AdoptCategory(db: Db, m: Maps, raw: string, name: string): Maps
  {
    match CategoryNamed(Visible(db), name)
    case Some(id) => MapCategory(m, raw, name, id)
    case None => m
  }

  /** The `try` block for a category not yet in the map, with its two handlers. */
  function CreateCategory(db: Db, m: Maps, raw: string, name: string): (Db, Maps)
  {
    match CategoryNamed(Visible(db), name)
    case Some(id) => (db, MapCategory(m, raw, name, id))
    case None =>
      var (db1, id) := AddRow(db, CategoryRow(0, name, Some("Categoría para " + name)));
      var (db2, o) := FlushDb(db1);
      if o == Ok then (db2, MapCategory(m, raw, name, id))
      else
        var db3 := RollbackDb(db2);
        if o == IntegrityError then (db3, AdoptCategory(db3, m, raw, name)) else (db3, m)
  }

  /**
   * One distinct legacy category value. Null and empty values are ignored without being
   * counted; a name whose normalized form is already mapped is skipped before the batch commit.
   */
  function CategoryStep(st: Run, raw: Option<string>): Run
  {
    if raw.None? || raw.value == [] then st
    else
      var name := Normalized(raw);
      var p := st.processed + 1;
      if name in st.maps.categoryIds then st.(processed := p)
      else
        var created := CreateCategory(st.db, st.maps, raw.value, name);
        Run(BatchEnd(created.0, p), created.1, p)
  }

  function CategoriesLoop(st: Run, names: seq<Option<string>>): Run
    decreases |names|
  {
    if names == [] then st else CategoryStep(CategoriesLoop(st, names[..|names| - 1]), names[|names| - 1])
  }

  // ================================================================ users and addresses

  const RegistrationFormats: seq<Format> := ["%Y-%m-%d %H:%M", "%Y-%m-%d %H:%M:%S", "%Y-%m-%d"]
  const PasswordPrefix: string := "migrated_placeholder_for_"

  /** The new user row: placeholder password, active, not superuser, registered now when unreadable. */
  function NewUser(u: LegacyUser, parse: Parser, now: DateTime): Row
  {
    var registered := FlexibleDate(u.registrationDate, RegistrationFormats, parse).GetOr(now);
    UserRow(0, u.username, u.email, u.fullName, PasswordPrefix + u.username, true, false, registered, u.phone)
  }

  /** The address row of a new user: only from a non-empty combined address with a usable field. */
  function UserAddress(userId: nat, combined: Option<string>): Option<Row>
  {
    if combined.None? || combined.value == [] then None
    else
      var a := ParseAddress(combined.value);
      if HasUsableField(a) then
        Some(AddressRow(0, userId, a.street, a.city, a.state, a.zip, a.country, true, true))
      else None
  }

  function MapUser(m: Maps, legacyId: nat, id: nat): Maps
  {
    m.(userIds := m.userIds[legacyId := id])
  }

  /** The handlers: roll back; on an integrity error adopt the user with the same username. */
  function UserFailure(db: Db, m: Maps, u: LegacyUser, o: Outcome, p: nat): Run
  {
    var rolled := RollbackDb(db);
    if o == IntegrityError then
      match UserNamed(Visible(rolled), u.username)
      case Some(id) => Run(rolled, MapUser(m, u.id, id), p)
      case None => Run(rolled, m, p)
    else Run(rolled, m, p)
  }

  /** One legacy user: the user is flushed, its address only added; the batch commit is inside the `try`. */
  function UserStep(st: Run, u: LegacyUser, parse: Parser, now: DateTime): Run
  {
    var added := AddRow(st.db, NewUser(u, parse, now));
    UserFlushed(FlushDb(added.0), st.maps, u, added.1, st.processed + 1)
  }

  /** One user step is the add, the flush, and what follows the flush's answer. */
  lemma UserStepUnfold(st: Run, u: LegacyUser, parse: Parser, now: DateTime, added: (Db, nat))
    requires added == AddRow(st.db, NewUser(u, parse, now))
    ensures UserStep(st, u, parse, now) == UserFlushed(FlushDb(added.0), st.maps, u, added.1, st.processed + 1)
  {
    hide UserFlushed, FlushDb, AddRow, NewUser;
  }

  /** The user's flush answered: the handlers on an error, otherwise the user mapped and the rest of the `try`. */
  function UserFlushed(flushed: (Db, Outcome), m: Maps, u: LegacyUser, id: nat, p: nat): Run
  {
    if flushed.1 != Ok then UserFailure(flushed.0, m, u, flushed.1, p)
    else UserCreated(flushed.0, MapUser(m, u.id, id), u, id, p)
  }

  /** After the user's flush: its address added, then the batch commit when `p` ends a batch. */
  function UserCreated(db: Db, m: Maps, u: LegacyUser, id: nat, p: nat): Run
  {
    var address := UserAddress(id, u.addressCombined);
    var db1 := if address.Some? then AddRow(db, address.value).0 else db;
    if AtBatchEnd(p) then
      var committed := CommitDb(db1);
      if committed.1 == Ok then Run(committed.0, m, p) else UserFailure(committed.0, m, u, committed.1, p)
    else Run(db1, m, p)
  }

  function UsersLoop(st: Run, users: seq<LegacyUser>, parse: Parser, now: DateTime): Run
    decreases |users|
  {
    if users == [] then st
    else UserStep(UsersLoop(st, users[..|users| - 1], parse, now), users[|users| - 1], parse, now)
  }

  // ================================================================ products

  const ProductDateFormats: seq<Format> := ["%d/%m/%Y", "%Y-%m-%d"]

  /** What `random` draws for one product: the SKU suffix in 100..999 and the stock in 0..100. */
  datatype Draw = Draw(skuSuffix: nat, stock: int)

  /** `f"SKU-{id:05d}-{suffix}"`. */
  function LegacySku(id: nat, suffix: nat): string
  {
    "SKU-" + ZeroPad(NatToDigits(id), 5) + "-" + NatToDigits(suffix)
  }

  /**
   * The category id of a product: the id of its normalized category name when that is mapped to
   * a truthy (non-zero) id; otherwise the "Unknown" category's, which is created (and committed
   * at once) when it is not mapped.
   * `None` when that creation fails and the product is skipped.
   */
  function ProductCategory(db: Db, m: Maps, name: string): (Db, Maps, Option<nat>)
  {
    if name in m.categoryIds && m.categoryIds[name] != 0 then (db, m, Some(m.categoryIds[name]))
    else if UnknownCategory in m.categoryIds then (db, m, Some(m.categoryIds[UnknownCategory]))
    else CreateUnknownCategory(db, m)
  }

  const UnknownDescription: string := "Categoría por defecto para productos no categorizados."

  /** The "Unknown" category flushed, mapped and committed at once; any failure rolls back. */
  function CreateUnknownCategory(db: Db, m: Maps): (Db, Maps, Option<nat>)
  {
    var added := AddRow(db, CategoryRow(0, UnknownCategory, Some(UnknownDescription)));
    var flushed := FlushDb(added.0);
    if flushed.1 != Ok then (RollbackDb(flushed.0), m, None)
    else
      var m1 := MapCategory(m, UnknownCategory, UnknownCategory, added.1);
      var committed := CommitDb(flushed.0);
      if committed.1 == Ok then (committed.0, m1, Some(added.1)) else (RollbackDb(committed.0), m1, None)
  }

  function MapProduct(m: Maps, prod: LegacyProduct, id: nat): Maps
  {
    m.(productIds := m.productIds[prod.id := id], productIdsByName := m.productIdsByName[prod.name := id])
  }

  /** The handlers: roll back; on an integrity error adopt the product with the same SKU. */
  function ProductFailure(db: Db, m: Maps, prod: LegacyProduct, sku: string, o: Outcome, p: nat): Run
  {
    var rolled := RollbackDb(db);
    if o == IntegrityError then
      match ProductWithSku(Visible(rolled), sku)
      case Some(id) => Run(rolled, MapProduct(m, prod, id), p)
      case None => Run(rolled, m, p)
    else Run(rolled, m, p)
  }

  /** The product row before its category: price 0.00 when unreadable, the drawn SKU suffix and stock. */
  function NewProduct(prod: LegacyProduct, draw: Draw, parse: Parser): (r: Row)
    ensures r.ProductRow? && r.name == prod.name && r.description == prod.description
    ensures Prices.ExtractPriceDecimal(prod.price).Some? ==> r.price == Prices.ExtractPriceDecimal(prod.price).value
    ensures Prices.ExtractPriceDecimal(prod.price).None? ==> r.price == Zero
    ensures r.price.coefficient >= 0
    ensures r.sku == LegacySku(prod.id, draw.skuSuffix) && r.stock == draw.stock
    ensures r.createdAt == FlexibleDate(prod.createdAt, ProductDateFormats, parse)
  {
    var price := Prices.ExtractPriceDecimal(prod.price).GetOr(Zero);
    var created := FlexibleDate(prod.createdAt, ProductDateFormats, parse);
    ProductRow(0, prod.name, prod.description, price, LegacySku(prod.id, draw.skuSuffix), draw.stock, 0, created)
  }

  /** One legacy product with its row: skipped, only counted, when no category id can be had. */
  function ProductStep(st: Run, prod: LegacyProduct, row: Row): Run
    requires row.ProductRow?
  {
    ProductResolved(ProductCategory(st.db, st.maps, Normalized(prod.category)), prod, row, st.processed + 1)
  }

  /** The product once its category is resolved: inserted with that category, or only counted. */
  function ProductResolved(resolved: (Db, Maps, Option<nat>), prod: LegacyProduct, row: Row, p: nat): Run
    requires row.ProductRow?
  {
    match resolved.2
    case None => Run(resolved.0, resolved.1, p)
    case Some(categoryId) => ProductInsert(resolved.0, resolved.1, prod, row.(categoryId := categoryId), p)
  }

  /** The product flushed and mapped, then the batch commit inside the `try`; failures to the handlers. */
  function ProductInsert(db: Db, m: Maps, prod: LegacyProduct, row: Row, p: nat): Run
    requires row.ProductRow?
  {
    var added := AddRow(db, row);
    var flushed := FlushDb(added.0);
    if flushed.1 != Ok then ProductFailure(flushed.0, m, prod, row.sku, flushed.1, p)
    else
      var m1 := MapProduct(m, prod, added.1);
      if AtBatchEnd(p) then
        var committed := CommitDb(flushed.0);
        if committed.1 == Ok then Run(committed.0, m1, p) else ProductFailure(committed.0, m1, prod, row.sku, committed.1, p)
      else Run(flushed.0, m1, p)
  }

  function ProductsLoop(st: Run, products: seq<LegacyProduct>, draws: seq<Draw>, parse: Parser): Run
    requires |draws| == |products|
    decreases |products|
  {
    if products == [] then st
    else
      var k := |products| - 1;
      ProductStep(ProductsLoop(st, products[..k], draws[..k], parse), products[k], NewProduct(products[k], draws[k], parse))
  }

  // ================================================================ orders and items

  const OrderDateFormats: seq<Format> := ["%Y-%m-%d", "%m/%d/%Y %I:%M %p", "%Y-%m-%d %H:%M:%S"]

  /** The index of the first address with the flag, if any. */
  function FirstFlagged(addresses: seq<Row>, billing: bool): (r: Option<nat>)
    requires forall a | a in addresses :: a.AddressRow?
    ensures r.Some? ==> r.value < |addresses| && Flag(addresses[r.value], billing)
    ensures r.Some? ==> forall j | 0 <= j < r.value :: !Flag(addresses[j], billing)
    ensures r.None? ==> forall j | 0 <= j < |addresses| :: !Flag(addresses[j], billing)
  {
    if addresses == [] then None
    else if Flag(addresses[0], billing) then Some(0)
    else
      match FirstFlagged(addresses[1..], billing)
      case Some(i) => Some(i + 1)
      case None => None
  }

  predicate Flag(a: Row, billing: bool)
    requires a.AddressRow?
  {
    if billing then a.defaultBilling else a.defaultShipping
  }

  /**
   * The shipping address is the first flagged default shipping, else the first address; the
   * billing address is the first flagged default billing, else the shipping address.
   */
  function SelectAddresses(addresses: seq<Row>): (r: (Row, Row))
    requires addresses != [] && forall a | a in addresses :: a.AddressRow?
    ensures r.0 in addresses && r.1 in addresses
  {
    var shipping := match FirstFlagged(addresses, false)
      case Some(i) => addresses[i]
      case None => addresses[0];
    var billing := match FirstFlagged(addresses, true)
      case Some(i) => addresses[i]
      case None => shipping;
    (shipping, billing)
  }

  /** The selection prefers the first flagged address, and falls back as described. */
  lemma SelectAddressesPrefers(addresses: seq<Row>)
    requires addresses != [] && forall a | a in addresses :: a.AddressRow?
    ensures var r := SelectAddresses(addresses);
      (exists i | 0 <= i < |addresses| :: addresses[i].defaultShipping) ==>
        exists i | 0 <= i < |addresses| :: r.0 == addresses[i] && r.0.defaultShipping &&
          forall j | 0 <= j < i :: !addresses[j].defaultShipping
    ensures var r := SelectAddresses(addresses);
      (forall i | 0 <= i < |addresses| :: !addresses[i].defaultShipping) ==> r.0 == addresses[0]
    ensures var r := SelectAddresses(addresses);
      (exists i | 0 <= i < |addresses| :: addresses[i].defaultBilling) ==>
        exists i | 0 <= i < |addresses| :: r.1 == addresses[i] && r.1.defaultBilling &&
          forall j | 0 <= j < i :: !addresses[j].defaultBilling
    ensures var r := SelectAddresses(addresses);
      (forall i | 0 <= i < |addresses| :: !addresses[i].defaultBilling) ==> r.1 == r.0
  {
  }

  /** The item of an order: quantity at least one, unit price from the order's own price text or 0.00. */
  function NewItem(orderId: nat, productId: nat, o: LegacyOrder): Row
  {
    ItemRow(0, orderId, productId, Prices.ItemQuantity(o.quantity), Prices.ExtractPriceDecimal(o.unitPrice).GetOr(Zero))
  }

  /**
   * One legacy order, with `users` the username index built when the stage starts. The order
   * is flushed before its product is looked up; when the product is not mapped the order is
   * expunged from the session, which leaves its flushed row in place, and at a batch end the
   * whole pending batch is rolled back.
   */
  function OrderStep(st: Run, users: map<string, nat>, o: LegacyOrder, parse: Parser, now: DateTime): Run
  {
    OrderWithRow(st, OrderRowFor(Visible(st.db), users, o, parse, now), o)
  }

  /**
   * The order row of a legacy order, read against the rows `v` the session sees: none when the
   * user identifier is missing or unknown, or when the user has no address.
   */
  function OrderRowFor(v: seq<Row>, users: map<string, nat>, o: LegacyOrder, parse: Parser, now: DateTime): Option<Row>
  {
    if o.userIdentifier.None? || o.userIdentifier.value !in users then None
    else
      var userId := users[o.userIdentifier.value];
      var addresses := AddressesOf(v, userId);
      if addresses == [] then None else Some(NewOrder(userId, addresses, o, parse, now))
  }

  /** An order without a row is only counted; one with a row is placed. */
  function OrderWithRow(st: Run, row: Option<Row>, o: LegacyOrder): Run
  {
    match row
    case None => st.(processed := st.processed + 1)
    case Some(r) => OrderPlaced(st.db, st.maps, r, o, st.processed + 1)
  }

  /** The order row: its user, the selected addresses, the date (now when unreadable), the mapped status. */
  function NewOrder(userId: nat, addresses: seq<Row>, o: LegacyOrder, parse: Parser, now: DateTime): Row
    requires addresses != [] && forall a | a in addresses :: a.AddressRow?
  {
    var selected := SelectAddresses(addresses);
    var date := FlexibleDate(o.orderDate, OrderDateFormats, parse).GetOr(now);
    OrderRow(0, userId, date, Statuses.MapOrderStatus(o.status), selected.0.id, selected.1.id, None)
  }

  /** The product id mapped for the order's product name; a missing name or an id of 0 counts as none. */
  function ProductNamed(m: Maps, name: Option<string>): (r: Option<nat>)
    ensures r.Some? <==> name.Some? && name.value in m.productIdsByName && m.productIdsByName[name.value] != 0
    ensures r.Some? ==> r.value == m.productIdsByName[name.value]
  {
    if name.Some? && name.value in m.productIdsByName && m.productIdsByName[name.value] != 0 then
      Some(m.productIdsByName[name.value])
    else None
  }

  /**
   * The order flushed, then its item added; a failed flush rolls back. Without a mapped product
   * the order stays flushed and, at a batch end, the pending batch is rolled back.
   */
  function OrderPlaced(db: Db, m: Maps, row: Row, o: LegacyOrder, p: nat): Run
  {
    var added := AddRow(db, row);
    var flushed := FlushDb(added.0);
    if flushed.1 != Ok then Run(RollbackDb(flushed.0), m, p)
    else
      match ProductNamed(m, o.productName)
      case None => Run(if AtBatchEnd(p) then RollbackDb(flushed.0) else flushed.0, m, p)
      case Some(productId) => Run(BatchEnd(AddRow(flushed.0, NewItem(added.1, productId, o)).0, p), m, p)
  }

  function OrdersLoop(st: Run, users: map<string, nat>, orders: seq<LegacyOrder>, parse: Parser, now: DateTime): Run
    decreases |orders|
  {
    if orders == [] then st
    else OrderStep(OrdersLoop(st, users, orders[..|orders| - 1], parse, now), users, orders[|orders| - 1], parse, now)
  }

  // ================================================================ the whole run

  /** A stage: its loop from a zero counter, then the final commit. */
  function Finish(st: Run): Run
  {
    st.(db := CommitOrRollback(st.db))
  }

  /** The input of a run: the legacy tables and what the clock, `random` and `strptime` give. */
  datatype Legacy = Legacy(categories: seq<Option<string>>, users: seq<LegacyUser>,
                           products: seq<LegacyProduct>, orders: seq<LegacyOrder>)

  /**
   * `main_migration_process` on the module's identity maps `m` (empty in a fresh process):
   * categories, users and addresses, products, then orders and items, each stage counting
   * from zero and ending with its own commit.
   */
  function MigrationRun(db: Db, m: Maps, legacy: Legacy, draws: seq<Draw>, parse: Parser, now: DateTime): Run
    requires |draws| == |legacy.products|
  {
    var afterCategories := Finish(CategoriesLoop(Run(db, m, 0), legacy.categories));
    var afterUsers := Finish(UsersLoop(afterCategories.(processed := 0), legacy.users, parse, now));
    var afterProducts := Finish(ProductsLoop(afterUsers.(processed := 0), legacy.products, draws, parse));
    var users := UsersByUsername(Visible(afterProducts.db));
    Finish(OrdersLoop(afterProducts.(processed := 0), users, legacy.orders, parse, now))
  }
}
