/**
 * The rows on both sides of the migration: the legacy tables, whose columns are free text,
 * and the normalized target tables, whose columns are typed and linked by ids.
 */
module Records {

  import opened Options
  import opened Decimals
  import opened Dates

  /** A row of `old_users`. */
  datatype LegacyUser = LegacyUser(
    id: nat,
    username: string,
    email: Option<string>,
    fullName: Option<string>,
    registrationDate: Option<string>,
    addressCombined: Option<string>,
    phone: Option<string>)

  /** A row of `old_products`. */
  datatype LegacyProduct = LegacyProduct(
    id: nat,
    name: string,
    description: Option<string>,
    price: Option<string>,
    category: Option<string>,
    createdAt: Option<string>)

  /** A row of `old_orders`: one product per order, the user named by free text. */
  datatype LegacyOrder = LegacyOrder(
    id: nat,
    userIdentifier: Option<string>,
    orderDate: Option<string>,
    status: Option<string>,
    productName: Option<string>,
    quantity: Option<int>,
    unitPrice: Option<string>,
    total: Option<string>)

  /** `OrderStatusEnum` of the target schema. */
  datatype OrderStatus = Pending | Processing | Shipped | Delivered | Cancelled | Refunded

  /**
   * A row of one of the six target tables. Every row has the integer primary key `id`;
   * foreign keys are ids of rows of other tables.
   */
  datatype Row =
    | CategoryRow(id: nat, name: string, description: Option<string>)
    | UserRow(id: nat, username: string, email: Option<string>, fullName: Option<string>,
              password: string, active: bool, superuser: bool, registered: DateTime,
              phone: Option<string>)
    | AddressRow(id: nat, userId: nat, street: string, city: string, state: Option<string>,
                 zip: string, country: string, defaultShipping: bool, defaultBilling: bool)
    | ProductRow(id: nat, name: string, description: Option<string>, price: Decimal, sku: string,
                 stock: int, categoryId: nat, createdAt: Option<DateTime>)
    | OrderRow(id: nat, userId: nat, orderDate: DateTime, status: OrderStatus, shippingId: nat,
               billingId: nat, createdAt: Option<DateTime>)
    | ItemRow(id: nat, orderId: nat, productId: nat, quantity: int, unitPrice: Decimal)
}
