# Legacy to normalized store migration: a Dafny model

The repository moves an e-commerce data set from a legacy relational store into a normalized one.
The legacy side holds free-text columns: category names with stray case and blanks, prices such as
`"25.99 USD"` or `"10.99-12.99"`, one combined address line per user, order statuses in English
or Spanish, and orders that name their user and product by text. The target side has six tables:
categories, users, addresses, products, orders and order items. They carry unique names, usernames,
e-mails and SKUs, and foreign keys between them.

Two scripts do the migration, and both are modelled:

- `scripts/migrate_data.py` works row by row.
  - Five field normalizers: dates, category names, prices, addresses and statuses.
  - Four stages in a fixed order: categories, then users with their addresses, then products,
    then orders with their items.
  - Module-level identity maps from legacy keys to new ids.
  - Get-or-create by natural key, and adoption of the existing row after a uniqueness error.
  - A commit every 500 processed rows, and a final commit per stage.
- `scripts/migrate_with_pandas.py` does the same work over data frames.
  - Its own normalizers: title-case names, an exact status dictionary, a deterministic SKU and a
    split-based address parser.
  - A filter that drops orders whose user, address or product is unresolved.
  - Its four stages, each committing once at its end. The user, product and order stages also
    commit every 500 inserted rows; the category stage has no batch commit.

The target database is `Store`. It is a value `Db` with:

- the committed rows;
- the rows flushed since the last commit;
- the rows only added;
- the next id.

`Store.Session` is a class whose methods update that value in place. A flush checks each pending
row against the schema's column widths, unique columns and foreign keys, in order. A failed flush
raises `IntegrityError` or `DataError` and changes nothing. A rollback drops every flushed and added
row since the last commit. Queries see the committed and flushed rows, because the session does not
autoflush (`config.py:38`). Ids come from one counter that a rollback does not rewind.

Each stage exists in two forms:

- a function over values: `Migration.CategoryStep`, `Migration.CategoriesLoop` and so on, and
  `PdMigration.CategoryStepPd` and so on for the columnar script;
- a method on the session and on an identity-map class (`MigrationStages.IdentityMaps`,
  `PdStages.PdIdentityMaps`), with the script's own loops, proved to end in the state the function
  computes.

The properties are proved as lemmas about the functions:

- `MigrationFacts` and `OrderItems` for the row-by-row script;
- `PdFacts` for the columnar script;
- `PdNormalizers` and `PdAddresses` for the lemmas that contrast the two scripts.

`strptime` is a parameter `parse: (Format, string) -> Option<DateTime>`, which the model does not
interpret. Three more inputs are parameters of the stages:

- `datetime.now()`;
- what `random` draws for each product (SKU suffix and stock);
- the stock drawn by `numpy`.

Python's `Decimal` is `Decimals.Decimal`, a coefficient and a scale.
Python's string methods (`strip`, `split`, `replace`, `title`, `capitalize`) are functions of `Text`.
The comma removal `replace(',', '')` in the state guess is `Text.RemoveAll`, which `Text.RemoveAllIsReplace`
proves equal to the general `Text.ReplaceAll`.

Where the code and its documented intent differ, the model follows the code:

- A failing record is meant to lose only its own writes. The code's `rollback()` discards every
  write since the last commit, and the identity-map entries made for those writes stay. See the
  `...LeavesStaleIds` lemmas and `PdFacts.StaleCategoryBlocksProduct`.
- The two scripts are meant to produce the same target data. They do not, as the contrast lemmas
  show.

## Model

| member | source | states |
|---|---|---|
| Dates.ParseDatetimeFlexible | scripts/migrate_data.py:33-43 | a missing or empty text gives no date; otherwise the result is what the first format, in list order, reads from the stripped text |
| Dates.FirstParseNone | scripts/migrate_data.py:37-43 | no date comes out exactly when every format rejects the text |
| Dates.FirstParseSome | scripts/migrate_data.py:37-41 | a date that comes out is the one some format reads, and every earlier format rejects the text |
| CategoryNames.NormalizeCategoryShape | scripts/migrate_data.py:46-50 | a missing or empty name gives "Unknown"; any other name keeps its letters up to case and loses its surrounding blanks, with no lower-case first letter and no upper-case letter after it |
| CategoryNames.NormalizeCategorySameIff | scripts/migrate_data.py:46-50 | two present names normalize alike if and only if they agree up to case and surrounding whitespace |
| CategoryNames.NormalizeCategoryIdempotent | scripts/migrate_data.py:46-50 | a non-empty normalized name normalizes to itself |
| CategoryNames.NormalizeBlankCategory | scripts/migrate_data.py:46-50 | a whitespace-only name gives the empty name, not "Unknown" |
| CategoryNames.NormalizeCategoryExample | scripts/migrate_data.py:46-50 | "electronics" gives "Electronics" |
| CategoryNames.NormalizeCategoryPaddedExample | scripts/migrate_data.py:46-50 | " ELECTRONICS " falls into the same category as "electronics" |
| Decimals.ParseDecimal | scripts/migrate_data.py:67 | a literal reads as a decimal only when it is an optional sign followed by digits and points; a negative value needs a leading minus |
| Decimals.ParseFixedPoint | scripts/migrate_data.py:67 | reading back the fixed-point rendering of a non-negative decimal gives the same decimal, scale included |
| Decimals.NatToDigits | scripts/migrate_with_pandas.py:272 | `str(n)`: decimal digits, no leading zero, denoting `n` |
| Decimals.ZeroPadValue | scripts/migrate_data.py:409 | padding the id's digits with zeros to five places keeps the number they denote |
| Prices.ExtractPriceDecimal | scripts/migrate_data.py:53-70 | a price that is read is never negative, and only comes from a present text holding a digit |
| Prices.ExtractPriceIgnoresNoise | scripts/migrate_data.py:59-67 | text with no digit, point or minus around a price is ignored, so "25.99 USD" gives 25.99 |
| Prices.ExtractPriceRange | scripts/migrate_data.py:66-67 | a range "a-b" gives its lower end `a` |
| Prices.ExtractPriceNegative | scripts/migrate_data.py:66-70 | a leading minus gives no price, so "-5" is none |
| Prices.ExtractPriceTwoPoints | scripts/migrate_data.py:67-70 | a literal with two points, such as "1.2.3", gives no price |
| Prices.ExtractPriceWithoutDigits | scripts/migrate_data.py:59-62 | a text with no digit, such as "contact us", gives no price |
| Prices.ItemQuantity | scripts/migrate_data.py:612 | the item quantity is the legacy quantity whenever that is at least 1, and 1 when it is missing, zero or negative |
| Addresses.SearchZip | scripts/migrate_data.py:95 | a ZIP that is found is five digits, optionally a dash and four more |
| Addresses.FindZip | scripts/migrate_data.py:95 | the match is the leftmost position where the ZIP pattern matches; none exactly when it matches nowhere |
| Addresses.SearchState | scripts/migrate_data.py:101 | a state that is found is two upper-case letters |
| Addresses.FindState | scripts/migrate_data.py:101 | the leftmost position where the state pattern matches; none exactly when it matches nowhere |
| Addresses.Segments | scripts/migrate_data.py:79 | there is always at least one segment, even for text without a comma |
| Addresses.SegmentsWithoutComma | scripts/migrate_data.py:79 | no segment holds a comma, since `split(',')` cuts at every comma and `strip()` only removes characters |
| Addresses.GuessShape | scripts/migrate_data.py:89-112 | the guessed state is "N/A" or a state code, and the guessed ZIP is "N/A" or a ZIP code; a ZIP makes the country "USA" |
| Addresses.ParseAddressShape | scripts/migrate_data.py:115-126 | street at most 254 characters; city and country at most 99; ZIP at most 19 and "N/A" or a ZIP code; state "N/A" or a two-letter code, never missing |
| Addresses.ZipMeansUsa | scripts/migrate_data.py:95-97 | whenever a ZIP code is found the country is "USA", whatever the last segment says |
| Addresses.ParseAddressEmpty | scripts/migrate_data.py:85-86 | an empty text gives "N/A" in all five fields |
| Addresses.ParseAddressWithoutComma | scripts/migrate_data.py:89-119 | a text without commas gives the stripped text as street ("N/A" when blank or too long), city "N/A", state "N/A", ZIP "N/A", country "USA" |
| Addresses.ParseAddressUsLayout | scripts/migrate_data.py:89-126 | "street, city, ST zip, country" gives that street, the city through the fallback at line 119 cut to 99, that state and ZIP, and country "USA" |
| Addresses.GuessStateLine | scripts/migrate_data.py:95-106 | on a state line the ZIP is found, the state is read from what is left, and no city remains |
| Addresses.ParseAddressExample | scripts/migrate_data.py:73-128 | "123 Main St, Springfield, IL 62704, USA" gives "123 Main St", "Springfield", "IL", "62704", "USA" |
| Statuses.MapOrderStatus | scripts/migrate_data.py:131-147 | the mapping never produces `Processing` or `Refunded` |
| Statuses.MapOrderStatusIff | scripts/migrate_data.py:131-147 | `Shipped`, `Delivered` and `Cancelled` each come from exactly their English and Spanish words, up to case and blanks; everything else is `Pending` |
| Statuses.MapOrderStatusInsensitive | scripts/migrate_data.py:136 | upper case and surrounding whitespace do not change the status |
| Statuses.MapOrderStatusByKey | scripts/migrate_data.py:136-147 | the status is decided by the lower-cased, stripped text alone, the empty text included |
| Store.Check | models_new/user_models.py:10-17 | a row is accepted if and only if its texts fit their columns and the unique, present-email and foreign-key constraints hold against the rows before it |
| Store.AddRow | config.py:38 | `add` only queues the row: the committed and flushed rows stay as they were, the row joins the end of the added rows under the counter's id, and the counter moves on by one |
| Store.CategoryNamed | scripts/migrate_data.py:204-207 | a category id is found exactly when a visible category has that name, and it is that category's id |
| Store.UserNamed | scripts/migrate_data.py:335 | a user id is found exactly when a visible user has that username, and it is that user's id |
| Store.ProductWithSku | scripts/migrate_data.py:447-448 | a product id is found exactly when a visible product has that SKU, and it is that product's id |
| Store.AddressesOf | scripts/migrate_data.py:525-531 | exactly the visible addresses of that user |
| Store.UsersByUsername | scripts/migrate_data.py:483 | every visible username is a key, each mapped to a user of that name |
| Store.FlushOutcomeOk | config.py:38 | a flush that succeeds leaves the rows a query sees consistent |
| Store.SessionKeepsConsistent | config.py:38 | flush, commit, rollback and commit-or-rollback all keep the visible rows consistent |
| Store.RollbackDiscardsPending | scripts/migrate_data.py:223 | a rollback leaves exactly the committed rows and nothing pending; a batch commit either keeps everything or falls back to that |
| Store.UniqueCategoryNames | models_new/product_models.py:10 | in consistent rows no two categories share a name |
| Store.UniqueUsers | models_new/user_models.py:10-11 | in consistent rows every user has an e-mail, and no two users share a username or an e-mail |
| Store.UniqueSkus | models_new/product_models.py:27 | in consistent rows no two products share a SKU |
| Store.ForeignKeysResolve | models_new/order_models.py:24-53 | in consistent rows every foreign key of an address, product, order or item names a row of its table |
| Store.Session.constructor | config.py:38 | a session opened on the existing rows, nothing pending |
| Store.Session.Add | config.py:38 | the state after `add` is `AddRow` of the old state |
| Store.Session.Flush | config.py:38 | the state and the outcome after `flush` are `FlushDb` of the old state |
| Store.Session.Commit | scripts/migrate_data.py:247-251 | the state and the outcome after `commit` are `CommitDb` of the old state |
| Store.Session.Rollback | scripts/migrate_data.py:223 | the state after `rollback` is `RollbackDb` of the old state |
| Migration.NewProduct | scripts/migrate_data.py:366-429 | the row keeps the legacy name and description; its price is the extracted one, or 0.00 when none can be read, and is never negative; its SKU is `SKU-` with the zero-padded legacy id and the drawn suffix; its stock is the drawn one and its date the parsed one |
| Migration.FirstFlagged | scripts/migrate_data.py:535-541 | the index of the first address with the flag, or none when no address has it |
| Migration.SelectAddresses | scripts/migrate_data.py:535-541 | both selected addresses are among the user's addresses |
| Migration.SelectAddressesPrefers | scripts/migrate_data.py:535-541 | shipping is the first default-shipping address, else the first address; billing is the first default-billing address, else the shipping address |
| Migration.ProductNamed | scripts/migrate_data.py:573-574 | a product id is found exactly when the name is present and mapped to a non-zero id, and it is that id |
| MigrationFacts.MapCategoryAliases | scripts/migrate_data.py:216-219 | mapping a raw name and its normalized form to one id keeps every raw spelling mapped like its normalized name |
| MigrationFacts.CreateCategoryMaps | scripts/migrate_data.py:209-237 | the category `try` block leaves the maps unchanged or maps the name and the raw spelling to one id |
| MigrationFacts.CategoryStepAliases | scripts/migrate_data.py:187-245 | one distinct legacy value keeps raw spellings and normalized names agreeing |
| MigrationFacts.CategoriesLoopAliases | scripts/migrate_data.py:187-245 | the whole category loop keeps raw spellings and normalized names agreeing |
| MigrationFacts.CategoriesShareIds | scripts/migrate_data.py:193-219 | after the category stage two mapped spellings with the same normalized form have one target id |
| MigrationFacts.CreateCategoryMapsExisting | scripts/migrate_data.py:204-234 | the name is mapped only to a visible category of that name (reused, created or adopted); when nothing is mapped, no such category is visible |
| MigrationFacts.UserFailureAdopts | scripts/migrate_data.py:329-343 | the handlers leave only the committed rows, and map the legacy id exactly when the error was an integrity error and a committed user has the username, to that user |
| MigrationFacts.UserFailureLeavesStaleIds | scripts/migrate_data.py:330 | a legacy id mapped earlier in the batch to an uncommitted user keeps its entry after the rollback, and no visible user has that id |
| MigrationFacts.ProductFailureAdopts | scripts/migrate_data.py:441-460 | the same for products, keyed by the SKU |
| MigrationFacts.ProductCategoryMaps | scripts/migrate_data.py:379-406 | a product's category is its mapped category when that id is truthy (non-zero), else the mapped "Unknown"; the maps gain at most the "Unknown" entry, only when it was missing |
| MigrationFacts.NewProductStoredRow | scripts/migrate_data.py:366-433 | a product with a truthy mapped category whose flush succeeds is stored once, under the next id, with its name, description, price or 0.00, legacy SKU, drawn stock, that category and its parsed date; only the two product maps change, and the batch commit keeps the row |
| MigrationFacts.ProductInsertKeepsCategories | scripts/migrate_data.py:409-460 | inserting a product, its handlers included, changes neither the category map nor the user map |
| MigrationFacts.ProductStepCategories | scripts/migrate_data.py:379-406 | one product adds at most the "Unknown" category to the map, and only when it was missing |
| MigrationFacts.ProductsLoopCategories | scripts/migrate_data.py:379-406 | over the whole product stage "Unknown" is created at most once, then reused |
| MigrationFacts.NewOrderStitched | scripts/migrate_data.py:535-564 | the order belongs to its user, and its shipping and billing addresses are that user's addresses |
| MigrationFacts.OrderStepSkips | scripts/migrate_data.py:492-531 | an order whose identifier is not a known username, or whose user has no address, is only counted |
| MigrationFacts.UserAddressShape | scripts/migrate_data.py:300-317 | a new user's address exists exactly when the combined text is non-empty and has a usable field; it belongs to the user, is default shipping and billing, fits its columns, and has "N/A" or a ZIP code |
| MigrationStages.IdentityMaps.constructor | scripts/migrate_data.py:27-30 | the four maps start empty |
| MigrationStages.IdentityMaps.PutCategory | scripts/migrate_data.py:216-219 | the normalized name, and the raw name when it differs, are mapped to the id |
| MigrationStages.IdentityMaps.PutUser | scripts/migrate_data.py:295 | the legacy user id is mapped to the new id |
| MigrationStages.IdentityMaps.PutProduct | scripts/migrate_data.py:431-432 | the legacy product id and name are mapped to the new id |
| MigrationStages.CommitBatch | scripts/migrate_data.py:239-245 | a commit, a failure answered by a rollback |
| MigrationStages.CreateCategoryIn | scripts/migrate_data.py:209-237 | the session and maps end as the category `try` block and its handlers prescribe |
| MigrationStages.CreateCategoryCounted | scripts/migrate_data.py:209-245 | the same, followed by the batch commit when the counter ends a batch |
| MigrationStages.MigrateCategory | scripts/migrate_data.py:187-245 | one pass of the category loop ends in the state `CategoryStep` prescribes |
| MigrationStages.MigrateProductCategories | scripts/migrate_data.py:170-254 | the stage ends in the state of the category loop followed by the final commit |
| MigrationStages.UserFailureIn | scripts/migrate_data.py:329-343 | the user handlers end in the state `UserFailure` prescribes |
| MigrationStages.UserCreatedIn | scripts/migrate_data.py:295-326 | after the user's flush, the address and the batch commit end in the state `UserCreated` prescribes |
| MigrationStages.MigrateUser | scripts/migrate_data.py:282-343 | one pass of the user loop ends in the state `UserStep` prescribes |
| MigrationStages.MigrateUsersAndAddresses | scripts/migrate_data.py:257-352 | the stage ends in the state of the user loop followed by the final commit |
| MigrationStages.CreateUnknownCategoryIn | scripts/migrate_data.py:381-402 | the "Unknown" category is created, mapped and committed at once; a failure rolls back and skips the product |
| MigrationStages.ProductCategoryIn | scripts/migrate_data.py:379-406 | the product's category id is resolved as `ProductCategory` prescribes |
| MigrationStages.ProductFailureIn | scripts/migrate_data.py:441-460 | the product handlers end in the state `ProductFailure` prescribes |
| MigrationStages.ProductCommitIn | scripts/migrate_data.py:437-438 | the batch commit inside the `try`, a failure going to the product handlers |
| MigrationStages.ProductInsertIn | scripts/migrate_data.py:411-460 | the product is added, flushed, mapped and batch-committed as `ProductInsert` prescribes |
| MigrationStages.ProductResolvedIn | scripts/migrate_data.py:379-460 | with its category resolved, a product is inserted or only counted |
| MigrationStages.MigrateProduct | scripts/migrate_data.py:367-460 | one pass of the product loop ends in the state `ProductStep` prescribes |
| MigrationStages.MigrateProducts | scripts/migrate_data.py:355-468 | the stage ends in the state of the product loop followed by the final commit |
| MigrationStages.OrderPlacedIn | scripts/migrate_data.py:555-628 | the order is added and flushed, then its item added, expunged or rolled back as `OrderPlaced` prescribes |
| MigrationStages.MigrateOrder | scripts/migrate_data.py:486-635 | one pass of the order loop ends in the state `OrderStep` prescribes, with the maps untouched |
| MigrationStages.MigrateOrdersAndItems | scripts/migrate_data.py:471-644 | the username index is read once, then the stage ends in the state of the order loop followed by the final commit |
| MigrationStages.MigrationRunStages | scripts/migrate_data.py:668-683 | the run is the four stages in order, each starting from the state the previous one ended in |
| MigrationStages.OrdersLoopKeepsMaps | scripts/migrate_data.py:486-635 | the order stage leaves the identity maps as they were |
| MigrationStages.MainMigrationProcess | scripts/migrate_data.py:651-695 | the session and maps end as the four stages, run in order, prescribe |
| OrderItems.OrderLeftWithoutItem | scripts/migrate_data.py:574-604 | an order with an unmapped product, flushed away from a batch end, stays without an item, and the next successful commit stores it so |
| OrderItems.BatchEndDropsPendingOrders | scripts/migrate_data.py:602-603 | the same branch at a batch end rolls back every pending order, those with items included |
| OrderItems.FlushKeepsItems | scripts/migrate_data.py:626-628 | a flush keeps every order, committed or pending, with an item |
| OrderItems.RollbackKeepsItems | scripts/migrate_data.py:630-635 | a rollback keeps every order with an item when the committed rows had that property |
| OrderItems.CommitOrRollbackKeepsItems | scripts/migrate_data.py:626-628 | a batch commit keeps every order with an item |
| OrderItems.BatchEndKeepsItems | scripts/migrate_data.py:626-628 | a batch end keeps every order with an item |
| OrderItems.OrderPlacedKeepsItems | scripts/migrate_data.py:555-628 | an order whose product is mapped keeps every order with an item |
| OrderItems.OrderStepCheckedKeepsItems | scripts/migrate_data.py:573-604 | the corrected step, which skips an order with an unmapped product, keeps every order with an item and changes nothing for such an order |
| OrderItems.OrdersLoopCheckedKeepsItems | scripts/migrate_data.py:486-641 | the corrected order stage, with its final commit, never leaves an order without an item |
| PdNormalizers.NormalizeCategoryNamePd | scripts/migrate_with_pandas.py:48-49 | a present name keeps its length and its letters up to case after stripping |
| PdNormalizers.NormalizeCategoryPdWords | scripts/migrate_with_pandas.py:48-49 | a letter is upper case exactly when it starts a word |
| PdNormalizers.NormalizeCategoryVariantsAgree | scripts/migrate_with_pandas.py:48-49 | on a single word of letters both scripts normalize alike |
| PdNormalizers.NormalizeCategoryVariantsDiffer | scripts/migrate_with_pandas.py:48-49 | on two words they differ: the second word is capitalized here and lower-cased row by row |
| PdNormalizers.MissingCategoryVariants | scripts/migrate_with_pandas.py:48-49 | a missing name is "Unknown Category" here and "Unknown" row by row |
| PdNormalizers.EmptyCategoryVariants | scripts/migrate_with_pandas.py:48-49 | an empty name stays empty here and is "Unknown" row by row |
| PdNormalizers.FirstParseAppend | scripts/migrate_with_pandas.py:53-56 | reading with more formats only fills what the earlier ones left empty |
| PdNormalizers.ParseDateStringPd | scripts/migrate_with_pandas.py:52-61 | each cell ends with the date of the earliest format that reads it, or none |
| PdNormalizers.CleanPricePd | scripts/migrate_with_pandas.py:68 | the cleaned text has a digit only when the cell had one |
| PdNormalizers.ConvertPrice | scripts/migrate_with_pandas.py:64-75 | a price is read only from a present cell holding a digit |
| PdNormalizers.ConvertPriceWithoutDigits | scripts/migrate_with_pandas.py:64-75 | a text with no digit gives no price, in both scripts |
| PdNormalizers.ConvertPriceUsd | scripts/migrate_with_pandas.py:68-70 | a plain number followed by " USD" reads as itself |
| PdNormalizers.ConvertPriceDollar | scripts/migrate_with_pandas.py:68-70 | a dollar sign in front of a plain number is dropped |
| PdNormalizers.PriceRangeVariants | scripts/migrate_with_pandas.py:68-73 | a range gives no price here and its lower end row by row |
| PdNormalizers.NegativePriceVariants | scripts/migrate_with_pandas.py:68-70 | a leading minus gives a negative price here and none row by row |
| PdNormalizers.StatusLookupPd | scripts/migrate_with_pandas.py:341-348 | a spelling in the dictionary gives its status; a null or unknown spelling gives `Pending` |
| PdNormalizers.StatusLookupPdIff | scripts/migrate_with_pandas.py:341-348 | which exact spellings give `Processing`, `Refunded`, `Cancelled`, `Shipped` and `Delivered` |
| PdNormalizers.StatusVariantsDiffer | scripts/migrate_with_pandas.py:341-348 | "Cancelled" is pending here and cancelled row by row; "PROCESSING" is processing here and pending row by row |
| PdNormalizers.SkuPd | scripts/migrate_with_pandas.py:272-273 | the SKU's length is the prefix, the id's digits, a dash and at most 15 characters of the name |
| PdNormalizers.SkuPdId | scripts/migrate_with_pandas.py:272-273 | the first dash after the prefix ends the id's digits, which are the id |
| PdNormalizers.SkuPdInjective | scripts/migrate_with_pandas.py:272-273 | distinct legacy ids give distinct SKUs, whatever the names |
| PdNormalizers.QuantityNormPd | scripts/migrate_with_pandas.py:358-359 | the quantity is the legacy quantity whenever that is at least 1, and 1 when it is null or below 1 |
| PdNormalizers.QuantityVariantsAgree | scripts/migrate_with_pandas.py:358-359 | both scripts settle the quantity alike |
| PdAddresses.StateAndZip | scripts/migrate_with_pandas.py:99-105 | a ZIP that is found is a ZIP code; without one the state is at most 50 characters |
| PdAddresses.ParseCombinedAddressPd | scripts/migrate_with_pandas.py:78-116 | a null cell gives five nulls; otherwise street and city are present, a ZIP is a ZIP code, and without a ZIP the state is at most 50 characters |
| PdAddresses.ParseCombinedAddressPdFewCommas | scripts/migrate_with_pandas.py:87-89 | with fewer than two commas the handler's fields come out: the first 255 characters, "N/A", no state, "00000", "Unknown" |
| PdAddresses.ParsePdSplit | scripts/migrate_with_pandas.py:87-105 | with two commas, street and city are the stripped first two pieces, and state and ZIP come from the rest |
| PdAddresses.ParseCombinedAddressPdUsLayout | scripts/migrate_with_pandas.py:87-105 | "street, city, ST zip, country" is read field by field |
| PdAddresses.AddressVariantsOnUsLayout | scripts/migrate_with_pandas.py:78-116 | on that layout both parsers agree on street, city, state and ZIP; the country is as written here and "USA" row by row |
| PdAddresses.ParseCombinedAddressPdExample | scripts/migrate_with_pandas.py:78-116 | "123 Main St, Springfield, IL 62704, USA" gives "123 Main St", "Springfield", "IL", "62704", "USA" |
| PdAddresses.OrDefault | scripts/migrate_with_pandas.py:219-232 | a present non-empty field is kept; otherwise the non-empty default is used |
| PdAddresses.StoredZipIsZip | scripts/migrate_with_pandas.py:219-232 | the stored ZIP is always a ZIP code, the placeholder "00000" included |
| PdFacts.UniqueSpec | scripts/migrate_with_pandas.py:125 | `.dropna().unique()` keeps no value twice and exactly the values that occur non-null |
| PdFacts.DropDuplicateNamesDistinct | scripts/migrate_with_pandas.py:128 | `drop_duplicates` keeps no normalized name twice |
| PdFacts.DropDuplicateNamesRows | scripts/migrate_with_pandas.py:128 | every kept row is one of the rows, and every name is kept |
| PdFacts.CategoryFrameSpec | scripts/migrate_with_pandas.py:125-128 | one row per normalized name, each from a product's category, and every product's category has its row |
| PdFacts.CategoryStepPdMaps | scripts/migrate_with_pandas.py:131-155 | after a category row the maps are unchanged, or its raw value and name map to one visible category of that name |
| PdFacts.CategoryFailurePdLeavesStaleIds | scripts/migrate_with_pandas.py:146-155 | a failed insert rolls back the stage's earlier categories, yet their map entries stay pointing at ids no visible category has |
| PdFacts.UserStepPdReuses | scripts/migrate_with_pandas.py:189-198 | an existing username is reused: nothing is inserted, and both maps point at that user |
| PdFacts.UserStepPdReusesAddress | scripts/migrate_with_pandas.py:189-198 | a reused user's default address is one of that user's default-shipping addresses |
| PdFacts.NewAddressPdFields | scripts/migrate_with_pandas.py:219-232 | a new user's address belongs to the user, is default shipping and billing, has no empty field, and its ZIP is a ZIP code |
| PdFacts.NewUserGetsOneAddress | scripts/migrate_with_pandas.py:200-232 | a new user whose two flushes succeed is stored with exactly one address, and the maps point at both |
| PdFacts.UserFailurePdAdopts | scripts/migrate_with_pandas.py:238-248 | the handlers roll back, and adopt only a committed user with that username |
| PdFacts.NullCategorySkipped | scripts/migrate_with_pandas.py:266-286 | a product with a null category is skipped unless "Unknown Category" is mapped |
| PdFacts.ProductStepPdReuses | scripts/migrate_with_pandas.py:289-293 | an existing SKU is reused: nothing is inserted, and both maps point at that product |
| PdFacts.NewProductStored | scripts/migrate_with_pandas.py:260-314 | a new product is stored once with the deterministic SKU, the price or 0.00, the mapped category and the date or now |
| PdFacts.ProductFailurePdAdopts | scripts/migrate_with_pandas.py:315-325 | the handlers roll back, and adopt only a committed product with that SKU |
| PdFacts.StaleCategoryBlocksProduct | scripts/migrate_with_pandas.py:306-325 | a product mapped to a rolled-back category is not stored: the flush fails and only the committed rows remain |
| PdFacts.DropUnresolvedSpec | scripts/migrate_with_pandas.py:365 | the filter keeps exactly the rows whose user, address and product are resolved |
| PdFacts.KeptOrdersResolved | scripts/migrate_with_pandas.py:350-365 | each kept order has a mapped user, that user's default address as shipping, a mapped product and quantity at least 1; every fully resolvable order is kept |
| PdFacts.OrderStepPdStores | scripts/migrate_with_pandas.py:368-395 | an order whose flush succeeds is stored with exactly one item, billing equal to shipping and created at the order date; a failed flush rolls back |
| PdFacts.PdMigrationRunKeepsItems | scripts/migrate_with_pandas.py:420-460 | the columnar run never leaves an order without its item |
| PdStages.PdIdentityMaps.constructor | scripts/migrate_with_pandas.py:38-43 | the six maps start empty |
| PdStages.PdIdentityMaps.PutCategory | scripts/migrate_with_pandas.py:139-145 | the raw value and the normalized name are mapped to the id |
| PdStages.PdIdentityMaps.PutUser | scripts/migrate_with_pandas.py:212-217 | the legacy id and the username are mapped to the id |
| PdStages.PdIdentityMaps.PutDefaultAddress | scripts/migrate_with_pandas.py:219-232 | the user's default address is recorded |
| PdStages.PdIdentityMaps.PutProduct | scripts/migrate_with_pandas.py:306-314 | the legacy id and name are mapped to the id |
| PdStages.MigrateCategoryPd | scripts/migrate_with_pandas.py:131-155 | one row of the category loop ends in the state `CategoryStepPd` prescribes |
| PdStages.MigrateCategoriesPd | scripts/migrate_with_pandas.py:123-160 | the stage walks the category frame, then commits |
| PdStages.MigrateUserPd | scripts/migrate_with_pandas.py:189-248 | one row of the user loop ends in the state `UserStepPd` prescribes |
| PdStages.UserInsertPdIn | scripts/migrate_with_pandas.py:211-248 | a new user's add and flush, then its address, under the handlers, end in the state `UserInsertPd` prescribes, with the inserted-user count |
| PdStages.AddressInsertPdIn | scripts/migrate_with_pandas.py:219-236 | the address add and flush, the default-address entry and the batch commit every 500 users end in the state `AddressInsertPd` prescribes |
| PdStages.UserFailurePdIn | scripts/migrate_with_pandas.py:238-248 | the user handlers end in the state `UserFailurePd` prescribes: a rollback, and on an integrity error the user of that name adopted when one is visible |
| PdStages.MigrateUsersPd | scripts/migrate_with_pandas.py:163-253 | the stage walks the user frame, then commits |
| PdStages.MigrateProductPd | scripts/migrate_with_pandas.py:284-325 | one row of the product loop ends in the state `ProductStepPd` prescribes |
| PdStages.MigrateProductsPd | scripts/migrate_with_pandas.py:256-328 | the category ids are read from the maps as the stage starts, the frame is walked, then committed |
| PdStages.MigrateOrderPd | scripts/migrate_with_pandas.py:369-395 | one kept order ends in the state `OrderStepPd` prescribes |
| PdStages.MigrateOrdersPd | scripts/migrate_with_pandas.py:331-399 | the order frame is resolved and filtered, walked, then committed |
| PdStages.OrderStepPdMaps | scripts/migrate_with_pandas.py:368-395 | the order loop never reads or changes the maps |
| PdStages.MainPandas | scripts/migrate_with_pandas.py:420-460 | the four stages in order; a failed final commit is rolled back and stops the run |

## Left out

- Logging, the legacy session, `read_sql_table`, connection setup (`config.py`), the
  `close()` calls and the top-level `except`/`finally` of both mains are I/O and are not modelled.
- The `create_engine("")` at module level in the columnar script is not modelled; it fails before
  any migration logic runs.
- `clear_nwe_database_tables` and `clear_new_database_tables_pd` are bulk deletes before a run;
  each run here starts from a given database state instead.
- `scripts/populate_old_db.py` and the table declarations are not part of this model. The
  declarations give only the row shapes, the column widths and the constraints `Store.Check` uses.
- `strptime`, `pd.to_datetime`, `datetime.now()`, `random.randint` and `np.random.randint` are
  parameters: a `parse` function, a `now` value, and per-product draws. Date formats are not
  interpreted.
- Decimals.ParseDecimal: accepts only an optional sign, digits and at most one point with a digit
  beside it. Python's `Decimal` also accepts exponents, `NaN`, `Infinity`, underscores and
  surrounding blanks. After `extract_price_decimal`'s cleaning only digits, points and minus signs
  are left, so the row-by-row script loses nothing. The columnar cleaner removes only `USD`, `EUR`
  and `$`, so there the gap is real; the model takes the legacy prices never to hold such text.
- PdNormalizers.ConvertPrice: for the reason above, "1E2" reads as no price (stored as 0.00) where
  Python reads 100, and "Infinity" or "NaN" read as no price where Python builds that `Decimal`.
- Text.Lower, Text.Upper, Text.Title and Text.Capitalize: case folding and the letter test
  (`Text.IsAlpha`) cover ASCII letters only, where Python's `str` methods are Unicode-aware; a
  non-ASCII letter is kept as it is and counts as a word break for `title()`. Whitespace
  (`Text.IsSpace`, used by `Text.Strip`) is Python's full `isspace` set.
- Addresses.SearchZip and Addresses.SearchState: `\d` and `\b` are taken over ASCII digits and
  word characters, where Python's `re` on `str` also counts other Unicode digits and letters.
- Store.Check: a unique or foreign-key violation is reported as `IntegrityError` and a value too
  long for its column as `DataError`. Database-specific messages, the database's own checks
  beyond these, and connection failures are not modelled. Prices and unit prices are `Numeric(10, 2)`
  columns, so the database rounds them to two places; the model stores the `Decimal` as parsed,
  and a stored price in its lemmas is the value sent.
- Store.AddRow: one id counter serves all six tables, where the database has one sequence per
  table. Like a sequence, it is not rewound by a rollback.
- Queries return rows in insertion order, which stands in for the database's unspecified order.
  `.first()` takes the first match. The `.scalar()` lookups by username and by SKU search unique
  columns, so at most one row matches them.
- PdMigration.DefaultShippingOf: the columnar user stage asks `.scalar()` for the user's
  default-shipping address. A user may hold two such addresses, and then `.scalar()` raises
  `MultipleResultsFound` outside any `try`; `main_pandas` rolls back and the run stops. The model
  takes the first flagged address instead and goes on.
- Migration.Draw: the SKU suffix and the stock are free parameters. The ranges `randint(100, 999)`
  and `randint(0, 100)` are not imposed, since no property proved here depends on them.
- `session.expunge` is modelled only as what it does to an order already flushed: nothing, so the
  order stays.
- NaN and `None` cells are both `None`. `fillna`, `.map`, `.apply` and `astype` appear only by
  their per-row meaning. Each data frame is a sequence of row records built by a function
  (`PdMigration.UserFrames` and so on), and `dropna(inplace=True)` is the function
  `PdMigration.DropUnresolved`.
- Counters other than the ones that decide batch commits (items, skipped rows, errors) are not
  modelled, since they only feed log messages.
- The row-by-row product stage builds its row before the category is known. The model builds the
  row with `Migration.NewProduct` and then fills in the category; the field values are the same.

## Findings

| source | as written | input that shows it | evidently intended | confidence | as-written member | corrected member |
|---|---|---|---|---|---|---|
| scripts/migrate_data.py:574-604 | the order is flushed before its product is looked up; with no mapped product `expunge` leaves the flushed order in place | an order of a known user with addresses whose product name is not mapped, away from a batch end | an order without a mapped product is skipped whole, as the columnar script does at scripts/migrate_with_pandas.py:365 | not executed | OrderItems.OrderLeftWithoutItem | OrderItems.OrdersLoopCheckedKeepsItems |
| scripts/migrate_data.py:602-603 | at a batch end the missing-product branch calls `rollback()`, discarding every order and item flushed since the last commit | the same order when the counter is a multiple of 500 | only the one order is skipped; complete orders earlier in the batch are kept | not executed | OrderItems.BatchEndDropsPendingOrders | OrderItems.OrderStepCheckedKeepsItems |
