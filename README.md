# Sauda retail back end: inventory, customers, products and role claims

This project models the service layer of the Sauda multi-tenant retail back end in Dafny and
proves properties of the model. Four parts of the service are covered:

- **Inventory ledger** (`inventory.dfy`, module `Inventory`). `InventoryServiceImpl` keeps a
  stock record per (product, warehouse) pair: tenant, product, warehouse and a decimal
  quantity. The model keeps the table in insertion order as a `seq<StockRecord>` inside the
  class `InventoryService`, with one method per write: create, update (absolute), increase,
  decrease, transfer and delete. Lookups go by (product, warehouse) alone and ignore the
  tenant, as `findByProductIdAndWarehouseId` does. Quantities are `real`, because
  `BigDecimal` addition and subtraction are exact. The read-only side is modelled as
  functions: availability check, tenant-scoped total, and zero/low/high stock queries.
  The class invariant has two parts: at most one record per pair, and no negative quantity.
  Every writing method keeps it.
- **Customer registry** (`customers.dfy`, module `Customers`). `CustomerServiceImpl` validates
  a customer, keeps phone, email and discount card unique over all tenants, and assigns or
  removes discount cards. It also computes per-tenant statistics. Customers live in a
  `map<int, Customer>` keyed by the generated id.
- **Product registry** (`products.dfy`, module `Products`). `ProductServiceImpl` validates a
  `ProductDto` and keeps barcode and SKU unique. An update re-checks a code only when it
  changes. The service moves products between active, inactive, soft-deleted and restored.
- **Role-claim conversion** (`security.dfy`, module `Security`). `extractAuthorities` turns the
  `realm_access.roles` claim of a token into granted authorities `ROLE_<role>`. It skips the
  three default Keycloak roles.

`text.dfy` models `String.trim().isEmpty()`, which the two validators use. `wrappers.dfy`
holds `Option`, `Result` and `Outcome` (success or one error). Each Java
`IllegalArgumentException` becomes an error constructor named after its message. A failed
call leaves the state as it was, as the transaction rollback would.

Created stock records get tenant 1, because `createInventory` hard-codes it; a TODO in the
source says it should come from the security context. The lemmas show the consequence:

- A transfer conserves every tenant's total when the source and destination records belong
  to the same tenant (`TransferConservesTotal`).
- A transfer from another tenant's record into a pair with no record moves the quantity
  out of that tenant's total (`TransferIntoNewPairLeavesTenant`).

Every stock record carries a tenant id, but `transferInventory` never compares the tenants of
its source and destination, and `createInventory` stamps tenant 1 on every new record
(`InventoryServiceImpl.java:139`, with a TODO to take it from the security context). The model
follows the code and adds no tenant check.

## Model

| member | source | states |
|---|---|---|
| Inventory.FindIndex | src/main/java/com/sauda/sauda_app/repository/InventoryRepository.java:19 | The position found holds the pair and no earlier row does; None means no row holds the pair |
| Inventory.Lookup | src/main/java/com/sauda/sauda_app/repository/InventoryRepository.java:19 | The record found is in the table and has the pair; None exactly when no row has it; with unique keys it is the one row for the pair |
| Inventory.ValidateQuantity | src/main/java/com/sauda/sauda_app/service/impl/InventoryServiceImpl.java:256-263 | Accepted exactly when present and non-negative (zero allowed); null is reported before negative |
| Inventory.CheckAvailability | src/main/java/com/sauda/sauda_app/service/impl/InventoryServiceImpl.java:195-203 | False for an absent pair; with unique keys, true exactly when the pair's record holds at least the required quantity |
| Inventory.SelectByTenant | src/main/java/com/sauda/sauda_app/repository/InventoryRepository.java:29-31 | A record is selected exactly when it belongs to the tenant and its quantity passes the comparison; never longer than the table |
| Inventory.ZeroInventory | src/main/java/com/sauda/sauda_app/service/impl/InventoryServiceImpl.java:155-157 | Exactly the tenant's records whose quantity is zero |
| Inventory.LowInventory | src/main/java/com/sauda/sauda_app/service/impl/InventoryServiceImpl.java:161-163 | Exactly the tenant's records strictly below the threshold |
| Inventory.HighInventory | src/main/java/com/sauda/sauda_app/service/impl/InventoryServiceImpl.java:167-169 | Exactly the tenant's records strictly above the threshold |
| Inventory.FindIndexAfterQuantityChange | src/main/java/com/sauda/sauda_app/service/impl/InventoryServiceImpl.java:70-74 | Rewriting a quantity moves no lookup |
| Inventory.LookupAfterQuantityChange | src/main/java/com/sauda/sauda_app/service/impl/InventoryServiceImpl.java:70-74 | Rewriting the quantity of the row found keeps it the row found, now with the new quantity, and no other row changes |
| Inventory.SameKeysAndTenants | src/main/java/com/sauda/sauda_app/service/impl/InventoryServiceImpl.java:139 | Two tables that agree row by row on keys and tenants give every pair the same tenant |
| Inventory.TenantAfterDecrease | src/main/java/com/sauda/sauda_app/service/impl/InventoryServiceImpl.java:105-116 | A decrease moves no pair to another tenant |
| Inventory.FindIndexAfterAppend | src/main/java/com/sauda/sauda_app/service/impl/InventoryServiceImpl.java:131-141 | An appended record is found for its pair only when the pair had no record; other lookups do not move |
| Inventory.TotalAfterQuantityChange | src/main/java/com/sauda/sauda_app/service/impl/InventoryServiceImpl.java:146-151 | The tenant-scoped total changes by exactly the change of the rewritten row when that row counts |
| Inventory.TotalAfterAppend | src/main/java/com/sauda/sauda_app/service/impl/InventoryServiceImpl.java:146-151 | An appended record adds its quantity to the total it counts toward and to no other |
| Inventory.TotalNonNegative | src/main/java/com/sauda/sauda_app/service/impl/InventoryServiceImpl.java:146-151 | With no negative stored quantity, the total is never negative |
| Inventory.TotalWithoutMatches | src/main/java/com/sauda/sauda_app/service/impl/InventoryServiceImpl.java:146-151 | The fold from ZERO gives zero when no record belongs to the tenant and product |
| Inventory.IncreasedEffect | src/main/java/com/sauda/sauda_app/service/impl/InventoryServiceImpl.java:82-97 | After an increase the pair holds its old quantity (zero if absent) plus delta, keeps its tenant (1 if created), and no other row changes |
| Inventory.TotalAfterIncrease | src/main/java/com/sauda/sauda_app/service/impl/InventoryServiceImpl.java:82-97 | An increase adds delta to the total of the tenant the write lands in and leaves other tenants' totals alone |
| Inventory.TotalAfterDecrease | src/main/java/com/sauda/sauda_app/service/impl/InventoryServiceImpl.java:100-120 | A decrease subtracts delta from the total of the record's tenant only |
| Inventory.DecreasedEffect | src/main/java/com/sauda/sauda_app/service/impl/InventoryServiceImpl.java:105-116 | After a decrease the pair's record is the old one with quantity reduced by delta; the length and every other row stay |
| Inventory.TransferConservesTotal | src/main/java/com/sauda/sauda_app/service/impl/InventoryServiceImpl.java:172-191 | When source and destination land in the same tenant, a transfer leaves every tenant's total for the product unchanged |
| Inventory.TransferIntoNewPairLeavesTenant | src/main/java/com/sauda/sauda_app/service/impl/InventoryServiceImpl.java:139 | As written: moving stock of a tenant other than 1 into a pair with no record lowers that tenant's total by the quantity |
| Inventory.LookupAfterOtherQuantityChange | src/main/java/com/sauda/sauda_app/service/impl/InventoryServiceImpl.java:105-116 | Rewriting the quantity of a row with another key leaves that pair's lookup as it was |
| Inventory.LookupElsewhereAfterDecrease | src/main/java/com/sauda/sauda_app/service/impl/InventoryServiceImpl.java:181-184 | A decrease at the source leaves the destination's lookup as it was |
| Inventory.FindIndexIs | src/main/java/com/sauda/sauda_app/repository/InventoryRepository.java:19 | The first row holding the pair is the one the lookup finds |
| Inventory.TransferToSelfRestores | src/main/java/com/sauda/sauda_app/service/impl/InventoryServiceImpl.java:172-191 | A transfer from a warehouse into itself leaves the table exactly as it was |
| Inventory.TransferredEffect | src/main/java/com/sauda/sauda_app/service/impl/InventoryServiceImpl.java:172-191 | Between distinct warehouses: source loses and destination gains exactly the quantity, their sum is conserved, other rows are untouched |
| Inventory.SourceKeptByIncrease | src/main/java/com/sauda/sauda_app/service/impl/InventoryServiceImpl.java:181-184 | The increase at the destination does not disturb the source's record |
| Inventory.InventoryService.constructor | src/main/java/com/sauda/sauda_app/service/impl/InventoryServiceImpl.java:30-32 | Starts with an empty table that satisfies the ledger invariant |
| Inventory.InventoryService.CreateInventory | src/main/java/com/sauda/sauda_app/service/impl/InventoryServiceImpl.java:123-142 | Validation error, or AlreadyExists for a present pair, with the table unchanged; else appends a tenant-1 record that lookup then finds; invariant kept |
| Inventory.InventoryService.UpdateInventory | src/main/java/com/sauda/sauda_app/service/impl/InventoryServiceImpl.java:65-79 | Validation error with the table unchanged; else overwrites the pair's quantity or creates the record; invariant kept |
| Inventory.InventoryService.IncreaseInventory | src/main/java/com/sauda/sauda_app/service/impl/InventoryServiceImpl.java:82-97 | Validation error with the table unchanged; else adds to the pair's quantity or creates the record |
| Inventory.InventoryService.DecreaseInventory | src/main/java/com/sauda/sauda_app/service/impl/InventoryServiceImpl.java:100-120 | Validation error, NotInWarehouse for an absent pair, InsufficientStock(available, required) when the result would be negative, each with the table unchanged; else subtracts; no quantity goes negative |
| Inventory.InventoryService.TransferInventory | src/main/java/com/sauda/sauda_app/service/impl/InventoryServiceImpl.java:172-191 | Validation error or InsufficientAtSource before any write; else the table is the decrease-then-increase of the old one. Between distinct warehouses the result is [source, destination] as now stored. Into its own source the table is unchanged and the result holds that one record twice |
| Inventory.InventoryService.DeleteInventory | src/main/java/com/sauda/sauda_app/service/impl/InventoryServiceImpl.java:234-242 | RecordNotFound with the table unchanged; else removes exactly the pair's record and keeps every other one in order |
| Inventory.TestService | src/test/java/com/sauda/sauda_app/service/InventoryServiceTest.java:38-47 | The test fixture built through createInventory: one valid table holding product 1 in warehouse 1, tenant 1, 100.00 |
| Inventory.IncreaseDecreaseScenario | src/test/java/com/sauda/sauda_app/service/InventoryServiceTest.java:116-171 | On the fixture, +50.00 leaves one record of 150.00 and −30.00 one of 70.00 |
| Inventory.RefusalScenario | src/test/java/com/sauda/sauda_app/service/InventoryServiceTest.java:173-236 | On the fixture, a decrease by 150.00 is refused with (100.00, 150.00) and a second create is refused; the table keeps the fixture |
| Inventory.EmptyTableScenario | src/test/java/com/sauda/sauda_app/service/InventoryServiceTest.java:135-259 | On an empty table, increase by 50.00 and create with 200.00 each store one record; decrease, null, negative and delete are refused |
| Inventory.AvailabilityScenario | src/test/java/com/sauda/sauda_app/service/InventoryServiceTest.java:286-344 | On the fixture, 50.00 is available and 150.00 is not; an absent pair has nothing; deleting the fixture's record empties the table |
| Inventory.TotalScenario | src/test/java/com/sauda/sauda_app/service/InventoryServiceTest.java:261-284 | Records of 50.00 and 75.00 for the tenant and product total 125.00 |
| Inventory.TransferScenario | src/main/java/com/sauda/sauda_app/service/impl/InventoryServiceImpl.java:172-191 | On the fixture, moving 30.00 to warehouse 2 leaves 70.00 and creates 30.00 there; a transfer into the source returns its record twice; 150.00 is refused |
| Text.TrimStart | src/main/java/com/sauda/sauda_app/service/impl/CustomerServiceImpl.java:252 | The result is a suffix of the input that starts with a non-trimmable character or is empty, and every character removed is trimmable |
| Text.TrimEnd | src/main/java/com/sauda/sauda_app/service/impl/CustomerServiceImpl.java:252 | The result is a prefix of the input that ends with a non-trimmable character or is empty, and every character removed is trimmable |
| Text.BlankIffAllTrimmable | src/main/java/com/sauda/sauda_app/service/impl/CustomerServiceImpl.java:252 | trim() leaves nothing exactly when every character is at most a space |
| Text.TrimStartEmptyIff | src/main/java/com/sauda/sauda_app/service/impl/CustomerServiceImpl.java:252 | Trimming the front empties a string exactly when all its characters are trimmable |
| Text.TrimEndEmptyIff | src/main/java/com/sauda/sauda_app/service/impl/CustomerServiceImpl.java:252 | Trimming the back empties a string exactly when all its characters are trimmable |
| Text.PrintableStartNotBlank | src/main/java/com/sauda/sauda_app/service/impl/CustomerServiceImpl.java:252 | A string whose first character is above a space survives trim() |
| Customers.ValidateCustomer | src/main/java/com/sauda/sauda_app/service/impl/CustomerServiceImpl.java:248-258 | Passes exactly for a present customer with a tenant and a non-blank name; null, then name, then tenant decide which error is reported |
| Customers.WhitespaceNameRejected | src/main/java/com/sauda/sauda_app/service/impl/CustomerServiceImpl.java:252-254 | A name of only whitespace is refused with the name error |
| Customers.StoreKeepsUniqueField | src/main/java/com/sauda/sauda_app/service/impl/CustomerServiceImpl.java:33-45 | Storing a customer whose value is null, its own, or unused keeps that field unique |
| Customers.StoreKeepsInvariant | src/main/java/com/sauda/sauda_app/service/impl/CustomerServiceImpl.java:57-73 | A validated customer with fresh phone, email and card keeps the registry valid and unique |
| Customers.UpdateKeepsInvariant | src/main/java/com/sauda/sauda_app/service/impl/CustomerServiceImpl.java:51-82 | An update whose changed phone, email and card are not held elsewhere keeps the registry valid and unique |
| Customers.CardChangeKeepsInvariant | src/main/java/com/sauda/sauda_app/service/impl/CustomerServiceImpl.java:213-232 | Setting a card no customer holds, or clearing it, keeps the registry valid and unique |
| Customers.StoreKeepsIds | src/main/java/com/sauda/sauda_app/service/impl/CustomerServiceImpl.java:29-48 | Storing under the next id, or over an existing one, keeps every id below the counter |
| Customers.KeepingOwnValuesNeverClashes | src/main/java/com/sauda/sauda_app/service/impl/CustomerServiceImpl.java:58-72 | An update that keeps its own value never fails that field's uniqueness check |
| Customers.StatsByTenant | src/main/java/com/sauda/sauda_app/service/impl/CustomerServiceImpl.java:236-242 | The counts are the tenant's customers and those holding a card; the difference is exactly those holding none, between zero and the total |
| Customers.CustomerService.constructor | src/main/java/com/sauda/sauda_app/service/impl/CustomerServiceImpl.java:23-26 | An empty registry whose first id is 1 |
| Customers.CustomerService.CreateCustomer | src/main/java/com/sauda/sauda_app/service/impl/CustomerServiceImpl.java:29-48 | Validation error, then PhoneExists, EmailExists or CardExists for a non-null value already held, registry unchanged; else stores the customer under a fresh id |
| Customers.CustomerService.UpdateCustomer | src/main/java/com/sauda/sauda_app/service/impl/CustomerServiceImpl.java:51-82 | Validation, NotFound, then a uniqueness check only on changed non-null values; else copies name, phone, email and card and keeps tenant and address |
| Customers.CustomerService.AssignDiscountCard | src/main/java/com/sauda/sauda_app/service/impl/CustomerServiceImpl.java:213-223 | NotFound; CardInUse when any customer holds the card, the same customer included; else sets the card |
| Customers.CustomerService.RemoveDiscountCard | src/main/java/com/sauda/sauda_app/service/impl/CustomerServiceImpl.java:226-232 | NotFound, else the card becomes null and nothing else changes |
| Customers.CustomerService.DeleteCustomer | src/main/java/com/sauda/sauda_app/service/impl/CustomerServiceImpl.java:157-162 | NotFound, else removes exactly that customer |
| Customers.SampleService | src/test/java/com/sauda/sauda_app/service/CustomerServiceTest.java:31-62 | Creating the sample customer in an empty registry stores it under id 1 |
| Customers.SampleValid | src/test/java/com/sauda/sauda_app/service/CustomerServiceTest.java:32-40 | The sample customer passes validation |
| Customers.RemoveScenario | src/test/java/com/sauda/sauda_app/service/CustomerServiceTest.java:324-338 | Removing the sample customer's card leaves it stored under id 1 with no card |
| Products.ValidateProductDto | src/main/java/com/sauda/sauda_app/service/impl/ProductServiceImpl.java:265-281 | Passes exactly for a present dto with a tenant and non-blank name, barcode and SKU; the first failing check in that order is reported |
| Products.WhitespaceNameRejected | src/main/java/com/sauda/sauda_app/service/impl/ProductServiceImpl.java:272-274 | A name of only whitespace is refused with the name error |
| Products.UpdateResult | src/main/java/com/sauda/sauda_app/service/impl/ProductServiceImpl.java:81-118 | Refused with BarcodeExists, then SkuExists, exactly when a changed code is held by some product; else every dto field is copied (category and unit set or cleared) and tenant and flags are kept |
| Products.ActiveProducts | src/main/java/com/sauda/sauda_app/service/impl/ProductServiceImpl.java:151-155 | Exactly the products that are active and not deleted, unchanged |
| Products.ActiveProductsByTenant | src/main/java/com/sauda/sauda_app/service/impl/ProductServiceImpl.java:157-161 | Exactly the tenant's products that are active and not deleted |
| Products.SoftDeletedNeverListed | src/main/java/com/sauda/sauda_app/service/impl/ProductServiceImpl.java:151-161 | A deleted product is in neither active listing, whatever its active flag |
| Products.StoreKeepsUniqueCode | src/main/java/com/sauda/sauda_app/service/impl/ProductServiceImpl.java:36-44 | Storing a product whose code is its own or unused keeps that code unique |
| Products.StoreKeepsInvariant | src/main/java/com/sauda/sauda_app/service/impl/ProductServiceImpl.java:36-44 | A validated product with fresh barcode and SKU keeps the registry valid and unique |
| Products.ValidatedIsStored | src/main/java/com/sauda/sauda_app/service/impl/ProductServiceImpl.java:265-281 | A product with a validated name, barcode and SKU meets the stored-product invariant |
| Products.NoClashIsFresh | src/main/java/com/sauda/sauda_app/service/impl/ProductServiceImpl.java:81-91 | A code that passed the change check is its own or unused |
| Products.CreateKeepsInvariant | src/main/java/com/sauda/sauda_app/service/impl/ProductServiceImpl.java:36-54 | After validation and both existence checks, the created product keeps the registry valid and unique |
| Products.UpdateKeepsInvariant | src/main/java/com/sauda/sauda_app/service/impl/ProductServiceImpl.java:82-98 | An update that passed the change checks keeps barcodes and SKUs unique |
| Products.UpdateKeepsServiceState | src/main/java/com/sauda/sauda_app/service/impl/ProductServiceImpl.java:81-118 | An accepted update keeps the registry invariant and every id below the counter |
| Products.StatusKeepsInvariant | src/main/java/com/sauda/sauda_app/service/impl/ProductServiceImpl.java:187-223 | Changing only the flags keeps the registry valid and unique |
| Products.StoreKeepsIds | src/main/java/com/sauda/sauda_app/service/impl/ProductServiceImpl.java:32-71 | Storing under the next id, or over an existing one, keeps every id below the counter |
| Products.ProductService.constructor | src/main/java/com/sauda/sauda_app/service/impl/ProductServiceImpl.java:26-29 | An empty registry whose first id is 1 |
| Products.ProductService.CreateProduct | src/main/java/com/sauda/sauda_app/service/impl/ProductServiceImpl.java:32-71 | Validation error, then BarcodeExists, then SkuExists, registry unchanged; else stores the dto's fields as active and not deleted under a fresh id |
| Products.ProductService.UpdateProduct | src/main/java/com/sauda/sauda_app/service/impl/ProductServiceImpl.java:73-119 | Validation error, then NotFound, each with the registry unchanged; else the result is UpdateResult of the stored product, saved exactly when accepted; the registry invariant is kept |
| Products.ProductService.SetStatus | src/main/java/com/sauda/sauda_app/service/impl/ProductServiceImpl.java:187-223 | Writes only the two flags of one product; the registry invariant is kept |
| Products.ProductService.ActivateProduct | src/main/java/com/sauda/sauda_app/service/impl/ProductServiceImpl.java:187-194 | NotFound, else sets isActive and nothing else |
| Products.ProductService.DeactivateProduct | src/main/java/com/sauda/sauda_app/service/impl/ProductServiceImpl.java:196-203 | NotFound, else clears isActive and nothing else |
| Products.ProductService.SoftDeleteProduct | src/main/java/com/sauda/sauda_app/service/impl/ProductServiceImpl.java:205-213 | NotFound, else marks deleted and inactive |
| Products.ProductService.RestoreProduct | src/main/java/com/sauda/sauda_app/service/impl/ProductServiceImpl.java:215-223 | NotFound, else marks not deleted and active |
| Products.TestDtoValid | src/test/java/com/sauda/sauda_app/service/ProductServiceTest.java:31-49 | The tests' request (Test Product, 1234567890123, TEST-001) passes validation and becomes an active, undeleted product; so does its variant with barcode 1234567890124 |
| Products.CreationScenario | src/test/java/com/sauda/sauda_app/service/ProductServiceTest.java:52-73 | Creating the tests' request in an empty registry stores exactly that product under id 1 |
| Products.RejectionScenario | src/test/java/com/sauda/sauda_app/service/ProductServiceTest.java:105-116 | An empty name is refused with the name error and a missing request with the null error; the registry is unchanged |
| Products.BarcodeClashScenario | src/test/java/com/sauda/sauda_app/service/ProductServiceTest.java:75-87 | With the tests' product stored, the same request is refused with BarcodeExists and the registry is unchanged |
| Products.SkuClashScenario | src/test/java/com/sauda/sauda_app/service/ProductServiceTest.java:89-103 | With the tests' product stored, a new barcode with the same SKU is refused with SkuExists and the registry is unchanged |
| Products.ActivateScenario | src/test/java/com/sauda/sauda_app/service/ProductServiceTest.java:145-174 | Deactivating then activating the stored product gives it back unchanged; activating in an empty registry is NotFound |
| Security.RolesClaim | src/main/java/com/sauda/sauda_app/config/SecurityConfig.java:91-95 | Empty when the claim is absent, has no roles entry or a null one; otherwise the listed roles |
| Security.ExtractAuthorities | src/main/java/com/sauda/sauda_app/config/SecurityConfig.java:87-108 | The loop's result is Granted of the claim's roles |
| Security.GrantedAppend | src/main/java/com/sauda/sauda_app/config/SecurityConfig.java:96-103 | Order is kept: the roles of a + b grant what a grants followed by what b grants |
| Security.GrantedWithoutDefaults | src/main/java/com/sauda/sauda_app/config/SecurityConfig.java:96-103 | With no default role, one authority per role at the same position, duplicates kept |
| Security.GrantedLength | src/main/java/com/sauda/sauda_app/config/SecurityConfig.java:96-103 | The number of authorities is the number of roles less the number of default roles |
| Security.AuthorityOfInjective | src/main/java/com/sauda/sauda_app/config/SecurityConfig.java:101 | Different roles give different authorities |
| Security.GrantedMembership | src/main/java/com/sauda/sauda_app/config/SecurityConfig.java:96-103 | An authority is granted exactly when it is ROLE_ plus some non-default role of the claim |
| Security.DefaultRoleNeverGranted | src/main/java/com/sauda/sauda_app/config/SecurityConfig.java:98-100 | offline_access, uma_authorization and default-roles-sauda-realm never produce an authority |

## Left out

- Transactions and concurrency: each method runs alone, and a failed call leaves the state as it was, as a rollback would. Two concurrent transfers are not modelled.
- Timestamps: `lastUpdated` and the entities' creation and update times come from the clock and are not modelled.
- Paging: every query returns its whole result. `Pageable` sorting and slicing are left out, and so are the plain pass-through getters (by id, by tenant, by warehouse, by barcode, by SKU, by name).
- Inventory value queries (`getTotalInventoryValue`, `getTotalInventoryValueByTenant`): stubs that return zero, pending price-list integration.
- `getInventoryHistory`: a stub that returns current stock rows rather than history.
- Distinct-product counts and the other count queries: each is a single repository call with no logic in the service.
- The discount-card percentage of the customer statistics: a `double` division, left out because floating point is not modelled.
- Case-insensitive name searches of customers and products: Java case folding is not modelled.
- Controllers, the route authorization in `SecurityConfig.filterChain`, the principal claim name, and the test security configuration: framework wiring.
- Null ids, a null required quantity or threshold, a null discount card passed to assignment, and a null role inside the roles list: in the source each throws a NullPointerException or reaches the database with null. The model's parameters are never null there.
- A claim whose `roles` entry is not a list of strings (a ClassCastException in the source): the claim's values are typed as optional string lists.
- `createCustomer` with a caller-supplied id: JPA would merge it. The model always assigns the next id.
- `Long` overflow of counts and ids: integers are unbounded.
- Category and unit of a product are kept as their ids. The stub entities the service builds, and whether those ids exist, are not modelled.
- Inventory.TotalByProduct: no contract of its own. Its properties are the lemmas on it (append, rewrite, non-negativity, transfer).
- A tenant check on stock moves: `transferInventory` has none and `createInventory` uses tenant 1 (`InventoryServiceImpl.java:139`), so the model has none either. The two tenant lemmas above describe what follows.
- Inventory.InventoryService.TransferInventory: for a transfer into its own source, the source returns the one managed entity twice. The model returns the final record twice and leaves the table as it was. Object identity and aliasing of the two list entries are not modelled.
- Cascading deletes: `Customer` maps its sales with `cascade = ALL`, so `deleteCustomer` also deletes that customer's sales. Sales are not part of this model, and deleting a customer removes only the customer.
- `createdAt`: `Inventory` and `Product` declare it non-nullable, but the services never set it. The entity lifecycle hooks and the database constraint are not modelled, so the model does not say whether such a save would succeed.
