/** The product registry of ProductServiceImpl over an in-memory products table keyed by
    the generated product id: validation of the incoming ProductDto, barcode and SKU
    uniqueness, and the two status flags isActive and isDeleted. */
module Products {
  import opened Wrappers
  import opened Text

  /** The request body; every field may be null. The flags it carries are ignored. */
  datatype ProductDto = ProductDto(
    tenantId: Option<int>,
    name: Option<string>,
    barcode: Option<string>,
    sku: Option<string>,
    categoryId: Option<int>,
    unitId: Option<int>,
    description: Option<string>,
    isActive: Option<bool>,
    isDeleted: Option<bool>)

  /** A stored product. The category and unit are kept as the ids the service sets. */
  datatype Product = Product(
    tenantId: int,
    name: string,
    barcode: string,
    sku: string,
    categoryId: Option<int>,
    unitId: Option<int>,
    description: Option<string>,
    isActive: bool,
    isDeleted: bool)

  /** One constructor per IllegalArgumentException message the service throws. */
  datatype ProductError =
    | NullDto
    | TenantRequired
    | NameRequired
    | BarcodeRequired
    | SkuRequired
    | BarcodeExists(barcode: string)
    | SkuExists(sku: string)
    | NotFound(id: int)

  /** The two fields the registry keeps unique. */
  datatype CodeField = Barcode | Sku

  function CodeOf(p: Product, field: CodeField): string {
    match field
    case Barcode => p.barcode
    case Sku => p.sku
  }

  /** existsByBarcode / existsBySku: across all tenants. */
  predicate ExistsBy(products: map<int, Product>, field: CodeField, value: string) {
    exists id :: id in products && CodeOf(products[id], field) == value
  }

  /** The update-time check: a new value is refused only when it differs from the stored
      one and some product already holds it. */
  predicate ClashesOnChange(products: map<int, Product>, existing: Product, value: string, field: CodeField) {
    CodeOf(existing, field) != value && ExistsBy(products, field, value)
  }

  ghost predicate UniqueCode(products: map<int, Product>, field: CodeField) {
    forall a, b :: a in products && b in products && a != b ==> CodeOf(products[a], field) != CodeOf(products[b], field)
  }

  /** What every stored product satisfies: its name, barcode and SKU passed validation. */
  ghost predicate Stored(p: Product) {
    !IsBlank(p.name) && !IsBlank(p.barcode) && !IsBlank(p.sku)
  }

  ghost predicate RegistryInvariant(products: map<int, Product>) {
    && (forall id :: id in products ==> Stored(products[id]))
    && UniqueCode(products, Barcode)
    && UniqueCode(products, Sku)
  }

  // ---------------------------------------------------------------------------
  // Checks and queries
  // ---------------------------------------------------------------------------

  /** validateProductDto: null dto, null tenant, then blank name, barcode and SKU, in
      that order; the first failure wins. */
  function ValidateProductDto(dto: Option<ProductDto>): (r: Outcome<ProductError>)
    ensures r == Pass <==>
      && dto.Some? && dto.value.tenantId.Some?
      && !IsMissing(dto.value.name) && !IsMissing(dto.value.barcode) && !IsMissing(dto.value.sku)
    ensures dto.None? ==> r == Fail(NullDto)
    ensures dto.Some? && dto.value.tenantId.None? ==> r == Fail(TenantRequired)
    ensures dto.Some? && dto.value.tenantId.Some? && IsMissing(dto.value.name) ==> r == Fail(NameRequired)
    ensures dto.Some? && dto.value.tenantId.Some? && !IsMissing(dto.value.name) && IsMissing(dto.value.barcode) ==>
      r == Fail(BarcodeRequired)
    ensures (dto.Some? && dto.value.tenantId.Some? && !IsMissing(dto.value.name) &&
             !IsMissing(dto.value.barcode) && IsMissing(dto.value.sku)) ==> r == Fail(SkuRequired)
  {
    if dto.None? then Fail(NullDto)
    else if dto.value.tenantId.None? then Fail(TenantRequired)
    else if IsMissing(dto.value.name) then Fail(NameRequired)
    else if IsMissing(dto.value.barcode) then Fail(BarcodeRequired)
    else if IsMissing(dto.value.sku) then Fail(SkuRequired)
    else Pass
  }

  /** A name made only of spaces and control characters fails as an empty one does. */
  lemma WhitespaceNameRejected(dto: ProductDto, name: string)
    requires dto.tenantId.Some? && dto.name == Some(name)
    requires forall i :: 0 <= i < |name| ==> IsTrimmable(name[i])
    ensures ValidateProductDto(Some(dto)) == Fail(NameRequired)
  {
    BlankIffAllTrimmable(name);
  }

  /** What createProduct saves: the dto's fields, active and not deleted. */
  function NewProduct(dto: ProductDto): Product
    requires ValidateProductDto(Some(dto)) == Pass
  {
    Product(dto.tenantId.value, dto.name.value, dto.barcode.value, dto.sku.value,
            dto.categoryId, dto.unitId, dto.description, true, false)
  }

  /** The outcome of updateProduct for a validated dto and a stored product: a changed
      barcode, then a changed SKU, is refused when already held; otherwise name, codes and
      description come from the dto, category and unit are set when given and cleared when
      absent, and tenant and flags stay as stored. */
  function UpdateResult(products: map<int, Product>, id: int, dto: ProductDto): (r: Result<Product, ProductError>)
    requires id in products && ValidateProductDto(Some(dto)) == Pass
    ensures r.Ok? <==>
      !ClashesOnChange(products, products[id], dto.barcode.value, Barcode) &&
      !ClashesOnChange(products, products[id], dto.sku.value, Sku)
    ensures ClashesOnChange(products, products[id], dto.barcode.value, Barcode) ==>
      r == Err(BarcodeExists(dto.barcode.value))
    ensures (!ClashesOnChange(products, products[id], dto.barcode.value, Barcode) &&
             ClashesOnChange(products, products[id], dto.sku.value, Sku)) ==> r == Err(SkuExists(dto.sku.value))
    ensures r.Ok? ==>
      && r.value.name == dto.name.value && r.value.barcode == dto.barcode.value && r.value.sku == dto.sku.value
      && r.value.description == dto.description
      && r.value.categoryId == dto.categoryId && r.value.unitId == dto.unitId
      && r.value.tenantId == products[id].tenantId
      && r.value.isActive == products[id].isActive && r.value.isDeleted == products[id].isDeleted
  {
    var existing := products[id];
    if ClashesOnChange(products, existing, dto.barcode.value, Barcode) then Err(BarcodeExists(dto.barcode.value))
    else if ClashesOnChange(products, existing, dto.sku.value, Sku) then Err(SkuExists(dto.sku.value))
    else
      Ok(existing.(name := dto.name.value, barcode := dto.barcode.value, sku := dto.sku.value,
                   description := dto.description, categoryId := dto.categoryId, unitId := dto.unitId))
  }

  /** The products the "active" queries list. */
  predicate IsListed(p: Product) {
    p.isActive && !p.isDeleted
  }

  /** findByIsActiveTrueAndIsDeletedFalse, as one whole result (no paging). */
  function ActiveProducts(products: map<int, Product>): (r: map<int, Product>)
    ensures forall id :: id in r <==> id in products && products[id].isActive && !products[id].isDeleted
    ensures forall id :: id in r ==> r[id] == products[id]
  {
    map id | id in products && IsListed(products[id]) :: products[id]
  }

  /** findByTenantIdAndIsActiveTrueAndIsDeletedFalse */
  function ActiveProductsByTenant(products: map<int, Product>, tenantId: int): (r: map<int, Product>)
    ensures forall id :: id in r <==>
      id in products && products[id].tenantId == tenantId && products[id].isActive && !products[id].isDeleted
    ensures forall id :: id in r ==> r[id] == products[id]
  {
    map id | id in products && products[id].tenantId == tenantId && IsListed(products[id]) :: products[id]
  }

  /** A soft-deleted product is listed by neither query, whatever its isActive flag. */
  lemma SoftDeletedNeverListed(products: map<int, Product>, id: int, tenantId: int)
    requires id in products && products[id].isDeleted
    ensures id !in ActiveProducts(products) && id !in ActiveProductsByTenant(products, tenantId)
  {
  }

  // ---------------------------------------------------------------------------
  // The registry invariant across writes
  // ---------------------------------------------------------------------------

  /** Storing p at id keeps the field unique when p's value is what id held or is held by
      nobody. */
  ghost predicate FreshAt(products: map<int, Product>, id: int, p: Product, field: CodeField) {
    || (id in products && CodeOf(p, field) == CodeOf(products[id], field))
    || !ExistsBy(products, field, CodeOf(p, field))
  }

  lemma {:induction false} StoreKeepsUniqueCode(products: map<int, Product>, id: int, p: Product, field: CodeField)
    requires UniqueCode(products, field)
    requires FreshAt(products, id, p, field)
    ensures UniqueCode(products[id := p], field)
  {
    var m := products[id := p];
    forall a, b | a in m && b in m && a != b
      ensures CodeOf(m[a], field) != CodeOf(m[b], field)
    {
      if a == id || b == id {
        var other := if a == id then b else a;
        assert other in products && m[other] == products[other];
        if CodeOf(p, field) == CodeOf(products[other], field) {
          assert ExistsBy(products, field, CodeOf(p, field));
        }
      } else {
        assert m[a] == products[a] && m[b] == products[b];
      }
    }
  }

  /** Every write the service makes keeps stored products validated and their codes unique. */
  lemma StoreKeepsInvariant(products: map<int, Product>, id: int, p: Product)
    requires RegistryInvariant(products) && Stored(p)
    requires FreshAt(products, id, p, Barcode) && FreshAt(products, id, p, Sku)
    ensures RegistryInvariant(products[id := p])
  {
    StoreKeepsUniqueCode(products, id, p, Barcode);
    StoreKeepsUniqueCode(products, id, p, Sku);
  }

  /** A product whose name and codes come from a validated dto is fit to store. */
  lemma ValidatedIsStored(dto: ProductDto, p: Product)
    requires ValidateProductDto(Some(dto)) == Pass
    requires p.name == dto.name.value && p.barcode == dto.barcode.value && p.sku == dto.sku.value
    ensures Stored(p)
  {
  }

  /** A value that passed the update-time check is fresh at the updated id. */
  lemma NoClashIsFresh(products: map<int, Product>, id: int, p: Product, field: CodeField)
    requires id in products && !ClashesOnChange(products, products[id], CodeOf(p, field), field)
    ensures FreshAt(products, id, p, field)
  {
  }

  /** A creation that passed validation and both existence checks keeps the invariant. */
  lemma CreateKeepsInvariant(products: map<int, Product>, id: int, dto: ProductDto)
    requires RegistryInvariant(products)
    requires ValidateProductDto(Some(dto)) == Pass
    requires !ExistsBy(products, Barcode, dto.barcode.value) && !ExistsBy(products, Sku, dto.sku.value)
    ensures RegistryInvariant(products[id := NewProduct(dto)])
  {
    var p := NewProduct(dto);
    ValidatedIsStored(dto, p);
    assert FreshAt(products, id, p, Barcode) && FreshAt(products, id, p, Sku);
    StoreKeepsInvariant(products, id, p);
  }

  /** An update that passed validation and the two change checks keeps the invariant. */
  lemma UpdateKeepsInvariant(products: map<int, Product>, id: int, dto: ProductDto)
    requires RegistryInvariant(products) && id in products
    requires ValidateProductDto(Some(dto)) == Pass
    requires !ClashesOnChange(products, products[id], dto.barcode.value, Barcode)
    requires !ClashesOnChange(products, products[id], dto.sku.value, Sku)
    ensures RegistryInvariant(products[id := UpdateResult(products, id, dto).value])
  {
    var saved := UpdateResult(products, id, dto).value;
    ValidatedIsStored(dto, saved);
    NoClashIsFresh(products, id, saved, Barcode);
    NoClashIsFresh(products, id, saved, Sku);
    StoreKeepsInvariant(products, id, saved);
  }

  /** Flipping the two flags keeps every code, so the invariant survives it. */
  lemma StatusKeepsInvariant(products: map<int, Product>, id: int, isActive: bool, isDeleted: bool)
    requires RegistryInvariant(products) && id in products
    ensures RegistryInvariant(products[id := products[id].(isActive := isActive, isDeleted := isDeleted)])
  {
    var saved := products[id].(isActive := isActive, isDeleted := isDeleted);
    assert CodeOf(saved, Barcode) == CodeOf(products[id], Barcode);
    assert CodeOf(saved, Sku) == CodeOf(products[id], Sku);
    StoreKeepsInvariant(products, id, saved);
  }

  /** Every id in use lies below the next one the counter hands out. */
  ghost predicate IdsBelow(products: map<int, Product>, nextId: int) {
    forall id :: id in products ==> 1 <= id < nextId
  }

  lemma StoreKeepsIds(products: map<int, Product>, nextId: int, id: int, p: Product)
    requires IdsBelow(products, nextId) && 1 <= id <= nextId
    ensures IdsBelow(products[id := p], nextId + 1)
    ensures id < nextId ==> IdsBelow(products[id := p], nextId)
  {
  }

  /** The state the service keeps between calls: the counter is past every id in use and
      the registry invariant holds. */
  ghost predicate ServiceState(products: map<int, Product>, nextId: int) {
    && 1 <= nextId
    && IdsBelow(products, nextId)
    && RegistryInvariant(products)
  }

  /** An accepted update keeps the service state. */
  lemma UpdateKeepsServiceState(products: map<int, Product>, nextId: int, id: int, dto: ProductDto)
    requires ServiceState(products, nextId) && id in products
    requires ValidateProductDto(Some(dto)) == Pass && UpdateResult(products, id, dto).Ok?
    ensures ServiceState(products[id := UpdateResult(products, id, dto).value], nextId)
  {
    UpdateKeepsInvariant(products, id, dto);
    StoreKeepsIds(products, nextId, id, UpdateResult(products, id, dto).value);
  }

  // ---------------------------------------------------------------------------
  // The service
  // ---------------------------------------------------------------------------

  /** ProductServiceImpl over an in-memory products table; ids come from an identity counter. */
  class ProductService {
    var products: map<int, Product>
    var nextId: int

    ghost predicate Valid()
      reads this
    {
      ServiceState(products, nextId)
    }

    constructor ()
      ensures Valid() && products == map[] && nextId == 1
    {
      products := map[];
      nextId := 1;
    }

    /** createProduct: barcode, then SKU must be unused; returns the new product's id. */
    method CreateProduct(dto: Option<ProductDto>) returns (r: Result<int, ProductError>)
      requires Valid()
      modifies this
      ensures Valid()
      ensures r.Err? ==> products == old(products) && nextId == old(nextId)
      ensures ValidateProductDto(dto).Fail? ==> r == Err(ValidateProductDto(dto).error)
      ensures ValidateProductDto(dto) == Pass ==>
        var d := dto.value;
        if ExistsBy(old(products), Barcode, d.barcode.value) then r == Err(BarcodeExists(d.barcode.value))
        else if ExistsBy(old(products), Sku, d.sku.value) then r == Err(SkuExists(d.sku.value))
        else
          && r == Ok(old(nextId))
          && old(nextId) !in old(products)
          && products == old(products)[old(nextId) := NewProduct(d)]
          && products[r.value].isActive && !products[r.value].isDeleted
          && nextId == old(nextId) + 1
    {
      var v := ValidateProductDto(dto);
      if v.Fail? {
        return Err(v.error);
      }
      var d := dto.value;
      if ExistsBy(products, Barcode, d.barcode.value) {
        return Err(BarcodeExists(d.barcode.value));
      }
      if ExistsBy(products, Sku, d.sku.value) {
        return Err(SkuExists(d.sku.value));
      }
      var product := NewProduct(d);
      CreateKeepsInvariant(products, nextId, d);
      StoreKeepsIds(products, nextId, nextId, product);
      products := products[nextId := product];
      r := Ok(nextId);
      nextId := nextId + 1;
    }

    /** updateProduct: a code is checked for uniqueness only when it differs from the
        stored one. */
    method UpdateProduct(id: int, dto: Option<ProductDto>) returns (r: Result<Product, ProductError>)
      requires Valid()
      modifies this
      ensures Valid() && nextId == old(nextId)
      ensures r.Err? ==> products == old(products)
      ensures ValidateProductDto(dto).Fail? ==> r == Err(ValidateProductDto(dto).error)
      ensures ValidateProductDto(dto) == Pass && id !in old(products) ==> r == Err(NotFound(id))
      ensures ValidateProductDto(dto) == Pass && id in old(products) ==>
        && r == UpdateResult(old(products), id, dto.value)
        && (r.Ok? ==> products == old(products)[id := r.value])
    {
      var v := ValidateProductDto(dto);
      if v.Fail? {
        return Err(v.error);
      }
      if id !in products {
        return Err(NotFound(id));
      }
      r := UpdateResult(products, id, dto.value);
      if r.Ok? {
        UpdateKeepsServiceState(products, nextId, id, dto.value);
        products := products[id := r.value];
      }
    }

    /** Writes the two flags of a stored product; the codes stay, so the invariant holds. */
    method SetStatus(id: int, isActive: bool, isDeleted: bool) returns (saved: Product)
      requires Valid() && id in products
      modifies this
      ensures Valid() && nextId == old(nextId)
      ensures saved == old(products)[id].(isActive := isActive, isDeleted := isDeleted)
      ensures products == old(products)[id := saved]
    {
      saved := products[id].(isActive := isActive, isDeleted := isDeleted);
      StatusKeepsInvariant(products, id, isActive, isDeleted);
      StoreKeepsIds(products, nextId, id, saved);
      products := products[id := saved];
    }

    /** activateProduct: sets isActive only; idempotent. */
    method ActivateProduct(id: int) returns (r: Result<Product, ProductError>)
      requires Valid()
      modifies this
      ensures Valid() && nextId == old(nextId)
      ensures id !in old(products) ==> r == Err(NotFound(id)) && products == old(products)
      ensures id in old(products) ==>
        && products == old(products)[id := old(products)[id].(isActive := true)]
        && r == Ok(products[id])
    {
      if id !in products {
        return Err(NotFound(id));
      }
      var saved := SetStatus(id, true, products[id].isDeleted);
      r := Ok(saved);
    }

    /** deactivateProduct: clears isActive only; idempotent. */
    method DeactivateProduct(id: int) returns (r: Result<Product, ProductError>)
      requires Valid()
      modifies this
      ensures Valid() && nextId == old(nextId)
      ensures id !in old(products) ==> r == Err(NotFound(id)) && products == old(products)
      ensures id in old(products) ==>
        && products == old(products)[id := old(products)[id].(isActive := false)]
        && r == Ok(products[id])
    {
      if id !in products {
        return Err(NotFound(id));
      }
      var saved := SetStatus(id, false, products[id].isDeleted);
      r := Ok(saved);
    }

    /** softDeleteProduct: marks deleted and inactive. */
    method SoftDeleteProduct(id: int) returns (r: Outcome<ProductError>)
      requires Valid()
      modifies this
      ensures Valid() && nextId == old(nextId)
      ensures id !in old(products) ==> r == Fail(NotFound(id)) && products == old(products)
      ensures id in old(products) ==>
        && r == Pass
        && products == old(products)[id := old(products)[id].(isActive := false, isDeleted := true)]
    {
      if id !in products {
        return Fail(NotFound(id));
      }
      var _ := SetStatus(id, false, true);
      r := Pass;
    }

    /** restoreProduct: marks not deleted and active. */
    method RestoreProduct(id: int) returns (r: Result<Product, ProductError>)
      requires Valid()
      modifies this
      ensures Valid() && nextId == old(nextId)
      ensures id !in old(products) ==> r == Err(NotFound(id)) && products == old(products)
      ensures id in old(products) ==>
        && products == old(products)[id := old(products)[id].(isActive := true, isDeleted := false)]
        && r == Ok(products[id])
    {
      if id !in products {
        return Err(NotFound(id));
      }
      var saved := SetStatus(id, true, false);
      r := Ok(saved);
    }
  }

  /** The tests' request: tenant 1, "Test Product", barcode 1234567890123, SKU TEST-001,
      a description, no category, unit or flags. */
  function TestDto(): ProductDto {
    ProductDto(Some(1), Some("Test Product"), Some("1234567890123"), Some("TEST-001"), None, None,
               Some("Test Description"), None, None)
  }

  /** The product the tests expect creation to store: active and not deleted. */
  function TestProduct(): Product {
    Product(1, "Test Product", "1234567890123", "TEST-001", None, None, Some("Test Description"), true, false)
  }

  /** The tests' request validates and is stored as TestProduct; so does the request with
      another barcode that the SKU test stands for. */
  lemma TestDtoValid()
    ensures ValidateProductDto(Some(TestDto())) == Pass && NewProduct(TestDto()) == TestProduct()
    ensures ValidateProductDto(Some(TestDto().(barcode := Some("1234567890124")))) == Pass
  {
    PrintableStartNotBlank("Test Product");
    PrintableStartNotBlank("1234567890123");
    PrintableStartNotBlank("TEST-001");
    PrintableStartNotBlank("1234567890124");
  }

  /** An empty name is refused with the name error, and a missing request is refused;
      neither stores anything. */
  method RejectionScenario(service: ProductService)
    requires service.Valid()
    modifies service
    ensures service.products == old(service.products)
  {
    var emptyName := service.CreateProduct(Some(TestDto().(name := Some(""))));
    assert emptyName == Err(NameRequired);
    var noDto := service.CreateProduct(None);
    assert noDto == Err(NullDto);
  }

  /** Creating the tests' product stores it under id 1 with its name and codes, active and
      not deleted; it is then listed. */
  method CreationScenario() returns (service: ProductService)
    ensures fresh(service) && service.Valid() && service.products == map[1 := TestProduct()]
  {
    TestDtoValid();
    service := new ProductService();
    var created := service.CreateProduct(Some(TestDto()));
    assert created == Ok(1);
    assert 1 in ActiveProducts(service.products) && 1 in ActiveProductsByTenant(service.products, 1);
  }

  /** With the tests' product stored, the same request is refused on the barcode. */
  method BarcodeClashScenario(service: ProductService)
    requires service.Valid() && service.products == map[1 := TestProduct()]
    modifies service
    ensures service.products == old(service.products)
  {
    TestDtoValid();
    SampleCodesHeld(service.products);
    var sameBarcode := service.CreateProduct(Some(TestDto()));
    assert sameBarcode == Err(BarcodeExists("1234567890123"));
  }

  /** With the tests' product stored, a request with an unused barcode but the same SKU is
      refused on the SKU. */
  method SkuClashScenario(service: ProductService)
    requires service.Valid() && service.products == map[1 := TestProduct()]
    modifies service
    ensures service.products == old(service.products)
  {
    TestDtoValid();
    NewBarcodeUnused(service.products);
    SampleCodesHeld(service.products);
    var sameSku := service.CreateProduct(Some(TestDto().(barcode := Some("1234567890124"))));
    assert sameSku == Err(SkuExists("TEST-001"));
  }

  /** The registry holding only the tests' product holds its barcode and its SKU ... */
  lemma SampleCodesHeld(products: map<int, Product>)
    requires products == map[1 := TestProduct()]
    ensures ExistsBy(products, Barcode, "1234567890123") && ExistsBy(products, Sku, "TEST-001")
  {
    assert CodeOf(products[1], Barcode) == "1234567890123" && CodeOf(products[1], Sku) == "TEST-001";
  }

  /** ... and no other barcode. */
  lemma NewBarcodeUnused(products: map<int, Product>)
    requires products == map[1 := TestProduct()]
    ensures !ExistsBy(products, Barcode, "1234567890124")
  {
    forall id | id in products ensures CodeOf(products[id], Barcode) == "1234567890123" {
      assert id == 1;
    }
  }

  /** Activating an inactive product sets its flag; activating in an empty registry fails. */
  method ActivateScenario(service: ProductService)
    requires service.Valid() && service.products == map[1 := TestProduct()]
    modifies service
    ensures service.products == map[1 := TestProduct()]
  {
    var off := service.DeactivateProduct(1);
    assert off.Ok? && !off.value.isActive;
    var on := service.ActivateProduct(1);
    assert on == Ok(TestProduct());
    var empty := new ProductService();
    var missing := empty.ActivateProduct(1);
    assert missing == Err(NotFound(1));
  }

  /** The status scenarios: soft delete hides a product from the active listing, activating
      it alone does not bring it back, and restoring does. */
  method StatusScenario(service: ProductService, id: int)
    requires service.Valid() && id in service.products
    modifies service
  {
    var before := service.products[id];
    var deleted := service.SoftDeleteProduct(id);
    assert deleted == Pass && id !in ActiveProducts(service.products);
    var activated := service.ActivateProduct(id);
    assert activated.Ok? && activated.value.isActive && activated.value.isDeleted;
    assert id !in ActiveProducts(service.products);
    var restored := service.RestoreProduct(id);
    assert restored.Ok? && id in ActiveProducts(service.products);
    assert restored.value == before.(isActive := true, isDeleted := false);
    var again := service.RestoreProduct(id);
    assert again == restored;
  }
}
