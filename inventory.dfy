/** The stock ledger of InventoryServiceImpl: one stock record per (product, warehouse)
    pair, kept in the inventory table that InventoryRepository reads and writes. */
module Inventory {
  import opened Wrappers

  /** The tenant that createInventory stamps on every record it creates. */
  const DefaultTenant: int := 1

  /** A row of the inventory table. Quantities are BigDecimal in the service; every
      operation on them (add, subtract, compareTo) is exact, as it is on reals. */
  datatype StockRecord = StockRecord(tenantId: int, productId: int, warehouseId: int, quantity: real)

  /** One constructor per IllegalArgumentException message the service throws. */
  datatype InventoryError =
    | NullQuantity                                       // the quantity is null
    | NegativeQuantity                                   // the quantity is below zero
    | AlreadyExists                                      // createInventory over an existing pair
    | NotInWarehouse                                     // decreaseInventory on an absent pair
    | InsufficientStock(available: real, required: real) // decreaseInventory below zero
    | InsufficientAtSource                               // transferInventory from a short source
    | RecordNotFound                                     // deleteInventory on an absent pair

  predicate KeyIs(r: StockRecord, productId: int, warehouseId: int) {
    r.productId == productId && r.warehouseId == warehouseId
  }

  /** No stored quantity is negative. */
  ghost predicate NonNegative(rows: seq<StockRecord>) {
    forall i :: 0 <= i < |rows| ==> rows[i].quantity >= 0.0
  }

  /** At most one row per (productId, warehouseId); the tenant is not part of the key. */
  ghost predicate UniqueKeys(rows: seq<StockRecord>) {
    forall i, j :: 0 <= i < j < |rows| ==> !KeyIs(rows[j], rows[i].productId, rows[i].warehouseId)
  }

  ghost predicate LedgerInvariant(rows: seq<StockRecord>) {
    NonNegative(rows) && UniqueKeys(rows)
  }

  // ---------------------------------------------------------------------------
  // The repository queries the service uses
  // ---------------------------------------------------------------------------

  /** Position of the first row for the pair, if any. */
  function FindIndex(rows: seq<StockRecord>, productId: int, warehouseId: int): (r: Option<nat>)
    ensures r.Some? ==> r.value < |rows| && KeyIs(rows[r.value], productId, warehouseId)
    ensures r.Some? ==> forall j :: 0 <= j < r.value ==> !KeyIs(rows[j], productId, warehouseId)
    ensures r.None? ==> forall j :: 0 <= j < |rows| ==> !KeyIs(rows[j], productId, warehouseId)
  {
    if |rows| == 0 then None
    else if KeyIs(rows[0], productId, warehouseId) then Some(0)
    else match FindIndex(rows[1..], productId, warehouseId)
      case None => None
      case Some(j) => Some(j + 1)
  }

  /** findByProductIdAndWarehouseId: the row for the pair, whatever its tenant. */
  function Lookup(rows: seq<StockRecord>, productId: int, warehouseId: int): (r: Option<StockRecord>)
    ensures r.Some? ==> r.value in rows && KeyIs(r.value, productId, warehouseId)
    ensures r.None? <==> forall x :: x in rows ==> !KeyIs(x, productId, warehouseId)
    ensures UniqueKeys(rows) ==> forall x :: x in rows && KeyIs(x, productId, warehouseId) ==> r == Some(x)
  {
    match FindIndex(rows, productId, warehouseId)
    case None => None
    case Some(i) => Some(rows[i])
  }

  /** The quantity a pair holds, counting an absent pair as holding nothing. */
  function QuantityOf(rows: seq<StockRecord>, productId: int, warehouseId: int): real {
    match Lookup(rows, productId, warehouseId)
    case None => 0.0
    case Some(x) => x.quantity
  }

  /** The tenant a write to the pair lands in: the stored record's, or DefaultTenant for
      a record created by the write. */
  function TenantOf(rows: seq<StockRecord>, productId: int, warehouseId: int): int {
    match Lookup(rows, productId, warehouseId)
    case None => DefaultTenant
    case Some(x) => x.tenantId
  }

  // ---------------------------------------------------------------------------
  // Pure checks and read-only queries of the service
  // ---------------------------------------------------------------------------

  /** validateQuantity: null first, then negative; zero is accepted. */
  function ValidateQuantity(quantity: Option<real>): (r: Result<real, InventoryError>)
    ensures r.Ok? <==> quantity.Some? && quantity.value >= 0.0
    ensures r.Ok? ==> r.value == quantity.value
    ensures quantity.None? ==> r == Err(NullQuantity)
    ensures quantity.Some? && quantity.value < 0.0 ==> r == Err(NegativeQuantity)
  {
    match quantity
    case None => Err(NullQuantity)
    case Some(q) => if q < 0.0 then Err(NegativeQuantity) else Ok(q)
  }

  /** checkInventoryAvailability: false for an absent pair, otherwise quantity >= required. */
  function CheckAvailability(rows: seq<StockRecord>, productId: int, warehouseId: int, required: real): (r: bool)
    ensures Lookup(rows, productId, warehouseId).None? ==> !r
    ensures r ==> exists x :: x in rows && KeyIs(x, productId, warehouseId) && x.quantity >= required
    ensures UniqueKeys(rows) ==>
      (r <==> exists x :: x in rows && KeyIs(x, productId, warehouseId) && x.quantity >= required)
  {
    match Lookup(rows, productId, warehouseId)
    case None => false
    case Some(x) => x.quantity >= required
  }

  predicate CountsToward(r: StockRecord, tenantId: int, productId: int) {
    r.tenantId == tenantId && r.productId == productId
  }

  /** getTotalInventoryByProduct: findByTenantIdAndProductId folded with add from ZERO,
      left to right. */
  function TotalByProduct(rows: seq<StockRecord>, tenantId: int, productId: int): real
    decreases |rows|
  {
    if |rows| == 0 then 0.0
    else
      var last := rows[|rows| - 1];
      TotalByProduct(rows[..|rows| - 1], tenantId, productId)
        + (if CountsToward(last, tenantId, productId) then last.quantity else 0.0)
  }

  /** The quantity comparisons of the zero, low and high stock queries. */
  datatype QuantityFilter = EqualTo(bound: real) | LessThan(bound: real) | GreaterThan(bound: real) {
    predicate Admits(q: real) {
      match this
      case EqualTo(b) => q == b
      case LessThan(b) => q < b
      case GreaterThan(b) => q > b
    }
  }

  /** findByTenantIdAndQuantity[LessThan|GreaterThan], as one whole result (no paging). */
  function SelectByTenant(rows: seq<StockRecord>, tenantId: int, filter: QuantityFilter): (r: seq<StockRecord>)
    ensures |r| <= |rows|
    ensures forall x :: x in r <==> x in rows && x.tenantId == tenantId && filter.Admits(x.quantity)
  {
    if |rows| == 0 then []
    else
      var rest := SelectByTenant(rows[1..], tenantId, filter);
      assert forall x :: x in rows <==> x == rows[0] || x in rows[1..];
      if rows[0].tenantId == tenantId && filter.Admits(rows[0].quantity) then [rows[0]] + rest else rest
  }

  /** getZeroInventoryProducts */
  function ZeroInventory(rows: seq<StockRecord>, tenantId: int): (r: seq<StockRecord>)
    ensures forall x :: x in r <==> x in rows && x.tenantId == tenantId && x.quantity == 0.0
  {
    SelectByTenant(rows, tenantId, EqualTo(0.0))
  }

  /** getLowInventoryProducts: strictly below the threshold. */
  function LowInventory(rows: seq<StockRecord>, tenantId: int, threshold: real): (r: seq<StockRecord>)
    ensures forall x :: x in r <==> x in rows && x.tenantId == tenantId && x.quantity < threshold
  {
    SelectByTenant(rows, tenantId, LessThan(threshold))
  }

  /** getHighInventoryProducts: strictly above the threshold. */
  function HighInventory(rows: seq<StockRecord>, tenantId: int, threshold: real): (r: seq<StockRecord>)
    ensures forall x :: x in r <==> x in rows && x.tenantId == tenantId && x.quantity > threshold
  {
    SelectByTenant(rows, tenantId, GreaterThan(threshold))
  }

  // ---------------------------------------------------------------------------
  // The table after each successful write
  // ---------------------------------------------------------------------------

  function WithQuantity(rows: seq<StockRecord>, i: nat, quantity: real): seq<StockRecord>
    requires i < |rows|
  {
    rows[i := rows[i].(quantity := quantity)]
  }

  /** The record createInventory builds. */
  function NewRecord(productId: int, warehouseId: int, quantity: real): StockRecord {
    StockRecord(DefaultTenant, productId, warehouseId, quantity)
  }

  /** After increaseInventory: the pair's quantity grows by delta, or a record is created. */
  function Increased(rows: seq<StockRecord>, productId: int, warehouseId: int, delta: real): seq<StockRecord> {
    match FindIndex(rows, productId, warehouseId)
    case Some(i) => WithQuantity(rows, i, rows[i].quantity + delta)
    case None => rows + [NewRecord(productId, warehouseId, delta)]
  }

  /** After updateInventory: the pair's quantity is overwritten, or a record is created. */
  function Assigned(rows: seq<StockRecord>, productId: int, warehouseId: int, quantity: real): seq<StockRecord> {
    match FindIndex(rows, productId, warehouseId)
    case Some(i) => WithQuantity(rows, i, quantity)
    case None => rows + [NewRecord(productId, warehouseId, quantity)]
  }

  /** After decreaseInventory on a present pair. */
  function Decreased(rows: seq<StockRecord>, productId: int, warehouseId: int, delta: real): seq<StockRecord>
    requires FindIndex(rows, productId, warehouseId).Some?
  {
    var i := FindIndex(rows, productId, warehouseId).value;
    WithQuantity(rows, i, rows[i].quantity - delta)
  }

  /** After transferInventory: decrease at the source, then increase at the destination. */
  function Transferred(rows: seq<StockRecord>, productId: int, fromWarehouse: int, toWarehouse: int, quantity: real): seq<StockRecord>
    requires FindIndex(rows, productId, fromWarehouse).Some?
  {
    Increased(Decreased(rows, productId, fromWarehouse, quantity), productId, toWarehouse, quantity)
  }

  // ---------------------------------------------------------------------------
  // Lemmas about the table
  // ---------------------------------------------------------------------------

  /** Changing one quantity keeps every key, so every lookup finds the same position. */
  lemma FindIndexAfterQuantityChange(rows: seq<StockRecord>, i: nat, q: real, productId: int, warehouseId: int)
    requires i < |rows|
    ensures FindIndex(WithQuantity(rows, i, q), productId, warehouseId) == FindIndex(rows, productId, warehouseId)
  {
    var rows' := WithQuantity(rows, i, q);
    assert forall k :: 0 <= k < |rows| ==> KeyIs(rows'[k], productId, warehouseId) == KeyIs(rows[k], productId, warehouseId);
    var a, b := FindIndex(rows', productId, warehouseId), FindIndex(rows, productId, warehouseId);
    if a.Some? && b.Some? {
      assert !(a.value < b.value) && !(b.value < a.value);
    }
  }

  /** A decrease at one pair moves no pair to another tenant. */
  lemma TenantAfterDecrease(rows: seq<StockRecord>, productId: int, fromWarehouse: int, delta: real, warehouseId: int)
    requires FindIndex(rows, productId, fromWarehouse).Some?
    ensures TenantOf(Decreased(rows, productId, fromWarehouse, delta), productId, warehouseId) ==
      TenantOf(rows, productId, warehouseId)
  {
    var rows' := Decreased(rows, productId, fromWarehouse, delta);
    var i := FindIndex(rows, productId, fromWarehouse).value;
    assert rows' == rows[i := rows[i].(quantity := rows[i].quantity - delta)];
    SameKeysAndTenants(rows', rows, productId, warehouseId);
  }

  /** Two ledgers that agree row by row on keys and tenants agree on every pair's tenant. */
  lemma SameKeysAndTenants(a: seq<StockRecord>, b: seq<StockRecord>, productId: int, warehouseId: int)
    requires |a| == |b|
    requires forall k :: 0 <= k < |a| ==>
      a[k].productId == b[k].productId && a[k].warehouseId == b[k].warehouseId && a[k].tenantId == b[k].tenantId
    ensures TenantOf(a, productId, warehouseId) == TenantOf(b, productId, warehouseId)
  {
    var x, y := FindIndex(a, productId, warehouseId), FindIndex(b, productId, warehouseId);
    if x.Some? && y.Some? {
      assert !(x.value < y.value) && !(y.value < x.value);
    }
  }

  /** Overwriting the quantity of the row the lookup finds keeps it the row found, now with
      the new quantity, and leaves every other row alone. */
  lemma LookupAfterQuantityChange(rows: seq<StockRecord>, i: nat, q: real, productId: int, warehouseId: int)
    requires FindIndex(rows, productId, warehouseId) == Some(i)
    ensures var rows' := WithQuantity(rows, i, q);
      && |rows'| == |rows|
      && Lookup(rows', productId, warehouseId) == Some(rows[i].(quantity := q))
      && forall k :: 0 <= k < |rows| && k != i ==> rows'[k] == rows[k]
  {
    FindIndexAfterQuantityChange(rows, i, q, productId, warehouseId);
    var rows' := WithQuantity(rows, i, q);
    assert FindIndex(rows', productId, warehouseId) == Some(i);
    assert rows'[i] == rows[i].(quantity := q);
  }

  /** Appending a row for an absent pair makes it the one the lookup finds, and leaves
      every other lookup alone. */
  lemma FindIndexAfterAppend(rows: seq<StockRecord>, x: StockRecord, productId: int, warehouseId: int)
    ensures FindIndex(rows + [x], productId, warehouseId) ==
      if FindIndex(rows, productId, warehouseId).Some? then FindIndex(rows, productId, warehouseId)
      else if KeyIs(x, productId, warehouseId) then Some(|rows|)
      else None
  {
    var rows' := rows + [x];
    assert forall k :: 0 <= k < |rows| ==> rows'[k] == rows[k];
    assert rows'[|rows|] == x;
    var a, b := FindIndex(rows', productId, warehouseId), FindIndex(rows, productId, warehouseId);
    if b.Some? {
      assert a.Some?;
      assert !(a.value < b.value) && !(b.value < a.value);
    } else if a.Some? {
      assert a.value == |rows|;
    }
  }

  /** The total moves by exactly the change of the one row that was rewritten. */
  lemma {:induction false} TotalAfterQuantityChange(rows: seq<StockRecord>, i: nat, q: real, tenantId: int, productId: int)
    requires i < |rows|
    ensures TotalByProduct(WithQuantity(rows, i, q), tenantId, productId) ==
      TotalByProduct(rows, tenantId, productId)
        + (if CountsToward(rows[i], tenantId, productId) then q - rows[i].quantity else 0.0)
  {
    var rows' := WithQuantity(rows, i, q);
    var n := |rows|;
    if i == n - 1 {
      assert rows'[..n - 1] == rows[..n - 1];
    } else {
      assert rows'[..n - 1] == WithQuantity(rows[..n - 1], i, q);
      TotalAfterQuantityChange(rows[..n - 1], i, q, tenantId, productId);
    }
  }

  /** Appending a row adds its quantity when it belongs to the tenant and product. */
  lemma TotalAfterAppend(rows: seq<StockRecord>, x: StockRecord, tenantId: int, productId: int)
    ensures TotalByProduct(rows + [x], tenantId, productId) ==
      TotalByProduct(rows, tenantId, productId) + (if CountsToward(x, tenantId, productId) then x.quantity else 0.0)
  {
    assert (rows + [x])[..|rows|] == rows;
  }

  /** With no negative quantity stored, no total is negative. */
  lemma {:induction false} TotalNonNegative(rows: seq<StockRecord>, tenantId: int, productId: int)
    requires NonNegative(rows)
    ensures TotalByProduct(rows, tenantId, productId) >= 0.0
  {
    if |rows| > 0 {
      TotalNonNegative(rows[..|rows| - 1], tenantId, productId);
    }
  }

  /** The total is zero when no row belongs to the tenant and product. */
  lemma {:induction false} TotalWithoutMatches(rows: seq<StockRecord>, tenantId: int, productId: int)
    requires forall x :: x in rows ==> !CountsToward(x, tenantId, productId)
    ensures TotalByProduct(rows, tenantId, productId) == 0.0
  {
    if |rows| > 0 {
      assert rows[|rows| - 1] in rows;
      TotalWithoutMatches(rows[..|rows| - 1], tenantId, productId);
    }
  }

  /** An increase puts the grown record at the pair and touches nothing else. */
  lemma IncreasedEffect(rows: seq<StockRecord>, productId: int, warehouseId: int, delta: real)
    ensures var rows' := Increased(rows, productId, warehouseId, delta);
      && Lookup(rows', productId, warehouseId).Some?
      && Lookup(rows', productId, warehouseId).value.quantity == QuantityOf(rows, productId, warehouseId) + delta
      && Lookup(rows', productId, warehouseId).value.tenantId == TenantOf(rows, productId, warehouseId)
      && |rows| <= |rows'| <= |rows| + 1
      && forall k :: 0 <= k < |rows| && !KeyIs(rows[k], productId, warehouseId) ==> rows'[k] == rows[k]
  {
    match FindIndex(rows, productId, warehouseId)
    case Some(i) =>
      var q := rows[i].quantity + delta;
      assert Increased(rows, productId, warehouseId, delta) == WithQuantity(rows, i, q);
      assert Lookup(rows, productId, warehouseId) == Some(rows[i]);
      LookupAfterQuantityChange(rows, i, q, productId, warehouseId);
    case None =>
      FindIndexAfterAppend(rows, NewRecord(productId, warehouseId, delta), productId, warehouseId);
  }

  /** The tenant-scoped total moves by delta exactly in the tenant the write lands in. */
  lemma TotalAfterIncrease(rows: seq<StockRecord>, productId: int, warehouseId: int, delta: real, tenantId: int)
    ensures TotalByProduct(Increased(rows, productId, warehouseId, delta), tenantId, productId) ==
      TotalByProduct(rows, tenantId, productId) + (if TenantOf(rows, productId, warehouseId) == tenantId then delta else 0.0)
  {
    match FindIndex(rows, productId, warehouseId)
    case Some(i) =>
      TotalAfterQuantityChange(rows, i, rows[i].quantity + delta, tenantId, productId);
    case None =>
      TotalAfterAppend(rows, NewRecord(productId, warehouseId, delta), tenantId, productId);
  }

  lemma TotalAfterDecrease(rows: seq<StockRecord>, productId: int, warehouseId: int, delta: real, tenantId: int)
    requires FindIndex(rows, productId, warehouseId).Some?
    ensures TotalByProduct(Decreased(rows, productId, warehouseId, delta), tenantId, productId) ==
      TotalByProduct(rows, tenantId, productId) - (if TenantOf(rows, productId, warehouseId) == tenantId then delta else 0.0)
  {
    var i := FindIndex(rows, productId, warehouseId).value;
    TotalAfterQuantityChange(rows, i, rows[i].quantity - delta, tenantId, productId);
  }

  /** A transfer leaves every tenant's total for the product unchanged when the source and
      the destination belong to the same tenant. A destination the transfer creates belongs
      to DefaultTenant, so a transfer out of another tenant's record into a new pair moves
      the quantity out of that tenant's total (see TransferIntoNewPairLeavesTenant). */
  lemma TransferConservesTotal(rows: seq<StockRecord>, productId: int, fromWarehouse: int, toWarehouse: int, quantity: real, tenantId: int)
    requires FindIndex(rows, productId, fromWarehouse).Some?
    requires TenantOf(rows, productId, fromWarehouse) == TenantOf(rows, productId, toWarehouse)
    ensures TotalByProduct(Transferred(rows, productId, fromWarehouse, toWarehouse, quantity), tenantId, productId) ==
      TotalByProduct(rows, tenantId, productId)
  {
    var mid := Decreased(rows, productId, fromWarehouse, quantity);
    TotalAfterDecrease(rows, productId, fromWarehouse, quantity, tenantId);
    TenantAfterDecrease(rows, productId, fromWarehouse, quantity, toWarehouse);
    TotalAfterIncrease(mid, productId, toWarehouse, quantity, tenantId);
  }

  /** As written, a transfer out of a record of a tenant other than DefaultTenant into a
      pair that has no record drops that tenant's total by the quantity moved. */
  lemma TransferIntoNewPairLeavesTenant(rows: seq<StockRecord>, productId: int, fromWarehouse: int, toWarehouse: int, quantity: real)
    requires FindIndex(rows, productId, fromWarehouse).Some?
    requires Lookup(rows, productId, toWarehouse).None?
    requires TenantOf(rows, productId, fromWarehouse) != DefaultTenant
    ensures var t := TenantOf(rows, productId, fromWarehouse);
      TotalByProduct(Transferred(rows, productId, fromWarehouse, toWarehouse, quantity), t, productId) ==
        TotalByProduct(rows, t, productId) - quantity
  {
    var t := TenantOf(rows, productId, fromWarehouse);
    var i := FindIndex(rows, productId, fromWarehouse).value;
    var mid := Decreased(rows, productId, fromWarehouse, quantity);
    TotalAfterDecrease(rows, productId, fromWarehouse, quantity, t);
    FindIndexAfterQuantityChange(rows, i, rows[i].quantity - quantity, productId, toWarehouse);
    TotalAfterIncrease(mid, productId, toWarehouse, quantity, t);
  }

  /** A decrease puts the shrunk record at the pair and touches no other row. */
  lemma DecreasedEffect(rows: seq<StockRecord>, productId: int, warehouseId: int, delta: real)
    requires FindIndex(rows, productId, warehouseId).Some?
    ensures var rows' := Decreased(rows, productId, warehouseId, delta);
      && |rows'| == |rows|
      && Lookup(rows', productId, warehouseId).Some?
      && Lookup(rows', productId, warehouseId).value ==
         Lookup(rows, productId, warehouseId).value.(quantity := QuantityOf(rows, productId, warehouseId) - delta)
      && forall k :: 0 <= k < |rows| && !KeyIs(rows[k], productId, warehouseId) ==> rows'[k] == rows[k]
  {
    var i := FindIndex(rows, productId, warehouseId).value;
    var q := rows[i].quantity - delta;
    assert Decreased(rows, productId, warehouseId, delta) == WithQuantity(rows, i, q);
    assert Lookup(rows, productId, warehouseId) == Some(rows[i]);
    assert QuantityOf(rows, productId, warehouseId) == rows[i].quantity;
    LookupAfterQuantityChange(rows, i, q, productId, warehouseId);
  }

  /** A transfer between two distinct warehouses moves exactly the quantity from the source
      to the destination (created when absent), conserves their sum, and leaves every other
      row alone. */
  lemma TransferredEffect(rows: seq<StockRecord>, productId: int, fromWarehouse: int, toWarehouse: int, quantity: real)
    requires FindIndex(rows, productId, fromWarehouse).Some?
    requires fromWarehouse != toWarehouse
    ensures var rows' := Transferred(rows, productId, fromWarehouse, toWarehouse, quantity);
      && Lookup(rows', productId, fromWarehouse).Some?
      && Lookup(rows', productId, toWarehouse).Some?
      && QuantityOf(rows', productId, fromWarehouse) == QuantityOf(rows, productId, fromWarehouse) - quantity
      && QuantityOf(rows', productId, toWarehouse) == QuantityOf(rows, productId, toWarehouse) + quantity
      && QuantityOf(rows', productId, fromWarehouse) + QuantityOf(rows', productId, toWarehouse) ==
         QuantityOf(rows, productId, fromWarehouse) + QuantityOf(rows, productId, toWarehouse)
      && forall k :: 0 <= k < |rows| && !KeyIs(rows[k], productId, fromWarehouse) && !KeyIs(rows[k], productId, toWarehouse) ==>
           rows'[k] == rows[k]
  {
    var i := FindIndex(rows, productId, fromWarehouse).value;
    var mid := Decreased(rows, productId, fromWarehouse, quantity);
    DecreasedEffect(rows, productId, fromWarehouse, quantity);
    LookupElsewhereAfterDecrease(rows, productId, fromWarehouse, quantity, toWarehouse);
    IncreasedEffect(mid, productId, toWarehouse, quantity);
    SourceKeptByIncrease(mid, productId, fromWarehouse, toWarehouse, quantity);
  }

  /** A decrease at one warehouse does not change the lookup at another. */
  lemma LookupElsewhereAfterDecrease(rows: seq<StockRecord>, productId: int, fromWarehouse: int, delta: real, warehouseId: int)
    requires FindIndex(rows, productId, fromWarehouse).Some? && fromWarehouse != warehouseId
    ensures Lookup(Decreased(rows, productId, fromWarehouse, delta), productId, warehouseId) ==
      Lookup(rows, productId, warehouseId)
  {
    var i := FindIndex(rows, productId, fromWarehouse).value;
    var q := rows[i].quantity - delta;
    assert Decreased(rows, productId, fromWarehouse, delta) == WithQuantity(rows, i, q);
    LookupAfterOtherQuantityChange(rows, i, q, productId, warehouseId);
  }

  /** Overwriting the quantity of a row with another key leaves the lookup as it was. */
  lemma LookupAfterOtherQuantityChange(rows: seq<StockRecord>, i: nat, q: real, productId: int, warehouseId: int)
    requires i < |rows| && !KeyIs(rows[i], productId, warehouseId)
    ensures Lookup(WithQuantity(rows, i, q), productId, warehouseId) == Lookup(rows, productId, warehouseId)
  {
    FindIndexAfterQuantityChange(rows, i, q, productId, warehouseId);
    var b := FindIndex(rows, productId, warehouseId);
    if b.Some? {
      assert b.value != i;
    }
  }

  /** The position of the first row with the pair determines the lookup. */
  lemma FindIndexIs(rows: seq<StockRecord>, i: nat, productId: int, warehouseId: int)
    requires i < |rows| && KeyIs(rows[i], productId, warehouseId)
    requires forall j :: 0 <= j < i ==> !KeyIs(rows[j], productId, warehouseId)
    ensures FindIndex(rows, productId, warehouseId) == Some(i)
  {
  }

  /** A transfer into the warehouse it comes from takes the quantity off and puts it back:
      the table is as before. */
  lemma TransferToSelfRestores(rows: seq<StockRecord>, productId: int, warehouseId: int, quantity: real)
    requires FindIndex(rows, productId, warehouseId).Some?
    ensures Transferred(rows, productId, warehouseId, warehouseId, quantity) == rows
  {
    var i := FindIndex(rows, productId, warehouseId).value;
    var mid := Decreased(rows, productId, warehouseId, quantity);
    assert |mid| == |rows| && mid[i] == rows[i].(quantity := rows[i].quantity - quantity);
    assert forall k :: 0 <= k < |rows| && k != i ==> mid[k] == rows[k];
    FindIndexIs(mid, i, productId, warehouseId);
    var t := Increased(mid, productId, warehouseId, quantity);
    assert |t| == |rows| && t[i] == rows[i];
    assert forall k :: 0 <= k < |rows| && k != i ==> t[k] == rows[k];
    assert forall k :: 0 <= k < |rows| ==> t[k] == rows[k];
  }

  /** An increase at one warehouse does not move the lookup of another. */
  lemma SourceKeptByIncrease(rows: seq<StockRecord>, productId: int, fromWarehouse: int, toWarehouse: int, quantity: real)
    requires fromWarehouse != toWarehouse
    ensures Lookup(Increased(rows, productId, toWarehouse, quantity), productId, fromWarehouse) ==
      Lookup(rows, productId, fromWarehouse)
  {
    var rows' := Increased(rows, productId, toWarehouse, quantity);
    var i := FindIndex(rows, productId, fromWarehouse);
    match FindIndex(rows, productId, toWarehouse)
    case Some(j) =>
      FindIndexAfterQuantityChange(rows, j, rows[j].quantity + quantity, productId, fromWarehouse);
      assert i.Some? ==> i.value != j;
    case None =>
      FindIndexAfterAppend(rows, NewRecord(productId, toWarehouse, quantity), productId, fromWarehouse);
      assert i.Some? ==> rows'[i.value] == rows[i.value];
  }

  // ---------------------------------------------------------------------------
  // The service
  // ---------------------------------------------------------------------------

  /** InventoryServiceImpl over an in-memory inventory table. Every write happens after
      every check, so a failed call leaves the table as it was. */
  class InventoryService {
    var rows: seq<StockRecord>

    ghost predicate Valid()
      reads this
    {
      LedgerInvariant(rows)
    }

    constructor ()
      ensures Valid() && rows == []
    {
      rows := [];
    }

    /** createInventory */
    method CreateInventory(productId: int, warehouseId: int, quantity: Option<real>)
      returns (r: Result<StockRecord, InventoryError>)
      requires Valid()
      modifies this
      ensures Valid()
      ensures ValidateQuantity(quantity).Err? ==>
        r == Err(ValidateQuantity(quantity).error) && rows == old(rows)
      ensures ValidateQuantity(quantity).Ok? && Lookup(old(rows), productId, warehouseId).Some? ==>
        r == Err(AlreadyExists) && rows == old(rows)
      ensures ValidateQuantity(quantity).Ok? && Lookup(old(rows), productId, warehouseId).None? ==>
        && r == Ok(NewRecord(productId, warehouseId, quantity.value))
        && rows == old(rows) + [r.value]
        && Lookup(rows, productId, warehouseId) == Some(r.value)
    {
      var v := ValidateQuantity(quantity);
      if v.Err? {
        return Err(v.error);
      }
      if Lookup(rows, productId, warehouseId).Some? {
        return Err(AlreadyExists);
      }
      var record := NewRecord(productId, warehouseId, v.value);
      FindIndexAfterAppend(rows, record, productId, warehouseId);
      rows := rows + [record];
      r := Ok(record);
    }

    /** updateInventory: an absolute quantity, creating the record when absent. */
    method UpdateInventory(productId: int, warehouseId: int, quantity: Option<real>)
      returns (r: Result<StockRecord, InventoryError>)
      requires Valid()
      modifies this
      ensures Valid()
      ensures ValidateQuantity(quantity).Err? ==>
        r == Err(ValidateQuantity(quantity).error) && rows == old(rows)
      ensures ValidateQuantity(quantity).Ok? ==>
        && rows == Assigned(old(rows), productId, warehouseId, quantity.value)
        && r.Ok? && r.value.quantity == quantity.value
        && r.value.tenantId == TenantOf(old(rows), productId, warehouseId)
        && Lookup(rows, productId, warehouseId) == Some(r.value)
    {
      var v := ValidateQuantity(quantity);
      if v.Err? {
        return Err(v.error);
      }
      var found := FindIndex(rows, productId, warehouseId);
      if found.Some? {
        var i := found.value;
        var record := rows[i].(quantity := v.value);
        FindIndexAfterQuantityChange(rows, i, v.value, productId, warehouseId);
        rows := rows[i := record];
        r := Ok(record);
      } else {
        r := CreateInventory(productId, warehouseId, quantity);
      }
    }

    /** increaseInventory: adds to the record, creating it when absent. */
    method IncreaseInventory(productId: int, warehouseId: int, quantity: Option<real>)
      returns (r: Result<StockRecord, InventoryError>)
      requires Valid()
      modifies this
      ensures Valid()
      ensures ValidateQuantity(quantity).Err? ==>
        r == Err(ValidateQuantity(quantity).error) && rows == old(rows)
      ensures ValidateQuantity(quantity).Ok? ==>
        && rows == Increased(old(rows), productId, warehouseId, quantity.value)
        && r.Ok? && r.value.quantity == QuantityOf(old(rows), productId, warehouseId) + quantity.value
        && r.value.tenantId == TenantOf(old(rows), productId, warehouseId)
        && Lookup(rows, productId, warehouseId) == Some(r.value)
    {
      var v := ValidateQuantity(quantity);
      if v.Err? {
        return Err(v.error);
      }
      var found := FindIndex(rows, productId, warehouseId);
      if found.Some? {
        var i := found.value;
        var record := rows[i].(quantity := rows[i].quantity + v.value);
        FindIndexAfterQuantityChange(rows, i, record.quantity, productId, warehouseId);
        rows := rows[i := record];
        r := Ok(record);
      } else {
        r := CreateInventory(productId, warehouseId, quantity);
      }
    }

    /** decreaseInventory: fails on an absent pair and on a result below zero; decreasing
        exactly to zero is allowed. */
    method DecreaseInventory(productId: int, warehouseId: int, quantity: Option<real>)
      returns (r: Result<StockRecord, InventoryError>)
      requires Valid()
      modifies this
      ensures Valid()
      ensures ValidateQuantity(quantity).Err? ==>
        r == Err(ValidateQuantity(quantity).error) && rows == old(rows)
      ensures ValidateQuantity(quantity).Ok? && Lookup(old(rows), productId, warehouseId).None? ==>
        r == Err(NotInWarehouse) && rows == old(rows)
      ensures ValidateQuantity(quantity).Ok? && Lookup(old(rows), productId, warehouseId).Some? ==>
        var available := Lookup(old(rows), productId, warehouseId).value.quantity;
        if available - quantity.value < 0.0 then
          r == Err(InsufficientStock(available, quantity.value)) && rows == old(rows)
        else
          && rows == Decreased(old(rows), productId, warehouseId, quantity.value)
          && r == Ok(Lookup(old(rows), productId, warehouseId).value.(quantity := available - quantity.value))
          && Lookup(rows, productId, warehouseId) == Some(r.value)
    {
      var v := ValidateQuantity(quantity);
      if v.Err? {
        return Err(v.error);
      }
      var found := FindIndex(rows, productId, warehouseId);
      if found.None? {
        return Err(NotInWarehouse);
      }
      var i := found.value;
      var newQuantity := rows[i].quantity - v.value;
      if newQuantity < 0.0 {
        return Err(InsufficientStock(rows[i].quantity, v.value));
      }
      var record := rows[i].(quantity := newQuantity);
      FindIndexAfterQuantityChange(rows, i, newQuantity, productId, warehouseId);
      rows := rows[i := record];
      r := Ok(record);
    }

    /** transferInventory: checks availability at the source before any write, then
        decreases the source and increases the destination; returns [from, to]. */
    method TransferInventory(productId: int, fromWarehouse: int, toWarehouse: int, quantity: Option<real>)
      returns (r: Result<seq<StockRecord>, InventoryError>)
      requires Valid()
      modifies this
      ensures Valid()
      ensures ValidateQuantity(quantity).Err? ==>
        r == Err(ValidateQuantity(quantity).error) && rows == old(rows)
      ensures ValidateQuantity(quantity).Ok? && !CheckAvailability(old(rows), productId, fromWarehouse, quantity.value) ==>
        r == Err(InsufficientAtSource) && rows == old(rows)
      ensures ValidateQuantity(quantity).Ok? && CheckAvailability(old(rows), productId, fromWarehouse, quantity.value) ==>
        && FindIndex(old(rows), productId, fromWarehouse).Some?
        && rows == Transferred(old(rows), productId, fromWarehouse, toWarehouse, quantity.value)
        && r.Ok? && |r.value| == 2
        && Lookup(rows, productId, toWarehouse) == Some(r.value[1])
        && (fromWarehouse != toWarehouse ==>
              && r.value[0].quantity == QuantityOf(old(rows), productId, fromWarehouse) - quantity.value
              && Lookup(rows, productId, fromWarehouse) == Some(r.value[0]))
        && (fromWarehouse == toWarehouse ==> rows == old(rows) && r.value[0] == r.value[1])
    {
      var v := ValidateQuantity(quantity);
      if v.Err? {
        return Err(v.error);
      }
      if !CheckAvailability(rows, productId, fromWarehouse, v.value) {
        return Err(InsufficientAtSource);
      }
      var fromRecord := DecreaseInventory(productId, fromWarehouse, quantity);
      assert fromRecord.Ok?;
      ghost var mid := rows;
      var toRecord := IncreaseInventory(productId, toWarehouse, quantity);
      assert toRecord.Ok?;
      if fromWarehouse != toWarehouse {
        TransferredEffect(old(rows), productId, fromWarehouse, toWarehouse, v.value);
        assert Lookup(rows, productId, fromWarehouse) == Some(fromRecord.value) by {
          var i := FindIndex(mid, productId, fromWarehouse).value;
          assert mid[i] == fromRecord.value;
          assert !KeyIs(mid[i], productId, toWarehouse);
        }
        r := Ok([fromRecord.value, toRecord.value]);
      } else {
        // Both lookups return the one managed entity, so the list holds it twice, as it
        // stands after the increase.
        TransferToSelfRestores(old(rows), productId, fromWarehouse, v.value);
        r := Ok([toRecord.value, toRecord.value]);
      }
    }

    /** deleteInventory: removes the pair's record, failing when there is none. */
    method DeleteInventory(productId: int, warehouseId: int) returns (r: Outcome<InventoryError>)
      requires Valid()
      modifies this
      ensures Valid()
      ensures Lookup(old(rows), productId, warehouseId).None? ==>
        r == Fail(RecordNotFound) && rows == old(rows)
      ensures Lookup(old(rows), productId, warehouseId).Some? ==>
        && r == Pass
        && (var i := FindIndex(old(rows), productId, warehouseId).value;
            rows == old(rows)[..i] + old(rows)[i + 1..])
        && Lookup(rows, productId, warehouseId).None?
        && forall x :: x in rows <==> x in old(rows) && !KeyIs(x, productId, warehouseId)
    {
      var found := FindIndex(rows, productId, warehouseId);
      if found.None? {
        return Fail(RecordNotFound);
      }
      var i := found.value;
      ghost var before := rows;
      rows := rows[..i] + rows[i + 1..];
      assert forall k :: 0 <= k < |rows| ==> rows[k] == if k < i then before[k] else before[k + 1];
      assert forall x :: x in before <==> x == before[i] || x in rows;
      r := Pass;
    }
  }

  /** The record every service test starts from: product 1 in warehouse 1, tenant 1,
      quantity 100.00. */
  function TestRecord(): StockRecord {
    StockRecord(1, 1, 1, 100.0)
  }

  /** The tests' fixture, built through createInventory. */
  method TestService() returns (service: InventoryService)
    ensures fresh(service) && service.Valid() && service.rows == [TestRecord()]
  {
    service := new InventoryService();
    var created := service.CreateInventory(1, 1, Some(100.0));
    assert created == Ok(TestRecord());
  }

  /** Increasing the fixture by 50.00 gives 150.00; decreasing it by 30.00 gives 70.00. */
  method IncreaseDecreaseScenario() returns (increased: InventoryService, decreased: InventoryService)
    ensures increased.Valid() && increased.rows == [TestRecord().(quantity := 150.0)]
    ensures decreased.Valid() && decreased.rows == [TestRecord().(quantity := 70.0)]
  {
    increased := TestService();
    var up := increased.IncreaseInventory(1, 1, Some(50.0));
    assert up == Ok(TestRecord().(quantity := 150.0));
    decreased := TestService();
    var down := decreased.DecreaseInventory(1, 1, Some(30.0));
    assert down == Ok(TestRecord().(quantity := 70.0));
  }

  /** On the fixture: decreasing by 150.00 is refused with both amounts, creating the pair
      again is refused, and neither writes. */
  method RefusalScenario() returns (service: InventoryService)
    ensures service.Valid() && service.rows == [TestRecord()]
  {
    service := TestService();
    var tooMuch := service.DecreaseInventory(1, 1, Some(150.0));
    assert tooMuch == Err(InsufficientStock(100.0, 150.0));
    var again := service.CreateInventory(1, 1, Some(200.0));
    assert again == Err(AlreadyExists);
  }

  /** On an empty table: increase creates the record, create stores 200.00, decrease finds
      nothing, a null or a negative quantity is refused, and delete finds nothing. */
  method EmptyTableScenario() returns (increased: InventoryService, created: InventoryService)
    ensures increased.Valid() && increased.rows == [TestRecord().(quantity := 50.0)]
    ensures created.Valid() && created.rows == [TestRecord().(quantity := 200.0)]
  {
    increased := new InventoryService();
    var up := increased.IncreaseInventory(1, 1, Some(50.0));
    assert up == Ok(TestRecord().(quantity := 50.0));
    created := new InventoryService();
    var made := created.CreateInventory(1, 1, Some(200.0));
    assert made == Ok(TestRecord().(quantity := 200.0));
    var empty := new InventoryService();
    var down := empty.DecreaseInventory(1, 1, Some(50.0));
    assert down == Err(NotInWarehouse);
    var nullQuantity := empty.CreateInventory(1, 1, None);
    assert nullQuantity == Err(NullQuantity);
    var negative := empty.CreateInventory(1, 1, Some(-10.0));
    assert negative == Err(NegativeQuantity);
    var deleted := empty.DeleteInventory(1, 1);
    assert deleted == Fail(RecordNotFound);
  }

  /** Availability on the fixture: 50.00 is there, 150.00 is not, and an absent pair has
      nothing; deleting the fixture's record empties the table. */
  method AvailabilityScenario() returns (service: InventoryService)
    ensures service.Valid() && service.rows == []
  {
    service := TestService();
    assert CheckAvailability(service.rows, 1, 1, 50.0);
    assert !CheckAvailability(service.rows, 1, 1, 150.0);
    assert !CheckAvailability([], 1, 1, 50.0);
    var deleted := service.DeleteInventory(1, 1);
    assert deleted == Pass;
  }

  /** Records of 50.00 and 75.00 for tenant 1 and product 1 total 125.00. */
  lemma TotalScenario()
    ensures TotalByProduct([StockRecord(1, 1, 1, 50.0), StockRecord(1, 1, 2, 75.0)], 1, 1) == 125.0
  {
    var rows := [StockRecord(1, 1, 1, 50.0), StockRecord(1, 1, 2, 75.0)];
    assert rows[..1] == [StockRecord(1, 1, 1, 50.0)];
    assert rows[..1][..0] == [];
  }

  /** Transfers on the fixture: 30.00 to warehouse 2 creates the destination, a transfer
      into the source itself leaves the table as it was and returns the one record twice,
      and 150.00 is more than the source holds. */
  method TransferScenario() returns (service: InventoryService)
    ensures service.Valid() && service.rows == [TestRecord().(quantity := 70.0), TestRecord().(warehouseId := 2, quantity := 30.0)]
  {
    service := TestService();
    var moved := service.TransferInventory(1, 1, 2, Some(30.0));
    assert moved.Ok? && moved.value[0].quantity == 70.0 && moved.value[1] == TestRecord().(warehouseId := 2, quantity := 30.0);
    assert service.rows == [TestRecord().(quantity := 70.0), TestRecord().(warehouseId := 2, quantity := 30.0)];
    var toSelf := service.TransferInventory(1, 1, 1, Some(10.0));
    assert toSelf.Ok? && toSelf.value[0] == toSelf.value[1] == TestRecord().(quantity := 70.0);
    var tooMuch := service.TransferInventory(1, 1, 2, Some(150.0));
    assert tooMuch == Err(InsufficientAtSource);
  }
}
