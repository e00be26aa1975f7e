/** The customer registry of CustomerServiceImpl over an in-memory customers table keyed
    by the generated customer id. Phone, email and discount card are checked for
    uniqueness against every customer of every tenant. */
module Customers {
  import opened Wrappers
  import opened Text

  /** A customer as the service receives and stores it; the fields the service reads may
      be null. Timestamps and the soft-delete flag are not touched by the service. */
  datatype Customer = Customer(
    tenantId: Option<int>,
    fullName: Option<string>,
    phone: Option<string>,
    email: Option<string>,
    discountCard: Option<string>,
    address: Option<string>)

  /** One constructor per IllegalArgumentException message the service throws. */
  datatype CustomerError =
    | NullCustomer               // the customer is null
    | NameRequired               // full name null or blank
    | TenantRequired             // tenant id null
    | PhoneExists(phone: string) // create / update: phone held by a customer
    | EmailExists(email: string) // create / update: email held by a customer
    | CardExists(card: string)   // create / update: discount card held by a customer
    | CardInUse(card: string)    // assignDiscountCard: discount card held by a customer
    | NotFound(id: int)          // no customer with the id

  /** The three fields the registry keeps unique. */
  datatype ContactField = Phone | Email | DiscountCard

  function FieldOf(c: Customer, field: ContactField): Option<string> {
    match field
    case Phone => c.phone
    case Email => c.email
    case DiscountCard => c.discountCard
  }

  /** existsByPhone / existsByEmail / existsByDiscountCard: across all tenants. */
  predicate ExistsBy(customers: map<int, Customer>, field: ContactField, value: string) {
    exists id :: id in customers && FieldOf(customers[id], field) == Some(value)
  }

  /** No two customers share a non-null value of the field. */
  ghost predicate UniqueField(customers: map<int, Customer>, field: ContactField) {
    forall a, b :: a in customers && b in customers && a != b && FieldOf(customers[a], field).Some? ==>
      FieldOf(customers[a], field) != FieldOf(customers[b], field)
  }

  /** What every stored customer satisfies: it passed validateCustomer. */
  ghost predicate WellFormed(c: Customer) {
    c.tenantId.Some? && !IsMissing(c.fullName)
  }

  ghost predicate RegistryInvariant(customers: map<int, Customer>) {
    && (forall id :: id in customers ==> WellFormed(customers[id]))
    && UniqueField(customers, Phone)
    && UniqueField(customers, Email)
    && UniqueField(customers, DiscountCard)
  }

  // ---------------------------------------------------------------------------
  // Checks
  // ---------------------------------------------------------------------------

  /** validateCustomer: null customer, then missing name, then missing tenant. */
  function ValidateCustomer(customer: Option<Customer>): (r: Outcome<CustomerError>)
    ensures r == Pass <==> customer.Some? && WellFormed(customer.value)
    ensures customer.None? ==> r == Fail(NullCustomer)
    ensures customer.Some? && IsMissing(customer.value.fullName) ==> r == Fail(NameRequired)
    ensures customer.Some? && !IsMissing(customer.value.fullName) && customer.value.tenantId.None? ==>
      r == Fail(TenantRequired)
  {
    if customer.None? then Fail(NullCustomer)
    else if IsMissing(customer.value.fullName) then Fail(NameRequired)
    else if customer.value.tenantId.None? then Fail(TenantRequired)
    else Pass
  }

  /** A name made only of spaces and control characters is rejected, as an empty one is. */
  lemma WhitespaceNameRejected(customer: Customer, name: string)
    requires customer.fullName == Some(name)
    requires forall i :: 0 <= i < |name| ==> IsTrimmable(name[i])
    ensures ValidateCustomer(Some(customer)) == Fail(NameRequired)
  {
    BlankIffAllTrimmable(name);
  }

  /** A non-null value of the field that some customer already holds (existsByX). */
  predicate Taken(customers: map<int, Customer>, c: Customer, field: ContactField) {
    FieldOf(c, field).Some? && ExistsBy(customers, field, FieldOf(c, field).value)
  }

  /** The update check: a value that differs from the stored one and is already held. */
  predicate TakenOnChange(customers: map<int, Customer>, existing: Customer, c: Customer, field: ContactField) {
    FieldOf(c, field) != FieldOf(existing, field) && Taken(customers, c, field)
  }

  /** What updateCustomer writes: name, phone, email and card from the request; tenant and
      the rest stay as stored. */
  function Updated(existing: Customer, c: Customer): Customer {
    existing.(fullName := c.fullName, phone := c.phone, email := c.email, discountCard := c.discountCard)
  }

  /** Storing c at id keeps the field unique when c's value is null, unchanged from what id
      held, or held by nobody. */
  ghost predicate FreshAt(customers: map<int, Customer>, id: int, c: Customer, field: ContactField) {
    || FieldOf(c, field).None?
    || (id in customers && FieldOf(c, field) == FieldOf(customers[id], field))
    || !ExistsBy(customers, field, FieldOf(c, field).value)
  }

  lemma {:induction false} StoreKeepsUniqueField(customers: map<int, Customer>, id: int, c: Customer, field: ContactField)
    requires UniqueField(customers, field)
    requires FreshAt(customers, id, c, field)
    ensures UniqueField(customers[id := c], field)
  {
    var m := customers[id := c];
    forall a, b | a in m && b in m && a != b && FieldOf(m[a], field).Some?
      ensures FieldOf(m[a], field) != FieldOf(m[b], field)
    {
      if a == id || b == id {
        var other := if a == id then b else a;
        assert other in customers && m[other] == customers[other];
        if FieldOf(c, field) == FieldOf(customers[other], field) {
          assert ExistsBy(customers, field, FieldOf(c, field).value);
        }
      } else {
        assert m[a] == customers[a] && m[b] == customers[b];
      }
    }
  }

  /** Every write the service makes stores a validated customer whose unique fields are
      fresh, so the registry invariant survives it. */
  lemma StoreKeepsInvariant(customers: map<int, Customer>, id: int, c: Customer)
    requires RegistryInvariant(customers)
    requires WellFormed(c)
    requires FreshAt(customers, id, c, Phone) && FreshAt(customers, id, c, Email) && FreshAt(customers, id, c, DiscountCard)
    ensures RegistryInvariant(customers[id := c])
  {
    StoreKeepsUniqueField(customers, id, c, Phone);
    StoreKeepsUniqueField(customers, id, c, Email);
    StoreKeepsUniqueField(customers, id, c, DiscountCard);
  }

  /** An update that passed validation and the three change checks keeps the invariant. */
  lemma UpdateKeepsInvariant(customers: map<int, Customer>, id: int, c: Customer)
    requires RegistryInvariant(customers) && id in customers && WellFormed(c)
    requires !TakenOnChange(customers, customers[id], c, Phone)
    requires !TakenOnChange(customers, customers[id], c, Email)
    requires !TakenOnChange(customers, customers[id], c, DiscountCard)
    ensures RegistryInvariant(customers[id := Updated(customers[id], c)])
  {
    var saved := Updated(customers[id], c);
    assert FieldOf(saved, Phone) == c.phone && FieldOf(saved, Email) == c.email && FieldOf(saved, DiscountCard) == c.discountCard;
    StoreKeepsInvariant(customers, id, saved);
  }

  /** Clearing a card, or setting one nobody holds, keeps the invariant. */
  lemma CardChangeKeepsInvariant(customers: map<int, Customer>, id: int, card: Option<string>)
    requires RegistryInvariant(customers) && id in customers
    requires card.None? || !ExistsBy(customers, DiscountCard, card.value)
    ensures RegistryInvariant(customers[id := customers[id].(discountCard := card)])
  {
    var saved := customers[id].(discountCard := card);
    assert FieldOf(saved, Phone) == FieldOf(customers[id], Phone);
    assert FieldOf(saved, Email) == FieldOf(customers[id], Email);
    assert FieldOf(saved, DiscountCard) == card;
    StoreKeepsInvariant(customers, id, saved);
  }

  /** Every id in use lies below the next one the counter hands out. */
  ghost predicate IdsBelow(customers: map<int, Customer>, nextId: int) {
    forall id :: id in customers ==> 1 <= id < nextId
  }

  lemma StoreKeepsIds(customers: map<int, Customer>, nextId: int, id: int, c: Customer)
    requires IdsBelow(customers, nextId) && 1 <= id <= nextId
    ensures IdsBelow(customers[id := c], nextId + 1)
    ensures id < nextId ==> IdsBelow(customers[id := c], nextId)
  {
  }

  /** Keeping one's own phone, email and card never makes an update clash. */
  lemma KeepingOwnValuesNeverClashes(customers: map<int, Customer>, existing: Customer, c: Customer, field: ContactField)
    requires FieldOf(c, field) == FieldOf(existing, field)
    ensures !TakenOnChange(customers, existing, c, field)
  {
  }

  // ---------------------------------------------------------------------------
  // Statistics
  // ---------------------------------------------------------------------------

  /** The integer part of CustomerStats (the percentage is a double and is left out). */
  datatype CustomerStats = CustomerStats(totalCustomers: int, customersWithDiscountCards: int, customersWithoutDiscountCards: int)

  /** countByTenantId */
  function CountByTenant(customers: map<int, Customer>, tenantId: int): nat {
    |set id | id in customers && customers[id].tenantId == Some(tenantId)|
  }

  /** countByTenantIdAndDiscountCardIsNotNull */
  function CountWithCardsByTenant(customers: map<int, Customer>, tenantId: int): nat {
    |set id | id in customers && customers[id].tenantId == Some(tenantId) && customers[id].discountCard.Some?|
  }

  /** getCustomerStatsByTenant: withoutCards is the difference of the two counts, which is
      the number of the tenant's customers holding no card. */
  function StatsByTenant(customers: map<int, Customer>, tenantId: int): (s: CustomerStats)
    ensures s.totalCustomers == CountByTenant(customers, tenantId)
    ensures s.customersWithDiscountCards == CountWithCardsByTenant(customers, tenantId)
    ensures s.customersWithoutDiscountCards ==
      |set id | id in customers && customers[id].tenantId == Some(tenantId) && customers[id].discountCard.None?|
    ensures 0 <= s.customersWithoutDiscountCards <= s.totalCustomers
  {
    var all := set id | id in customers && customers[id].tenantId == Some(tenantId);
    var holding := set id | id in customers && customers[id].tenantId == Some(tenantId) && customers[id].discountCard.Some?;
    var without := set id | id in customers && customers[id].tenantId == Some(tenantId) && customers[id].discountCard.None?;
    assert all == holding + without && holding !! without;
    var total := CountByTenant(customers, tenantId);
    var withCards := CountWithCardsByTenant(customers, tenantId);
    CustomerStats(total, withCards, total - withCards)
  }

  // ---------------------------------------------------------------------------
  // The service
  // ---------------------------------------------------------------------------

  /** CustomerServiceImpl over an in-memory customers table; ids come from an identity
      counter, as the database's IDENTITY column assigns them. */
  class CustomerService {
    var customers: map<int, Customer>
    var nextId: int

    ghost predicate Valid()
      reads this
    {
      && 1 <= nextId
      && IdsBelow(customers, nextId)
      && RegistryInvariant(customers)
    }

    constructor ()
      ensures Valid() && customers == map[] && nextId == 1
    {
      customers := map[];
      nextId := 1;
    }

    /** createCustomer: returns the id the saved customer received. Phone, then email,
        then card are checked, each only when non-null. */
    method CreateCustomer(customer: Option<Customer>) returns (r: Result<int, CustomerError>)
      requires Valid()
      modifies this
      ensures Valid()
      ensures r.Err? ==> customers == old(customers) && nextId == old(nextId)
      ensures ValidateCustomer(customer).Fail? ==> r == Err(ValidateCustomer(customer).error)
      ensures ValidateCustomer(customer) == Pass ==>
        var c := customer.value;
        if Taken(old(customers), c, Phone) then r == Err(PhoneExists(c.phone.value))
        else if Taken(old(customers), c, Email) then r == Err(EmailExists(c.email.value))
        else if Taken(old(customers), c, DiscountCard) then r == Err(CardExists(c.discountCard.value))
        else
          && r == Ok(old(nextId))
          && old(nextId) !in old(customers)
          && customers == old(customers)[old(nextId) := c]
          && nextId == old(nextId) + 1
    {
      var v := ValidateCustomer(customer);
      if v.Fail? {
        return Err(v.error);
      }
      var c := customer.value;
      if c.phone.Some? && ExistsBy(customers, Phone, c.phone.value) {
        return Err(PhoneExists(c.phone.value));
      }
      if c.email.Some? && ExistsBy(customers, Email, c.email.value) {
        return Err(EmailExists(c.email.value));
      }
      if c.discountCard.Some? && ExistsBy(customers, DiscountCard, c.discountCard.value) {
        return Err(CardExists(c.discountCard.value));
      }
      StoreKeepsInvariant(customers, nextId, c);
      StoreKeepsIds(customers, nextId, nextId, c);
      customers := customers[nextId := c];
      r := Ok(nextId);
      nextId := nextId + 1;
    }

    /** updateCustomer: a value is checked for uniqueness only when it differs from the
        stored one; name, phone, email and card are then overwritten. */
    method UpdateCustomer(id: int, customer: Option<Customer>) returns (r: Result<Customer, CustomerError>)
      requires Valid()
      modifies this
      ensures Valid() && nextId == old(nextId)
      ensures r.Err? ==> customers == old(customers)
      ensures ValidateCustomer(customer).Fail? ==> r == Err(ValidateCustomer(customer).error)
      ensures ValidateCustomer(customer) == Pass && id !in old(customers) ==> r == Err(NotFound(id))
      ensures ValidateCustomer(customer) == Pass && id in old(customers) ==>
        var c, existing := customer.value, old(customers)[id];
        if TakenOnChange(old(customers), existing, c, Phone) then r == Err(PhoneExists(c.phone.value))
        else if TakenOnChange(old(customers), existing, c, Email) then r == Err(EmailExists(c.email.value))
        else if TakenOnChange(old(customers), existing, c, DiscountCard) then r == Err(CardExists(c.discountCard.value))
        else
          && customers == old(customers)[id := Updated(existing, c)]
          && r == Ok(customers[id])
          && customers[id].tenantId == existing.tenantId
    {
      var v := ValidateCustomer(customer);
      if v.Fail? {
        return Err(v.error);
      }
      if id !in customers {
        return Err(NotFound(id));
      }
      var c, existing := customer.value, customers[id];
      if c.phone.Some? && c.phone != existing.phone && ExistsBy(customers, Phone, c.phone.value) {
        return Err(PhoneExists(c.phone.value));
      }
      if c.email.Some? && c.email != existing.email && ExistsBy(customers, Email, c.email.value) {
        return Err(EmailExists(c.email.value));
      }
      if c.discountCard.Some? && c.discountCard != existing.discountCard && ExistsBy(customers, DiscountCard, c.discountCard.value) {
        return Err(CardExists(c.discountCard.value));
      }
      var saved := Updated(existing, c);
      UpdateKeepsInvariant(customers, id, c);
      StoreKeepsIds(customers, nextId, id, saved);
      customers := customers[id := saved];
      r := Ok(saved);
    }

    /** assignDiscountCard: refused when any customer, this one included, holds the card. */
    method AssignDiscountCard(id: int, discountCard: string) returns (r: Result<Customer, CustomerError>)
      requires Valid()
      modifies this
      ensures Valid() && nextId == old(nextId)
      ensures id !in old(customers) ==> r == Err(NotFound(id)) && customers == old(customers)
      ensures id in old(customers) && ExistsBy(old(customers), DiscountCard, discountCard) ==>
        r == Err(CardInUse(discountCard)) && customers == old(customers)
      ensures id in old(customers) && old(customers)[id].discountCard == Some(discountCard) ==>
        r == Err(CardInUse(discountCard))
      ensures id in old(customers) && !ExistsBy(old(customers), DiscountCard, discountCard) ==>
        && customers == old(customers)[id := old(customers)[id].(discountCard := Some(discountCard))]
        && r == Ok(customers[id])
    {
      if id !in customers {
        return Err(NotFound(id));
      }
      if ExistsBy(customers, DiscountCard, discountCard) {
        return Err(CardInUse(discountCard));
      }
      var saved := customers[id].(discountCard := Some(discountCard));
      CardChangeKeepsInvariant(customers, id, Some(discountCard));
      StoreKeepsIds(customers, nextId, id, saved);
      customers := customers[id := saved];
      r := Ok(saved);
    }

    /** removeDiscountCard: clears the card; idempotent. */
    method RemoveDiscountCard(id: int) returns (r: Result<Customer, CustomerError>)
      requires Valid()
      modifies this
      ensures Valid() && nextId == old(nextId)
      ensures id !in old(customers) ==> r == Err(NotFound(id)) && customers == old(customers)
      ensures id in old(customers) ==>
        && customers == old(customers)[id := old(customers)[id].(discountCard := None)]
        && r == Ok(customers[id])
    {
      if id !in customers {
        return Err(NotFound(id));
      }
      var saved := customers[id].(discountCard := None);
      CardChangeKeepsInvariant(customers, id, None);
      StoreKeepsIds(customers, nextId, id, saved);
      customers := customers[id := saved];
      r := Ok(saved);
    }

    /** deleteCustomer */
    method DeleteCustomer(id: int) returns (r: Outcome<CustomerError>)
      requires Valid()
      modifies this
      ensures Valid() && nextId == old(nextId)
      ensures id !in old(customers) ==> r == Fail(NotFound(id)) && customers == old(customers)
      ensures id in old(customers) ==> r == Pass && customers == old(customers) - {id}
    {
      if id !in customers {
        return Fail(NotFound(id));
      }
      customers := customers - {id};
      r := Pass;
    }
  }

  function SampleCustomer(): Customer {
    Customer(Some(1), Some("John Doe"), Some("+1234567890"), Some("john.doe@example.com"), Some("DC123456"), None)
  }

  /** The sample customer, and the same customer with some contact fields cleared, pass
      validation. */
  lemma SampleValid(c: Customer)
    requires c.tenantId == SampleCustomer().tenantId && c.fullName == SampleCustomer().fullName
    ensures ValidateCustomer(Some(c)) == Pass
  {
    BlankIffAllTrimmable("John Doe");
    assert !IsTrimmable("John Doe"[0]);
  }

  /** A service holding the sample customer under id 1. */
  method SampleService() returns (service: CustomerService)
    ensures fresh(service) && service.Valid() && service.customers == map[1 := SampleCustomer()]
  {
    service := new CustomerService();
    var john := SampleCustomer();
    SampleValid(john);
    assert !Taken(map[], john, Phone) && !Taken(map[], john, Email) && !Taken(map[], john, DiscountCard);
    var created := service.CreateCustomer(Some(john));
    assert created == Ok(1);
  }

  /** In the registry holding the sample, the sample's phone is taken. */
  lemma SamplePhoneTaken(customers: map<int, Customer>, c: Customer)
    requires customers == map[1 := SampleCustomer()] && c.phone == SampleCustomer().phone
    ensures Taken(customers, c, Phone)
  {
    assert FieldOf(customers[1], Phone) == c.phone;
  }

  /** The creation scenarios of the service's tests, replayed against the contracts alone. */
  method CreationScenario() {
    var service := SampleService();
    var twin := SampleCustomer().(email := None, discountCard := None);
    SampleValid(twin);
    SamplePhoneTaken(service.customers, twin);
    var samePhone := service.CreateCustomer(Some(twin));
    assert samePhone == Err(PhoneExists("+1234567890"));
    var unnamed := service.CreateCustomer(Some(SampleCustomer().(fullName := Some(""))));
    assert unnamed == Err(NameRequired);
    var noTenant := service.CreateCustomer(Some(SampleCustomer().(tenantId := None)));
    SampleValid(SampleCustomer());
    assert noTenant == Err(TenantRequired);
  }

  /** The customer's own card counts as in use. */
  method CardScenario(service: CustomerService)
    requires service.Valid() && service.customers == map[1 := SampleCustomer()]
    modifies service
  {
    SampleCardHeld(service.customers);
    var own := service.AssignDiscountCard(1, "DC123456");
    assert own == Err(CardInUse("DC123456"));
  }

  /** Removing the card clears it and keeps everything else. */
  method RemoveScenario(service: CustomerService)
    requires service.Valid() && service.customers == map[1 := SampleCustomer()]
    modifies service
    ensures service.Valid()
    ensures service.customers.Keys == {1} && service.customers[1] == SampleCustomer().(discountCard := None)
  {
    var removed := service.RemoveDiscountCard(1);
    assert removed.Ok? && removed.value.discountCard == None;
  }

  /** In the registry holding the sample, the sample's card is in use. */
  lemma SampleCardHeld(customers: map<int, Customer>)
    requires customers == map[1 := SampleCustomer()]
    ensures ExistsBy(customers, DiscountCard, "DC123456")
  {
    assert FieldOf(customers[1], DiscountCard) == Some("DC123456");
  }

  /** With no card held anywhere, no card is in use. */
  lemma NoCardHeld(customers: map<int, Customer>, card: string)
    requires customers.Keys == {1} && customers[1] == SampleCustomer().(discountCard := None)
    ensures !ExistsBy(customers, DiscountCard, card)
  {
    forall id | id in customers ensures FieldOf(customers[id], DiscountCard) == None {
      assert id == 1;
    }
  }

  /** A free card is assigned; deleting the customer twice fails the second time. */
  method ReassignScenario(service: CustomerService)
    requires service.Valid() && service.customers.Keys == {1}
    requires service.customers[1] == SampleCustomer().(discountCard := None)
    modifies service
  {
    NoCardHeld(service.customers, "DC789012");
    var granted := service.AssignDiscountCard(1, "DC789012");
    assert granted.Ok? && granted.value.discountCard == Some("DC789012");
    var deleted := service.DeleteCustomer(1);
    assert deleted == Pass;
    var missing := service.DeleteCustomer(1);
    assert missing == Fail(NotFound(1));
  }
}
