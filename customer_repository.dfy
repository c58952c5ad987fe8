/** The in-memory customer store (backend/src/domain/repositories/CustomerRepository.js),
    held like the order store as its entries in insertion order. Writing a customer also
    rewrites that customer's allergy list in place, tagging every entry as encrypted. */
module CustomerRepositories {
  import opened Wrappers
  import Keyed
  import Allergies
  import Customers

  type Customer = Customers.Customer
  type AllergyEntry = Customers.AllergyEntry

  const NotFound := "Customer not found"

  /** One entry of `encryptAllergies`: an Allergy value is replaced by its exported fields,
      a record already tagged is copied as it is; either way the result is tagged. */
  function Encrypt(e: AllergyEntry): (r: AllergyEntry)
    ensures r.Encrypted?
    ensures Customers.NameOf(r) == Customers.NameOf(e)
    ensures e.Plain? ==> r.record == Allergies.ToJson(e.allergy)
    ensures e.Encrypted? ==> r == e
  {
    match e
    case Plain(a) => Customers.Encrypted(Allergies.ToJson(a))
    case Encrypted(record) => e
  }

  /** `encryptAllergies(allergies)`: same length and order, every entry tagged. */
  function EncryptAll(es: seq<AllergyEntry>): (r: seq<AllergyEntry>)
    ensures |r| == |es|
    ensures forall i :: 0 <= i < |es| ==> r[i] == Encrypt(es[i])
  {
    seq(|es|, i requires 0 <= i < |es| => Encrypt(es[i]))
  }

  /** Tagging keeps every name, severity and notes, so nothing about an allergy is lost, and
      tagging tagged records again changes nothing. */
  lemma EncryptAllFacts(es: seq<AllergyEntry>)
    ensures forall i :: 0 <= i < |es| && es[i].Plain? ==>
              var rec := EncryptAll(es)[i].record;
              Allergies.New(rec.name, Some(rec.severity), Some(rec.notes)) == es[i].allergy
    ensures EncryptAll(EncryptAll(es)) == EncryptAll(es)
    ensures Keyed.UniqueKeys(es, Customers.NameOf) ==> Keyed.UniqueKeys(EncryptAll(es), Customers.NameOf)
  {
    var once := EncryptAll(es);
    assert forall i :: 0 <= i < |es| ==> Customers.NameOf(once[i]) == Customers.NameOf(es[i]);
  }

  /** What `save` and `update` leave in a customer's allergy list. */
  function Stored(es: seq<AllergyEntry>): seq<AllergyEntry> {
    if |es| > 0 then EncryptAll(es) else es
  }

  /** `decryptAllergies(allergies)`: hands the list back as it is. */
  function DecryptAll(es: seq<AllergyEntry>): (r: seq<AllergyEntry>)
    ensures r == es
  {
    es
  }

  /** `Array.from(customers.values()).find(c => c.email === email)`: the first customer,
      in insertion order, whose email is exactly that string. */
  function FirstWithEmail(cs: seq<Customer>, email: string): (r: Option<Customer>)
    reads cs`email
    ensures r.None? <==> forall i :: 0 <= i < |cs| ==> cs[i].email != email
    ensures r.Some? ==> exists i :: 0 <= i < |cs| && cs[i] == r.value && cs[i].email == email &&
                                    forall j :: 0 <= j < i ==> cs[j].email != email
  {
    if cs == [] then None
    else if cs[0].email == email then Some(cs[0])
    else
      var r := FirstWithEmail(cs[1..], email);
      assert forall i :: 1 <= i < |cs| ==> cs[i] == cs[1..][i - 1];
      r
  }

  class CustomerRepository {
    var customers: seq<Customer>

    ghost predicate Valid()
      reads this
    {
      Keyed.UniqueKeys(customers, Customers.IdOf)
    }

    constructor ()
      ensures customers == [] && Valid()
    {
      customers := [];
    }

    /** `findById(id)`: the stored customer itself, or null. */
    function FindById(id: string): (r: Option<Customer>)
      reads this
      ensures r.None? <==> !Keyed.HasKey(customers, Customers.IdOf, id)
      ensures r.Some? ==> r.value.id == id && r.value in customers
    {
      Keyed.Get(customers, Customers.IdOf, id)
    }

    /** `findByEmail(email)` */
    function FindByEmail(email: string): Option<Customer>
      reads this, customers`email
    {
      FirstWithEmail(customers, email)
    }

    /** `findAll()` */
    function FindAll(): seq<Customer>
      reads this
    {
      customers
    }

    /** `save(customer)`: tags a non-empty allergy list in place, then upserts. */
    method Save(customer: Customer) returns (r: Customer)
      requires Valid()
      modifies this, customer`allergies
      ensures Valid() && r == customer
      ensures customer.allergies == Stored(old(customer.allergies))
      ensures customer.name == old(customer.name) && customer.email == old(customer.email)
      ensures customer.phone == old(customer.phone) && customer.updatedAt == old(customer.updatedAt)
      ensures customers == Keyed.Upsert(old(customers), Customers.IdOf, customer)
      ensures FindById(customer.id) == Some(customer)
    {
      if |customer.allergies| > 0 {
        customer.allergies := EncryptAll(customer.allergies);
      }
      Keyed.UpsertKeepsUnique(customers, Customers.IdOf, customer);
      Keyed.UpsertGet(customers, Customers.IdOf, customer);
      customers := Keyed.Upsert(customers, Customers.IdOf, customer);
      r := customer;
    }

    /** `update(customer)`: an unknown id is refused before anything is touched; otherwise
        it is `save`. */
    method Update(customer: Customer) returns (r: Result<Customer>)
      requires Valid()
      modifies this, customer`allergies
      ensures Valid()
      ensures !Keyed.HasKey(old(customers), Customers.IdOf, customer.id) ==>
              r == Err(NotFound) && customers == old(customers) &&
              customer.allergies == old(customer.allergies)
      ensures Keyed.HasKey(old(customers), Customers.IdOf, customer.id) ==>
              r == Ok(customer) && customers == Keyed.Upsert(old(customers), Customers.IdOf, customer) &&
              customer.allergies == Stored(old(customer.allergies))
      ensures customer.name == old(customer.name) && customer.email == old(customer.email)
      ensures customer.phone == old(customer.phone) && customer.updatedAt == old(customer.updatedAt)
    {
      if Keyed.Find(customers, Customers.IdOf, customer.id).None? {
        return Err(NotFound);
      }
      var saved := Save(customer);
      return Ok(saved);
    }

    /** `delete(id)` */
    method Delete(id: string) returns (present: bool)
      requires Valid()
      modifies this
      ensures Valid()
      ensures present == Keyed.HasKey(old(customers), Customers.IdOf, id)
      ensures customers == Keyed.RemoveKey(old(customers), Customers.IdOf, id)
      ensures FindById(id).None?
    {
      present := Keyed.Find(customers, Customers.IdOf, id).Some?;
      Keyed.RemoveKeyKeepsUnique(customers, Customers.IdOf, id);
      Keyed.RemoveKeyGet(customers, Customers.IdOf, id, id);
      customers := Keyed.RemoveKey(customers, Customers.IdOf, id);
    }
  }
}
