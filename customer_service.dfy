/** The customer service (backend/src/domain/services/CustomerService.js). Operations load
    the stored customer and change that very object before writing it back, so an edit
    made before a later check fails stays in the store. A thrown Error is an `Err`
    carrying its message. */
module CustomerServices {
  import opened Wrappers
  import Text
  import Keyed
  import Allergies
  import Customers
  import CustomerRepositories

  type Customer = Customers.Customer
  type AllergyEntry = Customers.AllergyEntry

  const NotFound := "Customer not found"
  const EmailExists := "Customer with this email already exists"
  const EmailInUse := "Email already in use"
  const InvalidCustomer := "Invalid customer: "
  const InvalidAllergy := "Invalid allergy: "

  /** The allergy fields a caller sends; an empty string is a field left out. */
  datatype AllergyInput = AllergyInput(name: string, severity: string, notes: string)

  /** The fields `updateCustomer` may change; an empty string is a field left out. */
  datatype CustomerUpdates = CustomerUpdates(name: string, email: string, phone: string)

  /** `new Allergy(data.name, data.severity || 'moderate', data.notes || '')` */
  function AllergyOf(input: AllergyInput): (a: Allergies.Allergy)
    ensures a.name == input.name && a.notes == input.notes
    ensures input.severity == "" ==> a.severity == "moderate"
    ensures input.severity != "" ==> a.severity == input.severity
  {
    Allergies.New(input.name, Some(if input.severity == "" then "moderate" else input.severity),
                  Some(input.notes))
  }

  /** A left-out severity passes validation, so only the name can make such an allergy
      invalid. */
  lemma DefaultSeverityIsValid(input: AllergyInput)
    requires input.severity == ""
    ensures Allergies.Validate(AllergyOf(input)).isValid <==> !Text.Missing(input.name)
  {
  }

  /** No two stored customers share an email. */
  ghost predicate EmailsUnique(cs: seq<Customer>)
    reads cs`email
  {
    forall i, j :: 0 <= i < j < |cs| ==> cs[i].email != cs[j].email
  }

  /** Tagging an allergy list keeps which names it holds, so a customer still has every
      allergy after being written back, and tagging twice is tagging once. */
  lemma StoredKeepsNames(es: seq<AllergyEntry>, name: string)
    ensures Keyed.HasKey(CustomerRepositories.Stored(es), Customers.NameOf, name) <==>
            Keyed.HasKey(es, Customers.NameOf, name)
    ensures CustomerRepositories.Stored(CustomerRepositories.Stored(es)) == CustomerRepositories.Stored(es)
  {
    CustomerRepositories.EncryptAllFacts(es);
    var s := CustomerRepositories.Stored(es);
    assert forall i :: 0 <= i < |es| ==> Customers.NameOf(s[i]) == Customers.NameOf(es[i]);
  }

  /** Putting a customer whose email no one else holds at one place of a list, and keeping
      the other places, keeps emails unique. */
  lemma PlacedEmailStaysUnique(before: seq<Customer>, after: seq<Customer>, c: Customer, p: nat)
    requires EmailsUnique(before)
    requires forall i :: 0 <= i < |before| ==> before[i].email != c.email
    requires p < |after| && after[p] == c
    requires forall i :: 0 <= i < |after| && i != p ==> i < |before| && after[i] == before[i]
    ensures EmailsUnique(after)
  {
    forall i, j | 0 <= i < j < |after| ensures after[i].email != after[j].email {
      if i == p {
        assert after[j] == before[j];
      } else if j == p {
        assert after[i] == before[i];
      } else {
        assert after[i] == before[i] && after[j] == before[j];
        assert before[i].email != before[j].email;
      }
    }
  }

  /** A customer given an email no other customer holds keeps a list whose other emails
      were unique free of repeated emails. */
  lemma EmailSetStaysUnique(cs: seq<Customer>, c: Customer)
    requires Keyed.UniqueKeys(cs, Customers.IdOf)
    requires forall i :: 0 <= i < |cs| && cs[i] != c ==> cs[i].email != c.email
    requires forall i, j :: 0 <= i < j < |cs| && cs[i] != c && cs[j] != c ==> cs[i].email != cs[j].email
    ensures EmailsUnique(cs)
  {
    forall i, j | 0 <= i < j < |cs| ensures cs[i].email != cs[j].email {
      assert Customers.IdOf(cs[i]) != Customers.IdOf(cs[j]);
    }
  }

  class CustomerService {
    const customers: CustomerRepositories.CustomerRepository

    constructor (customers: CustomerRepositories.CustomerRepository)
      ensures this.customers == customers
    {
      this.customers := customers;
    }

    /** The customer `findById` hands out for an id, as a frame. */
    function Found(customerId: string): set<Customer>
      reads this, customers
    {
      match customers.FindById(customerId)
      case Some(c) => {c}
      case None => {}
    }

    /** Writing back a customer found in the store changes none of its entries and tags
        its allergies. */
    method WriteBack(c: Customer) returns (r: Result<Customer>)
      requires customers.Valid() && c in customers.customers
      modifies customers, c`allergies
      ensures customers.Valid() && customers.customers == old(customers.customers) && r == Ok(c)
      ensures c.allergies == CustomerRepositories.Stored(old(c.allergies))
      ensures c.name == old(c.name) && c.email == old(c.email)
      ensures c.phone == old(c.phone) && c.updatedAt == old(c.updatedAt)
    {
      var i :| 0 <= i < |customers.customers| && customers.customers[i] == c;
      Keyed.UpsertStored(customers.customers, Customers.IdOf, i);
      r := customers.Update(c);
    }

    /** `createCustomer(name, email, phone)`: a taken email is refused before validation;
        `freshId` is the id generated for the new customer, `now` the clock. Emails that
        were unique in the store stay unique. */
    method CreateCustomer(name: string, email: string, phone: string, freshId: string, now: nat)
      returns (r: Result<Customer>)
      requires customers.Valid()
      modifies customers
      ensures customers.Valid()
      ensures old(customers.FindByEmail(email)).Some? ==>
                r == Err(EmailExists) && customers.customers == old(customers.customers)
      ensures old(customers.FindByEmail(email)).None? && !Customers.ValidateFields(name, email, phone).isValid ==>
                r == Err(InvalidCustomer + Text.Join(Customers.ValidateFields(name, email, phone).errors, ", ")) &&
                customers.customers == old(customers.customers)
      ensures old(customers.FindByEmail(email)).None? && Customers.ValidateFields(name, email, phone).isValid ==>
                r.Ok? && fresh(r.value) && r.value.id == freshId &&
                r.value.name == name && r.value.email == email && r.value.phone == phone &&
                r.value.allergies == [] &&
                customers.customers == Keyed.Upsert(old(customers.customers), Customers.IdOf, r.value)
      ensures old(EmailsUnique(customers.customers)) ==> EmailsUnique(customers.customers)
    {
      var existing := customers.FindByEmail(email);
      if existing.Some? {
        return Err(EmailExists);
      }
      r := Register(name, email, phone, freshId, now);
    }

    /** The part of `createCustomer` after the email is known to be free: a new customer
        with no allergies, validated, then saved. */
    method Register(name: string, email: string, phone: string, freshId: string, now: nat)
      returns (r: Result<Customer>)
      requires customers.Valid()
      requires forall i :: 0 <= i < |customers.customers| ==> customers.customers[i].email != email
      modifies customers
      ensures customers.Valid()
      ensures !Customers.ValidateFields(name, email, phone).isValid ==>
                r == Err(InvalidCustomer + Text.Join(Customers.ValidateFields(name, email, phone).errors, ", ")) &&
                customers.customers == old(customers.customers)
      ensures Customers.ValidateFields(name, email, phone).isValid ==>
                r.Ok? && fresh(r.value) && r.value.id == freshId &&
                r.value.name == name && r.value.email == email && r.value.phone == phone &&
                r.value.allergies == []
      ensures r.Ok? ==> customers.customers == Keyed.Upsert(old(customers.customers), Customers.IdOf, r.value)
      ensures old(EmailsUnique(customers.customers)) ==> EmailsUnique(customers.customers)
    {
      ghost var wasUnique := EmailsUnique(customers.customers);
      var customer := new Customers.Customer("", freshId, name, email, phone, Some([]), now);
      assert EmailsUnique(customers.customers) == wasUnique;
      assert forall i :: 0 <= i < |customers.customers| ==> customers.customers[i].email != customer.email;
      var validation := customer.Validate();
      if !validation.isValid {
        return Err(InvalidCustomer + Text.Join(validation.errors, ", "));
      }
      var saved := SaveNew(customer);
      assert saved.allergies == [];
      r := Ok(saved);
    }

    /** Saving a customer not yet stored, whose email no stored customer holds. */
    method SaveNew(c: Customer) returns (saved: Customer)
      requires customers.Valid() && c !in customers.customers
      requires forall i :: 0 <= i < |customers.customers| ==> customers.customers[i].email != c.email
      modifies customers, c`allergies
      ensures customers.Valid() && saved == c
      ensures customers.customers == Keyed.Upsert(old(customers.customers), Customers.IdOf, c)
      ensures c.allergies == CustomerRepositories.Stored(old(c.allergies))
      ensures c.name == old(c.name) && c.email == old(c.email) && c.phone == old(c.phone)
      ensures old(EmailsUnique(customers.customers)) ==> EmailsUnique(customers.customers)
    {
      ghost var before := customers.customers;
      ghost var wasUnique := EmailsUnique(before);
      ghost var p := Keyed.UpsertShape(before, Customers.IdOf, c);
      saved := customers.Save(c);
      if wasUnique {
        PlacedEmailStaysUnique(before, customers.customers, c, p);
      }
    }

    /** `addAllergy(customerId, allergyData)`: a duplicate name leaves the list as it was;
        the list is tagged when written back. */
    method AddAllergy(customerId: string, input: AllergyInput, now: nat) returns (r: Result<Customer>)
      requires customers.Valid()
      modifies customers, Found(customerId)
      ensures customers.Valid() && customers.customers == old(customers.customers)
      ensures old(customers.FindById(customerId)).None? ==> r == Err(NotFound)
      ensures old(customers.FindById(customerId)).Some? && !Allergies.Validate(AllergyOf(input)).isValid ==>
                r == Err(InvalidAllergy + Text.Join(Allergies.Validate(AllergyOf(input)).errors, ", "))
      ensures old(customers.FindById(customerId)).Some? && Allergies.Validate(AllergyOf(input)).isValid ==>
                r.Ok?
      ensures r.Err? ==> unchanged(Found(customerId))
      ensures r.Ok? ==>
                var c := r.value;
                old(customers.FindById(customerId)) == Some(c) &&
                Allergies.Validate(AllergyOf(input)).isValid &&
                c.allergies == CustomerRepositories.Stored(Customers.WithAllergy(old(c.allergies), AllergyOf(input))) &&
                c.HasAllergy(input.name) &&
                c.name == old(c.name) && c.email == old(c.email) && c.phone == old(c.phone) &&
                c.updatedAt == (if Keyed.HasKey(old(c.allergies), Customers.NameOf, input.name)
                                then old(c.updatedAt) else now)
    {
      var found := customers.FindById(customerId);
      if found.None? {
        return Err(NotFound);
      }
      var customer := found.value;
      var allergy := AllergyOf(input);
      var validation := Allergies.Validate(allergy);
      if !validation.isValid {
        return Err(InvalidAllergy + Text.Join(validation.errors, ", "));
      }
      ghost var before := customer.allergies;
      customer.AddAllergy(allergy, now);
      Customers.HasAllergyAfter(before, allergy, "");
      StoredKeepsNames(customer.allergies, input.name);
      r := WriteBack(customer);
    }

    /** `removeAllergy(customerId, allergyName)` */
    method RemoveAllergy(customerId: string, allergyName: string, now: nat) returns (r: Result<Customer>)
      requires customers.Valid()
      modifies customers, Found(customerId)
      ensures customers.Valid() && customers.customers == old(customers.customers)
      ensures old(customers.FindById(customerId)).None? ==> r == Err(NotFound) && unchanged(Found(customerId))
      ensures old(customers.FindById(customerId)).Some? ==>
                var c := old(customers.FindById(customerId)).value;
                r == Ok(c) &&
                c.allergies == CustomerRepositories.Stored(Keyed.RemoveKey(old(c.allergies), Customers.NameOf, allergyName)) &&
                !c.HasAllergy(allergyName) && c.updatedAt == now &&
                c.name == old(c.name) && c.email == old(c.email) && c.phone == old(c.phone)
    {
      var found := customers.FindById(customerId);
      if found.None? {
        return Err(NotFound);
      }
      var customer := found.value;
      ghost var before := customer.allergies;
      customer.RemoveAllergy(allergyName, now);
      Customers.HasAllergyAfter(before, Allergies.Allergy("", "", ""), allergyName);
      StoredKeepsNames(customer.allergies, allergyName);
      r := WriteBack(customer);
    }

    /** `getCustomerAllergies(customerId)`: the stored list, tagged entries included. */
    function CustomerAllergies(customerId: string): (r: Result<seq<AllergyEntry>>)
      reads this, customers, customers.customers
      ensures r.Err? <==> customers.FindById(customerId).None?
      ensures r.Err? ==> r.message == NotFound
      ensures r.Ok? ==> r.value == customers.FindById(customerId).value.allergies
    {
      match customers.FindById(customerId)
      case None => Err(NotFound)
      case Some(c) => Ok(c.allergies)
    }

    /** `getCustomerById(id)` */
    function CustomerById(id: string): (r: Result<Customer>)
      reads this, customers
      ensures r.Err? <==> customers.FindById(id).None?
      ensures r.Err? ==> r.message == NotFound
      ensures r.Ok? ==> r.value in customers.customers && r.value.id == id
    {
      match customers.FindById(id)
      case Some(c) => Ok(c)
      case None => Err(NotFound)
    }

    /** `updateCustomer(customerId, updates)`: the name is set first, then an email held by
        another customer is refused, then the phone and timestamp are set and the result
        validated. Whatever was set before a refusal stays on the stored customer. */
    method UpdateCustomer(customerId: string, updates: CustomerUpdates, now: nat) returns (r: Result<Customer>)
      requires customers.Valid()
      modifies customers, Found(customerId)
      ensures customers.Valid() && customers.customers == old(customers.customers)
      ensures old(customers.FindById(customerId)).None? ==> r == Err(NotFound) && unchanged(Found(customerId))
      ensures old(customers.FindById(customerId)).Some? ==>
                var c := old(customers.FindById(customerId)).value;
                var holder := old(customers.FindByEmail(updates.email));
                var clash := updates.email != "" && holder.Some? && holder.value.id != customerId;
                var name := if updates.name != "" then updates.name else old(c.name);
                var email := if updates.email != "" then updates.email else old(c.email);
                var phone := if updates.phone != "" then updates.phone else old(c.phone);
                var report := Customers.ValidateFields(c.name, c.email, c.phone);
                && c.name == name
                && (clash ==> r == Err(EmailInUse) && c.email == old(c.email) && c.phone == old(c.phone) &&
                              c.updatedAt == old(c.updatedAt) && c.allergies == old(c.allergies))
                && (!clash ==> c.email == email && c.phone == phone && c.updatedAt == now)
                && (!clash && !report.isValid ==>
                      r == Err(InvalidCustomer + Text.Join(report.errors, ", ")) && c.allergies == old(c.allergies))
                && (!clash && report.isValid ==>
                      r == Ok(c) && c.allergies == CustomerRepositories.Stored(old(c.allergies)))
    {
      var found := customers.FindById(customerId);
      if found.None? {
        return Err(NotFound);
      }
      var customer := found.value;
      ghost var holder := customers.FindByEmail(updates.email);
      customer.name := if updates.name != "" then updates.name else customer.name;
      assert customers.FindByEmail(updates.email) == holder;
      r := UpdateContact(customer, updates, now);
    }

    /** The steps of `updateCustomer` after the name: the email, then the phone, the
        timestamp and the validation. */
    method UpdateContact(c: Customer, updates: CustomerUpdates, now: nat) returns (r: Result<Customer>)
      requires customers.Valid() && c in customers.customers
      modifies customers, c`email, c`phone, c`updatedAt, c`allergies
      ensures customers.Valid() && customers.customers == old(customers.customers)
      ensures var holder := old(customers.FindByEmail(updates.email));
              var clash := updates.email != "" && holder.Some? && holder.value.id != c.id;
              var email := if updates.email != "" then updates.email else old(c.email);
              var phone := if updates.phone != "" then updates.phone else old(c.phone);
              var report := Customers.ValidateFields(c.name, c.email, c.phone);
              && (clash ==> r == Err(EmailInUse) && c.email == old(c.email) && c.phone == old(c.phone) &&
                            c.updatedAt == old(c.updatedAt) && c.allergies == old(c.allergies))
              && (!clash ==> c.email == email && c.phone == phone && c.updatedAt == now)
              && (!clash && !report.isValid ==>
                    r == Err(InvalidCustomer + Text.Join(report.errors, ", ")) && c.allergies == old(c.allergies))
              && (!clash && report.isValid ==>
                    r == Ok(c) && c.allergies == CustomerRepositories.Stored(old(c.allergies)))
    {
      if updates.email != "" {
        var taken := ChangeEmail(c, updates.email);
        if taken {
          return Err(EmailInUse);
        }
      }
      r := Finish(c, if updates.phone != "" then updates.phone else c.phone, now);
    }

    /** The last steps of `updateCustomer`: the phone and timestamp are set, then an invalid
        customer is refused, keeping both, and a valid one is written back. */
    method Finish(c: Customer, phone: string, now: nat) returns (r: Result<Customer>)
      requires customers.Valid() && c in customers.customers
      modifies customers, c`phone, c`updatedAt, c`allergies
      ensures customers.Valid() && customers.customers == old(customers.customers)
      ensures c.phone == phone && c.updatedAt == now
      ensures var report := Customers.ValidateFields(c.name, c.email, phone);
              && (!report.isValid ==>
                    r == Err(InvalidCustomer + Text.Join(report.errors, ", ")) && c.allergies == old(c.allergies))
              && (report.isValid ==>
                    r == Ok(c) && c.allergies == CustomerRepositories.Stored(old(c.allergies)))
    {
      c.phone := phone;
      c.updatedAt := now;
      var validation := c.Validate();
      if !validation.isValid {
        return Err(InvalidCustomer + Text.Join(validation.errors, ", "));
      }
      r := WriteBack(c);
    }

    /** The email step of `updateCustomer`: an email that a customer other than `c` holds
        is refused and nothing changes; otherwise `c` takes it, and emails that were unique
        in the store stay unique. */
    method ChangeEmail(c: Customer, email: string) returns (taken: bool)
      requires customers.Valid() && c in customers.customers
      modifies c`email
      ensures var holder := old(customers.FindByEmail(email));
              taken <==> holder.Some? && holder.value.id != c.id
      ensures taken ==> c.email == old(c.email)
      ensures !taken ==> c.email == email
      ensures old(EmailsUnique(customers.customers)) ==> EmailsUnique(customers.customers)
    {
      var existing := customers.FindByEmail(email);
      if existing.Some? && existing.value.id != c.id {
        return true;
      }
      ghost var wasUnique := EmailsUnique(customers.customers);
      if wasUnique {
        EmailStaysUnique(c, email, existing);
      }
      c.email := email;
      if wasUnique {
        EmailSetStaysUnique(customers.customers, c);
      }
      taken := false;
    }

    /** Giving the stored customer an email that no other customer holds keeps emails
        unique. */
    lemma EmailStaysUnique(c: Customer, email: string, holder: Option<Customer>)
      requires customers.Valid() && c in customers.customers
      requires holder == customers.FindByEmail(email)
      requires holder.Some? ==> holder.value.id == c.id
      requires EmailsUnique(customers.customers)
      ensures forall i :: 0 <= i < |customers.customers| && customers.customers[i] != c ==>
                customers.customers[i].email != email
    {
    }
  }
}
