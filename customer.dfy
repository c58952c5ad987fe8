/** The Customer entity (backend/src/domain/entities/Customer.js). Its allergy list and
    timestamps change in place, and the repository and services share the stored object,
    so it is a class. */
module Customers {
  import opened Wrappers
  import Ids
  import Text
  import Reports
  import Keyed
  import Allergies

  type Allergy = Allergies.Allergy

  /** One entry of a customer's allergy list: the Allergy value the entity adds, or the
      plain record (its exported fields plus `_encrypted: true`) that the repository writes
      back in its place. */
  datatype AllergyEntry = Plain(allergy: Allergy) | Encrypted(record: Allergies.AllergyJson)

  /** `entry.name`, the key allergies are kept unique by. */
  function NameOf(e: AllergyEntry): string {
    match e
    case Plain(a) => a.name
    case Encrypted(r) => r.name
  }

  const NameRequired := "Customer name is required"
  const EmailInvalid := "Valid email is required"
  const PhoneRequired := "Phone number is required"
  const Messages: seq<string> := [NameRequired, EmailInvalid, PhoneRequired]

  /** No whitespace and no '@': the class `[^\s@]`. */
  predicate Plainchars(s: string) {
    forall i :: 0 <= i < |s| ==> !Text.IsSpace(s[i]) && s[i] != '@'
  }

  /** The pattern `^[^\s@]+@[^\s@]+\.[^\s@]+$` read as its three parts: a local part, a
      domain that may itself hold dots, and a non-empty last label. */
  ghost predicate EmailShape(s: string) {
    exists x: string, y: string, z: string ::
      s == x + "@" + y + "." + z && x != [] && y != [] && z != [] &&
      Plainchars(x) && Plainchars(y) && Plainchars(z)
  }

  /** `isValidEmail(email)`: no whitespace anywhere, a single '@' with something before
      it, and a '.' at least two characters after the '@' and before the last character. */
  predicate IsValidEmail(s: string) {
    NoSpace(s) && exists at :: 0 < at < |s| && s[at] == '@' && OnlyAt(s, at) && DotWithin(s, at + 1, |s| - 1)
  }

  predicate NoSpace(s: string) {
    forall i :: 0 <= i < |s| ==> !Text.IsSpace(s[i])
  }

  /** Position `at` holds the only '@'. */
  predicate OnlyAt(s: string, at: int) {
    forall j :: 0 <= j < |s| && j != at ==> s[j] != '@'
  }

  /** Some '.' strictly between the two positions. */
  predicate DotWithin(s: string, lo: int, hi: int) {
    exists d :: lo < d < hi && 0 <= d < |s| && s[d] == '.'
  }

  /** The check accepts exactly the strings of the pattern's shape. */
  lemma EmailIff(s: string)
    ensures IsValidEmail(s) <==> EmailShape(s)
  {
    if IsValidEmail(s) {
      ShapeOfValidEmail(s);
    }
    if EmailShape(s) {
      ValidEmailOfShape(s);
    }
  }

  /** An accepted string splits at its `@` and at a later dot into three plain parts. */
  lemma ShapeOfValidEmail(s: string)
    requires IsValidEmail(s)
    ensures EmailShape(s)
  {
    var at :| 0 < at < |s| && s[at] == '@' && OnlyAt(s, at) && DotWithin(s, at + 1, |s| - 1);
    var d :| at + 1 < d < |s| - 1 && 0 <= d < |s| && s[d] == '.';
    var x, y, z := s[..at], s[at + 1..d], s[d + 1..];
    assert s == x + "@" + y + "." + z;
    assert Plainchars(x) by {
      forall i | 0 <= i < |x| ensures !Text.IsSpace(x[i]) && x[i] != '@' {
        assert x[i] == s[i];
      }
    }
    assert Plainchars(y) by {
      forall i | 0 <= i < |y| ensures !Text.IsSpace(y[i]) && y[i] != '@' {
        assert y[i] == s[at + 1 + i];
      }
    }
    assert Plainchars(z) by {
      forall i | 0 <= i < |z| ensures !Text.IsSpace(z[i]) && z[i] != '@' {
        assert z[i] == s[d + 1 + i];
      }
    }
  }

  /** Three non-empty plain parts joined by `@` and a dot are accepted. */
  lemma ValidEmailOfShape(s: string)
    requires EmailShape(s)
    ensures IsValidEmail(s)
  {
    var x: string, y: string, z: string :| s == x + "@" + y + "." + z && x != [] && y != [] &&
      z != [] && Plainchars(x) && Plainchars(y) && Plainchars(z);
    var at, d := |x|, |x| + 1 + |y|;
    forall i | 0 <= i < |s| ensures !Text.IsSpace(s[i]) && (s[i] == '@' ==> i == at) {
      JoinedCharAt(x, y, z, i);
    }
    assert NoSpace(s) && OnlyAt(s, at);
    JoinedCharAt(x, y, z, at);
    JoinedCharAt(x, y, z, d);
    assert DotWithin(s, at + 1, |s| - 1);
  }

  /** Each character of `x + "@" + y + "." + z` with plain parts is plain, except the one
      '@' after `x` and the '.' after `y`. */
  lemma JoinedCharAt(x: string, y: string, z: string, i: int)
    requires Plainchars(x) && Plainchars(y) && Plainchars(z)
    requires 0 <= i < |x| + |y| + |z| + 2
    ensures var s := x + "@" + y + "." + z;
            && !Text.IsSpace(s[i])
            && (s[i] == '@' <==> i == |x|)
            && (i == |x| + 1 + |y| ==> s[i] == '.')
  {
    var s := x + "@" + y + "." + z;
    var at, d := |x|, |x| + 1 + |y|;
    if i < at {
      assert s[i] == x[i];
    } else if i == at {
      assert s[i] == '@';
    } else if i < d {
      assert s[i] == y[i - at - 1];
    } else if i == d {
      assert s[i] == '.';
    } else {
      assert s[i] == z[i - d - 1];
    }
  }

  /** The accepted addresses of the customer tests. */
  lemma EmailAccepted()
    ensures IsValidEmail("test@domain.com")
    ensures IsValidEmail("user.name@domain.co.uk")
  {
    var s := "test@domain.com";
    assert s[4] == '@' && OnlyAt(s, 4);
    assert s[11] == '.';
    var t := "user.name@domain.co.uk";
    assert t[9] == '@' && OnlyAt(t, 9);
    assert t[19] == '.';
  }

  /** The rejected addresses of the customer tests: no '@', nothing before it, nothing
      after it. */
  lemma EmailRejected()
    ensures !IsValidEmail("invalid")
    ensures !IsValidEmail("@domain.com")
    ensures !IsValidEmail("user@")
  {
  }

  /** `validate()` on a customer with these fields: name, email, phone, in that order. */
  function ValidateFields(name: string, email: string, phone: string): (r: Reports.Report)
    ensures r.errors == Reports.Select(Messages, [Text.Missing(name), !IsValidEmail(email), Text.Missing(phone)])
    ensures r.isValid <==> r.errors == []
    ensures r.isValid <==> !Text.Missing(name) && IsValidEmail(email) && !Text.Missing(phone)
  {
    var errors := (if Text.Missing(name) then [NameRequired] else [])
                + (if email == "" || !IsValidEmail(email) then [EmailInvalid] else [])
                + (if Text.Missing(phone) then [PhoneRequired] else []);
    Reports.SelectUnrolled(Messages, [Text.Missing(name), !IsValidEmail(email), Text.Missing(phone)]);
    Reports.FromErrors(errors)
  }

  /** Each rule's message is reported exactly when that rule fails. */
  lemma ValidateReportsEachRule(name: string, email: string, phone: string)
    ensures var errors := ValidateFields(name, email, phone).errors;
            && (NameRequired in errors <==> Text.Missing(name))
            && (EmailInvalid in errors <==> !IsValidEmail(email))
            && (PhoneRequired in errors <==> Text.Missing(phone))
  {
    var failing := [Text.Missing(name), !IsValidEmail(email), Text.Missing(phone)];
    assert Keyed.NoDuplicates(Messages);
    Reports.SelectMember(Messages, failing, 0);
    Reports.SelectMember(Messages, failing, 1);
    Reports.SelectMember(Messages, failing, 2);
  }

  /** `allergies.find(a => a.name === allergy.name) ? allergies : allergies.push(allergy)` */
  function WithAllergy(es: seq<AllergyEntry>, a: Allergy): (r: seq<AllergyEntry>)
    ensures Keyed.HasKey(es, NameOf, a.name) ==> r == es
    ensures !Keyed.HasKey(es, NameOf, a.name) ==> r == es + [Plain(a)]
  {
    if Keyed.HasKey(es, NameOf, a.name) then es else es + [Plain(a)]
  }

  /** Allergy names stay unique under adding and removing, and the first allergy with a name
      wins: a later one with the same name, whatever its severity, is not recorded. */
  lemma AllergyNamesStayUnique(es: seq<AllergyEntry>, a: Allergy, name: string)
    requires Keyed.UniqueKeys(es, NameOf)
    ensures Keyed.UniqueKeys(WithAllergy(es, a), NameOf)
    ensures Keyed.UniqueKeys(Keyed.RemoveKey(es, NameOf, name), NameOf)
    ensures Keyed.Get(WithAllergy(es, a), NameOf, a.name) ==
            if Keyed.HasKey(es, NameOf, a.name) then Keyed.Get(es, NameOf, a.name) else Some(Plain(a))
  {
    Keyed.RemoveKeyKeepsUnique(es, NameOf, name);
    if !Keyed.HasKey(es, NameOf, a.name) {
      Keyed.AppendKeepsUnique(es, NameOf, Plain(a));
      Keyed.FindFirst(es + [Plain(a)], NameOf, a.name, |es|);
    }
  }

  /** After adding, the customer has the allergy; after removing, not. */
  lemma HasAllergyAfter(es: seq<AllergyEntry>, a: Allergy, name: string)
    ensures Keyed.HasKey(WithAllergy(es, a), NameOf, a.name)
    ensures !Keyed.HasKey(Keyed.RemoveKey(es, NameOf, name), NameOf, name)
  {
    if !Keyed.HasKey(es, NameOf, a.name) {
      assert (es + [Plain(a)])[|es|] == Plain(a);
    }
  }

  /** The key customers are stored and ordered under. */
  function IdOf(c: Customer): string {
    c.id
  }

  class Customer {
    const id: string
    var name: string
    var email: string
    var phone: string
    var allergies: seq<AllergyEntry>
    const createdAt: nat
    var updatedAt: nat

    /** `new Customer(id, name, email, phone, allergies = [])`; `freshId` is the generated
        id used when `id` is empty, `now` the clock. */
    constructor (id: string, freshId: string, name: string, email: string, phone: string,
                 allergies: Option<seq<AllergyEntry>>, now: nat)
      ensures this.id == Ids.ChooseId(id, freshId)
      ensures this.name == name && this.email == email && this.phone == phone
      ensures this.allergies == (if allergies.Some? then allergies.value else [])
      ensures createdAt == now && updatedAt == now
    {
      this.id := Ids.ChooseId(id, freshId);
      this.name := name;
      this.email := email;
      this.phone := phone;
      this.allergies := if allergies.Some? then allergies.value else [];
      this.createdAt := now;
      this.updatedAt := now;
    }

    /** `addAllergy(allergy)`: appended, and the timestamp moved, only when no allergy with
        its name is recorded. */
    method AddAllergy(a: Allergy, now: nat)
      modifies this
      ensures allergies == WithAllergy(old(allergies), a)
      ensures updatedAt == if Keyed.HasKey(old(allergies), NameOf, a.name) then old(updatedAt) else now
      ensures name == old(name) && email == old(email) && phone == old(phone)
    {
      if Keyed.Find(allergies, NameOf, a.name).None? {
        allergies := allergies + [Plain(a)];
        updatedAt := now;
      }
    }

    /** `removeAllergy(allergyName)`: every allergy with the name goes, the rest keep their
        order; the timestamp moves even when nothing was removed. */
    method RemoveAllergy(allergyName: string, now: nat)
      modifies this
      ensures allergies == Keyed.RemoveKey(old(allergies), NameOf, allergyName)
      ensures updatedAt == now
      ensures name == old(name) && email == old(email) && phone == old(phone)
    {
      allergies := Keyed.RemoveKey(allergies, NameOf, allergyName);
      updatedAt := now;
    }

    /** `hasAllergy(allergyName)` */
    predicate HasAllergy(allergyName: string)
      reads this
    {
      Keyed.HasKey(allergies, NameOf, allergyName)
    }

    /** `validate()` */
    function Validate(): Reports.Report
      reads this
    {
      ValidateFields(name, email, phone)
    }
  }
}
