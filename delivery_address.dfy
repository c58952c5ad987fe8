/** The DeliveryAddress value object (backend/src/domain/value-objects/DeliveryAddress.js). */
module Addresses {
  import opened Wrappers
  import Text
  import Reports
  import Keyed

  datatype Address = Address(street: string, city: string, state: string, zipCode: string,
                             country: string, instructions: string)

  /** What `toJSON` exposes: all six fields. */
  datatype AddressJson = AddressJson(street: string, city: string, state: string, zipCode: string,
                                     country: string, instructions: string)

  const StreetRequired := "Street address is required"
  const CityRequired := "City is required"
  const StateRequired := "State is required"
  const ZipRequired := "Valid ZIP code is required"
  const Messages: seq<string> := [StreetRequired, CityRequired, StateRequired, ZipRequired]

  /** `new DeliveryAddress(street, city, state, zipCode, country = 'USA', instructions = '')`;
      None is an omitted (undefined) argument. */
  function New(street: string, city: string, state: string, zipCode: string,
               country: Option<string>, instructions: Option<string>): (a: Address)
    ensures a.street == street && a.city == city && a.state == state && a.zipCode == zipCode
    ensures country.None? ==> a.country == "USA"
    ensures country.Some? ==> a.country == country.value
    ensures instructions.None? ==> a.instructions == ""
    ensures instructions.Some? ==> a.instructions == instructions.value
  {
    Address(street, city, state, zipCode,
            match country case Some(c) => c case None => "USA",
            match instructions case Some(i) => i case None => "")
  }

  /** `a.equals(b)`: every field but the delivery instructions. */
  function Equals(a: Address, b: Address): (r: bool)
    ensures r <==> a.(instructions := b.instructions) == b
  {
    a.street == b.street && a.city == b.city && a.state == b.state &&
    a.zipCode == b.zipCode && a.country == b.country
  }

  /** The regular expression `^\d{5}(-\d{4})?$`. */
  predicate IsZip(s: string) {
    (|s| == 5 && Text.AllDigits(s)) ||
    (|s| == 10 && Text.AllDigits(s[..5]) && s[5] == '-' && Text.AllDigits(s[6..]))
  }

  /** A ZIP code is five digits, optionally followed by a dash and four digits. */
  lemma ZipShape(s: string)
    ensures IsZip(s) <==>
      exists five, tail :: s == five + tail && |five| == 5 && Text.AllDigits(five) &&
        (tail == "" || (|tail| == 5 && tail[0] == '-' && Text.AllDigits(tail[1..])))
  {
    if IsZip(s) {
      assert s == s[..5] + s[5..];
      if |s| == 10 {
        assert s[5..][1..] == s[6..];
      } else {
        forall i | 0 <= i < 5 ensures Text.IsDigit(s[..5][i]) { assert s[..5][i] == s[i]; }
      }
    }
    if exists five, tail :: s == five + tail && |five| == 5 && Text.AllDigits(five) &&
        (tail == "" || (|tail| == 5 && tail[0] == '-' && Text.AllDigits(tail[1..]))) {
      var five, tail :| s == five + tail && |five| == 5 && Text.AllDigits(five) &&
        (tail == "" || (|tail| == 5 && tail[0] == '-' && Text.AllDigits(tail[1..])));
      assert s[..5] == five;
      if tail != "" {
        assert s[6..] == tail[1..];
      }
    }
  }

  lemma ZipExamples()
    ensures IsZip("12345") && IsZip("12345-6789")
    ensures !IsZip("invalid") && !IsZip("1234") && !IsZip("12345-678")
  {
  }

  /** `a.validate()` */
  function Validate(a: Address): (r: Reports.Report)
    ensures r.errors == Reports.Select(Messages,
      [Text.Missing(a.street), Text.Missing(a.city), Text.Missing(a.state), !IsZip(a.zipCode)])
    ensures r.isValid <==> r.errors == []
    ensures r.isValid <==> !Text.Missing(a.street) && !Text.Missing(a.city) &&
                           !Text.Missing(a.state) && IsZip(a.zipCode)
  {
    var errors := (if Text.Missing(a.street) then [StreetRequired] else [])
                + (if Text.Missing(a.city) then [CityRequired] else [])
                + (if Text.Missing(a.state) then [StateRequired] else [])
                + (if a.zipCode == "" || !IsZip(a.zipCode) then [ZipRequired] else []);
    Reports.SelectUnrolled(Messages, [Text.Missing(a.street), Text.Missing(a.city), Text.Missing(a.state), !IsZip(a.zipCode)]);
    Reports.FromErrors(errors)
  }

  lemma MessagesDistinct()
    ensures Keyed.NoDuplicates(Messages)
  {
    assert StreetRequired[0] == 'S' && CityRequired[0] == 'C' && StateRequired[0] == 'S';
    assert ZipRequired[0] == 'V' && StreetRequired[2] == 'r' && StateRequired[2] == 'a';
  }

  /** Each rule's message is reported exactly when that rule fails. */
  lemma ValidateReportsEachRule(a: Address)
    ensures var errors := Validate(a).errors;
            && (StreetRequired in errors <==> Text.Missing(a.street))
            && (CityRequired in errors <==> Text.Missing(a.city))
            && (StateRequired in errors <==> Text.Missing(a.state))
            && (ZipRequired in errors <==> !IsZip(a.zipCode))
  {
    var failing := [Text.Missing(a.street), Text.Missing(a.city), Text.Missing(a.state), !IsZip(a.zipCode)];
    var errors := Validate(a).errors;
    MessagesDistinct();
    Reports.SelectEach(Messages, failing);
    assert Messages[0] == StreetRequired && Messages[1] == CityRequired;
    assert Messages[2] == StateRequired && Messages[3] == ZipRequired;
  }

  /** `a.toString()`: "street, city, state zip, country". */
  function ToString(a: Address): (r: string)
    ensures |r| == |a.street| + |a.city| + |a.state| + |a.zipCode| + |a.country| + 7
    ensures r[..|a.street|] == a.street
    ensures r[|r| - |a.country|..] == a.country
  {
    a.street + ", " + a.city + ", " + a.state + " " + a.zipCode + ", " + a.country
  }

  /** `a.toJSON()`: rebuilding from the exported fields gives the same address. */
  function ToJson(a: Address): (j: AddressJson)
    ensures New(j.street, j.city, j.state, j.zipCode, Some(j.country), Some(j.instructions)) == a
  {
    AddressJson(a.street, a.city, a.state, a.zipCode, a.country, a.instructions)
  }

  lemma RoundTripEquals(a: Address)
    ensures var j := ToJson(a);
            Equals(New(j.street, j.city, j.state, j.zipCode, Some(j.country), Some(j.instructions)), a)
  {
  }
}
