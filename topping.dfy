/** The Topping entity (backend/src/domain/entities/Topping.js). No operation of the
    domain changes a topping once built, so it is a value. */
module Toppings {
  import opened Wrappers
  import Ids
  import Text
  import Reports
  import Keyed

  datatype Topping = Topping(id: string, name: string, price: real, allergens: seq<string>,
                             available: bool)

  const NameRequired := "Topping name is required"
  const PriceInvalid := "Price must be 0 or greater"
  const Messages: seq<string> := [NameRequired, PriceInvalid]

  /** `new Topping(id, name, price, allergens = [], available = true)`; None is an omitted
      argument and `freshId` the identifier generated when `id` is empty. */
  function New(id: string, freshId: string, name: string, price: real,
               allergens: Option<seq<string>>, available: Option<bool>): (t: Topping)
    ensures id != "" ==> t.id == id
    ensures t.name == name && t.price == price
    ensures allergens.None? ==> t.allergens == []
    ensures allergens.Some? ==> t.allergens == allergens.value
    ensures available.None? ==> t.available
    ensures available.Some? ==> t.available == available.value
  {
    Topping(Ids.ChooseId(id, freshId), name, price,
            match allergens case Some(a) => a case None => [],
            match available case Some(b) => b case None => true)
  }

  /** The key toppings are kept unique by. */
  function IdOf(t: Topping): string {
    t.id
  }

  /** `t.validate()`: a price of zero is accepted. */
  function Validate(t: Topping): (r: Reports.Report)
    ensures r.errors == Reports.Select(Messages, [Text.Missing(t.name), t.price < 0.0])
    ensures r.isValid <==> r.errors == []
    ensures r.isValid <==> !Text.Missing(t.name) && t.price >= 0.0
  {
    var errors := (if Text.Missing(t.name) then [NameRequired] else [])
                + (if t.price < 0.0 then [PriceInvalid] else []);
    Reports.SelectUnrolled(Messages, [Text.Missing(t.name), t.price < 0.0]);
    Reports.FromErrors(errors)
  }

  /** Each rule's message is reported exactly when that rule fails. */
  lemma ValidateReportsEachRule(t: Topping)
    ensures var errors := Validate(t).errors;
            && (NameRequired in errors <==> Text.Missing(t.name))
            && (PriceInvalid in errors <==> t.price < 0.0)
  {
    var failing := [Text.Missing(t.name), t.price < 0.0];
    assert Keyed.NoDuplicates(Messages);
    Reports.SelectMember(Messages, failing, 0);
    Reports.SelectMember(Messages, failing, 1);
  }

  /** `toppings.flatMap(t => t.allergens)`: every topping's allergens, in list order. */
  function AllergensOf(ts: seq<Topping>): (r: seq<string>)
    ensures forall a :: a in r <==> exists i :: 0 <= i < |ts| && a in ts[i].allergens
  {
    if ts == [] then []
    else ts[0].allergens + AllergensOf(ts[1..])
  }

  lemma {:induction false} AllergensOfAppend(a: seq<Topping>, b: seq<Topping>)
    ensures AllergensOf(a + b) == AllergensOf(a) + AllergensOf(b)
  {
    if a == [] {
      assert a + b == b;
    } else {
      assert (a + b)[1..] == a[1..] + b;
      AllergensOfAppend(a[1..], b);
    }
  }
}
