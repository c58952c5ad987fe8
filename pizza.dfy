/** The Pizza entity (backend/src/domain/entities/Pizza.js), the aggregate that holds
    toppings. Its topping and allergen lists are changed in place by the entity and by the
    pizza service, and orders keep references to it, so it is a class. */
module Pizzas {
  import opened Wrappers
  import Ids
  import Text
  import Reports
  import Keyed
  import Toppings

  type Topping = Toppings.Topping

  const Sizes: seq<string> := ["small", "medium", "large"]

  const NameRequired := "Pizza name is required"
  const BasePriceInvalid := "Base price must be greater than 0"
  const SizeInvalid := "Size must be small, medium, or large"
  const Messages: seq<string> := [NameRequired, BasePriceInvalid, SizeInvalid]

  /** `sizeMultiplier[size] || 1.0`: any size outside the table prices like a small. */
  function Multiplier(size: string): (m: real)
    ensures size == "medium" ==> m == 1.3
    ensures size == "large" ==> m == 1.6
    ensures size != "medium" && size != "large" ==> m == 1.0
    ensures m >= 1.0
  {
    if size == "small" then 1.0
    else if size == "medium" then 1.3
    else if size == "large" then 1.6
    else 1.0
  }

  /** `toppings.reduce((sum, t) => sum + t.price, 0)` */
  function ToppingsTotal(ts: seq<Topping>): real {
    if ts == [] then 0.0 else ToppingsTotal(ts[..|ts| - 1]) + ts[|ts| - 1].price
  }

  /** Toppings that all have a price of zero or more add up to zero or more. */
  lemma {:induction false} ToppingsTotalNonNegative(ts: seq<Topping>)
    requires forall i :: 0 <= i < |ts| ==> ts[i].price >= 0.0
    ensures ToppingsTotal(ts) >= 0.0
  {
    if ts != [] {
      var init := ts[..|ts| - 1];
      assert forall i :: 0 <= i < |init| ==> init[i] == ts[i];
      ToppingsTotalNonNegative(init);
    }
  }

  lemma {:induction false} ToppingsTotalAppend(a: seq<Topping>, b: seq<Topping>)
    ensures ToppingsTotal(a + b) == ToppingsTotal(a) + ToppingsTotal(b)
  {
    if b != [] {
      var b' := b[..|b| - 1];
      assert (a + b)[..|a + b| - 1] == a + b';
      assert (a + b)[|a + b| - 1] == b[|b| - 1];
      ToppingsTotalAppend(a, b');
    } else {
      assert a + b == a;
    }
  }

  /** `calculatePrice()` on a pizza with these fields. */
  function PriceOf(basePrice: real, size: string, ts: seq<Topping>): real {
    (basePrice + ToppingsTotal(ts)) * Multiplier(size)
  }

  /** The priced examples of the pizza and order tests: 10.00 small, medium and large, and
      10.00 medium with toppings of 1.5 and 1.0; a price never depends on allergens. */
  lemma PriceExamples(t1: Topping, t2: Topping)
    requires t1.price == 1.5 && t2.price == 1.0
    ensures PriceOf(10.0, "small", []) == 10.0
    ensures PriceOf(10.0, "medium", []) == 13.0
    ensures PriceOf(10.0, "large", []) == 16.0
    ensures PriceOf(10.0, "medium", [t1, t2]) == 16.25
    ensures PriceOf(12.0, "large", []) == 19.2
  {
    assert [t1, t2][..1] == [t1];
    assert [t1][..0] == [];
    assert ToppingsTotal([t1]) == 1.5;
    assert ToppingsTotal([t1, t2]) == 2.5;
  }

  /** `toppings.find(t => t.id === topping.id) ? toppings : toppings.push(topping)` */
  function WithTopping(ts: seq<Topping>, t: Topping): (r: seq<Topping>)
    ensures Keyed.HasKey(ts, Toppings.IdOf, t.id) ==> r == ts
    ensures !Keyed.HasKey(ts, Toppings.IdOf, t.id) ==> r == ts + [t]
  {
    if Keyed.HasKey(ts, Toppings.IdOf, t.id) then ts else ts + [t]
  }

  /** Adding keeps topping ids unique, always leaves one topping with the id, and adding
      the same topping twice is adding it once. */
  lemma WithToppingProperties(ts: seq<Topping>, t: Topping)
    ensures Keyed.UniqueKeys(ts, Toppings.IdOf) ==> Keyed.UniqueKeys(WithTopping(ts, t), Toppings.IdOf)
    ensures Keyed.HasKey(WithTopping(ts, t), Toppings.IdOf, t.id)
    ensures WithTopping(WithTopping(ts, t), t) == WithTopping(ts, t)
  {
    var r := WithTopping(ts, t);
    if !Keyed.HasKey(ts, Toppings.IdOf, t.id) {
      assert r[|ts|] == t;
      if Keyed.UniqueKeys(ts, Toppings.IdOf) {
        Keyed.AppendKeepsUnique(ts, Toppings.IdOf, t);
      }
    }
  }

  /** Adding a new topping raises the price by its price times the size multiplier; adding
      one whose id is present leaves the price as it was. */
  lemma PriceWithTopping(basePrice: real, size: string, ts: seq<Topping>, t: Topping)
    ensures PriceOf(basePrice, size, WithTopping(ts, t)) ==
            PriceOf(basePrice, size, ts) +
            (if Keyed.HasKey(ts, Toppings.IdOf, t.id) then 0.0 else t.price * Multiplier(size))
  {
    if !Keyed.HasKey(ts, Toppings.IdOf, t.id) {
      assert (ts + [t])[..|ts|] == ts;
    }
  }

  /** The total without the topping at one place is the total less its price. */
  lemma ToppingsTotalWithout(ts: seq<Topping>, i: nat)
    requires i < |ts|
    ensures ToppingsTotal(ts[..i] + ts[i + 1..]) == ToppingsTotal(ts) - ts[i].price
  {
    Keyed.SplitAt(ts, i);
    ToppingsTotalAround(ts[..i], ts[i], ts[i + 1..]);
  }

  lemma ToppingsTotalAround(left: seq<Topping>, t: Topping, right: seq<Topping>)
    ensures ToppingsTotal(left + [t] + right) == ToppingsTotal(left + right) + t.price
  {
    assert ToppingsTotal([t]) == t.price by { assert [t][..0] == []; }
    ToppingsTotalAppend(left + [t], right);
    ToppingsTotalAppend(left, [t]);
    ToppingsTotalAppend(left, right);
  }

  /** Removing the one topping with a given id takes its price times the multiplier off. */
  lemma PriceWithoutTopping(basePrice: real, size: string, ts: seq<Topping>, i: nat)
    requires Keyed.UniqueKeys(ts, Toppings.IdOf) && i < |ts|
    ensures PriceOf(basePrice, size, Keyed.RemoveKey(ts, Toppings.IdOf, ts[i].id)) ==
            PriceOf(basePrice, size, ts) - ts[i].price * Multiplier(size)
  {
    Keyed.UniqueKeysAt(ts, Toppings.IdOf, i);
    Keyed.RemoveKeyAt(ts, Toppings.IdOf, i);
    PriceWithoutAt(basePrice, size, ts, i);
  }

  lemma PriceWithoutAt(basePrice: real, size: string, ts: seq<Topping>, i: nat)
    requires i < |ts|
    ensures PriceOf(basePrice, size, ts[..i] + ts[i + 1..]) ==
            PriceOf(basePrice, size, ts) - ts[i].price * Multiplier(size)
  {
    var fewer := ts[..i] + ts[i + 1..];
    ToppingsTotalWithout(ts, i);
    PriceOfLess(basePrice, size, fewer, ts, ts[i].price);
    assert PriceOf(basePrice, size, fewer) == PriceOf(basePrice, size, ts) - ts[i].price * Multiplier(size);
  }

  /** Toppings worth p less make the pizza p times the multiplier cheaper. */
  lemma PriceOfLess(basePrice: real, size: string, fewer: seq<Topping>, ts: seq<Topping>, p: real)
    requires ToppingsTotal(fewer) == ToppingsTotal(ts) - p
    ensures PriceOf(basePrice, size, fewer) == PriceOf(basePrice, size, ts) - p * Multiplier(size)
  {
    var m, total := Multiplier(size), ToppingsTotal(ts);
    assert (basePrice + (total - p)) * m == (basePrice + total) * m - p * m;
  }

  /** Removing a topping just added gives the list back. */
  lemma RemoveUndoesAdd(ts: seq<Topping>, t: Topping)
    requires !Keyed.HasKey(ts, Toppings.IdOf, t.id)
    ensures Keyed.RemoveKey(WithTopping(ts, t), Toppings.IdOf, t.id) == ts
  {
    Keyed.RemoveKeyAppend(ts, [t], Toppings.IdOf, t.id);
    Keyed.RemoveKeyAbsent(ts, Toppings.IdOf, t.id);
    assert Keyed.RemoveKey([t], Toppings.IdOf, t.id) == [];
  }

  /** `hasAllergen(a)` on a pizza with these lists: a declared allergen, or one carried by
      some topping. */
  predicate HasAllergenIn(allergens: seq<string>, ts: seq<Topping>, a: string): (r: bool)
    ensures r <==> a in allergens || exists i :: 0 <= i < |ts| && a in ts[i].allergens
  {
    a in allergens || a in Toppings.AllergensOf(ts)
  }

  /** `validate()` on a pizza with these fields: name, base price, size, in that order. */
  function ValidateFields(name: string, basePrice: real, size: string): (r: Reports.Report)
    ensures r.errors == Reports.Select(Messages, [Text.Missing(name), basePrice <= 0.0, size !in Sizes])
    ensures r.isValid <==> r.errors == []
    ensures r.isValid <==> !Text.Missing(name) && basePrice > 0.0 && size in Sizes
  {
    var errors := (if Text.Missing(name) then [NameRequired] else [])
                + (if basePrice <= 0.0 then [BasePriceInvalid] else [])
                + (if size !in Sizes then [SizeInvalid] else []);
    Reports.SelectUnrolled(Messages, [Text.Missing(name), basePrice <= 0.0, size !in Sizes]);
    Reports.FromErrors(errors)
  }

  /** Each rule's message is reported exactly when that rule fails. */
  lemma ValidateReportsEachRule(name: string, basePrice: real, size: string)
    ensures var errors := ValidateFields(name, basePrice, size).errors;
            && (NameRequired in errors <==> Text.Missing(name))
            && (BasePriceInvalid in errors <==> basePrice <= 0.0)
            && (SizeInvalid in errors <==> size !in Sizes)
  {
    var failing := [Text.Missing(name), basePrice <= 0.0, size !in Sizes];
    assert Keyed.NoDuplicates(Messages);
    Reports.SelectMember(Messages, failing, 0);
    Reports.SelectMember(Messages, failing, 1);
    Reports.SelectMember(Messages, failing, 2);
  }

  /** The key pizzas are stored and ordered under. */
  function IdOf(p: Pizza): string {
    p.id
  }

  class Pizza {
    const id: string
    const name: string
    const basePrice: real
    const size: string
    var toppings: seq<Topping>
    var allergens: seq<string>
    const createdAt: nat

    /** `new Pizza(id, name, basePrice, size, toppings = [], allergens = [])`; `freshId` is
        the generated id used when `id` is empty, `now` the clock. */
    constructor (id: string, freshId: string, name: string, basePrice: real, size: string,
                 toppings: Option<seq<Topping>>, allergens: Option<seq<string>>, now: nat)
      ensures this.id == Ids.ChooseId(id, freshId)
      ensures this.name == name && this.basePrice == basePrice && this.size == size
      ensures this.toppings == (if toppings.Some? then toppings.value else [])
      ensures this.allergens == (if allergens.Some? then allergens.value else [])
      ensures createdAt == now
    {
      this.id := Ids.ChooseId(id, freshId);
      this.name := name;
      this.basePrice := basePrice;
      this.size := size;
      this.toppings := if toppings.Some? then toppings.value else [];
      this.allergens := if allergens.Some? then allergens.value else [];
      this.createdAt := now;
    }

    /** `addTopping(topping)`: appended unless a topping with its id is present; the
        allergen list is left alone. */
    method AddTopping(t: Topping)
      modifies this
      ensures toppings == WithTopping(old(toppings), t)
      ensures allergens == old(allergens)
    {
      if Keyed.Find(toppings, Toppings.IdOf, t.id).None? {
        toppings := toppings + [t];
      }
    }

    /** `removeTopping(toppingId)`: every topping with the id goes, the rest keep their
        order; the allergen list is left alone. */
    method RemoveTopping(toppingId: string)
      modifies this
      ensures toppings == Keyed.RemoveKey(old(toppings), Toppings.IdOf, toppingId)
      ensures allergens == old(allergens)
    {
      toppings := Keyed.RemoveKey(toppings, Toppings.IdOf, toppingId);
    }

    /** `calculatePrice()` */
    function Price(): real
      reads this
    {
      PriceOf(basePrice, size, toppings)
    }

    /** `hasAllergen(allergen)` */
    predicate HasAllergen(a: string)
      reads this
    {
      HasAllergenIn(allergens, toppings, a)
    }

    /** `validate()` */
    function Validate(): Reports.Report
      reads this
    {
      ValidateFields(name, basePrice, size)
    }
  }
}
