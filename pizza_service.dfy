/** The pizza service (backend/src/domain/services/PizzaService.js): builds custom pizzas
    from catalogue toppings and keeps a stored pizza's allergen list in step with its
    toppings. A thrown Error is an `Err` carrying its message. */
module PizzaServices {
  import opened Wrappers
  import Text
  import Keyed
  import Toppings
  import Pizzas
  import PizzaRepositories
  import ToppingRepositories

  type Topping = Toppings.Topping
  type Pizza = Pizzas.Pizza

  const PizzaNotFound := "Pizza not found"
  const ToppingNotFound := "Topping not found"
  const InvalidPizza := "Invalid pizza: "

  /** The allergens every pizza base carries. */
  const BaseAllergens: seq<string> := ["dairy", "gluten"]

  function MissingTopping(id: string): string {
    "Topping " + id + " not found"
  }

  function Unavailable(name: string): string {
    "Topping " + name + " is not available"
  }

  /** A topping id the catalogue holds, for a topping that is available. */
  predicate Usable(catalogue: seq<Topping>, id: string) {
    match Keyed.Get(catalogue, Toppings.IdOf, id)
    case Some(t) => t.available
    case None => false
  }

  /** The error an unusable id raises: not found, or found but unavailable. */
  function FailureOf(catalogue: seq<Topping>, id: string): string {
    match Keyed.Get(catalogue, Toppings.IdOf, id)
    case Some(t) => Unavailable(t.name)
    case None => MissingTopping(id)
  }

  /** The topping-gathering loop of `createCustomPizza`: each id is looked up in order,
      and the first one missing or unavailable stops it with its error. */
  function Resolve(catalogue: seq<Topping>, ids: seq<string>): (r: Result<seq<Topping>>)
    ensures r.Ok? ==> |r.value| == |ids|
    ensures r.Ok? ==> forall i :: 0 <= i < |ids| ==>
              Keyed.Get(catalogue, Toppings.IdOf, ids[i]) == Some(r.value[i]) && r.value[i].available
    decreases |ids|
  {
    if ids == [] then Ok([])
    else
      match Resolve(catalogue, ids[..|ids| - 1])
      case Err(m) => Err(m)
      case Ok(ts) =>
        var id := ids[|ids| - 1];
        match Keyed.Get(catalogue, Toppings.IdOf, id)
        case None => Err(MissingTopping(id))
        case Some(t) => if !t.available then Err(Unavailable(t.name)) else Ok(ts + [t])
  }

  /** Gathering succeeds exactly when every id is usable; otherwise it fails with the error of
      the first id that is not. */
  lemma {:induction false} ResolveOutcome(catalogue: seq<Topping>, ids: seq<string>)
    ensures Resolve(catalogue, ids).Ok? <==> forall i :: 0 <= i < |ids| ==> Usable(catalogue, ids[i])
    ensures Resolve(catalogue, ids).Err? ==>
              exists k :: 0 <= k < |ids| && !Usable(catalogue, ids[k]) &&
                          (forall j :: 0 <= j < k ==> Usable(catalogue, ids[j])) &&
                          Resolve(catalogue, ids).message == FailureOf(catalogue, ids[k])
    decreases |ids|
  {
    if ids != [] {
      var front := ids[..|ids| - 1];
      ResolveOutcome(catalogue, front);
      assert forall i :: 0 <= i < |front| ==> front[i] == ids[i];
      if Resolve(catalogue, front).Ok? {
        var k := |ids| - 1;
        if !Usable(catalogue, ids[k]) {
          assert forall j :: 0 <= j < k ==> Usable(catalogue, ids[j]);
        }
      }
    }
  }

  /** Once a prefix of the ids fails, the whole list fails with the same error. */
  lemma {:induction false} ResolveErrSticks(catalogue: seq<Topping>, ids: seq<string>, k: nat)
    requires k <= |ids| && Resolve(catalogue, ids[..k]).Err?
    ensures Resolve(catalogue, ids) == Resolve(catalogue, ids[..k])
    decreases |ids| - k
  {
    if k < |ids| {
      var front := ids[..|ids| - 1];
      assert front[..k] == ids[..k];
      ResolveErrSticks(catalogue, front, k);
    } else {
      assert ids[..k] == ids;
    }
  }

  /** `[...new Set(toppings.flatMap(t => t.allergens))]` followed by the base allergens. */
  function CreatedAllergens(ts: seq<Topping>): seq<string> {
    Keyed.Distinct(Toppings.AllergensOf(ts)) + BaseAllergens
  }

  /** A custom pizza lists exactly the base allergens and its toppings' allergens; the base
      allergens are pushed after deduplication, so a dairy topping puts "dairy" in the list
      twice. */
  lemma CreatedAllergensFacts(ts: seq<Topping>, cheese: Topping)
    requires cheese.allergens == ["dairy"]
    ensures forall a :: a in CreatedAllergens(ts) <==>
              a in BaseAllergens || exists i :: 0 <= i < |ts| && a in ts[i].allergens
    ensures CreatedAllergens([cheese]) == ["dairy", "dairy", "gluten"]
  {
    var all := Toppings.AllergensOf(ts);
    var d := Keyed.Distinct(all);
    Keyed.DistinctFacts(all);
    forall a ensures a in d <==> a in all {
      if a in all {
        var i :| 0 <= i < |all| && all[i] == a;
      }
    }
    assert [cheese][1..] == [];
    assert Toppings.AllergensOf([cheese]) == ["dairy"];
    assert ["dairy"][..0] == [];
  }

  /** `[...new Set([...pizza.allergens, ...topping.allergens])]`, done only when the
      topping declares allergens. */
  function AddedAllergens(current: seq<string>, added: seq<string>): seq<string> {
    if |added| > 0 then Keyed.Distinct(current + added) else current
  }

  /** Adding keeps every allergen already listed, in its place when the list had no
      duplicates, and adds exactly the topping's. */
  lemma AddedAllergensFacts(current: seq<string>, added: seq<string>)
    ensures forall a :: a in AddedAllergens(current, added) <==> a in current || a in added
    ensures Keyed.NoDuplicates(current) ==> Keyed.NoDuplicates(AddedAllergens(current, added))
    ensures Keyed.NoDuplicates(current) ==>
              |AddedAllergens(current, added)| >= |current| &&
              AddedAllergens(current, added)[..|current|] == current
  {
    if |added| > 0 {
      var all := current + added;
      Keyed.DistinctFacts(all);
      forall a ensures a in Keyed.Distinct(all) <==> a in all {
        if a in all {
          var i :| 0 <= i < |all| && all[i] == a;
        }
      }
      if Keyed.NoDuplicates(current) {
        Keyed.DistinctKeepsPrefix(current, added);
      }
    }
  }

  /** `['dairy', 'gluten']` plus every remaining topping's allergens, deduplicated. */
  function RecomputedAllergens(ts: seq<Topping>): seq<string> {
    Keyed.Distinct(BaseAllergens + Toppings.AllergensOf(ts))
  }

  /** After a removal the list is rebuilt from scratch: the base allergens first, then
      exactly the remaining toppings' allergens, with no duplicates; an allergen only the
      removed topping carried is gone. */
  lemma RecomputedAllergensFacts(ts: seq<Topping>)
    ensures forall a :: a in RecomputedAllergens(ts) <==>
              a in BaseAllergens || exists i :: 0 <= i < |ts| && a in ts[i].allergens
    ensures Keyed.NoDuplicates(RecomputedAllergens(ts))
    ensures |RecomputedAllergens(ts)| >= 2 && RecomputedAllergens(ts)[..2] == BaseAllergens
  {
    var all := BaseAllergens + Toppings.AllergensOf(ts);
    Keyed.DistinctFacts(all);
    forall a ensures a in Keyed.Distinct(all) <==> a in all {
      if a in all {
        var i :| 0 <= i < |all| && all[i] == a;
      }
    }
    Keyed.DistinctKeepsPrefix(BaseAllergens, Toppings.AllergensOf(ts));
  }

  /** `{ hasConflicts, conflicts }` */
  datatype AllergenCheck = AllergenCheck(hasConflicts: bool, conflicts: seq<string>)

  /** `allergens.filter(allergen => pizza.hasAllergen(allergen))` */
  function ConflictsOf(p: Pizza, allergens: seq<string>): (r: seq<string>)
    reads p
    ensures |r| <= |allergens|
    ensures forall a :: a in r <==> a in allergens && p.HasAllergen(a)
  {
    if allergens == [] then []
    else (if p.HasAllergen(allergens[0]) then [allergens[0]] else []) + ConflictsOf(p, allergens[1..])
  }

  /** The filter of a single allergen keeps it exactly when the pizza has it. */
  lemma ConflictsOfOne(p: Pizza, a: string)
    ensures ConflictsOf(p, [a]) == if p.HasAllergen(a) then [a] else []
  {
    assert [a][1..] == [];
  }

  /** Filtering distributes over concatenation: the conflicts keep the input's order and
      every repetition of a conflicting allergen. */
  lemma {:induction false} ConflictsOfAppend(p: Pizza, a: seq<string>, b: seq<string>)
    ensures ConflictsOf(p, a + b) == ConflictsOf(p, a) + ConflictsOf(p, b)
  {
    if a == [] {
      assert a + b == b;
    } else {
      assert (a + b)[1..] == a[1..] + b;
      ConflictsOfAppend(p, a[1..], b);
    }
  }

  class PizzaService {
    const pizzas: PizzaRepositories.PizzaRepository
    const toppings: ToppingRepositories.ToppingRepository

    constructor (pizzas: PizzaRepositories.PizzaRepository, toppings: ToppingRepositories.ToppingRepository)
      ensures this.pizzas == pizzas && this.toppings == toppings
    {
      this.pizzas := pizzas;
      this.toppings := toppings;
    }

    /** The loop of `createCustomPizza` over `toppingIds`. */
    method ResolveToppings(toppingIds: seq<string>) returns (r: Result<seq<Topping>>)
      ensures r == Resolve(toppings.toppings, toppingIds)
    {
      var found: seq<Topping> := [];
      for k := 0 to |toppingIds|
        invariant Resolve(toppings.toppings, toppingIds[..k]) == Ok(found)
      {
        assert toppingIds[..k + 1][..k] == toppingIds[..k];
        var t := toppings.FindById(toppingIds[k]);
        if t.None? {
          ResolveErrSticks(toppings.toppings, toppingIds, k + 1);
          return Err(MissingTopping(toppingIds[k]));
        }
        if !t.value.available {
          ResolveErrSticks(toppings.toppings, toppingIds, k + 1);
          return Err(Unavailable(t.value.name));
        }
        found := found + [t.value];
      }
      assert toppingIds[..|toppingIds|] == toppingIds;
      r := Ok(found);
    }

    /** `createCustomPizza(name, basePrice, size, toppingIds)`: `freshId` is the id
        generated for the new pizza, `now` the clock. */
    method CreateCustomPizza(name: string, basePrice: real, size: string, toppingIds: seq<string>,
                             freshId: string, now: nat) returns (r: Result<Pizza>)
      requires pizzas.Valid()
      modifies pizzas
      ensures pizzas.Valid()
      ensures Resolve(toppings.toppings, toppingIds).Err? ==>
                r == Err(Resolve(toppings.toppings, toppingIds).message) && pizzas.pizzas == old(pizzas.pizzas)
      ensures Resolve(toppings.toppings, toppingIds).Ok? && !Pizzas.ValidateFields(name, basePrice, size).isValid ==>
                r == Err(InvalidPizza + Text.Join(Pizzas.ValidateFields(name, basePrice, size).errors, ", ")) &&
                pizzas.pizzas == old(pizzas.pizzas)
      ensures Resolve(toppings.toppings, toppingIds).Ok? && Pizzas.ValidateFields(name, basePrice, size).isValid ==>
                r.Ok? && fresh(r.value) && r.value.id == freshId &&
                r.value.name == name && r.value.basePrice == basePrice && r.value.size == size &&
                r.value.toppings == Resolve(toppings.toppings, toppingIds).value &&
                r.value.allergens == CreatedAllergens(r.value.toppings) &&
                pizzas.pizzas == Keyed.Upsert(old(pizzas.pizzas), Pizzas.IdOf, r.value)
    {
      var resolved := ResolveToppings(toppingIds);
      if resolved.Err? {
        return Err(resolved.message);
      }
      r := Build(name, basePrice, size, resolved.value, freshId, now);
    }

    /** The part of `createCustomPizza` after the toppings are resolved: a new pizza over
        `ts`, validated, then saved. */
    method Build(name: string, basePrice: real, size: string, ts: seq<Topping>,
                 freshId: string, now: nat) returns (r: Result<Pizza>)
      requires pizzas.Valid()
      modifies pizzas
      ensures pizzas.Valid()
      ensures !Pizzas.ValidateFields(name, basePrice, size).isValid ==>
                r == Err(InvalidPizza + Text.Join(Pizzas.ValidateFields(name, basePrice, size).errors, ", ")) &&
                pizzas.pizzas == old(pizzas.pizzas)
      ensures Pizzas.ValidateFields(name, basePrice, size).isValid ==>
                r.Ok? && fresh(r.value) && r.value.id == freshId &&
                r.value.name == name && r.value.basePrice == basePrice && r.value.size == size &&
                r.value.toppings == ts && r.value.allergens == CreatedAllergens(ts) &&
                pizzas.pizzas == Keyed.Upsert(old(pizzas.pizzas), Pizzas.IdOf, r.value)
    {
      ghost var stored := pizzas.pizzas;
      var pizza := new Pizzas.Pizza("", freshId, name, basePrice, size, Some(ts), Some(CreatedAllergens(ts)), now);
      assert pizzas.pizzas == stored && pizzas.Valid();
      var validation := pizza.Validate();
      assert validation == Pizzas.ValidateFields(name, basePrice, size);
      if !validation.isValid {
        return Err(InvalidPizza + Text.Join(validation.errors, ", "));
      }
      var saved := pizzas.Save(pizza);
      assert saved.toppings == ts && saved.allergens == CreatedAllergens(ts);
      r := Ok(saved);
    }

    /** The pizza `findById` hands out for an id, as a frame. */
    function Found(pizzaId: string): set<Pizza>
      reads this, pizzas
    {
      match pizzas.FindById(pizzaId)
      case Some(p) => {p}
      case None => {}
    }

    /** `addToppingToPizza(pizzaId, toppingId)`: the stored pizza is changed in place; the
        catalogue's entries stay as they were. */
    method AddToppingToPizza(pizzaId: string, toppingId: string) returns (r: Result<Pizza>)
      requires pizzas.Valid()
      modifies pizzas, Found(pizzaId)
      ensures pizzas.Valid() && pizzas.pizzas == old(pizzas.pizzas)
      ensures old(pizzas.FindById(pizzaId)).None? ==> r == Err(PizzaNotFound)
      ensures old(pizzas.FindById(pizzaId)).Some? && toppings.FindById(toppingId).None? ==>
                r == Err(ToppingNotFound)
      ensures old(pizzas.FindById(pizzaId)).Some? && toppings.FindById(toppingId).Some? &&
              !toppings.FindById(toppingId).value.available ==>
                r == Err(Unavailable(toppings.FindById(toppingId).value.name))
      ensures old(pizzas.FindById(pizzaId)).Some? && toppings.FindById(toppingId).Some? &&
                toppings.FindById(toppingId).value.available ==>
                r.Ok?
      ensures r.Err? ==> unchanged(Found(pizzaId))
      ensures r.Ok? ==>
                var p := r.value;
                var t := toppings.FindById(toppingId).value;
                old(pizzas.FindById(pizzaId)) == Some(p) &&
                toppings.FindById(toppingId).Some? && t.available &&
                p.toppings == Pizzas.WithTopping(old(p.toppings), t) &&
                p.allergens == AddedAllergens(old(p.allergens), t.allergens)
    {
      var found := pizzas.FindById(pizzaId);
      if found.None? {
        return Err(PizzaNotFound);
      }
      var pizza := found.value;
      var topping := toppings.FindById(toppingId);
      if topping.None? {
        return Err(ToppingNotFound);
      }
      var t := topping.value;
      if !t.available {
        return Err(Unavailable(t.name));
      }
      pizza.AddTopping(t);
      if |t.allergens| > 0 {
        pizza.allergens := Keyed.Distinct(pizza.allergens + t.allergens);
      }
      var i :| 0 <= i < |pizzas.pizzas| && pizzas.pizzas[i] == pizza;
      Keyed.UpsertStored(pizzas.pizzas, Pizzas.IdOf, i);
      ghost var catalogue := toppings.toppings;
      var saved := pizzas.Save(pizza);
      assert toppings.toppings == catalogue;
      r := Ok(saved);
    }

    /** `removeToppingFromPizza(pizzaId, toppingId)`: the stored pizza loses every topping
        with the id and its allergen list is rebuilt from what remains. */
    method RemoveToppingFromPizza(pizzaId: string, toppingId: string) returns (r: Result<Pizza>)
      requires pizzas.Valid()
      modifies pizzas, Found(pizzaId)
      ensures pizzas.Valid() && pizzas.pizzas == old(pizzas.pizzas)
      ensures old(pizzas.FindById(pizzaId)).None? ==> r == Err(PizzaNotFound)
      ensures old(pizzas.FindById(pizzaId)).Some? ==> r.Ok?
      ensures r.Err? ==> unchanged(Found(pizzaId))
      ensures r.Ok? ==>
                var p := r.value;
                old(pizzas.FindById(pizzaId)) == Some(p) &&
                p.toppings == Keyed.RemoveKey(old(p.toppings), Toppings.IdOf, toppingId) &&
                p.allergens == RecomputedAllergens(p.toppings)
    {
      var found := pizzas.FindById(pizzaId);
      if found.None? {
        return Err(PizzaNotFound);
      }
      var pizza := found.value;
      pizza.RemoveTopping(toppingId);
      pizza.allergens := RecomputedAllergens(pizza.toppings);
      var i :| 0 <= i < |pizzas.pizzas| && pizzas.pizzas[i] == pizza;
      Keyed.UpsertStored(pizzas.pizzas, Pizzas.IdOf, i);
      ghost var catalogue := toppings.toppings;
      var saved := pizzas.Save(pizza);
      assert toppings.toppings == catalogue;
      r := Ok(saved);
    }

    /** `getAllPizzas()` */
    function AllPizzas(): (r: seq<Pizza>)
      reads this, pizzas
      ensures forall id :: pizzas.FindById(id).Some? ==> pizzas.FindById(id).value in r
    {
      pizzas.FindAll()
    }

    /** `getPizzaById(id)` */
    function PizzaById(id: string): (r: Result<Pizza>)
      reads this, pizzas
      ensures r.Err? <==> pizzas.FindById(id).None?
      ensures r.Err? ==> r.message == PizzaNotFound
      ensures r.Ok? ==> r.value in pizzas.pizzas && r.value.id == id
    {
      match pizzas.FindById(id)
      case Some(p) => Ok(p)
      case None => Err(PizzaNotFound)
    }

    /** `getAllToppings()`: only the available ones. */
    function AllToppings(): (r: seq<Topping>)
      reads this, toppings
      ensures forall i :: 0 <= i < |r| ==> r[i] in toppings.toppings && r[i].available
      ensures forall i :: 0 <= i < |toppings.toppings| && toppings.toppings[i].available ==>
                toppings.toppings[i] in r
    {
      toppings.FindAvailable()
    }

    /** `checkAllergens(pizzaId, allergens)` */
    function CheckAllergens(pizzaId: string, allergens: seq<string>): (r: Result<AllergenCheck>)
      reads this, pizzas, pizzas.pizzas
      ensures r.Err? <==> pizzas.FindById(pizzaId).None?
      ensures r.Err? ==> r.message == PizzaNotFound
      ensures r.Ok? ==> r.value.conflicts == ConflictsOf(pizzas.FindById(pizzaId).value, allergens)
      ensures r.Ok? ==> forall a :: a in r.value.conflicts <==>
                          a in allergens && pizzas.FindById(pizzaId).value.HasAllergen(a)
      ensures r.Ok? ==> (r.value.hasConflicts <==>
                          exists a :: a in allergens && pizzas.FindById(pizzaId).value.HasAllergen(a))
    {
      match pizzas.FindById(pizzaId)
      case None => Err(PizzaNotFound)
      case Some(p) =>
        var conflicts := ConflictsOf(p, allergens);
        assert |conflicts| > 0 ==> conflicts[0] in conflicts;
        Ok(AllergenCheck(|conflicts| > 0, conflicts))
    }
  }
}
