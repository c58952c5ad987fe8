/** The in-memory pizza catalogue (backend/src/domain/repositories/PizzaRepository.js):
    seeded with three pizzas and held, like the order store, as its entries in insertion
    order. The entries are the Pizza objects themselves, shared with every caller. */
module PizzaRepositories {
  import opened Wrappers
  import Text
  import Keyed
  import Toppings
  import Pizzas

  type Pizza = Pizzas.Pizza

  /** `p.name.toLowerCase().includes(query.toLowerCase())` */
  predicate NameMatches(p: Pizza, query: string) {
    Text.Contains(Text.ToLower(p.name), Text.ToLower(query))
  }

  /** `pizzas.filter(p => …)`: the pizzas whose name matches, in list order. */
  function Named(ps: seq<Pizza>, query: string): (r: seq<Pizza>)
    ensures |r| <= |ps|
    ensures forall i :: 0 <= i < |r| ==> r[i] in ps && NameMatches(r[i], query)
    ensures forall i :: 0 <= i < |ps| && NameMatches(ps[i], query) ==> ps[i] in r
  {
    if ps == [] then []
    else (if NameMatches(ps[0], query) then [ps[0]] else []) + Named(ps[1..], query)
  }

  /** A single pizza is listed exactly when its name matches. */
  lemma NamedOne(p: Pizza, query: string)
    ensures Named([p], query) == if NameMatches(p, query) then [p] else []
  {
    assert [p][1..] == [];
  }

  /** The search distributes over concatenation, so its result keeps the catalogue's
      order. */
  lemma {:induction false} NamedAppend(a: seq<Pizza>, b: seq<Pizza>, query: string)
    ensures Named(a + b, query) == Named(a, query) + Named(b, query)
  {
    if a == [] {
      assert a + b == b;
    } else {
      assert (a + b)[1..] == a[1..] + b;
      NamedAppend(a[1..], b, query);
    }
  }

  /** The empty query matches every name, so it lists the whole catalogue. */
  lemma {:induction false} EmptyQueryListsAll(ps: seq<Pizza>)
    ensures Named(ps, "") == ps
  {
    if ps != [] {
      Text.ContainsEmpty(Text.ToLower(ps[0].name));
      EmptyQueryListsAll(ps[1..]);
    }
  }

  /** The search ignores the case of the query. */
  lemma {:induction false} QueryCaseIgnored(ps: seq<Pizza>, query: string)
    ensures Named(ps, Text.ToLower(query)) == Named(ps, query)
  {
    Text.LowerIdempotent(query);
    if ps != [] {
      QueryCaseIgnored(ps[1..], query);
    }
  }

  /** What the three seeded pizzas cost: each is medium, so its base price plus its
      toppings is multiplied by 1.3. */
  lemma SamplePrices(pepperoni: Toppings.Topping, mushrooms: Toppings.Topping, olives: Toppings.Topping)
    requires pepperoni.price == 1.5 && mushrooms.price == 1.0 && olives.price == 1.0
    ensures Pizzas.PriceOf(8.99, "medium", []) == 11.687
    ensures Pizzas.PriceOf(10.99, "medium", [pepperoni]) == 16.237
    ensures Pizzas.PriceOf(9.99, "medium", [mushrooms, olives]) == 15.587
  {
    assert [pepperoni][..0] == [];
    assert [mushrooms, olives][..1] == [mushrooms];
    assert [mushrooms][..0] == [];
    assert Pizzas.ToppingsTotal([pepperoni]) == 1.5;
    assert Pizzas.ToppingsTotal([mushrooms]) == 1.0;
    assert Pizzas.ToppingsTotal([mushrooms, olives]) == 2.0;
  }

  class PizzaRepository {
    var pizzas: seq<Pizza>

    ghost predicate Valid()
      reads this
    {
      Keyed.UniqueKeys(pizzas, Pizzas.IdOf)
    }

    /** `new PizzaRepository()`: builds five sample toppings and three sample pizzas, each
        with a generated id (`freshIds`, in construction order), and saves the pizzas.
        The toppings are only put on the pizzas; they are not the topping catalogue's. */
    constructor (freshIds: seq<string>, now: nat)
      requires |freshIds| == 8 && Keyed.NoDuplicates(freshIds[5..])
      ensures Valid() && |pizzas| == 3
      ensures pizzas[0].name == "Margherita" && pizzas[0].basePrice == 8.99
      ensures pizzas[1].name == "Pepperoni" && pizzas[1].basePrice == 10.99
      ensures pizzas[2].name == "Vegetarian" && pizzas[2].basePrice == 9.99
      ensures forall i :: 0 <= i < 3 ==> pizzas[i].size == "medium" && pizzas[i].id == freshIds[5 + i]
      ensures pizzas[0].toppings == [] && pizzas[0].allergens == ["dairy", "gluten"]
      ensures pizzas[1].toppings == [Toppings.New("", freshIds[0], "Pepperoni", 1.5, Some(["pork"]), None)]
      ensures pizzas[1].allergens == ["dairy", "gluten", "pork"]
      ensures pizzas[2].toppings == [Toppings.New("", freshIds[1], "Mushrooms", 1.0, Some([]), None),
                                     Toppings.New("", freshIds[2], "Olives", 1.0, Some([]), None)]
      ensures pizzas[2].allergens == ["dairy", "gluten"]
    {
      var pepperoni := Toppings.New("", freshIds[0], "Pepperoni", 1.5, Some(["pork"]), None);
      var mushrooms := Toppings.New("", freshIds[1], "Mushrooms", 1.0, Some([]), None);
      var olives := Toppings.New("", freshIds[2], "Olives", 1.0, Some([]), None);
      var cheese := Toppings.New("", freshIds[3], "Extra Cheese", 2.0, Some(["dairy"]), None);
      var bacon := Toppings.New("", freshIds[4], "Bacon", 1.5, Some(["pork"]), None);
      var margherita := new Pizzas.Pizza("", freshIds[5], "Margherita", 8.99, "medium",
                                         Some([]), Some(["dairy", "gluten"]), now);
      var pepperoniPizza := new Pizzas.Pizza("", freshIds[6], "Pepperoni", 10.99, "medium",
                                             Some([pepperoni]), Some(["dairy", "gluten", "pork"]), now);
      var veggie := new Pizzas.Pizza("", freshIds[7], "Vegetarian", 9.99, "medium",
                                     Some([mushrooms, olives]), Some(["dairy", "gluten"]), now);
      pizzas := [];
      new;
      assert freshIds[5..][0] == freshIds[5] && freshIds[5..][1] == freshIds[6] && freshIds[5..][2] == freshIds[7];
      SaveAll(margherita, pepperoniPizza, veggie);
    }

    /** The three `save` calls of the seeding, into the empty catalogue. */
    method SaveAll(first: Pizza, second: Pizza, third: Pizza)
      requires pizzas == [] && first.id != second.id && first.id != third.id && second.id != third.id
      modifies this
      ensures Valid() && pizzas == [first, second, third]
    {
      var _ := Save(first);
      assert pizzas == [first];
      assert !Keyed.HasKey([first], Pizzas.IdOf, second.id);
      var _ := Save(second);
      assert pizzas == [first, second];
      assert !Keyed.HasKey([first, second], Pizzas.IdOf, third.id);
      var _ := Save(third);
    }

    /** `findById(id)`: the stored pizza itself, or null. */
    function FindById(id: string): (r: Option<Pizza>)
      reads this
      ensures r.None? <==> !Keyed.HasKey(pizzas, Pizzas.IdOf, id)
      ensures r.Some? ==> r.value.id == id && r.value in pizzas
    {
      Keyed.Get(pizzas, Pizzas.IdOf, id)
    }

    /** `findAll()` */
    function FindAll(): seq<Pizza>
      reads this
    {
      pizzas
    }

    /** `findByName(name)`: a case-insensitive substring search over the names. */
    function FindByName(query: string): (r: seq<Pizza>)
      reads this
      ensures forall i :: 0 <= i < |r| ==> r[i] in pizzas && NameMatches(r[i], query)
      ensures forall i :: 0 <= i < |pizzas| && NameMatches(pizzas[i], query) ==> pizzas[i] in r
    {
      Named(pizzas, query)
    }

    /** `save(pizza)`: an upsert under `pizza.id`. */
    method Save(pizza: Pizza) returns (r: Pizza)
      requires Valid()
      modifies this
      ensures Valid() && r == pizza
      ensures pizzas == Keyed.Upsert(old(pizzas), Pizzas.IdOf, pizza)
      ensures FindById(pizza.id) == Some(pizza)
    {
      Keyed.UpsertKeepsUnique(pizzas, Pizzas.IdOf, pizza);
      Keyed.UpsertGet(pizzas, Pizzas.IdOf, pizza);
      pizzas := Keyed.Upsert(pizzas, Pizzas.IdOf, pizza);
      r := pizza;
    }

    /** `delete(id)` */
    method Delete(id: string) returns (present: bool)
      requires Valid()
      modifies this
      ensures Valid()
      ensures present == Keyed.HasKey(old(pizzas), Pizzas.IdOf, id)
      ensures pizzas == Keyed.RemoveKey(old(pizzas), Pizzas.IdOf, id)
      ensures FindById(id).None?
    {
      present := Keyed.Find(pizzas, Pizzas.IdOf, id).Some?;
      Keyed.RemoveKeyKeepsUnique(pizzas, Pizzas.IdOf, id);
      Keyed.RemoveKeyGet(pizzas, Pizzas.IdOf, id, id);
      pizzas := Keyed.RemoveKey(pizzas, Pizzas.IdOf, id);
    }
  }
}
