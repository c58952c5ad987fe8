/** The in-memory topping catalogue (backend/src/domain/repositories/ToppingRepository.js),
    seeded with ten toppings and held as its entries in insertion order. Toppings are
    values, so the store holds them as such. */
module ToppingRepositories {
  import opened Wrappers
  import Text
  import Keyed
  import Toppings

  type Topping = Toppings.Topping

  /** The ten seeded toppings, in seeding order; `ids` are the identifiers generated for
      them, since each is built without one. */
  function Samples(ids: seq<string>): (r: seq<Topping>)
    requires |ids| == 10
    ensures |r| == 10
    ensures forall i :: 0 <= i < 10 ==> r[i].id == ids[i] && r[i].available
  {
    [Toppings.New("", ids[0], "Pepperoni", 1.5, Some(["pork"]), Some(true)),
     Toppings.New("", ids[1], "Mushrooms", 1.0, Some([]), Some(true)),
     Toppings.New("", ids[2], "Olives", 1.0, Some([]), Some(true)),
     Toppings.New("", ids[3], "Extra Cheese", 2.0, Some(["dairy"]), Some(true)),
     Toppings.New("", ids[4], "Bacon", 1.5, Some(["pork"]), Some(true)),
     Toppings.New("", ids[5], "Onions", 0.75, Some([]), Some(true)),
     Toppings.New("", ids[6], "Bell Peppers", 1.0, Some([]), Some(true)),
     Toppings.New("", ids[7], "Sausage", 1.5, Some(["pork"]), Some(true)),
     Toppings.New("", ids[8], "Pineapple", 1.25, Some([]), Some(true)),
     Toppings.New("", ids[9], "Spinach", 1.0, Some([]), Some(true))]
  }

  /** Every seeded topping passes topping validation. */
  lemma SamplesFacts(ids: seq<string>)
    requires |ids| == 10
    ensures forall i :: 0 <= i < 10 ==> Toppings.Validate(Samples(ids)[i]).isValid
  {
    var s := Samples(ids);
    forall i | 0 <= i < 10 ensures Toppings.Validate(s[i]).isValid {
      NamedIsValid(s[i]);
    }
  }

  /** A topping whose name starts with a visible character and whose price is not negative
      is valid. */
  lemma NamedIsValid(t: Topping)
    requires t.name != [] && !Text.IsSpace(t.name[0]) && t.price >= 0.0
    ensures Toppings.Validate(t).isValid
  {
    Text.MissingIffAllSpace(t.name);
  }

  /** `toppings.filter(t => t.available)` */
  function AvailableOf(ts: seq<Topping>): (r: seq<Topping>)
    ensures |r| <= |ts|
    ensures forall i :: 0 <= i < |r| ==> r[i] in ts && r[i].available
    ensures forall i :: 0 <= i < |ts| && ts[i].available ==> ts[i] in r
  {
    if ts == [] then []
    else (if ts[0].available then [ts[0]] else []) + AvailableOf(ts[1..])
  }

  class ToppingRepository {
    var toppings: seq<Topping>

    ghost predicate Valid()
      reads this
    {
      Keyed.UniqueKeys(toppings, Toppings.IdOf)
    }

    /** `new ToppingRepository()`: saves the ten samples one by one. */
    constructor (freshIds: seq<string>)
      requires |freshIds| == 10 && Keyed.NoDuplicates(freshIds)
      ensures Valid() && toppings == Samples(freshIds)
    {
      toppings := [];
      new;
      var samples := Samples(freshIds);
      for k := 0 to 10
        invariant Valid() && toppings == samples[..k]
      {
        assert !Keyed.HasKey(toppings, Toppings.IdOf, samples[k].id) by {
          forall j | 0 <= j < k ensures Toppings.IdOf(toppings[j]) != samples[k].id {
            assert toppings[j] == samples[j];
          }
        }
        assert samples[..k + 1] == samples[..k] + [samples[k]];
        Save(samples[k]);
      }
    }

    /** `findById(id)` */
    function FindById(id: string): (r: Option<Topping>)
      reads this
      ensures r.None? <==> !Keyed.HasKey(toppings, Toppings.IdOf, id)
      ensures r.Some? ==> r.value.id == id && r.value in toppings
    {
      Keyed.Get(toppings, Toppings.IdOf, id)
    }

    /** `findAll()` */
    function FindAll(): seq<Topping>
      reads this
    {
      toppings
    }

    /** `findAvailable()`: exactly the stored toppings marked available. */
    function FindAvailable(): (r: seq<Topping>)
      reads this
      ensures forall i :: 0 <= i < |r| ==> r[i] in toppings && r[i].available
      ensures forall i :: 0 <= i < |toppings| && toppings[i].available ==> toppings[i] in r
    {
      AvailableOf(toppings)
    }

    /** `save(topping)`: an upsert under `topping.id`. */
    method Save(topping: Topping)
      requires Valid()
      modifies this
      ensures Valid()
      ensures toppings == Keyed.Upsert(old(toppings), Toppings.IdOf, topping)
      ensures FindById(topping.id) == Some(topping)
    {
      Keyed.UpsertKeepsUnique(toppings, Toppings.IdOf, topping);
      Keyed.UpsertGet(toppings, Toppings.IdOf, topping);
      toppings := Keyed.Upsert(toppings, Toppings.IdOf, topping);
    }

    /** `delete(id)` */
    method Delete(id: string) returns (present: bool)
      requires Valid()
      modifies this
      ensures Valid()
      ensures present == Keyed.HasKey(old(toppings), Toppings.IdOf, id)
      ensures toppings == Keyed.RemoveKey(old(toppings), Toppings.IdOf, id)
      ensures FindById(id).None?
    {
      present := Keyed.Find(toppings, Toppings.IdOf, id).Some?;
      Keyed.RemoveKeyKeepsUnique(toppings, Toppings.IdOf, id);
      Keyed.RemoveKeyGet(toppings, Toppings.IdOf, id, id);
      toppings := Keyed.RemoveKey(toppings, Toppings.IdOf, id);
    }
  }
}
