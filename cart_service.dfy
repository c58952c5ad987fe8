/** The browser-side cart store (frontend/src/app/services/CartService.js): one cart of
    items, each a menu pizza with a quantity, plus the customer and order ids of the
    checkout in progress. The store changes its items and ids in place, so the cart is a
    class; the item lists it moves between are specified by the functions below. */
module Carts {
  import opened Wrappers
  import Keyed

  /** The part of a menu pizza the cart uses: its id and what its `calculatePrice()`
      returns. */
  datatype CartPizza = CartPizza(id: string, unitPrice: real)

  /** `{ pizza, quantity }` */
  datatype CartItem = CartItem(pizza: CartPizza, quantity: int)

  /** The key cart items are merged, found and removed by. */
  function PizzaIdOf(item: CartItem): string {
    item.pizza.id
  }

  /** `quantity || 1`: a left-out or zero quantity counts as one; any other is taken as
      it is, a negative one included. */
  function AmountOf(quantity: Option<int>): (q: int)
    ensures q != 0
    ensures quantity.Some? && quantity.value != 0 ==> q == quantity.value
    ensures quantity.None? || quantity.value == 0 ==> q == 1
  {
    if quantity.None? || quantity.value == 0 then 1 else quantity.value
  }

  /** `items.reduce((sum, item) => sum + item.quantity, 0)` */
  function QuantitySum(items: seq<CartItem>): int {
    if items == [] then 0 else items[0].quantity + QuantitySum(items[1..])
  }

  /** `item.pizza.calculatePrice() * item.quantity` */
  function LineTotal(item: CartItem): real {
    item.pizza.unitPrice * item.quantity as real
  }

  /** `items.reduce((sum, item) => sum + item.pizza.calculatePrice() * item.quantity, 0)` */
  function PriceSum(items: seq<CartItem>): real {
    if items == [] then 0.0 else LineTotal(items[0]) + PriceSum(items[1..])
  }

  /** Both sums split over a concatenation. */
  lemma {:induction false} SumsAppend(a: seq<CartItem>, b: seq<CartItem>)
    ensures QuantitySum(a + b) == QuantitySum(a) + QuantitySum(b)
    ensures PriceSum(a + b) == PriceSum(a) + PriceSum(b)
  {
    if a == [] {
      assert a + b == b;
    } else {
      assert (a + b)[1..] == a[1..] + b;
      SumsAppend(a[1..], b);
    }
  }

  /** A one-item list sums to that item's quantity and price share. */
  lemma SumsOne(x: CartItem)
    ensures QuantitySum([x]) == x.quantity
    ensures PriceSum([x]) == LineTotal(x)
  {
    assert [x][1..] == [];
  }

  /** Adding `q` to an item's quantity adds `q` times its unit price to its share. */
  lemma LineTotalAdd(x: CartItem, q: int)
    ensures LineTotal(Grown(x, q)) == LineTotal(x) + x.pizza.unitPrice * q as real
  {
    assert (x.quantity + q) as real == x.quantity as real + q as real;
  }

  /** Replacing one item changes each sum by the difference of the two items' shares. */
  lemma SumsUpdate(items: seq<CartItem>, i: nat, x: CartItem)
    requires i < |items|
    ensures QuantitySum(items[i := x]) == QuantitySum(items) - items[i].quantity + x.quantity
    ensures PriceSum(items[i := x]) ==
            PriceSum(items) - LineTotal(items[i]) + LineTotal(x)
  {
    var left, right := items[..i], items[i + 1..];
    assert items == left + ([items[i]] + right);
    assert items[i := x] == left + ([x] + right);
    SumsAppend(left, [items[i]] + right);
    SumsAppend(left, [x] + right);
    SumsAppend([items[i]], right);
    SumsAppend([x], right);
  }

  /** The items a removal drops and the items it keeps share the sums between them. */
  lemma {:induction false} SumsRemoveKey(items: seq<CartItem>, pizzaId: string)
    ensures QuantitySum(items) ==
            QuantitySum(Keyed.RemoveKey(items, PizzaIdOf, pizzaId)) +
            QuantitySum(Keyed.WithKey(items, PizzaIdOf, pizzaId))
    ensures PriceSum(items) ==
            PriceSum(Keyed.RemoveKey(items, PizzaIdOf, pizzaId)) +
            PriceSum(Keyed.WithKey(items, PizzaIdOf, pizzaId))
  {
    if items != [] {
      var kept := if PizzaIdOf(items[0]) == pizzaId then [] else [items[0]];
      var dropped := if PizzaIdOf(items[0]) == pizzaId then [items[0]] else [];
      var restKept := Keyed.RemoveKey(items[1..], PizzaIdOf, pizzaId);
      var restDropped := Keyed.WithKey(items[1..], PizzaIdOf, pizzaId);
      assert Keyed.RemoveKey(items, PizzaIdOf, pizzaId) == kept + restKept;
      assert Keyed.WithKey(items, PizzaIdOf, pizzaId) == dropped + restDropped;
      SumsRemoveKey(items[1..], pizzaId);
      SumsAppend(kept, restKept);
      SumsAppend(dropped, restDropped);
      SumsAppend([items[0]], items[1..]);
      assert items == [items[0]] + items[1..];
    }
  }

  /** `addItem(pizza, quantity)` on an item list, `q` being `quantity || 1`: an item for
      the pizza's id has `q` added to its quantity, otherwise a new item goes last. */
  function Added(items: seq<CartItem>, pizza: CartPizza, q: int): (r: seq<CartItem>)
    ensures !Keyed.HasKey(items, PizzaIdOf, pizza.id) ==> r == items + [CartItem(pizza, q)]
    ensures Keyed.HasKey(items, PizzaIdOf, pizza.id) ==> |r| == |items|
  {
    match Keyed.Find(items, PizzaIdOf, pizza.id)
    case Some(i) => items[i := Grown(items[i], q)]
    case None => items + [CartItem(pizza, q)]
  }

  /** An item with `q` more of its pizza. */
  function Grown(item: CartItem, q: int): CartItem {
    item.(quantity := item.quantity + q)
  }

  /** Adding raises the item count by exactly `q`. */
  lemma AddedCount(items: seq<CartItem>, pizza: CartPizza, q: int)
    ensures QuantitySum(Added(items, pizza, q)) == QuantitySum(items) + q
  {
    match Keyed.Find(items, PizzaIdOf, pizza.id)
    case Some(i) =>
      SumsUpdate(items, i, Grown(items[i], q));
    case None =>
      SumsAppend(items, [CartItem(pizza, q)]);
      SumsOne(CartItem(pizza, q));
  }

  /** Adding raises the total by `q` times the unit price of the pizza the item holds: the
      one first added for that id, if any, or the one just passed. */
  lemma AddedTotal(items: seq<CartItem>, pizza: CartPizza, q: int)
    ensures var held := Keyed.Get(items, PizzaIdOf, pizza.id);
            var unitPrice := if held.Some? then held.value.pizza.unitPrice else pizza.unitPrice;
            PriceSum(Added(items, pizza, q)) == PriceSum(items) + unitPrice * q as real
  {
    match Keyed.Find(items, PizzaIdOf, pizza.id)
    case Some(i) =>
      SumsUpdate(items, i, Grown(items[i], q));
      LineTotalAdd(items[i], q);
      assert Keyed.Get(items, PizzaIdOf, pizza.id) == Some(items[i]);
    case None =>
      SumsAppend(items, [CartItem(pizza, q)]);
      SumsOne(CartItem(pizza, q));
  }

  /** Looked up by pizza id after an add, the item holds the summed quantity and the pizza
      it was first added with; every other pizza's item is as it was. */
  lemma AddedGet(items: seq<CartItem>, pizza: CartPizza, q: int, other: string)
    ensures var found := Keyed.Get(Added(items, pizza, q), PizzaIdOf, pizza.id);
            var before := Keyed.Get(items, PizzaIdOf, pizza.id);
            && found.Some?
            && found.value.quantity == (if before.Some? then before.value.quantity + q else q)
            && found.value.pizza == (if before.Some? then before.value.pizza else pizza)
    ensures other != pizza.id ==>
            Keyed.Get(Added(items, pizza, q), PizzaIdOf, other) == Keyed.Get(items, PizzaIdOf, other)
  {
    var r := Added(items, pizza, q);
    var at := match Keyed.Find(items, PizzaIdOf, pizza.id) case Some(i) => i case None => |items|;
    Keyed.FindFirst(r, PizzaIdOf, pizza.id, at);
    assert forall j :: 0 <= j < |items| ==> PizzaIdOf(r[j]) == PizzaIdOf(items[j]);
    match Keyed.Find(items, PizzaIdOf, other)
    case Some(k) =>
      if other != pizza.id {
        Keyed.FindFirst(r, PizzaIdOf, other, k);
      }
    case None =>
      if other != pizza.id {
        assert !Keyed.HasKey(r, PizzaIdOf, other);
      }
  }

  /** Adding keeps one item per pizza id. */
  lemma AddedKeepsUnique(items: seq<CartItem>, pizza: CartPizza, q: int)
    requires Keyed.UniqueKeys(items, PizzaIdOf)
    ensures Keyed.UniqueKeys(Added(items, pizza, q), PizzaIdOf)
  {
    match Keyed.Find(items, PizzaIdOf, pizza.id)
    case Some(i) =>
      Keyed.UpdateKeepsUnique(items, PizzaIdOf, i, Grown(items[i], q));
    case None =>
      Keyed.AppendKeepsUnique(items, PizzaIdOf, CartItem(pizza, q));
  }

  /** Adding a pizza twice is adding it once with the two quantities summed. */
  lemma AddTwice(items: seq<CartItem>, pizza: CartPizza, q1: int, q2: int)
    ensures Added(Added(items, pizza, q1), pizza, q2) == Added(items, pizza, q1 + q2)
  {
    var once := Added(items, pizza, q1);
    match Keyed.Find(items, PizzaIdOf, pizza.id)
    case Some(i) =>
      Keyed.FindFirst(once, PizzaIdOf, pizza.id, i);
    case None =>
      Keyed.FindFirst(once, PizzaIdOf, pizza.id, |items|);
      assert (items + [CartItem(pizza, q1)])[|items| := CartItem(pizza, q1 + q2)] ==
             items + [CartItem(pizza, q1 + q2)];
  }

  /** Removing a pizza undoes adding it: what is left is what removing it from the cart
      before the add leaves. */
  lemma RemoveUndoesAdd(items: seq<CartItem>, pizza: CartPizza, q: int)
    ensures Keyed.RemoveKey(Added(items, pizza, q), PizzaIdOf, pizza.id) ==
            Keyed.RemoveKey(items, PizzaIdOf, pizza.id)
  {
    match Keyed.Find(items, PizzaIdOf, pizza.id)
    case Some(i) =>
      var x := Grown(items[i], q);
      var left, right := items[..i], items[i + 1..];
      assert items == left + ([items[i]] + right);
      assert items[i := x] == left + ([x] + right);
      Keyed.RemoveKeyAppend(left, [items[i]] + right, PizzaIdOf, pizza.id);
      Keyed.RemoveKeyAppend(left, [x] + right, PizzaIdOf, pizza.id);
      Keyed.RemoveKeyAppend([items[i]], right, PizzaIdOf, pizza.id);
      Keyed.RemoveKeyAppend([x], right, PizzaIdOf, pizza.id);
      assert Keyed.RemoveKey([x], PizzaIdOf, pizza.id) == [] == Keyed.RemoveKey([items[i]], PizzaIdOf, pizza.id);
    case None =>
      Keyed.RemoveKeyAppend(items, [CartItem(pizza, q)], PizzaIdOf, pizza.id);
      assert Keyed.RemoveKey([CartItem(pizza, q)], PizzaIdOf, pizza.id) == [];
  }

  /** `removeItem(pizzaId)` on an item list: no item for the id is left, every other
      pizza's item is as it was, the sums drop by exactly the removed items' shares, and
      one item per pizza id stays so. */
  lemma RemovedFacts(items: seq<CartItem>, pizzaId: string, other: string)
    ensures !Keyed.HasKey(Keyed.RemoveKey(items, PizzaIdOf, pizzaId), PizzaIdOf, pizzaId)
    ensures other != pizzaId ==>
            Keyed.Get(Keyed.RemoveKey(items, PizzaIdOf, pizzaId), PizzaIdOf, other) ==
            Keyed.Get(items, PizzaIdOf, other)
    ensures QuantitySum(Keyed.RemoveKey(items, PizzaIdOf, pizzaId)) ==
            QuantitySum(items) - QuantitySum(Keyed.WithKey(items, PizzaIdOf, pizzaId))
    ensures PriceSum(Keyed.RemoveKey(items, PizzaIdOf, pizzaId)) ==
            PriceSum(items) - PriceSum(Keyed.WithKey(items, PizzaIdOf, pizzaId))
    ensures Keyed.UniqueKeys(items, PizzaIdOf) ==>
            Keyed.UniqueKeys(Keyed.RemoveKey(items, PizzaIdOf, pizzaId), PizzaIdOf)
  {
    Keyed.RemoveKeyGet(items, PizzaIdOf, pizzaId, other);
    SumsRemoveKey(items, pizzaId);
    if Keyed.UniqueKeys(items, PizzaIdOf) {
      Keyed.RemoveKeyKeepsUnique(items, PizzaIdOf, pizzaId);
    }
  }

  /** `updateQuantity(pizzaId, quantity)` on an item list: an absent id changes nothing,
      a quantity of 0 or less removes the pizza, any other replaces the first item's
      quantity. */
  function QuantitySet(items: seq<CartItem>, pizzaId: string, quantity: int): (r: seq<CartItem>)
    ensures !Keyed.HasKey(items, PizzaIdOf, pizzaId) ==> r == items
    ensures Keyed.HasKey(items, PizzaIdOf, pizzaId) && quantity <= 0 ==>
            r == Keyed.RemoveKey(items, PizzaIdOf, pizzaId)
    ensures Keyed.HasKey(items, PizzaIdOf, pizzaId) && quantity > 0 ==> |r| == |items|
  {
    match Keyed.Find(items, PizzaIdOf, pizzaId)
    case None => items
    case Some(i) =>
      if quantity <= 0 then Keyed.RemoveKey(items, PizzaIdOf, pizzaId)
      else items[i := Requantified(items[i], quantity)]
  }

  /** An item with its quantity replaced. */
  function Requantified(item: CartItem, quantity: int): CartItem {
    item.(quantity := quantity)
  }

  /** After a positive update the pizza's item has that quantity and every other pizza's
      item is as it was. */
  lemma QuantitySetFacts(items: seq<CartItem>, pizzaId: string, quantity: int, other: string)
    requires Keyed.HasKey(items, PizzaIdOf, pizzaId) && quantity > 0
    ensures var found := Keyed.Get(QuantitySet(items, pizzaId, quantity), PizzaIdOf, pizzaId);
            found.Some? && found.value.quantity == quantity
    ensures other != pizzaId ==>
            Keyed.Get(QuantitySet(items, pizzaId, quantity), PizzaIdOf, other) == Keyed.Get(items, PizzaIdOf, other)
  {
    var i := Keyed.Find(items, PizzaIdOf, pizzaId).value;
    var r := QuantitySet(items, pizzaId, quantity);
    Keyed.FindFirst(r, PizzaIdOf, pizzaId, i);
    assert forall j :: 0 <= j < |items| ==> PizzaIdOf(r[j]) == PizzaIdOf(items[j]);
    if other != pizzaId {
      match Keyed.Find(items, PizzaIdOf, other)
      case Some(k) => Keyed.FindFirst(r, PizzaIdOf, other, k);
      case None =>
    }
  }

  /** After a positive update the item count moves by the difference between the new
      quantity and the one the pizza's item held. */
  lemma QuantitySetCount(items: seq<CartItem>, pizzaId: string, quantity: int)
    requires Keyed.HasKey(items, PizzaIdOf, pizzaId) && quantity > 0
    ensures QuantitySum(QuantitySet(items, pizzaId, quantity)) ==
            QuantitySum(items) - Keyed.Get(items, PizzaIdOf, pizzaId).value.quantity + quantity
  {
    match Keyed.Find(items, PizzaIdOf, pizzaId)
    case Some(i) =>
      SumsUpdate(items, i, Requantified(items[i], quantity));
      assert Keyed.Get(items, PizzaIdOf, pizzaId) == Some(items[i]);
  }

  /** Updating a quantity keeps one item per pizza id. */
  lemma QuantitySetKeepsUnique(items: seq<CartItem>, pizzaId: string, quantity: int)
    requires Keyed.UniqueKeys(items, PizzaIdOf)
    ensures Keyed.UniqueKeys(QuantitySet(items, pizzaId, quantity), PizzaIdOf)
  {
    match Keyed.Find(items, PizzaIdOf, pizzaId)
    case Some(i) =>
      if quantity <= 0 {
        Keyed.RemoveKeyKeepsUnique(items, PizzaIdOf, pizzaId);
      } else {
        Keyed.UpdateKeepsUnique(items, PizzaIdOf, i, Requantified(items[i], quantity));
      }
    case None =>
  }

  /** A quantity of 0 or less is exactly `removeItem`, whether or not the id is present. */
  lemma NonPositiveQuantityRemoves(items: seq<CartItem>, pizzaId: string, quantity: int)
    requires quantity <= 0
    ensures QuantitySet(items, pizzaId, quantity) == Keyed.RemoveKey(items, PizzaIdOf, pizzaId)
  {
    if !Keyed.HasKey(items, PizzaIdOf, pizzaId) {
      Keyed.RemoveKeyAbsent(items, PizzaIdOf, pizzaId);
    }
  }

  class Cart {
    var items: seq<CartItem>
    var customerId: Option<string>
    var orderId: Option<string>

    /** One item per pizza id. */
    ghost predicate OnePerPizza()
      reads this
    {
      Keyed.UniqueKeys(items, PizzaIdOf)
    }

    /** `{ items: [], customerId: null, orderId: null }` */
    constructor ()
      ensures items == [] && customerId == None && orderId == None
      ensures OnePerPizza() && ItemCount() == 0 && Total() == 0.0
    {
      items := [];
      customerId := None;
      orderId := None;
    }

    /** `addItem(pizza, quantity)` */
    method AddItem(pizza: CartPizza, quantity: Option<int>)
      modifies this
      ensures items == Added(old(items), pizza, AmountOf(quantity))
      ensures ItemCount() == old(ItemCount()) + AmountOf(quantity)
      ensures var held := Keyed.Get(old(items), PizzaIdOf, pizza.id);
              var unitPrice := if held.Some? then held.value.pizza.unitPrice else pizza.unitPrice;
              Total() == old(Total()) + unitPrice * AmountOf(quantity) as real
      ensures old(OnePerPizza()) ==> OnePerPizza()
      ensures customerId == old(customerId) && orderId == old(orderId)
    {
      var q := AmountOf(quantity);
      AddedCount(items, pizza, q);
      AddedTotal(items, pizza, q);
      if OnePerPizza() {
        AddedKeepsUnique(items, pizza, q);
      }
      var existing := Keyed.Find(items, PizzaIdOf, pizza.id);
      if existing.Some? {
        var i := existing.value;
        items := items[i := items[i].(quantity := items[i].quantity + q)];
      } else {
        items := items + [CartItem(pizza, q)];
      }
    }

    /** `removeItem(pizzaId)` */
    method RemoveItem(pizzaId: string)
      modifies this
      ensures items == Keyed.RemoveKey(old(items), PizzaIdOf, pizzaId)
      ensures !Keyed.HasKey(items, PizzaIdOf, pizzaId)
      ensures ItemCount() == old(ItemCount()) - QuantitySum(Keyed.WithKey(old(items), PizzaIdOf, pizzaId))
      ensures Total() == old(Total()) - PriceSum(Keyed.WithKey(old(items), PizzaIdOf, pizzaId))
      ensures old(OnePerPizza()) ==> OnePerPizza()
      ensures customerId == old(customerId) && orderId == old(orderId)
    {
      RemovedFacts(items, pizzaId, pizzaId);
      items := Keyed.RemoveKey(items, PizzaIdOf, pizzaId);
    }

    /** `updateQuantity(pizzaId, quantity)` */
    method UpdateQuantity(pizzaId: string, quantity: int)
      modifies this
      ensures items == QuantitySet(old(items), pizzaId, quantity)
      ensures var held := Keyed.Get(old(items), PizzaIdOf, pizzaId);
              held.Some? && quantity > 0 ==> ItemCount() == old(ItemCount()) - held.value.quantity + quantity
      ensures old(OnePerPizza()) ==> OnePerPizza()
      ensures customerId == old(customerId) && orderId == old(orderId)
    {
      var item := Keyed.Find(items, PizzaIdOf, pizzaId);
      if item.Some? {
        if quantity <= 0 {
          RemoveItem(pizzaId);
        } else {
          QuantitySetCount(items, pizzaId, quantity);
          if OnePerPizza() {
            QuantitySetKeepsUnique(items, pizzaId, quantity);
          }
          var i := item.value;
          items := items[i := items[i].(quantity := quantity)];
        }
      }
    }

    /** `getItems()` */
    function Items(): seq<CartItem>
      reads this
    {
      items
    }

    /** `getItemCount()` */
    function ItemCount(): int
      reads this
    {
      QuantitySum(items)
    }

    /** `getTotal()` */
    function Total(): real
      reads this
    {
      PriceSum(items)
    }

    /** `clear()`: the customer id is kept. */
    method Clear()
      modifies this
      ensures items == [] && orderId == None && customerId == old(customerId)
      ensures ItemCount() == 0 && Total() == 0.0 && OnePerPizza()
    {
      items := [];
      orderId := None;
    }

    /** `setOrderId(orderId)` */
    method SetOrderId(id: Option<string>)
      modifies this
      ensures OrderId() == id
      ensures items == old(items) && customerId == old(customerId)
    {
      orderId := id;
    }

    /** `getOrderId()` */
    function OrderId(): Option<string>
      reads this
    {
      orderId
    }

    /** `setCustomerId(customerId)` */
    method SetCustomerId(id: Option<string>)
      modifies this
      ensures CustomerId() == id
      ensures items == old(items) && orderId == old(orderId)
    {
      customerId := id;
    }

    /** `getCustomerId()` */
    function CustomerId(): Option<string>
      reads this
    {
      customerId
    }
  }
}
