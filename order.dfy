/** The Order entity (backend/src/domain/entities/Order.js), the aggregate root of an
    order: its items, address, payment, status and timestamp change in place, so it is a
    class. An item keeps a reference to the catalogue pizza it was added from, not a copy. */
module Orders {
  import opened Wrappers
  import Ids
  import Text
  import Reports
  import Keyed
  import Addresses
  import Payments
  import Pizzas

  /** `pending, confirmed, preparing, delivering, delivered, cancelled` */
  datatype Status = Pending | Confirmed | Preparing | Delivering | Delivered | Cancelled

  /** `{ pizzaId, pizza, quantity, price }`; `pizza` is the very Pizza object that was
      added, so later edits to that pizza are visible through the item. */
  datatype OrderItem = OrderItem(pizzaId: string, pizza: Pizzas.Pizza, quantity: int, price: real)

  /** An item's price: the unit price times the quantity. */
  function LinePrice(unitPrice: real, quantity: int): real {
    unitPrice * quantity as real
  }

  /** The key order items are merged and removed by. */
  function PizzaIdOf(item: OrderItem): string {
    item.pizzaId
  }

  const CustomerRequired := "Customer ID is required"
  const ItemsRequired := "Order must have at least one item"
  const AddressRequired := "Delivery address is required"
  const PaymentRequired := "Payment information is required"
  const Messages: seq<string> := [CustomerRequired, ItemsRequired, AddressRequired, PaymentRequired]
  const ConfirmPrefix := "Cannot confirm order: "
  const CancelDelivered := "Cannot cancel a delivered order"

  /** `addItem(pizza, quantity)` on an item list, `unitPrice` being what
      `pizza.calculatePrice()` returns at the call: an item for the pizza's id has the
      quantity added and its price recomputed, otherwise a new item goes last. */
  function AddedItems(items: seq<OrderItem>, pizza: Pizzas.Pizza, unitPrice: real, quantity: int)
    : (r: seq<OrderItem>)
    ensures !Keyed.HasKey(items, PizzaIdOf, pizza.id) ==>
            r == items + [OrderItem(pizza.id, pizza, quantity, LinePrice(unitPrice, quantity))]
    ensures Keyed.HasKey(items, PizzaIdOf, pizza.id) ==> |r| == |items|
  {
    match Keyed.Find(items, PizzaIdOf, pizza.id)
    case Some(i) => Bumped(items, i, unitPrice, quantity)
    case None => items + [OrderItem(pizza.id, pizza, quantity, LinePrice(unitPrice, quantity))]
  }

  /** The item at `i` with `quantity` more of it, repriced at the unit price. */
  function Bumped(items: seq<OrderItem>, i: nat, unitPrice: real, quantity: int): seq<OrderItem>
    requires i < |items|
  {
    items[i := BumpedItem(items[i], unitPrice, quantity)]
  }

  function BumpedItem(item: OrderItem, unitPrice: real, quantity: int): OrderItem {
    var q := item.quantity + quantity;
    item.(quantity := q, price := LinePrice(unitPrice, q))
  }

  /** Looked up by pizza id after an add: the item holds the summed quantity priced at the
      unit price, and an item that was already there keeps the pizza reference it was
      first added with. */
  lemma AddedItemsGet(items: seq<OrderItem>, pizza: Pizzas.Pizza, unitPrice: real, quantity: int)
    ensures var found := Keyed.Get(AddedItems(items, pizza, unitPrice, quantity), PizzaIdOf, pizza.id);
            var before := Keyed.Get(items, PizzaIdOf, pizza.id);
            && found.Some?
            && found.value.quantity == (if before.Some? then before.value.quantity + quantity else quantity)
            && found.value.price == LinePrice(unitPrice, found.value.quantity)
            && found.value.pizza == (if before.Some? then before.value.pizza else pizza)
  {
    match Keyed.Find(items, PizzaIdOf, pizza.id)
    case Some(i) =>
      assert Keyed.Get(items, PizzaIdOf, pizza.id) == Some(items[i]);
      FoundAfterBump(items, pizza, unitPrice, quantity, i);
    case None =>
      Keyed.FindFirst(AddedItems(items, pizza, unitPrice, quantity), PizzaIdOf, pizza.id, |items|);
  }

  lemma FoundAfterBump(items: seq<OrderItem>, pizza: Pizzas.Pizza, unitPrice: real, quantity: int, i: nat)
    requires Keyed.Find(items, PizzaIdOf, pizza.id) == Some(i)
    ensures Keyed.Get(AddedItems(items, pizza, unitPrice, quantity), PizzaIdOf, pizza.id) ==
            Some(BumpedItem(items[i], unitPrice, quantity))
  {
    var r := AddedItems(items, pizza, unitPrice, quantity);
    AddedItemsAt(items, pizza, unitPrice, quantity, i);
    assert forall j :: 0 <= j < |items| ==> PizzaIdOf(r[j]) == PizzaIdOf(items[j]);
    Keyed.FindFirst(r, PizzaIdOf, pizza.id, i);
  }

  /** After an add, every other pizza's item is as it was. */
  lemma AddedItemsGetOther(items: seq<OrderItem>, pizza: Pizzas.Pizza, unitPrice: real, quantity: int, other: string)
    requires other != pizza.id
    ensures Keyed.Get(AddedItems(items, pizza, unitPrice, quantity), PizzaIdOf, other) ==
            Keyed.Get(items, PizzaIdOf, other)
  {
    var r := AddedItems(items, pizza, unitPrice, quantity);
    assert forall j :: 0 <= j < |items| ==> PizzaIdOf(r[j]) == PizzaIdOf(items[j]);
    match Keyed.Find(items, PizzaIdOf, other)
    case Some(k) =>
      Keyed.FindFirst(r, PizzaIdOf, other, k);
    case None =>
      assert !Keyed.HasKey(r, PizzaIdOf, other);
  }

  /** Adding keeps one item per pizza id. */
  lemma AddedItemsKeepsUnique(items: seq<OrderItem>, pizza: Pizzas.Pizza, unitPrice: real, quantity: int)
    requires Keyed.UniqueKeys(items, PizzaIdOf)
    ensures Keyed.UniqueKeys(AddedItems(items, pizza, unitPrice, quantity), PizzaIdOf)
  {
    match Keyed.Find(items, PizzaIdOf, pizza.id)
    case Some(i) =>
      var q := items[i].quantity + quantity;
      Keyed.UpdateKeepsUnique(items, PizzaIdOf, i, items[i].(quantity := q, price := LinePrice(unitPrice, q)));
    case None =>
      Keyed.AppendKeepsUnique(items, PizzaIdOf, OrderItem(pizza.id, pizza, quantity, LinePrice(unitPrice, quantity)));
  }

  /** Adding a pizza twice at one unit price is adding it once with the two quantities
      summed: the test that adds 1 and then 2 ends with one item of quantity 3. */
  lemma AddTwice(items: seq<OrderItem>, pizza: Pizzas.Pizza, unitPrice: real, q1: int, q2: int)
    ensures AddedItems(AddedItems(items, pizza, unitPrice, q1), pizza, unitPrice, q2) ==
            AddedItems(items, pizza, unitPrice, q1 + q2)
  {
    match Keyed.Find(items, PizzaIdOf, pizza.id)
    case Some(i) => AddTwiceExisting(items, pizza, unitPrice, q1, q2, i);
    case None => AddTwiceNew(items, pizza, unitPrice, q1, q2);
  }

  lemma AddTwiceExisting(items: seq<OrderItem>, pizza: Pizzas.Pizza, unitPrice: real, q1: int, q2: int, i: nat)
    requires Keyed.Find(items, PizzaIdOf, pizza.id) == Some(i)
    ensures AddedItems(AddedItems(items, pizza, unitPrice, q1), pizza, unitPrice, q2) ==
            AddedItems(items, pizza, unitPrice, q1 + q2)
  {
    var once := AddedItems(items, pizza, unitPrice, q1);
    AddedItemsAt(items, pizza, unitPrice, q1, i);
    assert forall j :: 0 <= j < |items| ==> PizzaIdOf(once[j]) == PizzaIdOf(items[j]);
    Keyed.FindFirst(once, PizzaIdOf, pizza.id, i);
    AddedItemsAt(once, pizza, unitPrice, q2, i);
    AddedItemsAt(items, pizza, unitPrice, q1 + q2, i);
    BumpedTwice(items, i, unitPrice, q1, q2);
  }

  lemma BumpedTwice(items: seq<OrderItem>, i: nat, unitPrice: real, q1: int, q2: int)
    requires i < |items|
    ensures Bumped(Bumped(items, i, unitPrice, q1), i, unitPrice, q2) == Bumped(items, i, unitPrice, q1 + q2)
  {
    var x := items[i];
    assert Bumped(items, i, unitPrice, q1)[i] == BumpedItem(x, unitPrice, q1);
    assert x.quantity + q1 + q2 == x.quantity + (q1 + q2);
    assert BumpedItem(BumpedItem(x, unitPrice, q1), unitPrice, q2) == BumpedItem(x, unitPrice, q1 + q2);
  }

  lemma AddTwiceNew(items: seq<OrderItem>, pizza: Pizzas.Pizza, unitPrice: real, q1: int, q2: int)
    requires !Keyed.HasKey(items, PizzaIdOf, pizza.id)
    ensures AddedItems(AddedItems(items, pizza, unitPrice, q1), pizza, unitPrice, q2) ==
            AddedItems(items, pizza, unitPrice, q1 + q2)
  {
    var item := OrderItem(pizza.id, pizza, q1, LinePrice(unitPrice, q1));
    var once := items + [item];
    Keyed.FindFirst(once, PizzaIdOf, pizza.id, |items|);
    AddedItemsAt(once, pizza, unitPrice, q2, |items|);
    assert once[|items| := BumpedItem(item, unitPrice, q2)] ==
           items + [OrderItem(pizza.id, pizza, q1 + q2, LinePrice(unitPrice, q1 + q2))];
  }

  /** `items.reduce((sum, item) => sum + item.price, 0)` */
  function SumPrices(items: seq<OrderItem>): (r: real)
    ensures items == [] ==> r == 0.0
  {
    if items == [] then 0.0 else items[0].price + SumPrices(items[1..])
  }

  lemma {:induction false} SumPricesAppend(a: seq<OrderItem>, b: seq<OrderItem>)
    ensures SumPrices(a + b) == SumPrices(a) + SumPrices(b)
  {
    if a != [] {
      assert (a + b)[1..] == a[1..] + b;
      SumPricesAppend(a[1..], b);
    } else {
      assert a + b == b;
    }
  }

  /** Replacing one item changes the sum by the difference of the two prices. */
  lemma {:induction false} SumPricesUpdate(items: seq<OrderItem>, i: nat, x: OrderItem)
    requires i < |items|
    ensures SumPrices(items[i := x]) == SumPrices(items) - items[i].price + x.price
  {
    var left, right := items[..i], items[i + 1..];
    assert items == left + [items[i]] + right;
    assert items[i := x] == left + [x] + right;
    SumPricesAppend(left + [items[i]], right);
    SumPricesAppend(left + [x], right);
    SumPricesAppend(left, [items[i]]);
    SumPricesAppend(left, [x]);
    assert [x][1..] == [] && [items[i]][1..] == [];
  }

  lemma SumPricesSnoc(items: seq<OrderItem>, x: OrderItem)
    ensures SumPrices(items + [x]) == SumPrices(items) + x.price
  {
    SumPricesAppend(items, [x]);
  }

  /** Adding a pizza not yet in the order raises the total by its quantity times its unit
      price. */
  lemma TotalAfterAddNew(items: seq<OrderItem>, pizza: Pizzas.Pizza, unitPrice: real, quantity: int)
    requires !Keyed.HasKey(items, PizzaIdOf, pizza.id)
    ensures SumPrices(AddedItems(items, pizza, unitPrice, quantity)) ==
            SumPrices(items) + LinePrice(unitPrice, quantity)
  {
    SumPricesSnoc(items, OrderItem(pizza.id, pizza, quantity, LinePrice(unitPrice, quantity)));
  }

  /** Adding more of a pizza already in the order swaps that item's old price for the
      unit price times the summed quantity. */
  lemma TotalAfterAddExisting(items: seq<OrderItem>, pizza: Pizzas.Pizza, unitPrice: real, quantity: int, i: nat)
    requires Keyed.Find(items, PizzaIdOf, pizza.id) == Some(i)
    ensures SumPrices(AddedItems(items, pizza, unitPrice, quantity)) ==
            SumPrices(items) - items[i].price + LinePrice(unitPrice, items[i].quantity + quantity)
  {
    AddedItemsAt(items, pizza, unitPrice, quantity, i);
    SumPricesBumped(items, i, unitPrice, quantity);
  }

  lemma SumPricesBumped(items: seq<OrderItem>, i: nat, unitPrice: real, quantity: int)
    requires i < |items|
    ensures SumPrices(Bumped(items, i, unitPrice, quantity)) ==
            SumPrices(items) - items[i].price + LinePrice(unitPrice, items[i].quantity + quantity)
  {
    SumPricesUpdate(items, i, BumpedItem(items[i], unitPrice, quantity));
  }

  /** Adding more of a pizza already in the order rewrites its first item in place. */
  lemma AddedItemsAt(items: seq<OrderItem>, pizza: Pizzas.Pizza, unitPrice: real, quantity: int, i: nat)
    requires Keyed.Find(items, PizzaIdOf, pizza.id) == Some(i)
    ensures AddedItems(items, pizza, unitPrice, quantity) == Bumped(items, i, unitPrice, quantity)
  {
  }

  /** The totals of the order tests: two medium pizzas of base 10.00 come to 26.00, and one
      of them with a large pizza of base 12.00 to 32.20; an empty order totals 0. */
  lemma TotalExamples(p1: Pizzas.Pizza, p2: Pizzas.Pizza)
    requires p1.id != p2.id
    ensures SumPrices([]) == 0.0
    ensures SumPrices(AddedItems([], p1, Pizzas.PriceOf(10.0, "medium", []), 2)) == 26.0
    ensures SumPrices(AddedItems(AddedItems([], p1, Pizzas.PriceOf(10.0, "medium", []), 1),
                                 p2, Pizzas.PriceOf(12.0, "large", []), 1)) == 32.2
  {
    var medium, large := Pizzas.PriceOf(10.0, "medium", []), Pizzas.PriceOf(12.0, "large", []);
    assert medium == 13.0 && large == 19.2;
    TotalAfterAddNew([], p1, medium, 2);
    TotalAfterAddNew([], p1, medium, 1);
    var one := AddedItems([], p1, medium, 1);
    assert one == [OrderItem(p1.id, p1, 1, LinePrice(medium, 1))];
    assert !Keyed.HasKey(one, PizzaIdOf, p2.id) by {
      assert |one| == 1 && PizzaIdOf(one[0]) == p1.id;
    }
    TotalAfterAddNew(one, p2, large, 1);
  }

  /** `updateItemQuantity(pizzaId, quantity)` on an item list, `unitPrice` being what the
      found item's own pizza prices at: a quantity of 0 or less removes the item, a positive
      one replaces its quantity and recomputes its price, an absent id changes nothing. */
  function QuantitySet(items: seq<OrderItem>, pizzaId: string, quantity: int, unitPrice: real)
    : (r: seq<OrderItem>)
    ensures !Keyed.HasKey(items, PizzaIdOf, pizzaId) ==> r == items
    ensures Keyed.HasKey(items, PizzaIdOf, pizzaId) && quantity <= 0 ==>
            r == Keyed.RemoveKey(items, PizzaIdOf, pizzaId)
    ensures Keyed.HasKey(items, PizzaIdOf, pizzaId) && quantity > 0 ==> |r| == |items|
  {
    match Keyed.Find(items, PizzaIdOf, pizzaId)
    case None => items
    case Some(i) =>
      if quantity <= 0 then Keyed.RemoveKey(items, PizzaIdOf, pizzaId)
      else items[i := items[i].(quantity := quantity, price := LinePrice(unitPrice, quantity))]
  }

  /** A quantity of 0 or less is exactly `removeItem`, whether or not the id is present. */
  lemma NonPositiveQuantityRemoves(items: seq<OrderItem>, pizzaId: string, quantity: int, unitPrice: real)
    requires quantity <= 0
    ensures QuantitySet(items, pizzaId, quantity, unitPrice) == Keyed.RemoveKey(items, PizzaIdOf, pizzaId)
  {
    if !Keyed.HasKey(items, PizzaIdOf, pizzaId) {
      Keyed.RemoveKeyAbsent(items, PizzaIdOf, pizzaId);
    }
  }

  /** After a positive update the pizza's item has that quantity and is priced at the unit
      price times it; every other pizza's item is as it was. */
  lemma QuantitySetGet(items: seq<OrderItem>, pizzaId: string, quantity: int, unitPrice: real, other: string)
    requires Keyed.HasKey(items, PizzaIdOf, pizzaId) && quantity > 0
    ensures var r := QuantitySet(items, pizzaId, quantity, unitPrice);
            var found := Keyed.Get(r, PizzaIdOf, pizzaId);
            found.Some? && found.value.quantity == quantity &&
            found.value.price == LinePrice(unitPrice, quantity)
    ensures other != pizzaId ==>
            Keyed.Get(QuantitySet(items, pizzaId, quantity, unitPrice), PizzaIdOf, other) ==
            Keyed.Get(items, PizzaIdOf, other)
  {
    var i := Keyed.Find(items, PizzaIdOf, pizzaId).value;
    var r := QuantitySet(items, pizzaId, quantity, unitPrice);
    Keyed.FindFirst(r, PizzaIdOf, pizzaId, i);
    assert forall j :: 0 <= j < |items| ==> PizzaIdOf(r[j]) == PizzaIdOf(items[j]);
    match Keyed.Find(items, PizzaIdOf, other)
    case Some(k) =>
      if other != pizzaId {
        Keyed.FindFirst(r, PizzaIdOf, other, k);
      }
    case None =>
  }

  /** `validate()` on an order with these fields: customer, items, address, payment, in
      that order. */
  function ValidateFields(customerId: string, items: seq<OrderItem>,
                          address: Option<Addresses.Address>, payment: Option<Payments.Payment>)
    : (r: Reports.Report)
    ensures r.errors == Reports.Select(Messages,
      [customerId == "", items == [], address.None?, payment.None?])
    ensures r.isValid <==> r.errors == []
    ensures r.isValid <==> customerId != "" && items != [] && address.Some? && payment.Some?
  {
    var errors := (if customerId == "" then [CustomerRequired] else [])
                + (if |items| == 0 then [ItemsRequired] else [])
                + (if address.None? then [AddressRequired] else [])
                + (if payment.None? then [PaymentRequired] else []);
    Reports.SelectUnrolled(Messages, [customerId == "", items == [], address.None?, payment.None?]);
    Reports.FromErrors(errors)
  }

  /** Each rule's message is reported exactly when that rule fails. */
  lemma ValidateReportsEachRule(customerId: string, items: seq<OrderItem>,
                                address: Option<Addresses.Address>, payment: Option<Payments.Payment>)
    ensures var errors := ValidateFields(customerId, items, address, payment).errors;
            && (CustomerRequired in errors <==> customerId == "")
            && (ItemsRequired in errors <==> items == [])
            && (AddressRequired in errors <==> address.None?)
            && (PaymentRequired in errors <==> payment.None?)
  {
    var failing := [customerId == "", items == [], address.None?, payment.None?];
    assert Keyed.NoDuplicates(Messages);
    Reports.SelectMember(Messages, failing, 0);
    Reports.SelectMember(Messages, failing, 1);
    Reports.SelectMember(Messages, failing, 2);
    Reports.SelectMember(Messages, failing, 3);
  }

  /** `confirm()` as a status transition: a valid order becomes confirmed from whatever
      status it had; an invalid one is refused with every broken rule. */
  function ConfirmStep(report: Reports.Report, status: Status): (r: Result<Status>)
    ensures report.isValid <==> r.Ok?
    ensures r.Ok? ==> r.value == Confirmed
    ensures r.Err? ==> r.message == ConfirmPrefix + Text.Join(report.errors, ", ")
  {
    if !report.isValid then Err(ConfirmPrefix + Text.Join(report.errors, ", "))
    else Ok(Confirmed)
  }

  /** `cancel()` as a status transition: refused only from delivered. */
  function CancelStep(status: Status): (r: Result<Status>)
    ensures r.Err? <==> status == Delivered
    ensures r.Ok? ==> r.value == Cancelled
    ensures r.Err? ==> r.message == CancelDelivered
  {
    if status == Delivered then Err(CancelDelivered) else Ok(Cancelled)
  }

  /** Neither transition looks at more than it should: confirming ignores the current
      status, so even a cancelled or delivered order is confirmed again once valid, and
      cancelling twice is cancelling once. */
  lemma TransitionFacts(report: Reports.Report, s1: Status, s2: Status)
    ensures ConfirmStep(report, s1) == ConfirmStep(report, s2)
    ensures report.isValid ==> ConfirmStep(report, Cancelled) == Ok(Confirmed)
    ensures CancelStep(s1).Ok? ==> CancelStep(CancelStep(s1).value) == CancelStep(s1)
  {
  }

  /** The key orders are stored and ordered under. */
  function IdOf(o: Order): string {
    o.id
  }

  class Order {
    const id: string
    const customerId: string
    var items: seq<OrderItem>
    var deliveryAddress: Option<Addresses.Address>
    var payment: Option<Payments.Payment>
    var status: Status
    const createdAt: nat
    var updatedAt: nat

    /** `new Order(id, customerId, items = [], deliveryAddress = null, payment = null)`;
        `freshId` is the generated id used when `id` is empty, `now` the clock, and an
        empty `customerId` stands for a missing one. */
    constructor (id: string, freshId: string, customerId: string, items: Option<seq<OrderItem>>,
                 deliveryAddress: Option<Addresses.Address>, payment: Option<Payments.Payment>, now: nat)
      ensures this.id == Ids.ChooseId(id, freshId) && this.customerId == customerId
      ensures this.items == (if items.Some? then items.value else [])
      ensures this.deliveryAddress == deliveryAddress && this.payment == payment
      ensures status == Pending && createdAt == now && updatedAt == now
    {
      this.id := Ids.ChooseId(id, freshId);
      this.customerId := customerId;
      this.items := if items.Some? then items.value else [];
      this.deliveryAddress := deliveryAddress;
      this.payment := payment;
      this.status := Pending;
      this.createdAt := now;
      this.updatedAt := now;
    }

    /** `addItem(pizza, quantity)`: merges by pizza id and prices the item with the pizza
        passed in, at its current toppings. */
    method AddItem(pizza: Pizzas.Pizza, quantity: int, now: nat)
      modifies this
      ensures items == AddedItems(old(items), pizza, pizza.Price(), quantity)
      ensures updatedAt == now
      ensures status == old(status) && deliveryAddress == old(deliveryAddress) && payment == old(payment)
    {
      var found := Keyed.Find(items, PizzaIdOf, pizza.id);
      if found.Some? {
        var i := found.value;
        var q := items[i].quantity + quantity;
        items := items[i := items[i].(quantity := q, price := LinePrice(pizza.Price(), q))];
      } else {
        items := items + [OrderItem(pizza.id, pizza, quantity, LinePrice(pizza.Price(), quantity))];
      }
      updatedAt := now;
    }

    /** `removeItem(pizzaId)`: the timestamp moves even when no item had the id. */
    method RemoveItem(pizzaId: string, now: nat)
      modifies this
      ensures items == Keyed.RemoveKey(old(items), PizzaIdOf, pizzaId)
      ensures updatedAt == now
      ensures status == old(status) && deliveryAddress == old(deliveryAddress) && payment == old(payment)
    {
      items := Keyed.RemoveKey(items, PizzaIdOf, pizzaId);
      updatedAt := now;
    }

    /** `updateItemQuantity(pizzaId, quantity)`: an absent id leaves even the timestamp;
        otherwise the item is removed or re-priced with the pizza it holds. */
    method UpdateItemQuantity(pizzaId: string, quantity: int, now: nat)
      modifies this
      ensures var found := Keyed.Get(old(items), PizzaIdOf, pizzaId);
              && (found.None? ==> items == old(items) && updatedAt == old(updatedAt))
              && (found.Some? ==>
                    items == QuantitySet(old(items), pizzaId, quantity, found.value.pizza.Price()) &&
                    updatedAt == now)
      ensures status == old(status) && deliveryAddress == old(deliveryAddress) && payment == old(payment)
    {
      var found := Keyed.Find(items, PizzaIdOf, pizzaId);
      if found.Some? {
        var i := found.value;
        if quantity <= 0 {
          RemoveItem(pizzaId, now);
        } else {
          var item := items[i];
          items := items[i := item.(quantity := quantity, price := LinePrice(item.pizza.Price(), quantity))];
          updatedAt := now;
        }
      }
    }

    /** `setDeliveryAddress(address)` */
    method SetDeliveryAddress(address: Addresses.Address, now: nat)
      modifies this
      ensures deliveryAddress == Some(address) && updatedAt == now
      ensures items == old(items) && status == old(status) && payment == old(payment)
    {
      deliveryAddress := Some(address);
      updatedAt := now;
    }

    /** `setPayment(payment)` */
    method SetPayment(payment: Payments.Payment, now: nat)
      modifies this
      ensures this.payment == Some(payment) && updatedAt == now
      ensures items == old(items) && status == old(status) && deliveryAddress == old(deliveryAddress)
    {
      this.payment := Some(payment);
      updatedAt := now;
    }

    /** `calculateTotal()` */
    function Total(): real
      reads this
    {
      SumPrices(items)
    }

    /** `validate()` */
    function Validate(): Reports.Report
      reads this
    {
      ValidateFields(customerId, items, deliveryAddress, payment)
    }

    /** `confirm()`: on failure nothing changes and the error carries every broken rule. */
    method Confirm(now: nat) returns (r: Outcome)
      modifies this
      ensures var step := ConfirmStep(old(Validate()), old(status));
              && (step.Ok? ==> r == Pass && status == step.value && updatedAt == now)
              && (step.Err? ==> r == Fail(step.message) && status == old(status) &&
                                updatedAt == old(updatedAt))
      ensures items == old(items) && deliveryAddress == old(deliveryAddress) && payment == old(payment)
      ensures r.Fail? ==> unchanged(this)
    {
      var validation := Validate();
      if !validation.isValid {
        return Fail(ConfirmPrefix + Text.Join(validation.errors, ", "));
      }
      status := Confirmed;
      updatedAt := now;
      return Pass;
    }

    /** `cancel()`: refused only for a delivered order. */
    method Cancel(now: nat) returns (r: Outcome)
      modifies this
      ensures var step := CancelStep(old(status));
              && (step.Ok? ==> r == Pass && status == step.value && updatedAt == now)
              && (step.Err? ==> r == Fail(step.message) && status == old(status) &&
                                updatedAt == old(updatedAt))
      ensures items == old(items) && deliveryAddress == old(deliveryAddress) && payment == old(payment)
      ensures r.Fail? ==> unchanged(this)
    {
      if status == Delivered {
        return Fail(CancelDelivered);
      }
      status := Cancelled;
      updatedAt := now;
      return Pass;
    }
  }
}
