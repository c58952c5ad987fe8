/** The order service (backend/src/domain/services/OrderService.js): every operation finds
    the stored order, changes that very object, and writes it back with `update`, which
    leaves the store's entries as they were. A thrown Error is an `Err` carrying its
    message. */
module OrderServices {
  import opened Wrappers
  import Text
  import Keyed
  import Addresses
  import Payments
  import Pizzas
  import Customers
  import Orders
  import OrderRepositories
  import PizzaRepositories
  import CustomerRepositories

  type Order = Orders.Order
  type OrderItem = Orders.OrderItem
  type AllergyEntry = Customers.AllergyEntry

  const CustomerNotFound := "Customer not found"
  const OrderNotFound := "Order not found"
  const PizzaNotFound := "Pizza not found"
  const InvalidAddress := "Invalid delivery address: "
  const InvalidPayment := "Invalid payment: "
  const AllergenConflict := "Order contains items with customer allergens"

  /** The address fields a caller sends; None is a field left out. */
  datatype AddressInput = AddressInput(street: string, city: string, state: string, zipCode: string,
                                       country: Option<string>, instructions: Option<string>)

  /** The payment fields a caller sends; an empty string is a field left out. */
  datatype PaymentInput = PaymentInput(kind: string, cardNumber: string, cardHolder: string,
                                       expirationDate: string, cvv: string,
                                       billingAddress: Option<string>)

  /** The pizzas an item list refers to. */
  function PizzasOf(items: seq<OrderItem>): set<Pizzas.Pizza> {
    set i | 0 <= i < |items| :: items[i].pizza
  }

  /** `items.some(item => allergies.some(allergy => item.pizza.hasAllergen(allergy.name)))` */
  predicate HasConflict(items: seq<OrderItem>, allergies: seq<AllergyEntry>)
    reads PizzasOf(items)
  {
    exists i, j :: 0 <= i < |items| && 0 <= j < |allergies| &&
                   items[i].pizza.HasAllergen(Customers.NameOf(allergies[j]))
  }

  /** `customer && customer.allergies.length > 0 && …`: the check `confirmOrder` refuses
      an order for. */
  predicate Refused(items: seq<OrderItem>, customer: Option<Customers.Customer>)
    reads PizzasOf(items), if customer.Some? then {customer.value} else {}
  {
    customer.Some? && |customer.value.allergies| > 0 && HasConflict(items, customer.value.allergies)
  }

  /** The length guard adds nothing: a customer with no allergies never conflicts, and a
      pizza carrying one of the customer's allergens, added under a new pizza id, makes the
      order conflict. */
  lemma ConflictFacts(items: seq<OrderItem>, allergies: seq<AllergyEntry>, pizza: Pizzas.Pizza,
                      unitPrice: real, quantity: int, j: nat)
    ensures !HasConflict(items, [])
    ensures j < |allergies| && pizza.HasAllergen(Customers.NameOf(allergies[j])) &&
            !Keyed.HasKey(items, Orders.PizzaIdOf, pizza.id) ==>
              HasConflict(Orders.AddedItems(items, pizza, unitPrice, quantity), allergies)
  {
    if j < |allergies| && pizza.HasAllergen(Customers.NameOf(allergies[j])) &&
       !Keyed.HasKey(items, Orders.PizzaIdOf, pizza.id) {
      var added := Orders.AddedItems(items, pizza, unitPrice, quantity);
      assert added[|items|].pizza == pizza;
    }
  }

  class OrderService {
    const orders: OrderRepositories.OrderRepository
    const pizzas: PizzaRepositories.PizzaRepository
    const customers: CustomerRepositories.CustomerRepository

    constructor (orders: OrderRepositories.OrderRepository, pizzas: PizzaRepositories.PizzaRepository,
                 customers: CustomerRepositories.CustomerRepository)
      ensures this.orders == orders && this.pizzas == pizzas && this.customers == customers
    {
      this.orders := orders;
      this.pizzas := pizzas;
      this.customers := customers;
    }

    /** The order `findById` hands out for an id, as a frame. */
    function Found(orderId: string): set<Order>
      reads this, orders
    {
      match orders.FindById(orderId)
      case Some(o) => {o}
      case None => {}
    }

    /** Writing back an order found in the store changes none of its entries. */
    method WriteBack(o: Order) returns (r: Result<Order>)
      requires orders.Valid() && o in orders.orders
      modifies orders
      ensures orders.Valid() && orders.orders == old(orders.orders) && r == Ok(o)
    {
      var i :| 0 <= i < |orders.orders| && orders.orders[i] == o;
      Keyed.UpsertStored(orders.orders, Orders.IdOf, i);
      r := orders.Update(o);
    }

    /** `createOrder(customerId)`: only for a known customer; `freshId` is the id generated
        for the new order, `now` the clock. */
    method CreateOrder(customerId: string, freshId: string, now: nat) returns (r: Result<Order>)
      requires orders.Valid()
      modifies orders
      ensures orders.Valid()
      ensures customers.FindById(customerId).None? ==>
                r == Err(CustomerNotFound) && orders.orders == old(orders.orders)
      ensures customers.FindById(customerId).Some? ==>
                r.Ok? && fresh(r.value) && r.value.id == freshId && r.value.customerId == customerId &&
                r.value.items == [] && r.value.status == Orders.Pending &&
                r.value.deliveryAddress == None && r.value.payment == None &&
                r.value.createdAt == now && r.value.updatedAt == now &&
                orders.orders == Keyed.Upsert(old(orders.orders), Orders.IdOf, r.value)
    {
      if customers.FindById(customerId).None? {
        return Err(CustomerNotFound);
      }
      var order := new Orders.Order("", freshId, customerId, None, None, None, now);
      var saved := orders.Save(order);
      r := Ok(saved);
    }

    /** `addPizzaToOrder(orderId, pizzaId, quantity = 1)`: the item is priced with the
        stored pizza as it is now. */
    method AddPizzaToOrder(orderId: string, pizzaId: string, quantity: Option<int>, now: nat)
      returns (r: Result<Order>)
      requires orders.Valid()
      modifies orders, Found(orderId)
      ensures orders.Valid() && orders.orders == old(orders.orders)
      ensures old(orders.FindById(orderId)).None? ==> r == Err(OrderNotFound)
      ensures old(orders.FindById(orderId)).Some? && pizzas.FindById(pizzaId).None? ==>
                r == Err(PizzaNotFound)
      ensures old(orders.FindById(orderId)).Some? && pizzas.FindById(pizzaId).Some? ==> r.Ok?
      ensures r.Err? ==> unchanged(Found(orderId))
      ensures r.Ok? ==>
                var o := r.value;
                var pizza := pizzas.FindById(pizzaId).value;
                var q := if quantity.Some? then quantity.value else 1;
                old(orders.FindById(orderId)) == Some(o) && pizzas.FindById(pizzaId).Some? &&
                o.items == Orders.AddedItems(old(o.items), pizza, pizza.Price(), q) &&
                o.updatedAt == now && o.status == old(o.status) &&
                o.deliveryAddress == old(o.deliveryAddress) && o.payment == old(o.payment)
    {
      var found := orders.FindById(orderId);
      if found.None? {
        return Err(OrderNotFound);
      }
      var order := found.value;
      var pizza := pizzas.FindById(pizzaId);
      if pizza.None? {
        return Err(PizzaNotFound);
      }
      order.AddItem(pizza.value, if quantity.Some? then quantity.value else 1, now);
      r := WriteBack(order);
    }

    /** `removePizzaFromOrder(orderId, pizzaId)` */
    method RemovePizzaFromOrder(orderId: string, pizzaId: string, now: nat) returns (r: Result<Order>)
      requires orders.Valid()
      modifies orders, Found(orderId)
      ensures orders.Valid() && orders.orders == old(orders.orders)
      ensures old(orders.FindById(orderId)).None? ==> r == Err(OrderNotFound) && unchanged(Found(orderId))
      ensures old(orders.FindById(orderId)).Some? ==> r.Ok?
      ensures r.Ok? ==>
                var o := r.value;
                old(orders.FindById(orderId)) == Some(o) &&
                o.items == Keyed.RemoveKey(old(o.items), Orders.PizzaIdOf, pizzaId) && o.updatedAt == now &&
                o.status == old(o.status) && o.deliveryAddress == old(o.deliveryAddress) &&
                o.payment == old(o.payment)
    {
      var found := orders.FindById(orderId);
      if found.None? {
        return Err(OrderNotFound);
      }
      var order := found.value;
      order.RemoveItem(pizzaId, now);
      r := WriteBack(order);
    }

    /** `updatePizzaQuantity(orderId, pizzaId, quantity)`: the item is re-priced with the
        pizza object it holds. */
    method UpdatePizzaQuantity(orderId: string, pizzaId: string, quantity: int, now: nat)
      returns (r: Result<Order>)
      requires orders.Valid()
      modifies orders, Found(orderId)
      ensures orders.Valid() && orders.orders == old(orders.orders)
      ensures old(orders.FindById(orderId)).None? ==> r == Err(OrderNotFound) && unchanged(Found(orderId))
      ensures old(orders.FindById(orderId)).Some? ==>
                var o := old(orders.FindById(orderId)).value;
                var item := Keyed.Get(old(o.items), Orders.PizzaIdOf, pizzaId);
                && r == Ok(o)
                && (item.None? ==> o.items == old(o.items) && o.updatedAt == old(o.updatedAt))
                && (item.Some? ==> o.items == Orders.QuantitySet(old(o.items), pizzaId, quantity,
                                                                 item.value.pizza.Price()) &&
                                   o.updatedAt == now)
                && o.status == old(o.status) && o.deliveryAddress == old(o.deliveryAddress)
                && o.payment == old(o.payment)
    {
      var found := orders.FindById(orderId);
      if found.None? {
        return Err(OrderNotFound);
      }
      var order := found.value;
      order.UpdateItemQuantity(pizzaId, quantity, now);
      r := WriteBack(order);
    }

    /** `setDeliveryAddress(orderId, address)`: the address is built with its defaults and
        must pass validation. */
    method SetDeliveryAddress(orderId: string, input: AddressInput, now: nat) returns (r: Result<Order>)
      requires orders.Valid()
      modifies orders, Found(orderId)
      ensures orders.Valid() && orders.orders == old(orders.orders)
      ensures var a := Addresses.New(input.street, input.city, input.state, input.zipCode,
                                     input.country, input.instructions);
              && (old(orders.FindById(orderId)).None? ==> r == Err(OrderNotFound))
              && (old(orders.FindById(orderId)).Some? && !Addresses.Validate(a).isValid ==>
                    r == Err(InvalidAddress + Text.Join(Addresses.Validate(a).errors, ", ")))
              && (old(orders.FindById(orderId)).Some? && Addresses.Validate(a).isValid ==> r.Ok?)
              && (r.Ok? ==> old(orders.FindById(orderId)) == Some(r.value) &&
                            r.value.deliveryAddress == Some(a) && r.value.updatedAt == now &&
                            r.value.items == old(r.value.items) && r.value.status == old(r.value.status) &&
                            r.value.payment == old(r.value.payment))
      ensures r.Err? ==> unchanged(Found(orderId))
    {
      var found := orders.FindById(orderId);
      if found.None? {
        return Err(OrderNotFound);
      }
      var order := found.value;
      var address := Addresses.New(input.street, input.city, input.state, input.zipCode,
                                   input.country, input.instructions);
      var validation := Addresses.Validate(address);
      if !validation.isValid {
        return Err(InvalidAddress + Text.Join(validation.errors, ", "));
      }
      order.SetDeliveryAddress(address, now);
      r := WriteBack(order);
    }

    /** `setPayment(orderId, paymentData)`: the payment is masked when built and must pass
        validation. */
    method SetPayment(orderId: string, input: PaymentInput, now: nat) returns (r: Result<Order>)
      requires orders.Valid()
      modifies orders, Found(orderId)
      ensures orders.Valid() && orders.orders == old(orders.orders)
      ensures var p := Payments.New(input.kind, input.cardNumber, input.cardHolder,
                                    input.expirationDate, input.cvv, input.billingAddress);
              && (old(orders.FindById(orderId)).None? ==> r == Err(OrderNotFound))
              && (old(orders.FindById(orderId)).Some? && !Payments.Validate(p).isValid ==>
                    r == Err(InvalidPayment + Text.Join(Payments.Validate(p).errors, ", ")))
              && (old(orders.FindById(orderId)).Some? && Payments.Validate(p).isValid ==> r.Ok?)
              && (r.Ok? ==> old(orders.FindById(orderId)) == Some(r.value) &&
                            r.value.payment == Some(p) && r.value.updatedAt == now &&
                            r.value.items == old(r.value.items) && r.value.status == old(r.value.status) &&
                            r.value.deliveryAddress == old(r.value.deliveryAddress))
      ensures r.Err? ==> unchanged(Found(orderId))
    {
      var found := orders.FindById(orderId);
      if found.None? {
        return Err(OrderNotFound);
      }
      var order := found.value;
      var payment := Payments.New(input.kind, input.cardNumber, input.cardHolder,
                                  input.expirationDate, input.cvv, input.billingAddress);
      var validation := Payments.Validate(payment);
      if !validation.isValid {
        return Err(InvalidPayment + Text.Join(validation.errors, ", "));
      }
      order.SetPayment(payment, now);
      r := WriteBack(order);
    }

    /** `confirmOrder(orderId)`: refused when an item's pizza carries one of the customer's
        allergens (a customer the store does not know is not checked), then `confirm()`. */
    method ConfirmOrder(orderId: string, now: nat) returns (r: Result<Order>)
      requires orders.Valid()
      modifies orders, Found(orderId)
      ensures orders.Valid() && orders.orders == old(orders.orders)
      ensures old(orders.FindById(orderId)).None? ==> r == Err(OrderNotFound)
      ensures old(orders.FindById(orderId)).Some? ==>
                var o := old(orders.FindById(orderId)).value;
                var step := Orders.ConfirmStep(old(o.Validate()), old(o.status));
                && (old(Refused(o.items, customers.FindById(o.customerId))) ==> r == Err(AllergenConflict))
                && (!old(Refused(o.items, customers.FindById(o.customerId))) && step.Err? ==>
                      r == Err(step.message))
                && (!old(Refused(o.items, customers.FindById(o.customerId))) && step.Ok? ==>
                      r == Ok(o) && o.status == Orders.Confirmed && o.updatedAt == now &&
                      o.items == old(o.items) && o.deliveryAddress == old(o.deliveryAddress) &&
                      o.payment == old(o.payment))
      ensures r.Err? ==> unchanged(Found(orderId))
    {
      var found := orders.FindById(orderId);
      if found.None? {
        return Err(OrderNotFound);
      }
      var order := found.value;
      var customer := customers.FindById(order.customerId);
      if customer.Some? && |customer.value.allergies| > 0 {
        if HasConflict(order.items, customer.value.allergies) {
          return Err(AllergenConflict);
        }
      }
      var outcome := order.Confirm(now);
      if outcome.Fail? {
        return Err(outcome.message);
      }
      r := WriteBack(order);
    }

    /** `cancelOrder(orderId)` */
    method CancelOrder(orderId: string, now: nat) returns (r: Result<Order>)
      requires orders.Valid()
      modifies orders, Found(orderId)
      ensures orders.Valid() && orders.orders == old(orders.orders)
      ensures old(orders.FindById(orderId)).None? ==> r == Err(OrderNotFound)
      ensures old(orders.FindById(orderId)).Some? ==>
                var o := old(orders.FindById(orderId)).value;
                var step := Orders.CancelStep(old(o.status));
                && (step.Err? ==> r == Err(step.message))
                && (step.Ok? ==> r == Ok(o) && o.status == Orders.Cancelled && o.updatedAt == now &&
                                 o.items == old(o.items) && o.deliveryAddress == old(o.deliveryAddress) &&
                                 o.payment == old(o.payment))
      ensures r.Err? ==> unchanged(Found(orderId))
    {
      var found := orders.FindById(orderId);
      if found.None? {
        return Err(OrderNotFound);
      }
      var order := found.value;
      var outcome := order.Cancel(now);
      if outcome.Fail? {
        return Err(outcome.message);
      }
      r := WriteBack(order);
    }

    /** `getOrderTotal(orderId)` */
    function OrderTotal(orderId: string): (r: Result<real>)
      reads this, orders, orders.orders
      ensures r.Err? <==> orders.FindById(orderId).None?
      ensures r.Err? ==> r.message == OrderNotFound
      ensures r.Ok? ==> r.value == Orders.SumPrices(orders.FindById(orderId).value.items)
    {
      match orders.FindById(orderId)
      case None => Err(OrderNotFound)
      case Some(o) => Ok(o.Total())
    }
  }
}
