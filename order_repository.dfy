/** The in-memory order store (backend/src/domain/repositories/OrderRepository.js). The
    `Map` from id to order is held as its entries in insertion order, which is the order
    `Array.from(map.values())` lists them in; the entries are the stored Order objects
    themselves, so whatever a caller changes on a found order is changed in the store. */
module OrderRepositories {
  import opened Wrappers
  import Keyed
  import Orders

  type Order = Orders.Order

  const NotFound := "Order not found"

  /** `orders.filter(o => o.status === status)` */
  function WithStatus(os: seq<Order>, status: Orders.Status): (r: seq<Order>)
    reads os
    ensures |r| <= |os|
    ensures forall i :: 0 <= i < |r| ==> r[i] in os && r[i].status == status
    ensures forall i :: 0 <= i < |os| && os[i].status == status ==> os[i] in r
  {
    if os == [] then []
    else (if os[0].status == status then [os[0]] else []) + WithStatus(os[1..], status)
  }

  /** The customer an order belongs to, which never changes after construction. */
  function CustomerOf(o: Order): string {
    o.customerId
  }

  /** The customer filter keeps exactly that customer's orders. */
  lemma OfCustomer(os: seq<Order>, customerId: string)
    ensures var r := Keyed.WithKey(os, CustomerOf, customerId);
      && (forall i :: 0 <= i < |r| ==> r[i] in os && r[i].customerId == customerId)
      && (forall i :: 0 <= i < |os| && os[i].customerId == customerId ==> os[i] in r)
  {
    Keyed.WithKeyMembers(os, CustomerOf, customerId);
  }

  class OrderRepository {
    var orders: seq<Order>

    /** Map keys are unique and each entry sits under its own id. */
    ghost predicate Valid()
      reads this
    {
      Keyed.UniqueKeys(orders, Orders.IdOf)
    }

    constructor ()
      ensures orders == [] && Valid()
    {
      orders := [];
    }

    /** `findById(id)`: the stored order itself, or null. */
    function FindById(id: string): (r: Option<Order>)
      reads this
      ensures r.None? <==> !Keyed.HasKey(orders, Orders.IdOf, id)
      ensures r.Some? ==> r.value.id == id && r.value in orders
    {
      Keyed.Get(orders, Orders.IdOf, id)
    }

    /** `findAll()` */
    function FindAll(): seq<Order>
      reads this
    {
      orders
    }

    /** `findByCustomerId(customerId)`: exactly the stored orders of that customer. */
    function FindByCustomerId(customerId: string): (r: seq<Order>)
      reads this
      ensures forall i :: 0 <= i < |r| ==> r[i] in orders && r[i].customerId == customerId
      ensures forall i :: 0 <= i < |orders| && orders[i].customerId == customerId ==> orders[i] in r
    {
      OfCustomer(orders, customerId);
      Keyed.WithKey(orders, CustomerOf, customerId)
    }

    /** `findByStatus(status)`: exactly the stored orders now in that status. */
    function FindByStatus(status: Orders.Status): (r: seq<Order>)
      reads this, orders
      ensures forall i :: 0 <= i < |r| ==> r[i] in orders && r[i].status == status
      ensures forall i :: 0 <= i < |orders| && orders[i].status == status ==> orders[i] in r
    {
      WithStatus(orders, status)
    }

    /** `save(order)`: an upsert under `order.id` that always succeeds; every other key
        is left as it was. */
    method Save(order: Order) returns (r: Order)
      requires Valid()
      modifies this
      ensures Valid() && r == order
      ensures orders == Keyed.Upsert(old(orders), Orders.IdOf, order)
      ensures FindById(order.id) == Some(order)
    {
      Keyed.UpsertKeepsUnique(orders, Orders.IdOf, order);
      Keyed.UpsertGet(orders, Orders.IdOf, order);
      orders := Keyed.Upsert(orders, Orders.IdOf, order);
      r := order;
    }

    /** `update(order)`: an unknown id is refused and the store left as it was; otherwise
        it is `save`. */
    method Update(order: Order) returns (r: Result<Order>)
      requires Valid()
      modifies this
      ensures Valid()
      ensures !Keyed.HasKey(old(orders), Orders.IdOf, order.id) ==> r == Err(NotFound) && orders == old(orders)
      ensures Keyed.HasKey(old(orders), Orders.IdOf, order.id) ==>
              r == Ok(order) && orders == Keyed.Upsert(old(orders), Orders.IdOf, order)
    {
      if Keyed.Find(orders, Orders.IdOf, order.id).None? {
        return Err(NotFound);
      }
      var saved := Save(order);
      return Ok(saved);
    }

    /** `delete(id)`: whether the key was there; the key is gone afterwards and every other
        key is left as it was. */
    method Delete(id: string) returns (present: bool)
      requires Valid()
      modifies this
      ensures Valid()
      ensures present == Keyed.HasKey(old(orders), Orders.IdOf, id)
      ensures orders == Keyed.RemoveKey(old(orders), Orders.IdOf, id)
      ensures FindById(id).None?
    {
      present := Keyed.Find(orders, Orders.IdOf, id).Some?;
      Keyed.RemoveKeyKeepsUnique(orders, Orders.IdOf, id);
      Keyed.RemoveKeyGet(orders, Orders.IdOf, id, id);
      orders := Keyed.RemoveKey(orders, Orders.IdOf, id);
    }
  }
}
