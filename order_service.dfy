/** The order service of the MCP server: a fixed, seeded list of orders that
    is only ever read. Lists are values here, so every list handed out is a
    copy by construction and no caller can change the service's own list. */
module Orders {
  import opened Common

  datatype OrderModel = OrderModel(id: int, userId: int, items: seq<string>)

  /** The service's state: its private `_orders` list, never reassigned. */
  datatype OrderService = OrderService(orders: seq<OrderModel>)

  /** The service as constructed: four orders, in declaration order. */
  function NewOrderService(): (svc: OrderService)
    ensures |svc.orders| == 4
    ensures forall i :: 0 <= i < 4 ==> svc.orders[i].id == i + 1
    ensures forall i :: 0 <= i < 4 ==> svc.orders[i].userId > 0
  {
    OrderService([
      OrderModel(1, 1001, ["Laptop", "Mouse"]),
      OrderModel(2, 1002, ["Smartphone"]),
      OrderModel(3, 1001, ["Keyboard", "Monitor"]),
      OrderModel(4, 1003, ["Tablet", "Stylus"])
    ])
  }

  /** Every order, in stored order (the source returns a fresh copy). */
  function GetAll(svc: OrderService): (r: seq<OrderModel>)
    ensures |r| == |svc.orders|
    ensures forall i :: 0 <= i < |r| ==> r[i] == svc.orders[i]
  {
    svc.orders
  }

  /** On the seeded service, every order is listed once, in declaration
      order: orders 1 to 4 of users 1001, 1002, 1001 and 1003. */
  lemma {:induction false} SeededGetAll()
    ensures var all := GetAll(NewOrderService());
      && |all| == 4
      && (forall i :: 0 <= i < 4 ==> all[i].id == i + 1)
      && all[0].userId == 1001 && all[1].userId == 1002 && all[2].userId == 1001 && all[3].userId == 1003
  {
    var svc := NewOrderService();
    assert GetAll(svc) == svc.orders;
  }

  /** The `Where(order => order.UserId == userId)` comprehension. */
  function OrdersOf(orders: seq<OrderModel>, userId: int): (r: seq<OrderModel>)
    ensures forall i :: 0 <= i < |r| ==> r[i].userId == userId && r[i] in orders
    ensures forall i :: 0 <= i < |orders| && orders[i].userId == userId ==> orders[i] in r
    ensures IsSubsequence(r, orders)
  {
    if orders == [] then []
    else if orders[0].userId == userId then [orders[0]] + OrdersOf(orders[1..], userId)
    else OrdersOf(orders[1..], userId)
  }

  /** The filter keeps every order of the user as often as it is stored,
      and no other order. */
  lemma {:induction false} OrdersOfKeepsMultiplicity(orders: seq<OrderModel>, userId: int)
    ensures forall o :: multiset(OrdersOf(orders, userId))[o] == if o.userId == userId then multiset(orders)[o] else 0
    decreases |orders|
  {
    if orders != [] {
      OrdersOfKeepsMultiplicity(orders[1..], userId);
      assert orders == [orders[0]] + orders[1..];
    }
  }

  /** The orders of one user, in stored order. The declared result is
      nullable, but the source always builds a list, so it is never null. */
  function GetOrdersByUserId(svc: OrderService, userId: int): (r: Option<seq<OrderModel>>)
    ensures r.Some?
    ensures forall i :: 0 <= i < |r.value| ==> r.value[i].userId == userId && r.value[i] in svc.orders
    ensures forall i :: 0 <= i < |svc.orders| && svc.orders[i].userId == userId ==> svc.orders[i] in r.value
    ensures IsSubsequence(r.value, GetAll(svc))
  {
    Some(OrdersOf(svc.orders, userId))
  }

  /** `GetOrdersByUserId` returns each of the user's orders as many times
      as it is stored. */
  lemma {:induction false} GetOrdersByUserIdKeepsMultiplicity(svc: OrderService, userId: int)
    ensures forall o :: multiset(GetOrdersByUserId(svc, userId).value)[o]
                        == if o.userId == userId then multiset(svc.orders)[o] else 0
  {
    OrdersOfKeepsMultiplicity(svc.orders, userId);
  }

  /** A user no stored order belongs to gets an empty list, not null. */
  lemma {:induction false} UnknownUserGetsEmptyList(svc: OrderService, userId: int)
    requires forall i :: 0 <= i < |svc.orders| ==> svc.orders[i].userId != userId
    ensures GetOrdersByUserId(svc, userId) == Some([])
  {
  }

  /** On the seeded service, user 1001 gets orders 1 and 3, in that order. */
  lemma {:induction false} SeededUser1001()
    ensures GetOrdersByUserId(NewOrderService(), 1001) == Some([
      OrderModel(1, 1001, ["Laptop", "Mouse"]),
      OrderModel(3, 1001, ["Keyboard", "Monitor"])
    ])
  {
    var orders := NewOrderService().orders;
    assert orders[3..][1..] == [];
    assert orders[2..][1..] == orders[3..];
    assert orders[1..][1..] == orders[2..];
    assert orders[1..] == orders[0..][1..];
    assert OrdersOf(orders[3..], 1001) == [];
    assert OrdersOf(orders[2..], 1001) == [orders[2]];
    assert OrdersOf(orders[1..], 1001) == [orders[2]];
    assert OrdersOf(orders, 1001) == [orders[0], orders[2]];
  }
}
