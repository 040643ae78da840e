/** The two read-only MCP tools over the order service. Both are functions of
    the service value: neither can change the service's orders. */
module OrderTools {
  import opened Common
  import opened Orders

  /** The envelope the server wraps a tool result in. */
  datatype McpResponse<T> = McpResponse(result: T, toolCallId: string, role: string)

  /** Names under which the tools are published. */
  const GetAllOrdersToolName := "get_all_orders"
  const GetOrdersByIdToolName := "get_orders_by_id"

  /** `get_all_orders`: the service's whole list, wrapped with the tool name
      as call identifier and the default role "tool". */
  function GetAllOrders(svc: OrderService): (r: McpResponse<seq<OrderModel>>)
    ensures r.result == svc.orders
    ensures r.toolCallId == "get_all_orders" && r.role == "tool"
  {
    McpResponse(GetAll(svc), GetAllOrdersToolName, "tool")
  }

  /** `get_orders_by_id`: a non-positive id is answered with an empty list
      without asking the service; any other id gets the service's answer. */
  function GetOrdersByUserId(svc: OrderService, userId: int): (r: Option<seq<OrderModel>>)
    ensures userId <= 0 ==> r == Some([])
    ensures userId > 0 ==> r == Orders.GetOrdersByUserId(svc, userId)
  {
    if userId <= 0 then Some([])
    else Orders.GetOrdersByUserId(svc, userId)
  }

  /** The guard is invisible on the seeded service: no seeded order has a
      non-positive user id, so the tool and the service agree on every id. */
  lemma {:induction false} GuardAgreesWithSeededService(userId: int)
    ensures GetOrdersByUserId(NewOrderService(), userId)
         == Orders.GetOrdersByUserId(NewOrderService(), userId)
  {
    if userId <= 0 {
      UnknownUserGetsEmptyList(NewOrderService(), userId);
    }
  }

  /** The guard is not invisible in general: a service holding an order of
      user 0 returns it, while the tool answers with an empty list. */
  lemma {:induction false} GuardHidesNonPositiveOwners()
    ensures var svc := OrderService([OrderModel(7, 0, ["Pen"])]);
            GetOrdersByUserId(svc, 0) == Some([])
            && Orders.GetOrdersByUserId(svc, 0) == Some([OrderModel(7, 0, ["Pen"])])
  {
    var svc := OrderService([OrderModel(7, 0, ["Pen"])]);
    assert svc.orders[1..] == [];
    assert OrdersOf([], 0) == [];
    assert OrdersOf(svc.orders, 0) == [svc.orders[0]] + OrdersOf([], 0);
    assert OrdersOf(svc.orders, 0) == [OrderModel(7, 0, ["Pen"])];
    assert Orders.GetOrdersByUserId(svc, 0).value == OrdersOf(svc.orders, 0);
  }
}
