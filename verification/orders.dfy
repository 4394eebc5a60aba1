/**
 * The order history: newest orders first, looked up by merchant id, with
 * status updates applied to every order carrying the id.
 */
module Orders {
  import opened Wrappers
  import Seqs
  import Sorting
  import Cart

  datatype Status = Pending | Paid | Preparing | Shipped | Delivered | Cancelled

  datatype ShippingInfo = ShippingInfo(
    name: string,
    email: string,
    phone: string,
    postcode: string,
    address: string,
    addressDetail: string,
    message: string)

  /** `id` is the merchant uid, `impUid` the payment gateway's own number; times in ms. */
  datatype Order = Order(
    id: string,
    impUid: string,
    items: Cart.Cart,
    shipping: ShippingInfo,
    totalAmount: int,
    status: Status,
    createdAt: int,
    paidAt: Option<int>,
    shippedAt: Option<int>,
    deliveredAt: Option<int>)

  type History = seq<Order>

  /** `addOrder`: the new order goes in front. */
  function AddOrder(orders: History, order: Order): (r: History)
    ensures |r| == |orders| + 1
    ensures r[0] == order && r[1..] == orders
  {
    [order] + orders
  }

  /** `getOrder`: the first (that is, newest-added) order with the id. */
  function GetOrder(orders: History, id: string): (r: Option<Order>)
    ensures r.None? <==> forall i :: 0 <= i < |orders| ==> orders[i].id != id
    ensures r.Some? ==> exists i :: 0 <= i < |orders| && orders[i] == r.value
                          && (forall j :: 0 <= j < i ==> orders[j].id != id)
    ensures r.Some? ==> r.value.id == id
  {
    var i := Seqs.FirstIndex(orders, (o: Order) => o.id == id);
    if i < 0 then None else Some(orders[i])
  }

  /** `updateOrderStatus`: every order with the id takes the new status; no timestamp is touched. */
  function UpdateOrderStatus(orders: History, id: string, status: Status): (r: History)
    ensures |r| == |orders|
  {
    Seqs.UpdateWhere(orders, (o: Order) => o.id == id, (o: Order) => o.(status := status))
  }

  function NewestFirst(o: Order): int {
    -o.createdAt
  }

  /**
   * `getAllOrders`: sorts the store's own array in place by `createdAt`,
   * newest first, and returns it, so the store holds `r` afterwards as well.
   */
  function GetAllOrders(orders: History): (r: History)
    ensures |r| == |orders|
  {
    Sorting.SortPermutes(orders, NewestFirst);
    Sorting.SortBy(orders, NewestFirst)
  }

  // ---------------------------------------------------------------- lemmas

  /** After `addOrder`, looking up its id finds exactly the order just added. */
  lemma AddThenGet(orders: History, order: Order)
    ensures GetOrder(AddOrder(orders, order), order.id) == Some(order)
  {
    assert AddOrder(orders, order)[0] == order;
  }

  /** `addOrder` leaves lookups of every other id unchanged. */
  lemma AddFramesOtherIds(orders: History, order: Order, id: string)
    requires id != order.id
    ensures GetOrder(AddOrder(orders, order), id) == GetOrder(orders, id)
  {
    var r := AddOrder(orders, order);
    var m := (o: Order) => o.id == id;
    var i := Seqs.FirstIndex(r, m);
    var k := Seqs.FirstIndex(orders, m);
    if k >= 0 {
      assert r[k + 1] == orders[k];
    } else {
      assert forall j :: 0 <= j < |r| ==> !m(r[j]) by {
        forall j | 0 <= j < |r| ensures !m(r[j]) {
          if j > 0 { assert r[j] == orders[j - 1]; }
        }
      }
    }
  }

  /** After `updateOrderStatus`, the id finds the same order as before with only its status replaced. */
  lemma UpdateThenGet(orders: History, id: string, status: Status)
    ensures var r := UpdateOrderStatus(orders, id, status);
            && (GetOrder(orders, id).None? ==> GetOrder(r, id).None?)
            && (GetOrder(orders, id).Some? ==> GetOrder(r, id) == Some(GetOrder(orders, id).value.(status := status)))
  {
    var r := UpdateOrderStatus(orders, id, status);
    var m := (o: Order) => o.id == id;
    assert forall j :: 0 <= j < |orders| ==> r[j].id == orders[j].id;
    var i := Seqs.FirstIndex(orders, m);
    var i2 := Seqs.FirstIndex(r, m);
    assert i2 == i;
    if i >= 0 {
      assert r[i] == orders[i].(status := status);
    }
  }

  /** `updateOrderStatus` leaves the orders of every other id untouched. */
  lemma UpdateFramesOtherIds(orders: History, id: string, status: Status, other: string)
    requires other != id
    ensures GetOrder(UpdateOrderStatus(orders, id, status), other) == GetOrder(orders, other)
  {
    var r := UpdateOrderStatus(orders, id, status);
    var m := (o: Order) => o.id == other;
    assert forall j :: 0 <= j < |orders| ==> r[j].id == orders[j].id;
    var k := Seqs.FirstIndex(orders, m);
    var k2 := Seqs.FirstIndex(r, m);
    assert k2 == k;
    if k >= 0 {
      assert r[k] == orders[k];
    }
  }

  /** `getAllOrders` neither loses nor invents orders. */
  lemma AllOrdersPermutes(orders: History)
    ensures multiset(GetAllOrders(orders)) == multiset(orders)
  {
    Sorting.SortPermutes(orders, NewestFirst);
  }

  /** `getAllOrders` lists orders from the newest to the oldest. */
  lemma AllOrdersNewestFirst(orders: History)
    ensures var r := GetAllOrders(orders);
            forall i, j :: 0 <= i < j < |r| ==> r[i].createdAt >= r[j].createdAt
  {
    Sorting.SortSorted(orders, NewestFirst);
  }

  /** Orders created at the same instant keep their relative order. */
  lemma AllOrdersStable(orders: History, t: int)
    ensures Sorting.WithKey(GetAllOrders(orders), NewestFirst, -t) == Sorting.WithKey(orders, NewestFirst, -t)
  {
    Sorting.SortStable(orders, NewestFirst, -t);
  }

  /** Because the sort happens in place, calling `getAllOrders` again changes nothing further. */
  lemma AllOrdersIdempotent(orders: History)
    ensures GetAllOrders(GetAllOrders(orders)) == GetAllOrders(orders)
  {
    Sorting.SortIdempotent(orders, NewestFirst);
  }
}
