/** The order service: a table of orders keyed by id, with creation, lookup,
    listings, an unconstrained status overwrite and a guarded cancel. Each
    status change is specified by a function that gives the row the service
    saves, or the reason it refuses; a refusal comes before any change. */
module OrderService {
  import opened Outcomes
  import opened OrderModel
  import OrderRepository
  import Table

  /** The refusals: an absent id, a cancel of an order already shipped or
      delivered, and an order that fails the field constraints on create. */
  datatype OrderError = NotFound(id: int) | CannotCancel(status: OrderStatus) | Invalid

  type Rows = map<int, Order>

  /** `after` is `before` with at most its status and update time changed. */
  predicate OnlyStatusAndStampChanged(before: Order, after: Order) {
    after.(status := before.status, updatedAt := before.updatedAt) == before
  }

  /** `updateOrderStatus`: any status may follow any other. The update time
      moves to `now` exactly when the status actually changes. */
  function StatusOverwritten(t: Rows, id: int, status: OrderStatus, now: Timestamp): (r: Result<Order, OrderError>)
    ensures r.Ok? <==> id in t
    ensures id !in t ==> r == Err(NotFound(id))
    ensures r.Ok? ==> r.value.status == status && OnlyStatusAndStampChanged(t[id], r.value)
    ensures r.Ok? ==> r.value.updatedAt == if status == t[id].status then t[id].updatedAt else Some(now)
  {
    if id !in t then
      Err(NotFound(id))
    else
      var order := t[id];
      Ok(Flush(order, order.(status := status), now))
  }

  /** `cancelOrder`: refused for an order that is SHIPPED or DELIVERED, which
      then stays as it is; any other order becomes CANCELLED. */
  function CancelApplied(t: Rows, id: int, now: Timestamp): (r: Result<Order, OrderError>)
    ensures id !in t ==> r == Err(NotFound(id))
    ensures id in t && t[id].status in {Shipped, Delivered} ==> r == Err(CannotCancel(t[id].status))
    ensures r.Ok? <==> id in t && t[id].status !in {Shipped, Delivered}
    ensures r.Ok? ==> r.value.status == Cancelled && OnlyStatusAndStampChanged(t[id], r.value)
    ensures r.Ok? ==> r.value.updatedAt == if t[id].status == Cancelled then t[id].updatedAt else Some(now)
  {
    if id !in t then
      Err(NotFound(id))
    else
      var order := t[id];
      if order.status == Shipped || order.status == Delivered then
        Err(CannotCancel(order.status))
      else
        Ok(Flush(order, order.(status := Cancelled), now))
  }

  /** A status overwrite changes at most the one targeted row, keeps the set
      of ids, never touches the creation time, and keeps a valid order valid. */
  lemma OverwriteTouchesOnlyItsRow(t: Rows, id: int, status: OrderStatus, now: Timestamp)
    ensures var t' := Table.Saved(t, id, StatusOverwritten(t, id, status, now));
            t'.Keys == t.Keys && (forall k :: k in t && k != id ==> t'[k] == t[k]) &&
            (id in t ==> t'[id].createdAt == t[id].createdAt && (ValidOrder(t[id]) ==> ValidOrder(t'[id])))
  {
  }

  /** The same holds of a cancel. */
  lemma CancelTouchesOnlyItsRow(t: Rows, id: int, now: Timestamp)
    ensures var t' := Table.Saved(t, id, CancelApplied(t, id, now));
            t'.Keys == t.Keys && (forall k :: k in t && k != id ==> t'[k] == t[k]) &&
            (id in t ==> t'[id].createdAt == t[id].createdAt && (ValidOrder(t[id]) ==> ValidOrder(t'[id])))
  {
  }

  /** A refused cancel leaves the table exactly as it was, update time
      included. */
  lemma RefusedCancelKeepsOrder(t: Rows, id: int, now: Timestamp)
    requires id in t && (t[id].status == Shipped || t[id].status == Delivered)
    ensures CancelApplied(t, id, now) == Err(CannotCancel(t[id].status))
    ensures Table.Saved(t, id, CancelApplied(t, id, now)) == t
  {
  }

  /** Cancelling again succeeds, even later, and leaves the table as the
      first cancel did. */
  lemma CancelIdempotent(t: Rows, id: int, now: Timestamp, later: Timestamp)
    requires CancelApplied(t, id, now).Ok?
    ensures var t1 := Table.Saved(t, id, CancelApplied(t, id, now));
            CancelApplied(t1, id, later) == Ok(t1[id]) && Table.Saved(t1, id, CancelApplied(t1, id, later)) == t1
  {
  }

  /** Overwriting the status with SHIPPED and then cancelling is refused with
      SHIPPED, and the order stays SHIPPED. */
  lemma ShippedThenCancelRefused(t: Rows, id: int, now: Timestamp, later: Timestamp)
    requires id in t
    ensures var t1 := Table.Saved(t, id, StatusOverwritten(t, id, Shipped, now));
            CancelApplied(t1, id, later) == Err(CannotCancel(Shipped)) &&
            Table.Saved(t1, id, CancelApplied(t1, id, later))[id].status == Shipped
  {
  }

  /** The table invariant: every key lies in [1, nextId), each row carries
      its own id, and every stored order satisfies the field constraints. */
  ghost predicate WellFormed(t: Rows, nextId: int) {
    1 <= nextId && forall k :: k in t ==> 1 <= k < nextId && StoredUnder(t[k], k)
  }

  ghost predicate StoredUnder(o: Order, k: int) {
    o.id == Some(k) && ValidOrder(o)
  }

  lemma SavingKeepsWellFormed(t: Rows, nextId: int, k: int, o: Order)
    requires WellFormed(t, nextId) && 1 <= k <= nextId && StoredUnder(o, k)
    ensures WellFormed(t[k := o], if k == nextId then nextId + 1 else nextId)
  {
  }

  class OrderTable {
    var rows: map<int, Order>
    /** The id the table assigns to the next order it creates. */
    var nextId: int

    ghost predicate Valid()
      reads this
    {
      WellFormed(rows, nextId)
    }

    constructor ()
      ensures Valid() && rows == map[] && nextId == 1
    {
      rows := map[];
      nextId := 1;
    }

    /** Every row of the table, in id order. */
    function Listing(): (os: seq<Order>)
      reads this
      requires Valid()
      ensures forall o :: o in os <==> Table.Stored(rows, o)
      ensures forall o :: multiset(os)[o] == if Table.Stored(rows, o) then 1 else 0
    {
      Table.AllInIdOrder(rows, 1, nextId)
    }

    /** `createOrder`: the status is forced to PENDING whatever the caller
        gave, and the order is stored under a fresh id, no existing row
        changing. An order failing the field constraints is refused. */
    method CreateOrder(order: Order) returns (r: Result<Order, OrderError>)
      requires Valid()
      modifies this
      ensures Valid()
      ensures r.Ok? <==> ValidOrder(order)
      ensures r.Err? ==> r.error == Invalid && rows == old(rows) && nextId == old(nextId)
      ensures r.Ok? ==> r.value == order.(status := Pending, id := Some(old(nextId)))
      ensures r.Ok? ==> old(nextId) !in old(rows) && rows == old(rows)[old(nextId) := r.value]
      ensures r.Ok? ==> nextId == old(nextId) + 1
    {
      var pending := order.(status := Pending);
      ValidityIgnoresBookkeeping(order, order.id, Pending, order.updatedAt);
      ValidityIgnoresBookkeeping(order, Some(nextId), Pending, order.updatedAt);
      if !ValidOrder(pending) {
        return Err(Invalid);
      }
      var saved := pending.(id := Some(nextId));
      SavingKeepsWellFormed(rows, nextId, nextId, saved);
      rows := rows[nextId := saved];
      nextId := nextId + 1;
      r := Ok(saved);
    }

    /** `getAllOrders`. */
    function GetAllOrders(): (r: seq<Order>)
      reads this
      requires Valid()
      ensures forall o :: o in r <==> Table.Stored(rows, o)
      ensures forall o :: multiset(r)[o] == if Table.Stored(rows, o) then 1 else 0
    {
      Listing()
    }

    /** `getOrderById`. */
    function GetOrderById(id: int): (r: Option<Order>)
      reads this
      requires Valid()
      ensures r.Some? <==> id in rows
      ensures r.Some? ==> r.value == rows[id] && r.value.id == Some(id)
    {
      Table.Get(rows, id)
    }

    /** `getOrdersByCustomer`: the customer's orders, newest first. */
    function GetOrdersByCustomer(email: string): (r: seq<Order>)
      reads this
      requires Valid()
      ensures forall o :: o in r <==> Table.Stored(rows, o) && o.customerEmail == Some(email)
      ensures forall o :: multiset(r)[o] == if Table.Stored(rows, o) && o.customerEmail == Some(email) then 1 else 0
      ensures OrderRepository.NewestFirst(r)
    {
      OrderRepository.FindByCustomerEmailOrderByCreatedAtDesc(Listing(), email)
    }

    /** `getOrdersByStatus`. */
    function GetOrdersByStatus(status: OrderStatus): (r: seq<Order>)
      reads this
      requires Valid()
      ensures forall o :: o in r <==> Table.Stored(rows, o) && o.status == status
      ensures forall o :: multiset(r)[o] == if Table.Stored(rows, o) && o.status == status then 1 else 0
    {
      OrderRepository.FindByStatus(Listing(), status)
    }

    method UpdateOrderStatus(id: int, status: OrderStatus, now: Timestamp) returns (r: Result<Order, OrderError>)
      requires Valid()
      modifies this
      ensures Valid() && nextId == old(nextId)
      ensures r == StatusOverwritten(old(rows), id, status, now)
      ensures rows == Table.Saved(old(rows), id, r)
    {
      if id !in rows {
        return Err(NotFound(id));
      }
      var loaded := rows[id];
      var order := loaded.(status := status);
      order := Flush(loaded, order, now);
      assert Ok(order) == StatusOverwritten(rows, id, status, now);
      ValidityIgnoresBookkeeping(loaded, loaded.id, order.status, order.updatedAt);
      SavingKeepsWellFormed(rows, nextId, id, order);
      rows := rows[id := order];
      r := Ok(order);
    }

    method CancelOrder(id: int, now: Timestamp) returns (r: Result<Order, OrderError>)
      requires Valid()
      modifies this
      ensures Valid() && nextId == old(nextId)
      ensures r == CancelApplied(old(rows), id, now)
      ensures rows == Table.Saved(old(rows), id, r)
    {
      if id !in rows {
        return Err(NotFound(id));
      }
      var loaded := rows[id];
      if loaded.status == Shipped || loaded.status == Delivered {
        return Err(CannotCancel(loaded.status));
      }
      var order := loaded.(status := Cancelled);
      order := Flush(loaded, order, now);
      assert Ok(order) == CancelApplied(rows, id, now);
      ValidityIgnoresBookkeeping(loaded, loaded.id, order.status, order.updatedAt);
      SavingKeepsWellFormed(rows, nextId, id, order);
      rows := rows[id := order];
      r := Ok(order);
    }
  }

  /** A client of the table: the posted order carries DELIVERED and is stored
      PENDING; once overwritten to SHIPPED it can no longer be cancelled. */
  method OrderScenario(now: Timestamp) {
    var orders := new OrderTable();
    TestOrderIsValid(now);
    var posted := Build(Some(1), Some(2), Some(19998), Some("test@example.com"), Some("John Doe"),
                        Some("123 Main St, City, Country"), None, now).(status := Delivered);
    ValidityIgnoresBookkeeping(posted, None, Pending, None);
    var created := orders.CreateOrder(posted);
    assert created.Ok? && created.value.status == Pending;
    assert created.value.customerEmail == Some("test@example.com");
    var id := created.value.id.value;
    var shipped := orders.UpdateOrderStatus(id, Shipped, now + 1);
    assert shipped.Ok?;
    var cancelled := orders.CancelOrder(id, now + 2);
    assert cancelled == Err(CannotCancel(Shipped));
    assert orders.GetOrderById(id).value.status == Shipped;
  }
}
