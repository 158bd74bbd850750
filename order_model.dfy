/** The order record: its status enumeration, the defaults a freshly built
    order gets, the field constraints a stored order satisfies, and the
    update-timestamp hook. */
module OrderModel {
  import opened Outcomes
  import opened JavaInt
  import Text

  /** A point in time, as the clock passed in by the caller reports it. */
  type Timestamp = int

  datatype OrderStatus = Pending | Confirmed | Processing | Shipped | Delivered | Cancelled | Refunded

  /** The statuses in declaration order. */
  const AllStatuses: seq<OrderStatus> :=
    [Pending, Confirmed, Processing, Shipped, Delivered, Cancelled, Refunded]

  /** The enumeration has exactly seven distinct values. */
  lemma SevenStatuses()
    ensures |AllStatuses| == 7
    ensures forall s: OrderStatus :: s in AllStatuses
    ensures forall i, j :: 0 <= i < j < |AllStatuses| ==> AllStatuses[i] != AllStatuses[j]
  {
    forall s: OrderStatus ensures s in AllStatuses {
      var k := match s
        case Pending => 0 case Confirmed => 1 case Processing => 2 case Shipped => 3
        case Delivered => 4 case Cancelled => 5 case Refunded => 6;
      assert AllStatuses[k] == s;
    }
  }

  /** A nullable field is None when null. Amounts are decimals kept in minor
      units; `quantity` is a Java int. */
  datatype Order = Order(
    id: Option<int>,
    productId: Option<int>,
    quantity: Option<Int32>,
    totalAmount: Option<int>,
    status: OrderStatus,
    customerEmail: Option<string>,
    customerName: Option<string>,
    shippingAddress: Option<string>,
    notes: Option<string>,
    createdAt: Timestamp,
    updatedAt: Option<Timestamp>)

  /** The builder: every field the caller gives, status PENDING and the
      creation time by default, no id and no update time yet. */
  function Build(productId: Option<int>, quantity: Option<Int32>, totalAmount: Option<int>,
                 customerEmail: Option<string>, customerName: Option<string>,
                 shippingAddress: Option<string>, notes: Option<string>,
                 now: Timestamp): (o: Order)
    ensures o.status == Pending && o.createdAt == now
    ensures o.id == None && o.updatedAt == None
    ensures o.productId == productId && o.quantity == quantity && o.totalAmount == totalAmount
    ensures o.customerEmail == customerEmail && o.customerName == customerName
    ensures o.shippingAddress == shippingAddress && o.notes == notes
  {
    Order(None, productId, quantity, totalAmount, Pending, customerEmail, customerName,
          shippingAddress, notes, now, None)
  }

  /** The not-blank constraint: present, and something is left after Java's
      trim. */
  predicate NotBlank(s: Option<string>) {
    s.Some? && |Text.Trim(s.value)| > 0
  }

  /** The field constraints of a stored order: product id, quantity and total
      amount present, quantity at least 1, customer email and name not blank.
      The e-mail format check is not part of this model. */
  predicate ValidOrder(o: Order) {
    && o.productId.Some?
    && o.quantity.Some? && o.quantity.value >= 1
    && o.totalAmount.Some?
    && NotBlank(o.customerEmail)
    && NotBlank(o.customerName)
  }

  /** Validity does not depend on the fields the table and the status
      operations set. */
  lemma ValidityIgnoresBookkeeping(o: Order, id: Option<int>, s: OrderStatus, t: Option<Timestamp>)
    ensures ValidOrder(o.(id := id, status := s, updatedAt := t)) == ValidOrder(o)
  {
  }

  /** A string holds a character above the space. */
  ghost predicate HasVisibleChar(s: string) {
    exists i :: 0 <= i < |s| && s[i] > ' '
  }

  /** The field constraints spelled out: product id, quantity and total
      amount present, quantity at least 1, and customer e-mail and name
      present, each with a character above the space. */
  lemma ValidOrderIff(o: Order)
    ensures ValidOrder(o) <==>
      && o.productId.Some?
      && o.quantity.Some? && o.quantity.value >= 1
      && o.totalAmount.Some?
      && o.customerEmail.Some? && HasVisibleChar(o.customerEmail.value)
      && o.customerName.Some? && HasVisibleChar(o.customerName.value)
  {
    if o.customerEmail.Some? {
      Text.NotBlankIffVisibleChar(o.customerEmail.value);
    }
    if o.customerName.Some? {
      Text.NotBlankIffVisibleChar(o.customerName.value);
    }
  }

  /** The order the integration test posts is valid, and is PENDING as built. */
  lemma TestOrderIsValid(now: Timestamp)
    ensures var o := Build(Some(1), Some(2), Some(19998), Some("test@example.com"), Some("John Doe"),
                           Some("123 Main St, City, Country"), None, now);
            ValidOrder(o) && o.status == Pending
  {
    assert "test@example.com"[0] > ' ';
    assert "John Doe"[0] > ' ';
  }

  /** The pre-update hook: the update time becomes `now`, nothing else
      changes. */
  function PreUpdate(o: Order, now: Timestamp): (r: Order)
    ensures r.updatedAt == Some(now)
    ensures r.(updatedAt := o.updatedAt) == o
  {
    o.(updatedAt := Some(now))
  }

  /** Writing back a loaded order at commit: the persistence layer issues an
      update, and so runs the pre-update hook, only when the order differs
      from the one it loaded. */
  function Flush(loaded: Order, modified: Order, now: Timestamp): (r: Order)
    ensures r.(updatedAt := modified.updatedAt) == modified
    ensures r.updatedAt == if modified == loaded then loaded.updatedAt else Some(now)
  {
    if modified == loaded then loaded else PreUpdate(modified, now)
  }
}
