/** The derived queries of the order repository, as filters over the table's
    rows listed in id order, plus one sort by creation time. */
module OrderRepository {
  import opened Outcomes
  import opened OrderModel
  import Table

  /** `findByCustomerEmail`. */
  function FindByCustomerEmail(os: seq<Order>, email: string): (r: seq<Order>)
    ensures forall o :: o in r <==> o in os && o.customerEmail == Some(email)
    ensures forall o :: multiset(r)[o] == if o.customerEmail == Some(email) then multiset(os)[o] else 0
  {
    Table.Filter(os, (o: Order) => o.customerEmail == Some(email))
  }

  /** `findByStatus`. */
  function FindByStatus(os: seq<Order>, status: OrderStatus): (r: seq<Order>)
    ensures forall o :: o in r <==> o in os && o.status == status
    ensures forall o :: multiset(r)[o] == if o.status == status then multiset(os)[o] else 0
  {
    Table.Filter(os, (o: Order) => o.status == status)
  }

  /** `findByProductId`. */
  function FindByProductId(os: seq<Order>, productId: int): (r: seq<Order>)
    ensures forall o :: o in r <==> o in os && o.productId == Some(productId)
    ensures forall o :: multiset(r)[o] == if o.productId == Some(productId) then multiset(os)[o] else 0
  {
    Table.Filter(os, (o: Order) => o.productId == Some(productId))
  }

  /** Newest first: creation times never increase along the sequence. */
  ghost predicate NewestFirst(os: seq<Order>) {
    forall i, j :: 0 <= i < j < |os| ==> os[i].createdAt >= os[j].createdAt
  }

  /** No order of `os` was created after `t`. */
  ghost predicate NoneNewerThan(os: seq<Order>, t: Timestamp) {
    forall x :: x in os ==> x.createdAt <= t
  }

  /** An order no older than all of a newest-first sequence may head it. */
  lemma PrependNewest(x: Order, os: seq<Order>)
    requires NewestFirst(os) && NoneNewerThan(os, x.createdAt)
    ensures NewestFirst([x] + os)
  {
  }

  /** `o` placed into a newest-first sequence, before the first order that is
      not newer than it. */
  function Insert(o: Order, os: seq<Order>): (r: seq<Order>)
    requires NewestFirst(os)
    ensures multiset(r) == multiset(os) + multiset{o}
    ensures NewestFirst(r)
  {
    if os == [] || o.createdAt >= os[0].createdAt then
      PrependNewest(o, os);
      [o] + os
    else
      var rest := Insert(o, os[1..]);
      assert os == [os[0]] + os[1..];
      assert NoneNewerThan(rest, os[0].createdAt) by {
        forall x | x in rest ensures x.createdAt <= os[0].createdAt {
          assert x in multiset(rest);
          if x != o {
            var k :| 0 <= k < |os[1..]| && os[1..][k] == x;
            assert os[k + 1] == x;
          }
        }
      }
      PrependNewest(os[0], rest);
      [os[0]] + rest
  }

  /** The orders sorted by creation time, newest first. Orders created at
      the same time come out in one particular order. */
  function SortByCreatedAtDesc(os: seq<Order>): (r: seq<Order>)
    ensures multiset(r) == multiset(os)
    ensures NewestFirst(r)
  {
    if os == [] then []
    else
      assert os == [os[0]] + os[1..];
      Insert(os[0], SortByCreatedAtDesc(os[1..]))
  }

  /** `findByCustomerEmailOrderByCreatedAtDesc`: the same orders as
      `findByCustomerEmail`, newest first. */
  function FindByCustomerEmailOrderByCreatedAtDesc(os: seq<Order>, email: string): (r: seq<Order>)
    ensures multiset(r) == multiset(FindByCustomerEmail(os, email))
    ensures forall o :: o in r <==> o in os && o.customerEmail == Some(email)
    ensures NewestFirst(r)
  {
    SortByCreatedAtDesc(FindByCustomerEmail(os, email))
  }
}
