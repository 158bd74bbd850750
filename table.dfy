/** Helpers shared by both keyed tables: a table is a map from id to row. */
module Table {
  import opened Outcomes

  /** The ids in [lo, hi) under which `t` holds `x`. */
  ghost function IdsHolding<R>(t: map<int, R>, lo: int, hi: int, x: R): set<int> {
    set k | lo <= k < hi && k in t && t[k] == x
  }

  /** The rows whose ids lie in [lo, hi), in increasing id order: the order
      in which the model lists an unordered query over the table. Each row
      appears once per id that holds it. */
  function InIdOrder<R(!new)>(t: map<int, R>, lo: int, hi: int): (rs: seq<R>)
    ensures |rs| <= if lo <= hi then hi - lo else 0
    ensures forall x :: x in rs <==> exists k :: lo <= k < hi && k in t && t[k] == x
    ensures forall x :: multiset(rs)[x] == |IdsHolding(t, lo, hi, x)|
    decreases hi - lo
  {
    if lo >= hi then
      assert forall x :: IdsHolding(t, lo, hi, x) == {};
      []
    else
      var rest := InIdOrder(t, lo + 1, hi);
      IdsHoldingStep(t, lo, hi);
      if lo in t then [t[lo]] + rest else rest
  }

  /** Splitting off the lowest id of a non-empty range. */
  lemma IdsHoldingStep<R>(t: map<int, R>, lo: int, hi: int)
    requires lo < hi
    ensures forall x :: |IdsHolding(t, lo, hi, x)|
                        == |IdsHolding(t, lo + 1, hi, x)| + (if lo in t && t[lo] == x then 1 else 0)
  {
    forall x
      ensures |IdsHolding(t, lo, hi, x)|
              == |IdsHolding(t, lo + 1, hi, x)| + (if lo in t && t[lo] == x then 1 else 0)
    {
      var rest := IdsHolding(t, lo + 1, hi, x);
      if lo in t && t[lo] == x {
        assert IdsHolding(t, lo, hi, x) == rest + {lo};
      } else {
        assert IdsHolding(t, lo, hi, x) == rest;
      }
    }
  }

  /** `x` is one of the rows of table `t`. */
  ghost predicate Stored<R>(t: map<int, R>, x: R) {
    exists k :: k in t && t[k] == x
  }

  /** No two ids of `t` hold the same row, as when each row carries its own id. */
  ghost predicate Distinct<R>(t: map<int, R>) {
    forall k, k' :: k in t && k' in t && t[k] == t[k'] ==> k == k'
  }

  /** When every id lies in [lo, hi) and the rows are distinct, each stored
      row is held by exactly one id of the range. */
  lemma DistinctHeldOnce<R>(t: map<int, R>, lo: int, hi: int)
    requires forall k :: k in t ==> lo <= k < hi
    ensures Distinct(t) ==> forall x :: |IdsHolding(t, lo, hi, x)| == if Stored(t, x) then 1 else 0
  {
    if Distinct(t) {
      forall x
        ensures |IdsHolding(t, lo, hi, x)| == if Stored(t, x) then 1 else 0
      {
        if Stored(t, x) {
          var k :| k in t && t[k] == x;
          assert IdsHolding(t, lo, hi, x) == {k};
        } else {
          assert IdsHolding(t, lo, hi, x) == {};
        }
      }
    }
  }

  /** When every id lies in [lo, hi), the listing holds exactly the rows of
      the table; when the rows are distinct, each of them exactly once. */
  function AllInIdOrder<R(!new)>(t: map<int, R>, lo: int, hi: int): (rs: seq<R>)
    requires forall k :: k in t ==> lo <= k < hi
    ensures forall x :: x in rs <==> Stored(t, x)
    ensures Distinct(t) ==> forall x :: multiset(rs)[x] == if Stored(t, x) then 1 else 0
  {
    DistinctHeldOnce(t, lo, hi);
    InIdOrder(t, lo, hi)
  }

  /** The row stored under `id`, if any: a lookup by primary key. */
  function Get<R>(t: map<int, R>, id: int): (r: Option<R>)
    ensures r.Some? <==> id in t
    ensures r.Some? ==> r.value == t[id]
  {
    if id in t then Some(t[id]) else None
  }

  /** The rows of `xs` that satisfy `keep`, in their original order and with
      their multiplicity: what a query with a WHERE clause returns. */
  function Filter<R(!new)>(xs: seq<R>, keep: R -> bool): (rs: seq<R>)
    ensures |rs| <= |xs|
    ensures forall x :: multiset(rs)[x] == if keep(x) then multiset(xs)[x] else 0
    ensures forall x :: x in rs <==> x in xs && keep(x)
  {
    if xs == [] then []
    else
      var rest := Filter(xs[1..], keep);
      assert xs == [xs[0]] + xs[1..];
      if keep(xs[0]) then [xs[0]] + rest else rest
  }

  /** Whether some row satisfies `test`: what an `exists` query returns. */
  function Any<R(!new)>(xs: seq<R>, test: R -> bool): (b: bool)
    ensures b <==> exists x :: x in xs && test(x)
  {
    if xs == [] then false
    else
      assert forall x :: x in xs ==> x == xs[0] || x in xs[1..];
      test(xs[0]) || Any(xs[1..], test)
  }

  /** The table after a guarded update: the row the update produced is saved
      under `id`, and a refused update changes nothing. */
  function Saved<R, E>(t: map<int, R>, id: int, r: Result<R, E>): (t': map<int, R>)
    ensures r.Err? ==> t' == t
    ensures r.Ok? ==> t'.Keys == t.Keys + {id} && t'[id] == r.value
    ensures forall k :: k in t && k != id ==> k in t' && t'[k] == t[k]
  {
    match r
    case Ok(row) => t[id := row]
    case Err(_) => t
  }
}
