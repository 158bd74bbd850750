/** The product service: a table of products keyed by id, with creation,
    lookup, listing, wholesale update, soft delete and relative stock
    adjustment. Each guarded update is specified by a function that gives the
    row the service saves, or the reason it refuses; a refusal comes before
    any change. */
module ProductService {
  import opened Outcomes
  import opened JavaInt
  import opened ProductModel
  import ProductRepository
  import Text
  import Table

  /** The two refusals the service raises as runtime exceptions. */
  datatype ProductError = NotFound(id: int) | InsufficientStock(id: int)

  type Rows = map<int, Product>

  /** `updateProduct`: name, description, price, stock, category and the
      active flag are copied from `updated`; the row keeps its id. No guard
      applies to the new stock, so a negative one is stored. */
  function Replaced(t: Rows, id: int, updated: Product): (r: Result<Product, ProductError>)
    ensures r.Ok? <==> id in t
    ensures id !in t ==> r == Err(NotFound(id))
    ensures r.Ok? ==> r.value.id == t[id].id && r.value.(id := updated.id) == updated
  {
    if id !in t then
      Err(NotFound(id))
    else
      var existing := t[id];
      Ok(existing.(name := updated.name, description := updated.description,
                   price := updated.price, stock := updated.stock,
                   category := updated.category, active := updated.active))
  }

  /** `deleteProduct`: the row stays, with its active flag cleared and every
      other field as it was. */
  function SoftDeleted(t: Rows, id: int): (r: Result<Product, ProductError>)
    ensures r.Ok? <==> id in t
    ensures id !in t ==> r == Err(NotFound(id))
    ensures r.Ok? ==> !r.value.active && r.value.(active := t[id].active) == t[id]
  {
    if id !in t then Err(NotFound(id)) else Ok(t[id].(active := false))
  }

  /** `updateStock`: the Java int sum of the current stock and `quantity`
      becomes the new stock unless it is negative. Within the 32-bit range the
      sum is exact. */
  function StockAdjusted(t: Rows, id: int, quantity: Int32): (r: Result<Product, ProductError>)
    ensures id !in t ==> r == Err(NotFound(id))
    ensures id in t ==> (r.Ok? <==> Add(t[id].stock, quantity) >= 0)
    ensures id in t && r.Err? ==> r.error == InsufficientStock(id)
    ensures r.Ok? ==> r.value.stock >= 0 && r.value.(stock := t[id].stock) == t[id]
    ensures r.Ok? ==> r.value.stock == Add(t[id].stock, quantity)
    ensures id in t && MinInt <= t[id].stock + quantity <= MaxInt ==>
              (r.Ok? <==> t[id].stock + quantity >= 0) && (r.Ok? ==> r.value.stock == t[id].stock + quantity)
  {
    if id !in t then
      Err(NotFound(id))
    else
      var newStock := Add(t[id].stock, quantity);
      if newStock < 0 then Err(InsufficientStock(id)) else Ok(t[id].(stock := newStock))
  }

  /** Each update either fails and leaves the table as it was, or saves the
      one row keyed by `id`: the set of ids and every other row stay. */
  lemma UpdatesTouchOnlyTheirRow(t: Rows, id: int, updated: Product, quantity: Int32)
    ensures var t' := Table.Saved(t, id, Replaced(t, id, updated));
            t'.Keys == t.Keys && forall k :: k in t && k != id ==> t'[k] == t[k]
    ensures var t' := Table.Saved(t, id, SoftDeleted(t, id));
            t'.Keys == t.Keys && forall k :: k in t && k != id ==> t'[k] == t[k]
    ensures var t' := Table.Saved(t, id, StockAdjusted(t, id, quantity));
            t'.Keys == t.Keys && forall k :: k in t && k != id ==> t'[k] == t[k]
  {
  }

  /** Soft delete is idempotent: deleting again succeeds and saves the same
      row, so the table is the same after one call or two. */
  lemma SoftDeleteIdempotent(t: Rows, id: int)
    requires id in t
    ensures var t1 := Table.Saved(t, id, SoftDeleted(t, id));
            SoftDeleted(t1, id) == SoftDeleted(t, id) && Table.Saved(t1, id, SoftDeleted(t1, id)) == t1
  {
  }

  /** A refused stock adjustment keeps the stock, whatever the delta. */
  lemma RefusedAdjustmentKeepsStock(t: Rows, id: int, quantity: Int32)
    requires id in t && Add(t[id].stock, quantity) < 0
    ensures StockAdjusted(t, id, quantity) == Err(InsufficientStock(id))
    ensures Table.Saved(t, id, StockAdjusted(t, id, quantity))[id].stock == t[id].stock
  {
  }

  class ProductTable {
    var rows: map<int, Product>
    /** The id the table assigns to the next product it creates. */
    var nextId: int

    ghost predicate Valid()
      reads this
    {
      1 <= nextId &&
      forall k :: k in rows ==> 1 <= k < nextId && rows[k].id == Some(k)
    }

    constructor ()
      ensures Valid() && rows == map[] && nextId == 1
    {
      rows := map[];
      nextId := 1;
    }

    /** Every row of the table, in id order. */
    function Listing(): (ps: seq<Product>)
      reads this
      requires Valid()
      ensures forall p :: p in ps <==> Table.Stored(rows, p)
      ensures forall p :: multiset(ps)[p] == if Table.Stored(rows, p) then 1 else 0
    {
      Table.AllInIdOrder(rows, 1, nextId)
    }

    /** `createProduct`: the product is stored under a fresh id and no
        existing row changes. */
    method CreateProduct(product: Product) returns (saved: Product)
      requires Valid()
      modifies this
      ensures Valid()
      ensures saved == product.(id := Some(old(nextId)))
      ensures old(nextId) !in old(rows) && rows == old(rows)[old(nextId) := saved]
      ensures nextId == old(nextId) + 1
    {
      saved := product.(id := Some(nextId));
      rows := rows[nextId := saved];
      nextId := nextId + 1;
    }

    /** `getProductById`: the row under `id`, active or not. */
    function GetProductById(id: int): (r: Option<Product>)
      reads this
      requires Valid()
      ensures r.Some? <==> id in rows
      ensures r.Some? ==> r.value == rows[id] && r.value.id == Some(id)
    {
      Table.Get(rows, id)
    }

    /** `getAllProducts`: the active rows only. */
    function GetAllProducts(): (r: seq<Product>)
      reads this
      requires Valid()
      ensures forall p :: p in r <==> Table.Stored(rows, p) && p.active
      ensures forall p :: multiset(r)[p] == if Table.Stored(rows, p) && p.active then 1 else 0
    {
      ProductRepository.FindByActiveTrue(Listing())
    }

    /** `searchByName`: rows whose name contains `name` up to case. */
    function SearchByName(name: string): (r: seq<Product>)
      reads this
      requires Valid()
      ensures forall p :: p in r <==> Table.Stored(rows, p) && Text.Contains(Text.Lower(p.name), Text.Lower(name))
      ensures forall p :: multiset(r)[p] == if Table.Stored(rows, p) && Text.Contains(Text.Lower(p.name), Text.Lower(name)) then 1 else 0
    {
      ProductRepository.FindByNameContainingIgnoreCase(Listing(), name)
    }

    /** `getByCategory`: rows whose category equals `category` up to case. */
    function GetByCategory(category: string): (r: seq<Product>)
      reads this
      requires Valid()
      ensures forall p :: p in r <==> Table.Stored(rows, p) && Text.Lower(p.category) == Text.Lower(category)
      ensures forall p :: multiset(r)[p] == if Table.Stored(rows, p) && Text.Lower(p.category) == Text.Lower(category) then 1 else 0
    {
      ProductRepository.FindByCategoryIgnoreCase(Listing(), category)
    }

    /** `getInStockProducts`: active rows with positive stock. */
    function GetInStockProducts(): (r: seq<Product>)
      reads this
      requires Valid()
      ensures forall p :: p in r <==> Table.Stored(rows, p) && p.stock > 0 && p.active
      ensures forall p :: multiset(r)[p] == if Table.Stored(rows, p) && p.stock > 0 && p.active then 1 else 0
    {
      ProductRepository.FindAllInStock(Listing())
    }

    method UpdateProduct(id: int, updated: Product) returns (r: Result<Product, ProductError>)
      requires Valid()
      modifies this
      ensures Valid() && nextId == old(nextId)
      ensures r == Replaced(old(rows), id, updated)
      ensures rows == Table.Saved(old(rows), id, r)
    {
      if id !in rows {
        return Err(NotFound(id));
      }
      var existing := rows[id];
      existing := existing.(name := updated.name, description := updated.description,
                            price := updated.price, stock := updated.stock,
                            category := updated.category, active := updated.active);
      assert Ok(existing) == Replaced(rows, id, updated);
      rows := rows[id := existing];
      r := Ok(existing);
    }

    /** `deleteProduct`, which returns nothing on success. Afterwards the
        product is still found by id but no longer listed. */
    method DeleteProduct(id: int) returns (r: Result<(), ProductError>)
      requires Valid()
      modifies this
      ensures Valid() && nextId == old(nextId)
      ensures r.Ok? <==> id in old(rows)
      ensures r.Err? ==> r.error == NotFound(id)
      ensures rows == Table.Saved(old(rows), id, SoftDeleted(old(rows), id))
      ensures r.Ok? ==> GetProductById(id).Some? && !GetProductById(id).value.active
      ensures r.Ok? ==> GetProductById(id).value !in GetAllProducts()
    {
      if id !in rows {
        return Err(NotFound(id));
      }
      var product := rows[id];
      product := product.(active := false);
      rows := rows[id := product];
      r := Ok(());
    }

    method UpdateStock(id: int, quantity: Int32) returns (r: Result<Product, ProductError>)
      requires Valid()
      modifies this
      ensures Valid() && nextId == old(nextId)
      ensures r == StockAdjusted(old(rows), id, quantity)
      ensures rows == Table.Saved(old(rows), id, r)
    {
      if id !in rows {
        return Err(NotFound(id));
      }
      var product := rows[id];
      var newStock := Add(product.stock, quantity);
      if newStock < 0 {
        return Err(InsufficientStock(id));
      }
      product := product.(stock := newStock);
      assert Ok(product) == StockAdjusted(rows, id, quantity);
      rows := rows[id := product];
      r := Ok(product);
    }
  }

  /** A client of the table: stock 10, then -3 succeeds with 7, then -8 is
      refused and the stock stays 7; a wholesale update then stores -5; a
      deleted product is still found by id. */
  method StockScenario() {
    var products := new ProductTable();
    var p := products.CreateProduct(Product(None, "Test Product", "Test Description", 9999, 10, "Electronics", true));
    var id := p.id.value;
    var r1 := products.UpdateStock(id, -3);
    assert r1.Ok? && r1.value.stock == 7;
    var r2 := products.UpdateStock(id, -8);
    assert r2 == Err(InsufficientStock(id));
    assert products.GetProductById(id).value.stock == 7;
    var r3 := products.UpdateProduct(id, p.(stock := -5));
    assert r3.Ok? && products.GetProductById(id).value.stock == -5;
    var r4 := products.DeleteProduct(id);
    var r5 := products.DeleteProduct(id);
    assert r4.Ok? && r5.Ok?;
    assert products.GetProductById(id).Some? && products.GetAllProducts() == [];
  }
}
