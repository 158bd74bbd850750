/** The derived and declared queries of the product repository, as filters
    over the table's rows listed in id order. */
module ProductRepository {
  import opened Text
  import opened ProductModel
  import Table

  /** `findByActiveTrue`: the products whose active flag is set. */
  function FindByActiveTrue(ps: seq<Product>): (r: seq<Product>)
    ensures forall p :: p in r <==> p in ps && p.active
    ensures forall p :: multiset(r)[p] == if p.active then multiset(ps)[p] else 0
  {
    Table.Filter(ps, (p: Product) => p.active)
  }

  /** `findAllInStock`: `stock > 0 AND active = true`. */
  function FindAllInStock(ps: seq<Product>): (r: seq<Product>)
    ensures forall p :: p in r <==> p in ps && p.stock > 0 && p.active
    ensures forall p :: multiset(r)[p] == if p.stock > 0 && p.active then multiset(ps)[p] else 0
  {
    Table.Filter(ps, (p: Product) => p.stock > 0 && p.active)
  }

  /** `findByNameContainingIgnoreCase`: the lower-cased name contains the
      lower-cased search text; inactive products are not excluded. */
  function FindByNameContainingIgnoreCase(ps: seq<Product>, name: string): (r: seq<Product>)
    ensures forall p :: p in r <==> p in ps && Contains(Lower(p.name), Lower(name))
    ensures forall p :: multiset(r)[p] == if Contains(Lower(p.name), Lower(name)) then multiset(ps)[p] else 0
  {
    Table.Filter(ps, (p: Product) => Contains(Lower(p.name), Lower(name)))
  }

  /** `findByCategoryIgnoreCase`: the category equals the given one up to
      case; inactive products are not excluded. */
  function FindByCategoryIgnoreCase(ps: seq<Product>, category: string): (r: seq<Product>)
    ensures forall p :: p in r <==> p in ps && Lower(p.category) == Lower(category)
    ensures forall p :: multiset(r)[p] == if Lower(p.category) == Lower(category) then multiset(ps)[p] else 0
  {
    Table.Filter(ps, (p: Product) => Lower(p.category) == Lower(category))
  }

  /** `existsByNameIgnoreCase`: some product's name equals the given one up
      to case. */
  function ExistsByNameIgnoreCase(ps: seq<Product>, name: string): (b: bool)
    ensures b <==> exists p :: p in ps && Lower(p.name) == Lower(name)
  {
    Table.Any(ps, (p: Product) => Lower(p.name) == Lower(name))
  }

  /** Every in-stock product is also an active one. */
  lemma InStockAreActive(ps: seq<Product>)
    ensures forall p :: p in FindAllInStock(ps) ==> p in FindByActiveTrue(ps)
  {
  }

  /** An exact-name match is also a substring match. */
  lemma ExistingNameIsFound(ps: seq<Product>, name: string)
    requires ExistsByNameIgnoreCase(ps, name)
    ensures FindByNameContainingIgnoreCase(ps, name) != []
  {
  }
}
