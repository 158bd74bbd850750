/** The product row. Its fields are the ones the product service reads and
    sets: id, name, description, price, stock, category and the active flag. */
module ProductModel {
  import opened Outcomes
  import opened JavaInt

  /** `id` is None until the table assigns one; `price` is a decimal amount
      kept in minor units; `stock` is a Java int. */
  datatype Product = Product(
    id: Option<int>,
    name: string,
    description: string,
    price: int,
    stock: Int32,
    category: string,
    active: bool)
}
