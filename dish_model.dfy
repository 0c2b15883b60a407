/** The `dishes` table row and the fields a client supplies to create one. */
module DishModel {
  import opened Outcomes

  /**
   * A row of the `dishes` table. The price is a floating-point column; it is
   * carried as an opaque value and never reasoned about.
   */
  datatype Dish = Dish(id: int, name: string, description: Option<string>, price: real, category: string)

  /** The fields of a create request: everything but the id, which the table assigns. */
  datatype DishInput = DishInput(name: string, description: Option<string>, price: real, category: string)

  /** The row built from a create request once the table has chosen its id. */
  function FromInput(id: int, input: DishInput): Dish
  {
    Dish(id, input.name, input.description, input.price, input.category)
  }
}
