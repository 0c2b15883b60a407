/**
 * The database session both repositories share: the `dishes` and `orders`
 * tables, each keyed by id, and the next id each table will assign.
 */
module Database {
  import opened DishModel
  import opened OrderModel

  class Session {
    var dishes: map<int, Dish>
    var orders: map<int, Order>
    var nextDishId: int
    var nextOrderId: int

    /** Every row is stored under its own id, and every id in use is below the next one to assign. */
    ghost predicate Valid()
      reads this
    {
      && (forall k :: k in dishes ==> dishes[k].id == k && k < nextDishId)
      && (forall k :: k in orders ==> orders[k].id == k && k < nextOrderId)
    }

    /** An empty database; ids start at 1. */
    constructor ()
      ensures Valid()
      ensures dishes == map[] && orders == map[]
      ensures nextDishId == 1 && nextOrderId == 1
    {
      dishes, orders := map[], map[];
      nextDishId, nextOrderId := 1, 1;
    }
  }
}
