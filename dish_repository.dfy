/** The dish repository: list, create and delete over the `dishes` table. */
module DishRepo {
  import opened Outcomes
  import opened Tables
  import opened DishModel
  import opened Database

  class DishRepository {
    const db: Session

    constructor (db: Session)
      ensures this.db == db
    {
      this.db := db;
    }

    /** Every dish in the table, each exactly once. */
    method GetAll() returns (all: seq<Dish>)
      requires db.Valid()
      ensures |all| == |db.dishes|
      ensures forall i :: 0 <= i < |all| ==> all[i].id in db.dishes && db.dishes[all[i].id] == all[i]
      ensures forall k :: k in db.dishes ==> db.dishes[k] in all
      ensures forall i, j :: 0 <= i < j < |all| ==> all[i].id != all[j].id
    {
      var keys;
      keys, all := Rows(db.dishes);
      forall k | k in db.dishes ensures db.dishes[k] in all {
        var i :| 0 <= i < |keys| && keys[i] == k;
        assert all[i] == db.dishes[k];
      }
    }

    /**
     * Adds one dish built from the request under a fresh id and returns it;
     * the other dishes and the orders are untouched.
     */
    method Create(input: DishInput) returns (d: Dish)
      requires db.Valid()
      modifies db
      ensures db.Valid()
      ensures d == FromInput(old(db.nextDishId), input) && d.id !in old(db.dishes)
      ensures db.dishes == old(db.dishes)[d.id := d]
      ensures db.nextDishId > d.id
      ensures db.orders == old(db.orders) && db.nextOrderId == old(db.nextOrderId)
    {
      d := FromInput(db.nextDishId, input);
      db.dishes := db.dishes[d.id := d];
      db.nextDishId := db.nextDishId + 1;
    }

    /**
     * Removes the dish with the given id and returns it, or returns None and
     * changes nothing when there is none. Orders are not consulted: an order
     * placed with the dish keeps its snapshot of it and the orders table is untouched.
     */
    method Delete(dishId: int) returns (r: Option<Dish>)
      requires db.Valid()
      modifies db
      ensures db.Valid()
      ensures dishId in old(db.dishes) ==> r == Some(old(db.dishes)[dishId]) && db.dishes == old(db.dishes) - {dishId}
      ensures dishId !in old(db.dishes) ==> r == None && db.dishes == old(db.dishes)
      ensures db.orders == old(db.orders)
      ensures db.nextDishId == old(db.nextDishId) && db.nextOrderId == old(db.nextOrderId)
    {
      if dishId in db.dishes {
        r := Some(db.dishes[dishId]);
        db.dishes := db.dishes - {dishId};
      } else {
        r := None;
      }
    }
  }
}
