/**
 * The order repository: the order lifecycle. Orders are created against the
 * dish table, cancelled only while in processing, and advanced one stage at
 * a time.
 */
module OrderRepo {
  import opened Outcomes
  import opened Tables
  import opened DishModel
  import opened OrderModel
  import opened Database

  /**
   * `found` is what the query "dishes whose id is in `ids`" returns: rows of
   * `table`, each with a requested id, no row twice, and every requested row present.
   */
  ghost predicate Selected(found: seq<Dish>, table: map<int, Dish>, ids: seq<int>)
  {
    && (forall i :: 0 <= i < |found| ==> found[i].id in ids && found[i].id in table && table[found[i].id] == found[i])
    && (forall i, j :: 0 <= i < j < |found| ==> found[i].id != found[j].id)
    && (forall k :: k in ids && k in table ==> table[k] in found)
  }

  class OrderRepository {
    const db: Session

    constructor (db: Session)
      ensures this.db == db
    {
      this.db := db;
    }

    /** Every order in the table, each exactly once. */
    method GetAll() returns (all: seq<Order>)
      requires db.Valid()
      ensures |all| == |db.orders|
      ensures forall i :: 0 <= i < |all| ==> all[i].id in db.orders && db.orders[all[i].id] == all[i]
      ensures forall k :: k in db.orders ==> db.orders[k] in all
      ensures forall i, j :: 0 <= i < j < |all| ==> all[i].id != all[j].id
    {
      var keys;
      keys, all := Rows(db.orders);
      forall k | k in db.orders ensures db.orders[k] in all {
        var i :| 0 <= i < |keys| && keys[i] == k;
        assert all[i] == db.orders[k];
      }
    }

    /**
     * The dishes whose id is among `ids`: each matching row once, however
     * often its id is requested, so there are as many as distinct known ids.
     */
    method QueryDishes(ids: seq<int>) returns (found: seq<Dish>)
      requires db.Valid()
      ensures Selected(found, db.dishes, ids)
      ensures |found| == |Found(db.dishes, ids)|
    {
      found := [];
      var seen: set<int> := {};
      var i := 0;
      while i < |ids|
        invariant 0 <= i <= |ids|
        invariant seen == Found(db.dishes, ids[..i])
        invariant |found| == |seen|
        invariant forall j :: 0 <= j < |found| ==> found[j].id in seen && db.dishes[found[j].id] == found[j]
        invariant forall k :: k in seen ==> db.dishes[k] in found
        invariant forall j, l :: 0 <= j < l < |found| ==> found[j].id != found[l].id
      {
        var k := ids[i];
        if k in db.dishes && k !in seen {
          found := found + [db.dishes[k]];
          seen := seen + {k};
        }
        i := i + 1;
      }
      assert ids[..i] == ids;
    }

    /**
     * Places an order. It is rejected with 400 unless the number of dishes
     * found equals the number of ids requested, which holds exactly when every
     * id is known and none is repeated; a rejected request stores nothing.
     * Otherwise one new order is stored under a fresh id, in the initial
     * stage, holding the dishes found, and returned; nothing else changes.
     */
    method Create(input: OrderInput) returns (r: Result<Order>)
      requires db.Valid()
      modifies db
      ensures db.Valid()
      ensures db.dishes == old(db.dishes) && db.nextDishId == old(db.nextDishId)
      ensures r.Raised? <==> !(AllKnown(old(db.dishes), input.dishIds) && Distinct(input.dishIds))
      ensures r.Raised? ==> r == Raised(400, DishesNotFound)
      ensures r.Raised? ==> db.orders == old(db.orders) && db.nextOrderId == old(db.nextOrderId)
      ensures r.Ok? ==>
        && r.value.id == old(db.nextOrderId) && r.value.id !in old(db.orders)
        && r.value.customerName == input.customerName
        && r.value.status == InProcessing
        && Selected(r.value.dishes, old(db.dishes), input.dishIds)
        && |r.value.dishes| == |input.dishIds|
        && db.orders == old(db.orders)[r.value.id := r.value]
        && db.nextOrderId > r.value.id
    {
      var found := QueryDishes(input.dishIds);
      FoundCount(db.dishes, input.dishIds);
      if |found| != |input.dishIds| {
        return Raised(400, DishesNotFound);
      }
      var order := NewOrder(db.nextOrderId, input.customerName, found);
      db.orders := db.orders[order.id := order];
      db.nextOrderId := db.nextOrderId + 1;
      r := Ok(order);
    }

    /**
     * Cancels an order by deleting it: 404 when there is no such order, 400
     * when it has left the initial stage (it stays stored), and otherwise the
     * order is removed and returned as it was; nothing else changes.
     */
    method Cancel(orderId: int) returns (r: Result<Order>)
      requires db.Valid()
      modifies db
      ensures db.Valid()
      ensures db.dishes == old(db.dishes)
      ensures db.nextDishId == old(db.nextDishId) && db.nextOrderId == old(db.nextOrderId)
      ensures orderId !in old(db.orders) ==> r == Raised(404, OrderNotFound)
      ensures orderId in old(db.orders) && old(db.orders)[orderId].status != InProcessing ==>
        r == Raised(400, NotCancellable)
      ensures r.Raised? ==> db.orders == old(db.orders)
      ensures r.Ok? <==> orderId in old(db.orders) && old(db.orders)[orderId].status == InProcessing
      ensures r.Ok? ==> r.value == old(db.orders)[orderId] && db.orders == old(db.orders) - {orderId}
    {
      if orderId !in db.orders {
        return Raised(404, OrderNotFound);
      }
      var order := db.orders[orderId];
      if order.status != InProcessing {
        return Raised(400, NotCancellable);
      }
      db.orders := db.orders - {orderId};
      r := Ok(order);
    }

    /**
     * Moves an order to the status named by `text`: 404 when there is no such
     * order (whatever the text), then 400 when the text names no status, then
     * 400 unless the named status is the next stage. On success only that
     * order's status changes and the updated order is returned.
     */
    method UpdateStatus(orderId: int, text: string) returns (r: Result<Order>)
      requires db.Valid()
      modifies db
      ensures db.Valid()
      ensures db.dishes == old(db.dishes)
      ensures db.nextDishId == old(db.nextDishId) && db.nextOrderId == old(db.nextOrderId)
      ensures orderId !in old(db.orders) ==> r == Raised(404, OrderNotFound)
      ensures orderId in old(db.orders) && ParseStatus(text).None? ==> r == Raised(400, InvalidStatus)
      ensures orderId in old(db.orders) && ParseStatus(text).Some?
              && !Advances(old(db.orders)[orderId].status, ParseStatus(text).value) ==>
        r == Raised(400, InvalidTransition)
      ensures r.Raised? ==> db.orders == old(db.orders)
      ensures r.Ok? <==> orderId in old(db.orders) && ParseStatus(text).Some?
                         && Advances(old(db.orders)[orderId].status, ParseStatus(text).value)
      ensures r.Ok? ==>
        && r.value == old(db.orders)[orderId].(status := ParseStatus(text).value)
        && db.orders == old(db.orders)[orderId := r.value]
    {
      if orderId !in db.orders {
        return Raised(404, OrderNotFound);
      }
      var order := db.orders[orderId];
      var requested := ParseStatus(text);
      if requested.None? {
        return Raised(400, InvalidStatus);
      }
      var currentIdx := Position(order.status);
      var newIdx := Position(requested.value);
      if newIdx != currentIdx + 1 {
        return Raised(400, InvalidTransition);
      }
      var updated := order.(status := requested.value);
      db.orders := db.orders[orderId := updated];
      r := Ok(updated);
    }
  }
}
