/**
 * Clients of both repositories, sharing one session: what their contracts
 * alone guarantee about a whole order lifecycle.
 */
module Lifecycle {
  import opened Outcomes
  import opened Tables
  import opened DishModel
  import opened OrderModel
  import opened Database
  import opened DishRepo
  import opened OrderRepo

  /**
   * Two dishes are created and an order is placed with both, in the initial
   * stage. It advances to preparing and to delivering; cancelling it then
   * fails; it advances to completed, still holding the same customer and
   * dishes; a move back to preparing is refused.
   */
  method PlaceAndAdvance()
    returns (placed: Result<Order>, toPreparing: Result<Order>, toDelivering: Result<Order>,
             lateCancel: Result<Order>, toCompleted: Result<Order>, backwards: Result<Order>)
    ensures placed.Ok? && placed.value.status == InProcessing && |placed.value.dishes| == 2
    ensures toPreparing.Ok? && toPreparing.value.status == Preparing
    ensures toDelivering.Ok? && toDelivering.value.status == Delivering
    ensures lateCancel == Raised(400, NotCancellable)
    ensures toCompleted.Ok? && toCompleted.value == placed.value.(status := Completed)
    ensures backwards == Raised(400, InvalidTransition)
  {
    var db := new Session();
    var dishRepo := new DishRepository(db);
    var orderRepo := new OrderRepository(db);
    var a := dishRepo.Create(DishInput("A", None, 10.0, "main"));
    var b := dishRepo.Create(DishInput("B", Some("side"), 5.5, "side"));
    assert Distinct([a.id, b.id]);
    placed := orderRepo.Create(OrderInput("X", [a.id, b.id]));
    var id := placed.value.id;
    ParseTag(Preparing);
    toPreparing := orderRepo.UpdateStatus(id, Tag(Preparing));
    ParseTag(Delivering);
    toDelivering := orderRepo.UpdateStatus(id, Tag(Delivering));
    lateCancel := orderRepo.Cancel(id);
    ParseTag(Completed);
    toCompleted := orderRepo.UpdateStatus(id, Tag(Completed));
    backwards := orderRepo.UpdateStatus(id, Tag(Preparing));
  }

  /**
   * Requests that are refused: an order naming the same dish twice, a status
   * given by its enumeration name rather than its text value, and cancelling
   * an order that does not exist. Deleting a dish an order was placed with
   * leaves that order stored, with its id, customer and status.
   */
  method RefusedRequests()
    returns (repeated: Result<Order>, byName: Result<Order>, unknown: Result<Order>, kept: seq<Order>)
    ensures repeated == Raised(400, DishesNotFound)
    ensures byName == Raised(400, InvalidStatus)
    ensures unknown == Raised(404, OrderNotFound)
    ensures |kept| == 1 && kept[0].status == InProcessing && kept[0].customerName == "X"
  {
    var db := new Session();
    var dishRepo := new DishRepository(db);
    var orderRepo := new OrderRepository(db);
    var a := dishRepo.Create(DishInput("A", None, 10.0, "main"));
    var twice := [a.id, a.id];
    assert twice[0] == twice[1];
    repeated := orderRepo.Create(OrderInput("Y", twice));
    var placed := orderRepo.Create(OrderInput("X", [a.id]));
    var id := placed.value.id;
    unknown := orderRepo.Cancel(id + 1);
    NamesNotRecognised(Preparing);
    byName := orderRepo.UpdateStatus(id, Name(Preparing));
    var gone := dishRepo.Delete(a.id);
    kept := orderRepo.GetAll();
    assert db.orders == map[id := placed.value];
    assert kept[0].id == id;
  }
}
