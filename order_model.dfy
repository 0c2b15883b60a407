/**
 * The order status enumeration, its text tags, its fixed forward ordering,
 * and the `orders` table row.
 */
module OrderModel {
  import opened Outcomes
  import opened Tables
  import opened DishModel

  /** The four stages of an order, in declaration order. */
  datatype Status = InProcessing | Preparing | Delivering | Completed

  /** The text value each status is declared with, which is what a status update request names. */
  function Tag(s: Status): string
  {
    match s
    case InProcessing => "в обработке"
    case Preparing => "готовится"
    case Delivering => "доставляется"
    case Completed => "завершен"
  }

  /** No two statuses share a text tag, so a tag identifies its status. */
  lemma TagsDistinct()
    ensures forall a: Status, b: Status :: Tag(a) == Tag(b) ==> a == b
  {
  }

  /**
   * Looks a status up by its text value, as calling the enumeration on a
   * string does; text that is no status's value is not recognised.
   */
  function ParseStatus(text: string): (r: Option<Status>)
    ensures r.Some? ==> Tag(r.value) == text
    ensures r.None? <==> forall s: Status :: Tag(s) != text
  {
    if text == Tag(InProcessing) then Some(InProcessing)
    else if text == Tag(Preparing) then Some(Preparing)
    else if text == Tag(Delivering) then Some(Delivering)
    else if text == Tag(Completed) then Some(Completed)
    else None
  }

  /** Parsing a status's own tag gives that status back. */
  lemma ParseTag(s: Status)
    ensures ParseStatus(Tag(s)) == Some(s)
  {
  }

  /** The identifier each status is declared under, as opposed to its text value. */
  function Name(s: Status): string
  {
    match s
    case InProcessing => "IN_PROCESSING"
    case Preparing => "PREPARING"
    case Delivering => "DELIVERING"
    case Completed => "COMPLETED"
  }

  /** Lookup is by text value only: no status is recognised under its declared identifier. */
  lemma NamesNotRecognised(s: Status)
    ensures ParseStatus(Name(s)).None?
  {
  }

  /** The forward order of the lifecycle. */
  const StatusOrder: seq<Status> := [InProcessing, Preparing, Delivering, Completed]

  /** The enumeration has exactly four values, each listed once in the ordering. */
  lemma StatusOrderLists()
    ensures |StatusOrder| == 4 && Distinct(StatusOrder)
    ensures forall s: Status :: s in StatusOrder
  {
    forall s: Status ensures s in StatusOrder {
      match s
      case InProcessing => assert StatusOrder[0] == s;
      case Preparing => assert StatusOrder[1] == s;
      case Delivering => assert StatusOrder[2] == s;
      case Completed => assert StatusOrder[3] == s;
    }
  }

  /** The position of the first occurrence of `s` in `xs` (a list's `index`). */
  function IndexIn(xs: seq<Status>, s: Status): (r: nat)
    requires s in xs
    ensures r < |xs| && xs[r] == s
    ensures forall j :: 0 <= j < r ==> xs[j] != s
    decreases |xs|
  {
    if xs[0] == s then 0 else 1 + IndexIn(xs[1..], s)
  }

  /** Where a status stands in the forward ordering. */
  function Position(s: Status): (r: nat)
    ensures r < |StatusOrder| && StatusOrder[r] == s
  {
    StatusOrderLists();
    IndexIn(StatusOrder, s)
  }

  /** The transition check: the requested status sits exactly one place after the current one. */
  predicate Advances(current: Status, requested: Status)
  {
    Position(requested) == Position(current) + 1
  }

  /** The next stage of the lifecycle, written out case by case; a completed order has none. */
  function Successor(s: Status): Option<Status>
  {
    match s
    case InProcessing => Some(Preparing)
    case Preparing => Some(Delivering)
    case Delivering => Some(Completed)
    case Completed => None
  }

  /** The index comparison accepts exactly the move to the next stage. */
  lemma AdvancesIsSuccessor(current: Status, requested: Status)
    ensures Advances(current, requested) <==> Successor(current) == Some(requested)
  {
  }

  /**
   * What the transition check rejects: staying put, moving back, skipping a
   * stage, and any move out of the completed stage; nothing moves into the
   * initial stage.
   */
  lemma TransitionRejections(current: Status, requested: Status)
    ensures requested == current ==> !Advances(current, requested)
    ensures Position(requested) < Position(current) ==> !Advances(current, requested)
    ensures Position(requested) > Position(current) + 1 ==> !Advances(current, requested)
    ensures current == Completed ==> !Advances(current, requested)
    ensures requested == InProcessing ==> !Advances(current, requested)
  {
  }

  /**
   * The status reached by applying a series of requested statuses, each
   * accepted only when it advances the previous one; None once one is rejected.
   */
  function Run(start: Status, requests: seq<Status>): Option<Status>
    decreases |requests|
  {
    if requests == [] then Some(start)
    else if Advances(start, requests[0]) then Run(requests[0], requests[1..])
    else None
  }

  /**
   * Every accepted update moves exactly one stage forward, so an order makes
   * at most three successful updates in its life and never returns to an
   * earlier stage.
   */
  lemma {:induction false} RunMovesForward(start: Status, requests: seq<Status>)
    requires Run(start, requests).Some?
    ensures Position(Run(start, requests).value) == Position(start) + |requests|
    ensures |requests| <= 3 - Position(start)
    decreases |requests|
  {
    if requests != [] {
      RunMovesForward(requests[0], requests[1..]);
    }
  }

  /** A row of the `orders` table; `dishes` is the list of dishes the order was placed with. */
  datatype Order = Order(id: int, customerName: string, status: Status, dishes: seq<Dish>)

  /** The fields of a create request: the customer and the requested dish ids (a list, repeats allowed). */
  datatype OrderInput = OrderInput(customerName: string, dishIds: seq<int>)

  /** A freshly constructed order: its status takes the column default, the initial stage. */
  function NewOrder(id: int, customerName: string, dishes: seq<Dish>): Order
  {
    Order(id, customerName, InProcessing, dishes)
  }
}
