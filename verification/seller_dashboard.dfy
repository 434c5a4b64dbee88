/** The order list and status modal of `src/pages/SellerDashboard.jsx`. */
module SellerDashboard {
  import opened Results

  /** An order as the dashboard holds it (the float `amount` is left out). */
  datatype Order = Order(id: string, studentName: string, status: string, date: string, deliveryDate: string)

  /** The component state: the order list and the order whose modal is open. */
  datatype Dashboard = Dashboard(orders: seq<Order>, selected: Option<Order>)

  /** The buttons the status modal offers. */
  const StatusChoices: seq<string> := ["Pending", "In Progress", "Completed"]

  /** Every order's status is one the modal offers. */
  predicate StatusesValid(orders: seq<Order>) {
    forall i :: 0 <= i < |orders| ==> orders[i].status in StatusChoices
  }

  /** `orders.map(...)`: every order with this id gets the new status; all else is kept. */
  function SetStatus(orders: seq<Order>, id: string, newStatus: string): (r: seq<Order>)
    ensures |r| == |orders|
    ensures forall i :: 0 <= i < |orders| && orders[i].id == id ==>
      r[i].status == newStatus && r[i].id == orders[i].id && r[i].studentName == orders[i].studentName
        && r[i].date == orders[i].date && r[i].deliveryDate == orders[i].deliveryDate
    ensures forall i :: 0 <= i < |orders| && orders[i].id != id ==> r[i] == orders[i]
  {
    if orders == [] then []
    else
      var head := if orders[0].id == id then orders[0].(status := newStatus) else orders[0];
      [head] + SetStatus(orders[1..], id, newStatus)
  }

  /**
   * `handleStatusUpdate`: with an order selected, rewrite the status of the
   * orders carrying its id and close the modal; otherwise do nothing.
   */
  function HandleStatusUpdate(d: Dashboard, newStatus: string): (d': Dashboard)
    ensures d.selected.None? ==> d' == d
    ensures d.selected.Some? ==> d'.selected.None? && |d'.orders| == |d.orders|
    ensures d.selected.Some? ==> forall i :: 0 <= i < |d.orders| ==>
      if d.orders[i].id == d.selected.value.id then d'.orders[i] == d.orders[i].(status := newStatus)
      else d'.orders[i] == d.orders[i]
  {
    match d.selected
    case None => d
    case Some(sel) => Dashboard(SetStatus(d.orders, sel.id, newStatus), None)
  }

  /** Clicking an order card opens the modal for it. */
  function SelectOrder(d: Dashboard, order: Order): (d': Dashboard)
    ensures d'.selected == Some(order) && d'.orders == d.orders
  {
    d.(selected := Some(order))
  }

  /** Clicking the backdrop closes the modal without changing any order. */
  function DismissModal(d: Dashboard): (d': Dashboard)
    ensures d'.selected.None? && d'.orders == d.orders
  {
    d.(selected := None)
  }

  /** A status chosen from the modal keeps every status inside the offered set. */
  lemma UpdateKeepsStatusesValid(d: Dashboard, newStatus: string)
    requires StatusesValid(d.orders) && newStatus in StatusChoices
    ensures StatusesValid(HandleStatusUpdate(d, newStatus).orders)
  {
  }

  /** What the user can do on the dashboard. */
  datatype Event = Select(order: Order) | Choose(status: string) | Dismiss

  function Step(d: Dashboard, e: Event): (d': Dashboard) {
    match e
    case Select(order) => SelectOrder(d, order)
    case Choose(status) => HandleStatusUpdate(d, status)
    case Dismiss => DismissModal(d)
  }

  function Replay(d: Dashboard, events: seq<Event>): (d': Dashboard)
    decreases |events|
  {
    if events == [] then d else Replay(Step(d, events[0]), events[1..])
  }

  /** Every status chosen came from the modal's buttons. */
  predicate ChoicesFromModal(events: seq<Event>) {
    forall i :: 0 <= i < |events| && events[i].Choose? ==> events[i].status in StatusChoices
  }

  /** Starting from offered statuses and choosing only offered ones, statuses never leave the set. */
  lemma {:induction false} ReplayKeepsStatusesValid(d: Dashboard, events: seq<Event>)
    requires StatusesValid(d.orders) && ChoicesFromModal(events)
    ensures StatusesValid(Replay(d, events).orders)
    decreases |events|
  {
    if events != [] {
      if events[0].Choose? {
        UpdateKeepsStatusesValid(d, events[0].status);
      }
      assert ChoicesFromModal(events[1..]) by {
        forall i | 0 <= i < |events[1..]| && events[1..][i].Choose?
          ensures events[1..][i].status in StatusChoices
        {
          assert events[1..][i] == events[i + 1];
        }
      }
      ReplayKeepsStatusesValid(Step(d, events[0]), events[1..]);
    }
  }

  /** No event changes how many orders there are or which ids they carry, in order. */
  lemma {:induction false} ReplayKeepsIds(d: Dashboard, events: seq<Event>)
    ensures |Replay(d, events).orders| == |d.orders|
    ensures forall i :: 0 <= i < |d.orders| ==> Replay(d, events).orders[i].id == d.orders[i].id
    decreases |events|
  {
    if events != [] {
      ReplayKeepsIds(Step(d, events[0]), events[1..]);
    }
  }
}
