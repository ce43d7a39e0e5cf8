/**
 * `OrderController` of the links variant: lists, reads and creates orders
 * and drives their lifecycle. Creation forces the status to in-progress;
 * the two transitions, cancel and complete, are allowed only from
 * in-progress; `Completed` and `Cancelled` are terminal. An unknown id
 * fails with `OrderNotFound`; a transition out of a terminal state is
 * answered with a "Method not allowed" error naming the current status.
 *
 * The transition rule is stated once, as the pure `Apply` over the
 * store's rows; the controller's `Cancel` and `Complete` are proved to do
 * exactly what `Apply` says.
 */
module OrderControl {
  import opened Common
  import opened Store
  import opened OrderEntity
  import opened OrderResourceAssembly

  /** The two lifecycle transitions. */
  datatype Action = CancelAction | CompleteAction

  /** The status a successful transition leaves the order in. */
  function ResultingStatus(a: Action): Status {
    match a
    case CancelAction => Cancelled
    case CompleteAction => Completed
  }

  /** The verb the error message uses for the transition. */
  function Verb(a: Action): string {
    match a
    case CancelAction => "cancel"
    case CompleteAction => "complete"
  }

  /** How a request fails: the exception (404) or the error body of a 405 answer. */
  datatype OrderError =
    | OrderNotFound(id: int)
    | MethodNotAllowed(title: string, detail: string)

  /** The fixed text between the verb and the status name. */
  const InTheStatus := " an order that is in the "

  /**
   * The detail text of the "Method not allowed" answer: it starts by naming
   * the refused action and ends by naming the status the order is in.
   */
  function NotAllowedDetail(a: Action, s: Status): (d: string)
    ensures |"You can't " + Verb(a)| + |StatusName(s) + " status"| <= |d|
    ensures d[..|"You can't " + Verb(a)|] == "You can't " + Verb(a)
    ensures d[|d| - |StatusName(s) + " status"|..] == StatusName(s) + " status"
  {
    var d := "You can't " + Verb(a) + InTheStatus + StatusName(s) + " status";
    assert d == ("You can't " + Verb(a)) + InTheStatus + (StatusName(s) + " status");
    d
  }

  /** For one action, different statuses give different detail texts. */
  lemma DetailNamesStatus(a: Action, s: Status, t: Status)
    ensures NotAllowedDetail(a, s) == NotAllowedDetail(a, t) ==> s == t
  {
    if NotAllowedDetail(a, s) == NotAllowedDetail(a, t) {
      var p := "You can't " + Verb(a) + InTheStatus;
      assert NotAllowedDetail(a, s) == p + (StatusName(s) + " status");
      assert NotAllowedDetail(a, t) == p + (StatusName(t) + " status");
      assert StatusName(s) + " status" == StatusName(t) + " status";
      assert StatusName(s) == (StatusName(s) + " status")[..|StatusName(s)|];
      assert StatusName(t) == (StatusName(t) + " status")[..|StatusName(t)|];
      StatusNameInjective(s, t);
    }
  }

  /**
   * The "Method not allowed" answer to transition `a` from status `s`: a
   * 405 error whose detail starts by naming the action and ends with the
   * status name.
   */
  function NotAllowed(a: Action, s: Status): (e: OrderError)
    ensures e.MethodNotAllowed? && e.title == "Method not allowed"
    ensures |"You can't " + Verb(a)| + |StatusName(s) + " status"| <= |e.detail|
    ensures e.detail[..|"You can't " + Verb(a)|] == "You can't " + Verb(a)
    ensures e.detail[|e.detail| - |StatusName(s) + " status"|..] == StatusName(s) + " status"
  {
    MethodNotAllowed("Method not allowed", NotAllowedDetail(a, s))
  }

  /** What one transition request answers, and the rows it leaves behind. */
  datatype Transition = Transition(result: Result<OrderRow, OrderError>, rows: map<int, OrderRow>)

  /** The transition rule: look the order up, check the guard, update and save. */
  function Apply(rows: map<int, OrderRow>, id: int, a: Action): (t: Transition)
    ensures t.rows.Keys == rows.Keys
    ensures forall k :: k in rows && k != id ==> t.rows[k] == rows[k]
    ensures t.result.Success? <==> id in rows && rows[id].status == InProgress
    ensures t.result.Success? ==>
      t.result.value == t.rows[id] == rows[id].(status := ResultingStatus(a))
    ensures t.result.Failure? ==> t.rows == rows
    ensures id !in rows ==> t.result == Failure(OrderNotFound(id))
    ensures id in rows && IsTerminal(rows[id].status) ==>
      t.result == Failure(NotAllowed(a, rows[id].status))
  {
    if id !in rows then
      Transition(Failure(OrderNotFound(id)), rows)
    else
      var order := rows[id];
      if order.status == InProgress then
        var saved := order.(status := ResultingStatus(a));
        Transition(Success(saved), rows[id := saved])
      else
        Transition(Failure(NotAllowed(a, order.status)), rows)
  }

  /** The rows after a sequence of transition requests, one after another. */
  function Run(rows: map<int, OrderRow>, requests: seq<(int, Action)>): map<int, OrderRow>
    decreases |requests|
  {
    if requests == [] then rows
    else Run(Apply(rows, requests[0].0, requests[0].1).rows, requests[1..])
  }

  /** Once an order is terminal, no sequence of transitions changes it. */
  lemma {:induction false} TerminalIsAbsorbing(rows: map<int, OrderRow>, id: int, requests: seq<(int, Action)>)
    requires id in rows && IsTerminal(rows[id].status)
    ensures id in Run(rows, requests) && Run(rows, requests)[id] == rows[id]
    decreases |requests|
  {
    if requests != [] {
      TerminalIsAbsorbing(Apply(rows, requests[0].0, requests[0].1).rows, id, requests[1..]);
    }
  }

  /**
   * After a transition succeeds, every later cancel or complete of that
   * order, whatever happened in between, is refused and names the status
   * the first transition left.
   */
  lemma {:induction false} NoTransitionAfterSuccess(
    rows: map<int, OrderRow>, id: int, a: Action, requests: seq<(int, Action)>, b: Action)
    requires Apply(rows, id, a).result.Success?
    ensures var later := Apply(Run(Apply(rows, id, a).rows, requests), id, b);
      later.result == Failure(NotAllowed(b, ResultingStatus(a)))
  {
    TerminalIsAbsorbing(Apply(rows, id, a).rows, id, requests);
  }

  /** Cancelling twice succeeds once and is then refused. */
  lemma CancelTwice(rows: map<int, OrderRow>, id: int)
    requires id in rows && rows[id].status == InProgress
    ensures Apply(rows, id, CancelAction).result.Success?
    ensures Apply(Apply(rows, id, CancelAction).rows, id, CancelAction).result ==
      Failure(NotAllowed(CancelAction, Cancelled))
  {
  }

  /** A cancel or complete link is offered exactly when that request would succeed. */
  lemma LinksMatchGuards(rows: map<int, OrderRow>, id: int)
    requires id in rows
    ensures CancelRel in RelsOf(ToResource(rows[id]).links) <==> Apply(rows, id, CancelAction).result.Success?
    ensures CompleteRel in RelsOf(ToResource(rows[id]).links) <==> Apply(rows, id, CompleteAction).result.Success?
  {
  }

  /** The orders loaded at start-up into an empty store: a completed MacBook Pro, then an iPhone in progress. */
  function Preloaded(): map<int, OrderRow> {
    map[1 := OrderRow(Some(1), "MacBook Pro", Completed), 2 := OrderRow(Some(2), "iPhone", InProgress)]
  }

  /** On the preloaded orders: the MacBook Pro cannot be cancelled, the iPhone can be completed, order 3 is unknown. */
  lemma PreloadedScenario()
    ensures Apply(Preloaded(), 1, CancelAction).result == Failure(NotAllowed(CancelAction, Completed))
    ensures Apply(Preloaded(), 2, CompleteAction).result == Success(OrderRow(Some(2), "iPhone", Completed))
    ensures Apply(Preloaded(), 3, CancelAction).result == Failure(OrderNotFound(3))
  {
  }

  /** The representation a handler answers with. */
  function Represent(result: Result<OrderRow, OrderError>): Result<Resource, OrderError> {
    match result
    case Success(order) => Success(ToResource(order))
    case Failure(e) => Failure(e)
  }

  class OrderController {
    const repository: Repository<OrderRow>

    /** The store is valid and every order is stored under its own id. */
    ghost predicate Valid()
      reads this, repository
    {
      repository.Valid() && forall k :: k in repository.rows ==> repository.rows[k].id == Some(k)
    }

    constructor (repository: Repository<OrderRow>)
      requires repository.Valid()
      requires forall k :: k in repository.rows ==> repository.rows[k].id == Some(k)
      ensures this.repository == repository && Valid()
    {
      this.repository := repository;
    }

    /** `all`: one representation per stored order. */
    method All() returns (resources: seq<Resource>, ids: seq<int>)
      requires Valid()
      ensures |resources| == |ids| == |repository.rows|
      ensures forall i, j :: 0 <= i < j < |ids| ==> ids[i] != ids[j]
      ensures forall i :: 0 <= i < |ids| ==>
        ids[i] in repository.rows && resources[i] == ToResource(repository.rows[ids[i]])
      ensures forall k :: k in repository.rows ==> k in ids
    {
      var orders;
      orders, ids := repository.FindAll();
      resources := seq(|orders|, i requires 0 <= i < |orders| => ToResource(orders[i]));
    }

    /** `one`: the stored order, or `OrderNotFound`. */
    method One(id: int) returns (r: Result<Resource, OrderError>)
      requires Valid()
      ensures id in repository.rows ==> r == Success(ToResource(repository.rows[id]))
      ensures id !in repository.rows ==> r == Failure(OrderNotFound(id))
    {
      var found := repository.FindById(id);
      match found
      case None => r := Failure(OrderNotFound(id));
      case Some(order) => r := Success(ToResource(order));
    }

    /**
     * `save`: an order without an id gets a fresh one (assigned to the
     * object itself); an order with an id is stored under it.
     */
    method Save(order: Order) returns (saved: OrderRow)
      requires Valid()
      modifies order, repository
      ensures Valid()
      ensures old(order.id).None? ==> order.id == Some(old(repository.FreshId()))
      ensures old(order.id).Some? ==> order.id == old(order.id)
      ensures order.Value() == old(order.Value()).(id := order.id) == saved
      ensures order.id.Some? && repository.rows == old(repository.rows)[order.id.value := saved]
    {
      if order.id.None? {
        order.SetId(Some(repository.FreshId()));
      }
      saved := order.Value();
      repository.Put(order.id.value, saved);
    }

    /**
     * `newOrder`: whatever status the request carried, the order is stored
     * as in progress. Without an id it is added under a fresh one and
     * nothing else changes; with an id it replaces what is stored there.
     */
    method NewOrder(order: Order) returns (created: Resource)
      requires Valid()
      modifies order, repository
      ensures Valid()
      ensures order.status == InProgress && order.description == old(order.description)
      ensures old(order.id).None? ==>
        order.id == Some(old(repository.FreshId())) && order.id.value !in old(repository.rows)
      ensures old(order.id).Some? ==> order.id == old(order.id)
      ensures order.id.Some? && repository.rows == old(repository.rows)[order.id.value := order.Value()]
      ensures created == ToResource(order.Value())
    {
      order.SetStatus(InProgress);
      var saved := Save(order);
      created := ToResource(saved);
    }

    /** Applies transition `a` to order `id`, exactly as `Apply` says. */
    method Transit(id: int, a: Action) returns (r: Result<Resource, OrderError>)
      requires Valid()
      modifies repository
      ensures Valid()
      ensures var t := Apply(old(repository.rows), id, a);
        repository.rows == t.rows && r == Represent(t.result)
    {
      var found := repository.FindById(id);
      if found.None? {
        return Failure(OrderNotFound(id));
      }
      var order := new Order.FromRow(found.value);
      if order.status == InProgress {
        order.SetStatus(ResultingStatus(a));
        var saved := Save(order);
        return Success(ToResource(saved));
      }
      return Failure(NotAllowed(a, order.status));
    }

    /** `cancel`: in progress becomes cancelled; otherwise refused, nothing changes. */
    method Cancel(id: int) returns (r: Result<Resource, OrderError>)
      requires Valid()
      modifies repository
      ensures Valid()
      ensures var t := Apply(old(repository.rows), id, CancelAction);
        repository.rows == t.rows && r == Represent(t.result)
    {
      r := Transit(id, CancelAction);
    }

    /** `complete`: in progress becomes completed; otherwise refused, nothing changes. */
    method Complete(id: int) returns (r: Result<Resource, OrderError>)
      requires Valid()
      modifies repository
      ensures Valid()
      ensures var t := Apply(old(repository.rows), id, CompleteAction);
        repository.rows == t.rows && r == Represent(t.result)
    {
      r := Transit(id, CompleteAction);
    }
  }
}
