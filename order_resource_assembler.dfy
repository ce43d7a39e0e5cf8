/**
 * `OrderResourceAssembler.toResource`: wraps an order in a representation
 * carrying hypermedia links. The links to the order itself and to the
 * order collection are always there; the links to cancel and to complete
 * the order are added only while it is in progress. Link hrefs are not
 * modelled, only the handler each link points at.
 */
module OrderResourceAssembly {
  import opened Common
  import opened OrderEntity

  /** The link relations an order representation can carry. */
  datatype Rel = SelfRel | OrdersRel | CancelRel | CompleteRel

  /** The controller handler a link points at, with the order id it names. */
  datatype Target =
    | OneOrder(id: Option<int>)
    | AllOrders
    | CancelOrder(id: Option<int>)
    | CompleteOrder(id: Option<int>)

  datatype Link = Link(target: Target, rel: Rel)

  /** The handler the link of relation `rel` for the order `id` points at. */
  function HandlerFor(rel: Rel, id: Option<int>): Target {
    match rel
    case SelfRel => OneOrder(id)
    case OrdersRel => AllOrders
    case CancelRel => CancelOrder(id)
    case CompleteRel => CompleteOrder(id)
  }

  /** `Resource<Order>`: the wrapped order and its links, in the order added. */
  datatype Resource = Resource(content: OrderRow, links: seq<Link>) {
    /** `ResourceSupport.add`: appends one link. */
    function Add(link: Link): (r: Resource)
      ensures r.content == content
      ensures RelsOf(r.links) == RelsOf(links) + {link.rel}
      ensures r.links == links + [link]
    {
      Resource(content, links + [link])
    }
  }

  /** The relations present among `links`. */
  function RelsOf(links: seq<Link>): set<Rel> {
    set l | l in links :: l.rel
  }

  function ToResource(order: OrderRow): (r: Resource)
    ensures r.content == order
    ensures RelsOf(r.links) ==
      {SelfRel, OrdersRel} + (if order.status == InProgress then {CancelRel, CompleteRel} else {})
    ensures forall l :: l in r.links ==> l.target == HandlerFor(l.rel, order.id)
    ensures forall i, j :: 0 <= i < j < |r.links| ==> r.links[i].rel != r.links[j].rel
  {
    var resource := Resource(order, [Link(OneOrder(order.id), SelfRel), Link(AllOrders, OrdersRel)]);
    if order.status == InProgress then
      resource.Add(Link(CancelOrder(order.id), CancelRel)).Add(Link(CompleteOrder(order.id), CompleteRel))
    else
      resource
  }

  /** Corollary of `ToResource`'s contract: the always-present links are there whatever the status. */
  lemma AlwaysSelfAndOrders(order: OrderRow)
    ensures SelfRel in RelsOf(ToResource(order).links)
    ensures OrdersRel in RelsOf(ToResource(order).links)
  {
  }

  /** Corollary of `ToResource`'s contract: the action links are offered exactly while the order is in progress. */
  lemma ActionLinksIffInProgress(order: OrderRow)
    ensures CancelRel in RelsOf(ToResource(order).links) <==> order.status == InProgress
    ensures CompleteRel in RelsOf(ToResource(order).links) <==> order.status == InProgress
  {
  }
}
