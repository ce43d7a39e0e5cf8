/**
 * `OrderModelAssembler.toModel`: the same link rule as
 * `OrderResourceAssembler.toResource`, written against the newer
 * hypermedia API, where the wrapper is an `EntityModel`.
 */
module OrderModelAssembly {
  import opened OrderEntity
  import opened OrderResourceAssembly

  /** `EntityModel<Order>`: the wrapped order and its links, in the order added. */
  datatype EntityModel = EntityModel(content: OrderRow, links: seq<Link>) {
    /** `RepresentationModel.add`: appends one link. */
    function Add(link: Link): (m: EntityModel)
      ensures m.content == content
      ensures RelsOf(m.links) == RelsOf(links) + {link.rel}
      ensures m.links == links + [link]
    {
      EntityModel(content, links + [link])
    }
  }

  function ToModel(order: OrderRow): (m: EntityModel)
    ensures m.content == order
    ensures RelsOf(m.links) ==
      {SelfRel, OrdersRel} + (if order.status == InProgress then {CancelRel, CompleteRel} else {})
    ensures m.links == ToResource(order).links
  {
    var model := EntityModel(order, [Link(OneOrder(order.id), SelfRel), Link(AllOrders, OrdersRel)]);
    if order.status == InProgress then
      model.Add(Link(CancelOrder(order.id), CancelRel)).Add(Link(CompleteOrder(order.id), CompleteRel))
    else
      model
  }

  /** Corollary of `ToModel`'s contract: for a terminal order the relation set is exactly the two unconditional ones. */
  lemma TerminalModelHasOnlyNavigation(order: OrderRow)
    requires IsTerminal(order.status)
    ensures RelsOf(ToModel(order).links) == {SelfRel, OrdersRel}
  {
  }
}
