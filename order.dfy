/**
 * The order entity: an identifier that the store assigns, a free-form
 * description and a lifecycle status. `Order` is the mutable Java object;
 * `OrderRow` is its value, which is what the store keeps.
 */
module OrderEntity {
  import opened Common

  /** The three lifecycle states of an order. */
  datatype Status = InProgress | Completed | Cancelled

  /** The enum constant's name, which is how Java prints a `Status`. */
  function StatusName(s: Status): (r: string)
    ensures r != [] && ' ' !in r
    ensures forall i :: 0 <= i < |r| ==> 'A' <= r[i] <= 'Z' || r[i] == '_'
  {
    match s
    case InProgress => "IN_PROGRESS"
    case Completed => "COMPLETED"
    case Cancelled => "CANCELLED"
  }

  /** Distinct statuses print differently, so a message naming one identifies it. */
  lemma StatusNameInjective(s: Status, t: Status)
    ensures StatusName(s) == StatusName(t) ==> s == t
  {
  }

  /** `Completed` and `Cancelled` are terminal: no transition leaves them. */
  predicate IsTerminal(s: Status) {
    s != InProgress
  }

  /** The field values of one order: what the store persists. */
  datatype OrderRow = OrderRow(id: Option<int>, description: string, status: Status)

  class Order {
    var id: Option<int>
    var description: string
    var status: Status

    /** `Order(description, status)`: the identifier is left unset. */
    constructor (description: string, status: Status)
      ensures Value() == OrderRow(None, description, status)
    {
      this.id := None;
      this.description := description;
      this.status := status;
    }

    /** Materialises a stored row as an object, as the store's `findById` does. */
    constructor FromRow(row: OrderRow)
      ensures Value() == row
    {
      id := row.id;
      description := row.description;
      status := row.status;
    }

    /** The object's current field values. */
    function Value(): OrderRow
      reads this
    {
      OrderRow(id, description, status)
    }

    method SetId(id: Option<int>)
      modifies this
      ensures Value() == old(Value()).(id := id)
    {
      this.id := id;
    }

    method SetDescription(description: string)
      modifies this
      ensures Value() == old(Value()).(description := description)
    {
      this.description := description;
    }

    method SetStatus(status: Status)
      modifies this
      ensures Value() == old(Value()).(status := status)
    {
      this.status := status;
    }

    /**
     * `equals(Object)`: an identity short-cut, false for anything that is
     * not an `Order` (null included), otherwise field-by-field equality.
     * Altogether it is equality of the two objects' values.
     */
    predicate Equals(o: object?)
      reads this, o
      ensures Equals(o) <==> o is Order && (o as Order).Value() == Value()
    {
      if this == o then true
      else if !(o is Order) then false
      else
        var other := o as Order;
        id == other.id && description == other.description && status == other.status
    }
  }

  /** `equals` is reflexive, symmetric, transitive and false against null. */
  lemma EqualsIsEquivalence(a: Order, b: Order, c: Order)
    ensures a.Equals(a)
    ensures a.Equals(b) <==> b.Equals(a)
    ensures a.Equals(b) && b.Equals(c) ==> a.Equals(c)
    ensures !a.Equals(null)
  {
  }
}
