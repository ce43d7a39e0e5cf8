/**
 * The persistence store behind every controller, reduced to what the
 * controllers rely on: a finite map from identifier to stored row and an
 * identifier generator that never hands out an identifier already in use.
 * Saving an entity whose identifier is unset is done by the caller as
 * `Put(FreshId(), row)`; saving one whose identifier is set stores it under
 * that identifier.
 */
module Store {
  import opened Common

  class Repository<T> {
    var rows: map<int, T>
    var nextId: int

    /** Every identifier in use lies below the next one to be generated. */
    ghost predicate Valid()
      reads this
    {
      forall k :: k in rows ==> k < nextId
    }

    constructor ()
      ensures Valid() && rows == map[] && nextId == 1
    {
      rows := map[];
      nextId := 1;
    }

    /** `findById`: the stored row, or nothing when the identifier is unknown. */
    function FindById(id: int): (r: Option<T>)
      reads this
      ensures r.Some? <==> id in rows
      ensures r.Some? ==> r.value == rows[id]
    {
      if id in rows then Some(rows[id]) else None
    }

    /** The identifier the generator hands out next; it is never in use. */
    function FreshId(): (k: int)
      reads this
      requires Valid()
      ensures k !in rows
      ensures forall j :: j in rows ==> j < k
    {
      nextId
    }

    /** Stores `row` under `k`, replacing whatever was stored there. */
    method Put(k: int, row: T)
      requires Valid()
      modifies this
      ensures Valid()
      ensures rows == old(rows)[k := row]
      ensures old(nextId) <= nextId
    {
      rows := rows[k := row];
      if nextId <= k {
        nextId := k + 1;
      }
    }

    /** `deleteById`: removes the row if there is one and is a no-op otherwise. */
    method DeleteById(k: int)
      requires Valid()
      modifies this
      ensures Valid()
      ensures rows == old(rows) - {k}
      ensures nextId == old(nextId)
    {
      rows := rows - {k};
    }

    /**
     * `findAll`: every stored row exactly once, in some order;
     * `ids` says which identifier each entry comes from.
     */
    method FindAll() returns (all: seq<T>, ids: seq<int>)
      ensures |all| == |ids| == |rows|
      ensures forall i, j :: 0 <= i < j < |ids| ==> ids[i] != ids[j]
      ensures forall i :: 0 <= i < |ids| ==> ids[i] in rows && all[i] == rows[ids[i]]
      ensures forall k :: k in rows ==> k in ids
    {
      all, ids := [], [];
      var pending := rows.Keys;
      while pending != {}
        invariant pending <= rows.Keys
        invariant |all| == |ids|
        invariant forall i, j :: 0 <= i < j < |ids| ==> ids[i] != ids[j]
        invariant forall i :: 0 <= i < |ids| ==> ids[i] in rows && ids[i] !in pending && all[i] == rows[ids[i]]
        invariant forall k :: k in rows ==> k in ids || k in pending
        invariant |ids| + |pending| == |rows.Keys|
        decreases pending
      {
        // makes the `:|` below provably satisfiable
        ghost var some := SomeElement(pending);
        var k :| k in pending;
        assert |pending - {k}| == |pending| - 1;
        all, ids := all + [rows[k]], ids + [k];
        pending := pending - {k};
      }
    }
  }

  /** A non-empty set has an element (extensionality of sets). */
  lemma SomeElement<X>(s: set<X>) returns (x: X)
    requires s != {}
    ensures x in s
  {
    if forall y :: y !in s {
      assert false;
    }
    x :| x in s;
  }
}
