/**
 * The identifier allocator that SpatialEntity draws its ids from.
 *
 * id_manager.hpp (the IDManager interface and BackingIDManager) is not part of
 * this model. What SpatialEntity relies on is ASSUMED here as a contract:
 * allocate returns an id that is not outstanding and records it as outstanding;
 * deallocate may only be given an outstanding id and makes it no longer so.
 * The counter below is a stand-in strategy that meets that contract. The
 * class contracts and the distinct-id lemmas rely only on the contract; the
 * concrete swap examples in EntityLifecycle use the counter as one allocator
 * the contract allows (a new counter hands out 0 first).
 */
module IdManagement {
  /** An entity identifier. */
  type Id = nat

  /**
   * The bookkeeping of one manager: the stand-in counter and the set of ids
   * handed out and not yet returned.
   */
  datatype Pool = Pool(next: nat, live: set<Id>)
  {
    /** Every outstanding id lies below the counter, so the counter is never outstanding. */
    predicate Valid()
    {
      forall i :: i in live ==> i < next
    }

    /** allocate(): an id that is not outstanding, which becomes outstanding. */
    function Allocate(): (r: (Id, Pool))
      requires Valid()
      ensures r.0 !in live
      ensures r.1.live == live + {r.0}
      ensures r.1.Valid()
    {
      (next, Pool(next + 1, live + {next}))
    }

    /** deallocate(id): only an outstanding id may be returned; it stops being outstanding. */
    function Deallocate(id: Id): (r: Pool)
      requires Valid() && id in live
      ensures r.live == live - {id}
      ensures r.Valid()
    {
      Pool(next, live - {id})
    }
  }

  /** A newly made manager: nothing outstanding. */
  const EmptyPool: Pool := Pool(0, {})

  /** A manager object, shared by every entity that draws ids from it. */
  class IdManager {
    var next: nat
    ghost var live: set<Id>

    ghost function Model(): Pool
      reads this
    {
      Pool(next, live)
    }

    ghost predicate Valid()
      reads this
    {
      Model().Valid()
    }

    /** A default manager (what make_shared<BackingIDManager>() yields). */
    constructor ()
      ensures Valid() && Model() == EmptyPool
    {
      next := 0;
      live := {};
    }

    method Allocate() returns (id: Id)
      requires Valid()
      modifies this
      ensures Valid()
      ensures id !in old(live) && live == old(live) + {id}
      ensures (id, Model()) == old(Model()).Allocate()
    {
      id := next;
      next := next + 1;
      live := live + {id};
    }

    method Deallocate(id: Id)
      requires Valid() && id in live
      modifies this
      ensures Valid()
      ensures live == old(live) - {id}
      ensures Model() == old(Model()).Deallocate(id)
    {
      live := live - {id};
    }
  }
}
