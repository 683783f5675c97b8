/**
 * What a run of entity constructions, destructions and manager swaps does to
 * the id bookkeeping, at the level of values. Each step composes the same
 * operations as the classes in MFGame: the constructor allocates from the
 * installed manager, the destructor deallocates on the manager installed at
 * that moment (not necessarily the one that issued the id), and setIDManager
 * replaces the installed manager. The world starts after the first
 * getIDManager has installed a default manager.
 */
module EntityLifecycle {
  import opened IdManagement

  datatype Option<T> = None | Some(value: T)

  /** A live entity as the bookkeeping sees it: its id and the index of the manager that issued it. */
  datatype Holder = Holder(id: Id, issuer: nat)

  /**
   * managers: every manager installed so far, oldest first; current: the one
   * the slot holds; alive: the entities constructed and not yet destroyed.
   */
  datatype World = World(managers: seq<Pool>, current: nat, alive: seq<Holder>)

  datatype Event =
    | Construct       // a SpatialEntity is constructed
    | Destroy(k: nat) // alive[k] is destroyed
    | Swap            // setIDManager installs a newly made default manager

  const Start: World := World([EmptyPool], 0, [])

  predicate WellFormed(w: World)
  {
    w.current < |w.managers| && forall i :: 0 <= i < |w.managers| ==> w.managers[i].Valid()
  }

  function IdSet(hs: seq<Holder>): set<Id>
  {
    set i | 0 <= i < |hs| :: hs[i].id
  }

  predicate DistinctIds(hs: seq<Holder>)
  {
    forall i, j :: 0 <= i < j < |hs| ==> hs[i].id != hs[j].id
  }

  predicate NoSwap(es: seq<Event>)
  {
    forall i :: 0 <= i < |es| ==> !es[i].Swap?
  }

  /**
   * The bookkeeping is consistent when every live entity was issued by the
   * installed manager, no two live entities share an id, and the installed
   * manager's outstanding ids are exactly the live entities' ids.
   */
  predicate Consistent(w: World)
  {
    && WellFormed(w)
    && (forall i :: 0 <= i < |w.alive| ==> w.alive[i].issuer == w.current)
    && DistinctIds(w.alive)
    && IdSet(w.alive) == w.managers[w.current].live
  }

  /**
   * One event. None when the event is outside the contract: Destroy of an
   * entity that does not exist, or a destruction whose id the installed
   * manager does not hold (deallocate of an id it never issued).
   */
  function Step(w: World, e: Event): (r: Option<World>)
    requires WellFormed(w)
    ensures r.Some? ==> WellFormed(r.value)
    ensures e.Construct? ==>
              r.Some? && |r.value.alive| == |w.alive| + 1 && r.value.alive[|w.alive|].id !in w.managers[w.current].live
    ensures e.Swap? ==> r.Some? && r.value.managers[r.value.current] == EmptyPool && r.value.alive == w.alive
  {
    match e
    case Construct =>
      var (id, p) := w.managers[w.current].Allocate();
      Some(World(w.managers[w.current := p], w.current, w.alive + [Holder(id, w.current)]))
    case Destroy(k) =>
      if k < |w.alive| && w.alive[k].id in w.managers[w.current].live then
        var p := w.managers[w.current].Deallocate(w.alive[k].id);
        Some(World(w.managers[w.current := p], w.current, w.alive[..k] + w.alive[k + 1..]))
      else
        None
    case Swap =>
      Some(World(w.managers + [EmptyPool], |w.managers|, w.alive))
  }

  /** A whole run of events; None as soon as one step is outside the contract. */
  function Run(w: World, es: seq<Event>): (r: Option<World>)
    requires WellFormed(w)
    ensures r.Some? ==> WellFormed(r.value)
    decreases |es|
  {
    if es == [] then Some(w)
    else
      match Step(w, es[0])
      case None => None
      case Some(w1) => Run(w1, es[1..])
  }

  /**
   * Without a swap, every step keeps the bookkeeping consistent, and the only
   * refused step is a Destroy naming no entity: a destructor always finds its
   * id outstanding at the installed manager.
   */
  lemma StepKeepsConsistent(w: World, e: Event)
    requires Consistent(w) && !e.Swap?
    ensures Step(w, e).Some? <==> (e.Destroy? ==> e.k < |w.alive|)
    ensures Step(w, e).Some? ==> Consistent(Step(w, e).value)
  {
    var live := w.managers[w.current].live;
    match e
    case Construct =>
      var w' := Step(w, e).value;
      var id := w'.alive[|w.alive|].id;
      assert id !in IdSet(w.alive);
      forall i, j | 0 <= i < j < |w'.alive| ensures w'.alive[i].id != w'.alive[j].id {
        if j == |w.alive| {
          assert w.alive[i].id in IdSet(w.alive);
        }
      }
      assert IdSet(w'.alive) == IdSet(w.alive) + {id} by {
        forall x | x in IdSet(w'.alive) ensures x in IdSet(w.alive) + {id} {
          var i :| 0 <= i < |w'.alive| && w'.alive[i].id == x;
          if i < |w.alive| {
            assert w.alive[i].id in IdSet(w.alive);
          }
        }
        forall x | x in IdSet(w.alive) ensures x in IdSet(w'.alive) {
          var i :| 0 <= i < |w.alive| && w.alive[i].id == x;
          assert w'.alive[i].id == x;
        }
        assert w'.alive[|w.alive|].id in IdSet(w'.alive);
      }
    case Destroy(k) =>
      if k < |w.alive| {
        assert w.alive[k].id in IdSet(w.alive);
        var w' := Step(w, e).value;
        var gone := w.alive[k].id;
        var rest := w.alive[..k] + w.alive[k + 1..];
        assert w'.alive == rest;
        assert forall i :: 0 <= i < |rest| ==> rest[i] == w.alive[if i < k then i else i + 1];
        assert IdSet(rest) == IdSet(w.alive) - {gone} by {
          forall x | x in IdSet(rest) ensures x in IdSet(w.alive) - {gone} {
            var i :| 0 <= i < |rest| && rest[i].id == x;
            var j := if i < k then i else i + 1;
            assert w.alive[j].id in IdSet(w.alive);
          }
          forall x | x in IdSet(w.alive) - {gone} ensures x in IdSet(rest) {
            var j :| 0 <= j < |w.alive| && w.alive[j].id == x;
            var i := if j < k then j else j - 1;
            assert rest[i].id == x;
          }
        }
      }
  }

  /** A run without swaps keeps the bookkeeping consistent. */
  lemma {:induction false} RunKeepsConsistent(w: World, es: seq<Event>)
    requires Consistent(w) && NoSwap(es)
    ensures Run(w, es).Some? ==> Consistent(Run(w, es).value)
    decreases |es|
  {
    if es != [] {
      StepKeepsConsistent(w, es[0]);
      var s := Step(w, es[0]);
      if s.Some? {
        assert NoSwap(es[1..]) by {
          forall i | 0 <= i < |es[1..]| ensures !es[1..][i].Swap? {
            assert es[1..][i] == es[i + 1];
          }
        }
        RunKeepsConsistent(s.value, es[1..]);
      }
    }
  }

  /**
   * As long as the manager is never swapped, the live entities hold pairwise
   * distinct ids, and those ids are exactly what the manager has outstanding.
   */
  lemma NoSwapIdsDistinct(es: seq<Event>)
    requires NoSwap(es)
    ensures Run(Start, es).Some? ==> DistinctIds(Run(Start, es).value.alive)
    ensures Run(Start, es).Some? ==>
      IdSet(Run(Start, es).value.alive) == Run(Start, es).value.managers[Run(Start, es).value.current].live
  {
    assert Consistent(Start);
    RunKeepsConsistent(Start, es);
  }

  /**
   * Directly after a swap, destroying any entity constructed before it hands
   * the id to a manager that never issued it: the step leaves the contract.
   */
  lemma SwapThenDestroyLeavesContract(w: World, k: nat)
    requires WellFormed(w) && k < |w.alive|
    ensures Step(Step(w, Swap).value, Destroy(k)).None?
  {
  }

  /**
   * The allocator contract allows a new entity built after a swap to get the
   * same id as a live one built before it. The stand-in counter is such an
   * allocator: both managers hand out 0 first.
   */
  lemma SwapLetsIdsCollide()
    ensures var r := Run(Start, [Construct, Swap, Construct]);
      r.Some? && |r.value.alive| == 2 && r.value.alive[0].id == r.value.alive[1].id
      && r.value.alive[0].issuer != r.value.alive[1].issuer
  {
  }

  /**
   * With the stand-in counter as the allocator: destroying the older entity
   * after a swap releases the id the newer entity still holds, while the older
   * manager keeps that id outstanding for good.
   */
  lemma SwapReleasesAnotherEntitysId()
    ensures var r := Run(Start, [Construct, Swap, Construct, Destroy(0)]);
      r.Some? && r.value.alive == [Holder(0, 1)]
      && 0 !in r.value.managers[1].live && 0 in r.value.managers[0].live
  {
  }
}
