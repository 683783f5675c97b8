/**
 * MFGame::SpatialEntity: the state every world object carries (transform,
 * name, readiness flag, id) and the process-wide slot holding the shared id
 * manager.
 */
module MFGame {
  import opened MFMath
  import opened IdManagement

  /**
   * The static member SpatialEntity::sIDManager. A static shared_ptr starts
   * out empty; here the slot is an explicit object passed to whoever uses it,
   * holding a plain nullable reference.
   */
  class IdManagerSlot {
    var manager: IdManager?

    ghost predicate Valid()
      reads this, manager
    {
      manager != null ==> manager.Valid()
    }

    /** The slot before anything is installed. */
    constructor ()
      ensures manager == null
    {
      manager := null;
    }

    /** setIDManager: installs m (possibly none), replacing whatever was there. */
    method SetIdManager(m: IdManager?)
      modifies this
      ensures manager == m
      ensures m != null && m.Valid() ==> Valid()
    {
      manager := m;
    }

    /**
     * getIDManager: an empty slot gets a new default manager installed first;
     * a filled slot is returned as it is. So two calls in a row yield the same
     * manager, and after SetIdManager(m) with m non-null every call yields m
     * until the slot is set again.
     */
    method GetIdManager() returns (m: IdManager)
      requires Valid()
      modifies this
      ensures Valid() && manager == m
      ensures old(manager) != null ==> m == old(manager)
      ensures old(manager) == null ==> fresh(m) && m.Model() == EmptyPool
    {
      if manager == null {
        manager := new IdManager();
      }
      m := manager;
    }
  }

  class SpatialEntity {
    var position: Vec3
    var scale: Vec3
    var rotation: Quat
    var name: string
    var ready: bool
    /** Assigned by the constructor and never again. */
    const id: Id
    /** The manager that issued id (not recorded by the source; kept to state where the id goes back to). */
    ghost const issuer: IdManager
    /** Set once the destructor has run: the object's lifetime is over and its id has been handed back. */
    ghost var destroyed: bool

    /**
     * Takes an id from the installed manager (installing a default one if the
     * slot is empty) and sets the defaults: position at the origin, scale
     * (1,1,1), default rotation, empty name, ready flag set.
     */
    constructor (slot: IdManagerSlot)
      requires slot.Valid()
      modifies slot, slot.manager
      ensures slot.Valid() && slot.manager == issuer
      ensures old(slot.manager) != null ==>
        issuer == old(slot.manager) && GetId() !in old(slot.manager.live) && issuer.live == old(slot.manager.live) + {GetId()}
      ensures old(slot.manager) == null ==> fresh(issuer) && issuer.live == {GetId()}
      ensures old(slot.manager) != null ==> (GetId(), issuer.Model()) == old(slot.manager.Model()).Allocate()
      ensures old(slot.manager) == null ==> (GetId(), issuer.Model()) == EmptyPool.Allocate()
      ensures GetPosition() == DefaultVec3 && scale == UnitScale && GetRotation() == DefaultQuat
      ensures GetName() == "" && IsRead() && !destroyed
    {
      var m := slot.GetIdManager();
      var newId := m.Allocate();
      id := newId;
      issuer := m;
      position := DefaultVec3;
      scale := UnitScale;
      rotation := DefaultQuat;
      name := "";
      ready := true;
      destroyed := false;
    }

    /**
     * The destructor: hands id back to whichever manager is installed NOW.
     * The assumed deallocate contract needs that manager to hold id; with an
     * empty slot the source would make a new manager and hand it an id it never
     * issued, so the slot must be filled. When the installed manager is not the
     * one that issued id, the issuer keeps id outstanding for good.
     */
    method Destroy(slot: IdManagerSlot)
      requires !destroyed
      requires slot.Valid() && slot.manager != null && id in slot.manager.live
      modifies this`destroyed, slot, slot.manager
      ensures destroyed
      ensures slot.Valid() && slot.manager == old(slot.manager)
      ensures slot.manager.live == old(slot.manager.live) - {id}
      ensures slot.manager.Model() == old(slot.manager.Model()).Deallocate(id)
      ensures slot.manager != issuer ==> issuer.live == old(issuer.live)
    {
      var m := slot.GetIdManager();
      m.Deallocate(id);
      destroyed := true;
    }

    /** toString: the base entity describes itself as the empty string. */
    function ToString(): string
    {
      ""
    }

    function GetPosition(): Vec3
      reads this
    {
      position
    }

    /** Sets the position without any collision check. */
    method SetPosition(p: Vec3)
      requires !destroyed
      modifies this`position
      ensures GetPosition() == p
      ensures rotation == old(rotation) && scale == old(scale) && name == old(name) && ready == old(ready) && !destroyed
    {
      position := p;
    }

    function GetRotation(): Quat
      reads this
    {
      rotation
    }

    method SetRotation(r: Quat)
      requires !destroyed
      modifies this`rotation
      ensures GetRotation() == r
      ensures position == old(position) && scale == old(scale) && name == old(name) && ready == old(ready) && !destroyed
    {
      rotation := r;
    }

    function GetName(): string
      reads this
    {
      name
    }

    method SetName(n: string)
      requires !destroyed
      modifies this`name
      ensures GetName() == n
      ensures position == old(position) && rotation == old(rotation) && scale == old(scale) && ready == old(ready) && !destroyed
    {
      name := n;
    }

    /** isRead (sic): the readiness flag. */
    function IsRead(): bool
      reads this
    {
      ready
    }

    /** The id assigned by the constructor (a const: no method can change it). */
    function GetId(): Id
    {
      id
    }
  }

  /**
   * Two entities built on one slot, with no swap in between, get different
   * ids; destroying the first leaves the second's id outstanding.
   */
  method ConstructTwoDestroyFirst(slot: IdManagerSlot) returns (a: SpatialEntity, b: SpatialEntity)
    requires slot.Valid()
    modifies slot, slot.manager
    ensures slot.Valid() && slot.manager != null
    ensures a.GetId() != b.GetId()
    ensures a.destroyed && !b.destroyed
    ensures a.GetId() !in slot.manager.live && b.GetId() in slot.manager.live
  {
    a := new SpatialEntity(slot);
    b := new SpatialEntity(slot);
    a.Destroy(slot);
  }
}
