# SpatialEntity state and id lifecycle (OpenMF, MFGame)

`MFGame::SpatialEntity` is the root class of every world object in the
engine. This project models the state layer that the class defines itself:

- the transform and label fields (position, scale, rotation, name, ready
  flag, id) with their unchecked setters and plain getters;
- the constructor, which takes an id from the shared id manager and sets the
  defaults, and the destructor, which hands the id back;
- the process-wide slot `sIDManager`, filled lazily by `getIDManager()` and
  replaced by `setIDManager()`.

Files:

- `mf_math.dfy` (module `MFMath`): `Vec3` and `Quat` as stored values, with the
  default vector, the default quaternion and the scale (1,1,1).
- `id_manager.dfy` (module `IdManagement`): the id manager. The interface and
  the real strategy live in `id_manager.hpp`, which is not part of this model.
  So the allocator's contract is ASSUMED: `allocate` returns an id that is not
  outstanding and records it, and `deallocate` only takes an outstanding id and
  releases it. `Pool` is the value view of that bookkeeping. `IdManager` is the
  shared object, with a ghost `live` set. A simple counter stands in for the
  strategy in `id_manager.hpp`, which is not modelled.
- `spatial_entity.dfy` (module `MFGame`): `IdManagerSlot` is the static slot,
  an explicit object with a nullable field. `SpatialEntity` is the class, and
  its methods update its fields in place.
- `entity_lifecycle.dfy` (module `EntityLifecycle`): what a run of
  constructions, destructions and manager swaps does to the id bookkeeping, at
  the level of values. It covers the properties that relate several entities:
  - without a swap, live entities hold pairwise-distinct ids;
  - after a swap, an id is handed back to a manager that did not issue it.

Points where the source differs from what its names suggest:

- the readiness getter is `isRead` (modelled as `IsRead`);
- the constructor never assigns `mRotation` or `mName`, so they keep their
  default-constructed values;
- nothing stops `setIDManager` from being called while entities are alive.
  The model keeps that possibility and shows what it leads to.

## Model

| member | source | states |
|---|---|---|
| IdManagement.Pool.Allocate | components/spatial_entity/spatial_entity.hpp:74 | (assumed allocator contract) the returned id is not outstanding; afterwards the outstanding set is the old one plus that id, and the bookkeeping stays valid |
| IdManagement.Pool.Deallocate | components/spatial_entity/spatial_entity.hpp:82 | (assumed allocator contract) only an outstanding id may be released; afterwards it is exactly the one id gone from the outstanding set |
| IdManagement.IdManager.constructor | components/spatial_entity/spatial_entity.hpp:56 | a newly made default manager has nothing outstanding |
| IdManagement.IdManager.Allocate | components/spatial_entity/spatial_entity.hpp:74 | the manager object changes exactly as Pool.Allocate says: a fresh id is returned and becomes outstanding |
| IdManagement.IdManager.Deallocate | components/spatial_entity/spatial_entity.hpp:82 | the manager object changes exactly as Pool.Deallocate says: the outstanding id is removed |
| MFGame.IdManagerSlot.constructor | components/spatial_entity/spatial_entity.hpp:85 | the static slot starts out empty |
| MFGame.IdManagerSlot.SetIdManager | components/spatial_entity/spatial_entity.hpp:52 | the slot afterwards holds exactly the given manager, or none, and stays valid when a valid manager is given; so every later GetIdManager returns that manager until the slot is set again, and after installing none the next GetIdManager installs a new default manager |
| MFGame.IdManagerSlot.GetIdManager | components/spatial_entity/spatial_entity.hpp:53-59 | an empty slot gets a new default manager, which is installed and returned; a filled slot returns its manager unchanged; so two calls in a row return the same manager |
| MFGame.SpatialEntity.constructor | components/spatial_entity/spatial_entity.hpp:72-78 | the id comes from exactly one allocate on the installed manager, and a default manager is installed first if the slot is empty. The id was not outstanding and now is, and the manager changes exactly as Pool.Allocate says. Position is the default vector, scale is (1,1,1), rotation is the default quaternion, the name is empty and IsRead() is true |
| MFGame.SpatialEntity.Destroy | components/spatial_entity/spatial_entity.hpp:80-83 | runs once per entity and ends its lifetime; the id goes back to the manager installed at destruction time, whose bookkeeping changes exactly as Pool.Deallocate says, so it no longer has the id outstanding; if that manager is not the one that issued the id, the issuer keeps the id outstanding |
| MFGame.SpatialEntity.GetPosition | components/spatial_entity/spatial_entity.hpp:30 | returns the stored position; it only reads the entity |
| MFGame.SpatialEntity.SetPosition | components/spatial_entity/spatial_entity.hpp:30-31 | GetPosition() afterwards returns exactly the given position, with no collision check; rotation, scale, name, ready flag and id are unchanged |
| MFGame.SpatialEntity.GetRotation | components/spatial_entity/spatial_entity.hpp:34 | returns the stored rotation; it only reads the entity |
| MFGame.SpatialEntity.SetRotation | components/spatial_entity/spatial_entity.hpp:34-35 | GetRotation() afterwards returns exactly the given rotation; position, scale, name, ready flag and id are unchanged |
| MFGame.SpatialEntity.SetName | components/spatial_entity/spatial_entity.hpp:42-43 | GetName() afterwards returns exactly the given name; no other field changes |
| MFGame.SpatialEntity.GetName | components/spatial_entity/spatial_entity.hpp:43 | returns the stored name; it only reads the entity |
| MFGame.SpatialEntity.GetId | components/spatial_entity/spatial_entity.hpp:45 | returns the id the constructor assigned; the id is a const, so no method can change it after construction |
| MFGame.SpatialEntity.IsRead | components/spatial_entity/spatial_entity.hpp:44 | returns the ready flag; it only reads the entity |
| MFGame.SpatialEntity.ToString | components/spatial_entity/spatial_entity.hpp:29 | the base entity describes itself as the empty string |
| MFGame.ConstructTwoDestroyFirst | components/spatial_entity/spatial_entity.hpp:72-83 | on the class model: two entities constructed on one slot with no swap in between get different ids, and destroying the first leaves the second's id outstanding at the installed manager |
| EntityLifecycle.Step | components/spatial_entity/spatial_entity.hpp:72-83 | one construction, destruction or swap. A construction always succeeds and adds an entity whose id was not outstanding. A swap installs an empty default manager and leaves the entities alone. A step outside the allocator contract gives None |
| EntityLifecycle.Run | components/spatial_entity/spatial_entity.hpp:72-83 | a whole run of events keeps every manager's bookkeeping valid |
| EntityLifecycle.StepKeepsConsistent | components/spatial_entity/spatial_entity.hpp:74-82 | without a swap, every step keeps the entity ids distinct and equal to the installed manager's outstanding set; a destructor always finds its id outstanding, and a step is refused only when it destroys an entity that does not exist |
| EntityLifecycle.RunKeepsConsistent | components/spatial_entity/spatial_entity.hpp:74-82 | a run without swaps keeps that consistency from start to end |
| EntityLifecycle.NoSwapIdsDistinct | components/spatial_entity/spatial_entity.hpp:72-83 | while the manager is never swapped, live entities hold pairwise-distinct ids, and those ids are exactly the ones the manager has outstanding |
| EntityLifecycle.SwapThenDestroyLeavesContract | components/spatial_entity/spatial_entity.hpp:52-83 | directly after a swap, destroying any entity constructed before it hands its id to a manager that never issued it |
| EntityLifecycle.SwapLetsIdsCollide | components/spatial_entity/spatial_entity.hpp:52-78 | the assumed allocator contract allows an entity built after a swap to receive the same id as a live entity built before it; the stand-in counter is the example (whether the allocator in `id_manager.hpp` does this is not known) |
| EntityLifecycle.SwapReleasesAnotherEntitysId | components/spatial_entity/spatial_entity.hpp:52-83 | with the stand-in counter as the allocator (which the assumed contract allows), destroying the older entity after a swap releases an id that the newer, still-live entity holds, while the old manager keeps it outstanding for good |

## Left out

- The pure virtual members `update`, `ready`, `setVelocity`, `setAngularVelocity`, `hasVisual`, `canBeMoved`, `hasCollision` and `move` have no body in this class, so they have no behaviour to model. Concrete entity types implement them and are not part of this model.
- `id_manager.hpp` (the `IDManager` interface and `BackingIDManager`) is not part of this model. The allocator's fresh-id contract is assumed, and the counter in `IdManager` only stands in for the real strategy. Id reuse after release is therefore never shown. The `Id` type is modelled as a natural number.
- `math.hpp` is not part of this model. `Vec3` and `Quat` are stored values with no arithmetic. The default-constructed vector is taken to be the origin, and the default quaternion the identity.
- `scale` has no setter or getter in this class: the model only states its value at construction.
- `std::shared_ptr` reference counting and ownership of the manager are not modelled. The slot is a plain nullable reference, and an uninstalled manager is never destroyed.
- The commented-out `detach()` and `mergeWithChildren()` are not implemented in the source.
- Thread safety is not modelled: the source has no synchronisation, and every operation is sequential.
- MFGame.SpatialEntity.Destroy requires a manager to be installed that has the id outstanding. Otherwise the source's destructor would call deallocate on an id that manager never issued, which the assumed contract forbids. With an empty slot, this would be a newly made manager.
- EntityLifecycle.Step models `setIDManager` only as installing a newly made default manager. Re-installing an older manager or clearing the slot is modelled only by `IdManagerSlot.SetIdManager`. The lifecycle world starts after the first `getIDManager` has filled the slot.
- The getters (`GetPosition`, `GetRotation`, `GetName`, `IsRead`, `GetId`, `ToString`) are functions and are not barred on a destroyed entity; the setters and `Destroy` require an entity whose destructor has not run.
