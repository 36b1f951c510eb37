/** The entity/component store: every entity maps to the record of the
    components it carries, plus the entity and identity-marker allocators and
    the process-wide EditState resource. */
module Ecs {
  import opened Components

  datatype Option<T> = None | Some(value: T)

  /** An opaque entity id.  Ids are never reused in the model. */
  type Entity = nat

  /** The components one entity carries; an absent component is None.
      `marker` is the SimpleMarker<NetworkSync> identity token. */
  datatype Bundle = Bundle(
    hitbox: Option<Rect>,
    position: Option<Position>,
    moveable: Option<Moveable>,
    controller: Option<PlatformController>,
    fallingBlock: Option<FallingBlock>,
    trigger: Option<Rect>,
    dragBox: Option<DragBox>,
    sprite: Option<Sprite>,
    editBtn: Option<EditBtn>,
    icon: Option<Icon>,
    marker: Option<nat>)

  /** An entity with no components. */
  const Bare := Bundle(None, None, None, None, None, None, None, None, None, None, None)

  /** The store's value: the entities, the next entity id and the next marker. */
  datatype Store = Store(ents: map<Entity, Bundle>, nextId: Entity, nextMarker: nat) {

    /** Every id was handed out by the allocator, every marker by the marker
        allocator, and no two entities share a marker. */
    ghost predicate Valid()
    {
      && (forall e :: e in ents ==> e < nextId)
      && (forall e :: e in ents && ents[e].marker.Some? ==> ents[e].marker.value < nextMarker)
      && (forall e1, e2 ::
            e1 in ents && e2 in ents && e1 != e2 && ents[e1].marker.Some? && ents[e2].marker.Some?
            ==> ents[e1].marker.value != ents[e2].marker.value)
    }

    /** entities.create() followed by inserting the components of `b`. */
    function Spawn(b: Bundle): (r: Store)
      requires Valid() && b.marker.None?
      ensures r.Valid()
      ensures nextId !in ents && r.ents == ents[nextId := b]
      ensures r.nextId > nextId && r.nextMarker == nextMarker
    {
      Store(ents[nextId := b], nextId + 1, nextMarker)
    }

    /** Spawn, then allocate a fresh marker for the new entity. */
    function SpawnMarked(b: Bundle): (r: Store)
      requires Valid()
      ensures r.Valid()
      ensures nextId !in ents && r.ents == ents[nextId := b.(marker := Some(nextMarker))]
      ensures r.nextId > nextId && r.nextMarker > nextMarker
    {
      Store(ents[nextId := b.(marker := Some(nextMarker))], nextId + 1, nextMarker + 1)
    }

    /** entities.delete(e): the entity and all its components go. */
    function Delete(e: Entity): (r: Store)
      requires Valid()
      ensures r.Valid()
      ensures r.ents.Keys == ents.Keys - {e}
      ensures forall e' :: e' in r.ents ==> r.ents[e'] == ents[e']
      ensures r.nextId == nextId && r.nextMarker == nextMarker
    {
      Store(ents - {e}, nextId, nextMarker)
    }
  }

  /** Changing components without touching entities or markers keeps the store valid. */
  lemma SameMarkersKeepValid(st: Store, ents: map<Entity, Bundle>)
    requires st.Valid() && ents.Keys == st.ents.Keys
    requires forall e :: e in ents ==> ents[e].marker == st.ents[e].marker
    ensures st.(ents := ents).Valid()
  {
  }

  /** The mouse as the editor systems poll it from raylib this frame. */
  datatype Mouse = Mouse(position: Position, pressed: bool, down: bool, released: bool)

  /** The World: component storages, the marker allocator and EditState. */
  class World {
    var ents: map<Entity, Bundle>
    var nextId: Entity
    var nextMarker: nat
    /** EditState.editting: edit mode gates both the editor and the simulation. */
    var editing: bool
    /** EditState.should_save: a request to the top-level loop to save the level. */
    var shouldSave: bool

    ghost function View(): Store
      reads this
    {
      Store(ents, nextId, nextMarker)
    }

    ghost predicate Valid()
      reads this
    {
      View().Valid()
    }

    constructor ()
      ensures Valid()
      ensures ents == map[] && nextId == 0 && nextMarker == 0
      ensures !editing && !shouldSave
    {
      ents, nextId, nextMarker := map[], 0, 0;
      editing, shouldSave := false, false;
    }

    method Spawn(b: Bundle) returns (e: Entity)
      requires Valid() && b.marker.None?
      modifies this
      ensures Valid()
      ensures e == old(nextId) && e !in old(ents)
      ensures View() == old(View()).Spawn(b)
      ensures editing == old(editing) && shouldSave == old(shouldSave)
    {
      e := nextId;
      ents := ents[e := b];
      nextId := nextId + 1;
    }

    method SpawnMarked(b: Bundle) returns (e: Entity)
      requires Valid()
      modifies this
      ensures Valid()
      ensures e == old(nextId) && e !in old(ents)
      ensures View() == old(View()).SpawnMarked(b)
      ensures editing == old(editing) && shouldSave == old(shouldSave)
    {
      e := nextId;
      ents := ents[e := b.(marker := Some(nextMarker))];
      nextId := nextId + 1;
      nextMarker := nextMarker + 1;
    }

    method Delete(e: Entity)
      requires Valid()
      modifies this
      ensures Valid()
      ensures View() == old(View()).Delete(e)
      ensures editing == old(editing) && shouldSave == old(shouldSave)
    {
      ents := ents - {e};
    }
  }
}
