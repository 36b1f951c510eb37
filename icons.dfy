/** IconButtonsHandler: releasing the mouse over the clear icon removes
    every marked (level) entity, over the save icon it asks for a save.  It
    runs in and out of edit mode. */
module Icons {
  import opened Components
  import opened Ecs

  /** The entities that survive Clear. */
  function Unmarked(ents: map<Entity, Bundle>): (r: map<Entity, Bundle>)
    ensures r.Keys <= ents.Keys
    ensures forall e :: e in r ==> r[e].marker.None?
    ensures forall e :: e in ents && ents[e].marker.None? ==> e in r && r[e] == ents[e]
  {
    map e | e in ents && ents[e].marker.None? :: ents[e]
  }

  /** Clearing twice is clearing once. */
  lemma ClearIsIdempotent(ents: map<Entity, Bundle>)
    ensures Unmarked(Unmarked(ents)) == Unmarked(ents)
  {
  }

  /** The clear icon's join: delete every entity carrying a marker. */
  method ClearMarked(w: World)
    requires w.Valid()
    modifies w
    ensures w.Valid()
    ensures w.ents == Unmarked(old(w.ents))
    ensures w.nextId == old(w.nextId) && w.nextMarker == old(w.nextMarker)
    ensures w.editing == old(w.editing) && w.shouldSave == old(w.shouldSave)
  {
    ghost var ents0 := w.ents;
    for e := 0 to w.nextId
      invariant w.Valid()
      invariant forall x :: x in w.ents <==> x in ents0 && (x >= e || ents0[x].marker.None?)
      invariant forall x :: x in w.ents ==> w.ents[x] == ents0[x]
      invariant w.nextId == old(w.nextId) && w.nextMarker == old(w.nextMarker)
      invariant w.editing == old(w.editing) && w.shouldSave == old(w.shouldSave)
    {
      if e in w.ents && w.ents[e].marker.Some? {
        w.Delete(e);
      }
    }
  }

  /** Entity e is an icon whose tile the mouse was released over. */
  predicate IconHit(ents: map<Entity, Bundle>, e: Entity, m: Mouse)
  {
    && e in ents && ents[e].icon.Some? && m.released
    && Contains(Tile(ents[e].icon.value.position.x, ents[e].icon.value.position.y), m.position)
  }

  /** The kinds of the icons below id n released over, in id order. */
  function PressedIcons(ents: map<Entity, Bundle>, n: nat, m: Mouse): (kinds: seq<IconKind>)
    ensures !m.released ==> kinds == []
    ensures forall e: Entity :: e < n && IconHit(ents, e, m) ==> ents[e].icon.value.kind in kinds
    // and nothing else: every listed kind is that of an icon released over
    ensures forall k :: k in kinds ==> exists e: Entity :: e < n && IconHit(ents, e, m) && ents[e].icon.value.kind == k
  {
    if n == 0 then []
    else PressedIcons(ents, n - 1, m) + (if IconHit(ents, n - 1, m) then [ents[n - 1].icon.value.kind] else [])
  }

  /** One pressed icon's action on the entities and the save request. */
  function IconAction(ents: map<Entity, Bundle>, save: bool, k: IconKind): (map<Entity, Bundle>, bool)
  {
    match k
    case EmptyBox => (Unmarked(ents), save)
    case FileSaveClassic => (ents, true)
    case OtherIcon(_) => (ents, save)
  }

  function IconActions(ents: map<Entity, Bundle>, save: bool, kinds: seq<IconKind>): (map<Entity, Bundle>, bool)
    decreases |kinds|
  {
    if kinds == [] then (ents, save)
    else
      var r := IconActions(ents, save, kinds[..|kinds| - 1]);
      IconAction(r.0, r.1, kinds[|kinds| - 1])
  }

  /** Whatever icons are pressed and in whatever order, the level is
      cleared iff the clear icon is among them, a save is requested iff the
      save icon is, and other icons do nothing. */
  lemma {:induction false} IconsOutcome(ents: map<Entity, Bundle>, save: bool, kinds: seq<IconKind>)
    ensures IconActions(ents, save, kinds) ==
      (if EmptyBox in kinds then Unmarked(ents) else ents, save || FileSaveClassic in kinds)
    decreases |kinds|
  {
    if kinds != [] {
      var init := kinds[..|kinds| - 1];
      IconsOutcome(ents, save, init);
      ClearIsIdempotent(ents);
      assert kinds == init + [kinds[|kinds| - 1]];
    }
  }

  /** What releasing over an icon of kind `k` does. */
  method Act(w: World, k: IconKind)
    requires w.Valid()
    modifies w
    ensures w.Valid()
    ensures (w.ents, w.shouldSave) == IconAction(old(w.ents), old(w.shouldSave), k)
    ensures w.nextId == old(w.nextId) && w.nextMarker == old(w.nextMarker) && w.editing == old(w.editing)
  {
    match k {
      case EmptyBox =>
        ClearMarked(w);
      case FileSaveClassic =>
        w.shouldSave := true;
      case OtherIcon(_) =>
    }
  }

  /** IconButtonsHandler::run. */
  method IconButtonsHandler(w: World, m: Mouse)
    requires w.Valid()
    modifies w
    ensures w.Valid()
    ensures (w.ents, w.shouldSave) == IconActions(old(w.ents), old(w.shouldSave), PressedIcons(old(w.ents), old(w.nextId), m))
    ensures w.nextId == old(w.nextId) && w.nextMarker == old(w.nextMarker) && w.editing == old(w.editing)
  {
    // deletions take effect after the frame, so the icon join sees the frame's start
    var ents0, n0 := w.ents, w.nextId;
    for e := 0 to n0
      invariant w.Valid()
      invariant (w.ents, w.shouldSave) == IconActions(ents0, old(w.shouldSave), PressedIcons(ents0, e, m))
      invariant w.nextId == n0 && w.nextMarker == old(w.nextMarker) && w.editing == old(w.editing)
    {
      ghost var before := PressedIcons(ents0, e, m);
      if IconHit(ents0, e, m) {
        var kind := ents0[e].icon.value.kind;
        assert PressedIcons(ents0, e + 1, m) == before + [kind];
        assert (before + [kind])[..|before|] == before;
        Act(w, kind);
      } else {
        assert PressedIcons(ents0, e + 1, m) == before;
      }
    }
  }
}
