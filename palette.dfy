/** EditBtnHandle: in edit mode, releasing the mouse over a palette button
    picks a tool and shows a ghost of it under the cursor; holding the mouse
    down elsewhere places that tool's object on the tile under the cursor,
    replacing whatever other object is there first. */
module Palette {
  import opened Components
  import opened Ecs
  import opened Drag

  /** What the palette remembers between frames. */
  datatype Selection = Selection(ent: Option<Entity>, ty: Option<ToolPalette>)

  /** The ghost shown under the cursor: a sprite and a free position, no hitbox. */
  function Ghost(text: string, p: Position): Bundle
  {
    Bare.(sprite := Some(Sprite(text)), position := Some(p))
  }

  /** A selected entity is a live ghost and comes with a tool. */
  predicate Tracks(sel: Selection, st: Store)
  {
    sel.ent.Some? ==>
      && sel.ty.Some?
      && sel.ent.value in st.ents
      && st.ents[sel.ent.value].sprite.Some?
      && st.ents[sel.ent.value].position.Some?
      && st.ents[sel.ent.value].hitbox.None?
      && st.ents[sel.ent.value].marker.None?
  }

  // ------------------------------------------------------------ buttons

  /** A release over palette button `b`. */
  function PressButton(sel: Selection, st: Store, b: EditBtn, mouse: Position): (r: (Selection, Store))
    requires st.Valid() && Tracks(sel, st)
    ensures r.1.Valid() && Tracks(r.0, r.1)
    // the selected tool is always the button's, even when the ghost was just removed
    ensures r.0.ty == Some(b.tool)
    ensures r.1.nextId >= st.nextId && r.1.nextMarker == st.nextMarker
    // with nothing selected, a ghost of the button's text appears at the cursor
    ensures sel.ent.None? ==>
      && r.0.ent == Some(st.nextId) && st.nextId !in st.ents
      && r.1.ents == st.ents[st.nextId := Ghost(b.text, mouse)]
    // the selected tool's button removes the ghost and clears the selection
    ensures sel.ent.Some? && sel.ty.value == b.tool ==>
      r.0.ent.None? && r.1.ents == st.ents - {sel.ent.value}
    // another tool's button relabels the ghost
    ensures sel.ent.Some? && sel.ty.value != b.tool ==>
      && r.0.ent == sel.ent && r.1.ents.Keys == st.ents.Keys
      && r.1.ents[sel.ent.value] == st.ents[sel.ent.value].(sprite := Some(Sprite(b.text)))
      && forall e :: e in st.ents && e != sel.ent.value ==> r.1.ents[e] == st.ents[e]
  {
    if sel.ent.None? then
      (Selection(Some(st.nextId), Some(b.tool)), st.Spawn(Ghost(b.text, mouse)))
    else
      var g := sel.ent.value;
      if sel.ty.value == b.tool then
        (Selection(None, Some(b.tool)), st.Delete(g))
      else
        var st' := st.(ents := st.ents[g := st.ents[g].(sprite := Some(Sprite(b.text)))]);
        SameMarkersKeepValid(st, st'.ents);
        (Selection(sel.ent, Some(b.tool)), st')
  }

  /** The releases over the buttons `btns`, in order. */
  function PressAll(sel: Selection, st: Store, btns: seq<EditBtn>, mouse: Position): (r: (Selection, Store))
    requires st.Valid() && Tracks(sel, st)
    ensures r.1.Valid() && Tracks(r.0, r.1)
    decreases |btns|
  {
    if btns == [] then (sel, st)
    else
      var r := PressAll(sel, st, btns[..|btns| - 1], mouse);
      PressButton(r.0, r.1, btns[|btns| - 1], mouse)
  }

  /** One more release extends the fold by one press. */
  lemma PressAllSnoc(sel: Selection, st: Store, btns: seq<EditBtn>, b: EditBtn, mouse: Position)
    requires st.Valid() && Tracks(sel, st)
    ensures var r := PressAll(sel, st, btns, mouse);
      PressAll(sel, st, btns + [b], mouse) == PressButton(r.0, r.1, b, mouse)
  {
    assert (btns + [b])[..|btns|] == btns;
  }

  /** Entity e is a palette button under a released mouse. */
  predicate ButtonHit(ents: map<Entity, Bundle>, e: Entity, m: Mouse)
  {
    e in ents && ents[e].editBtn.Some? && m.released && Contains(ents[e].editBtn.value.bounds, m.position)
  }

  /** The buttons below id n under a released mouse, in id order. */
  function PressedButtons(ents: map<Entity, Bundle>, n: nat, m: Mouse): (btns: seq<EditBtn>)
    ensures !m.released ==> btns == []
    ensures forall b :: b in btns ==> m.released && Contains(b.bounds, m.position)
    // every button released over is listed, and nothing else is
    ensures forall e: Entity :: e < n && ButtonHit(ents, e, m) ==> ents[e].editBtn.value in btns
    ensures forall b :: b in btns ==> exists e: Entity :: e < n && ButtonHit(ents, e, m) && ents[e].editBtn.value == b
  {
    if n == 0 then []
    else PressedButtons(ents, n - 1, m) + (if ButtonHit(ents, n - 1, m) then [ents[n - 1].editBtn.value] else [])
  }

  /** The last button released over decides the tool. */
  lemma SelectedToolIsLastPressed(sel: Selection, st: Store, btns: seq<EditBtn>, mouse: Position)
    requires st.Valid() && Tracks(sel, st) && btns != []
    ensures PressAll(sel, st, btns, mouse).0.ty == Some(btns[|btns| - 1].tool)
  {
  }

  /** However many buttons are released over, the only entity they add is
      the ghost the palette holds, so there is at most one ghost at a time;
      no entity but the old ghost is removed or changed. */
  lemma {:induction false} AtMostOneGhost(sel: Selection, st: Store, btns: seq<EditBtn>, mouse: Position)
    requires st.Valid() && Tracks(sel, st)
    ensures var r := PressAll(sel, st, btns, mouse);
      && (forall e :: e in r.1.ents && e !in st.ents ==> r.0.ent == Some(e))
      && (forall e :: e in st.ents && Some(e) != sel.ent ==> e in r.1.ents && r.1.ents[e] == st.ents[e])
      && (r.0.ent.Some? && r.0.ent != sel.ent ==> r.0.ent.value !in st.ents)
      // once the selection has moved on, the old ghost is gone
      && (sel.ent.Some? && r.0.ent != sel.ent ==> sel.ent.value !in r.1.ents)
      && r.1.nextId >= st.nextId
    decreases |btns|
  {
    if btns != [] {
      var r' := PressAll(sel, st, btns[..|btns| - 1], mouse);
      AtMostOneGhost(sel, st, btns[..|btns| - 1], mouse);
      GhostStep(sel, st, r'.0, r'.1, btns[|btns| - 1], mouse);
    }
  }

  /** The step of AtMostOneGhost: one more button keeps its facts. */
  lemma GhostStep(sel: Selection, st: Store, sel': Selection, st': Store, b: EditBtn, mouse: Position)
    requires st.Valid() && Tracks(sel, st) && st'.Valid() && Tracks(sel', st')
    requires forall e :: e in st'.ents && e !in st.ents ==> sel'.ent == Some(e)
    requires forall e :: e in st.ents && Some(e) != sel.ent ==> e in st'.ents && st'.ents[e] == st.ents[e]
    requires sel'.ent.Some? && sel'.ent != sel.ent ==> sel'.ent.value !in st.ents
    requires sel.ent.Some? && sel'.ent != sel.ent ==> sel.ent.value !in st'.ents
    requires st'.nextId >= st.nextId
    ensures var r := PressButton(sel', st', b, mouse);
      && (forall e :: e in r.1.ents && e !in st.ents ==> r.0.ent == Some(e))
      && (forall e :: e in st.ents && Some(e) != sel.ent ==> e in r.1.ents && r.1.ents[e] == st.ents[e])
      && (r.0.ent.Some? && r.0.ent != sel.ent ==> r.0.ent.value !in st.ents)
      && (sel.ent.Some? && r.0.ent != sel.ent ==> sel.ent.value !in r.1.ents)
      && r.1.nextId >= st.nextId
  {
    var r := PressButton(sel', st', b, mouse);
    if sel'.ent.None? {
      assert st'.nextId !in st.ents;
    }
  }

  /** Releasing twice over the same button with nothing selected makes and
      removes a ghost: the entities are as before, only the tool is kept. */
  lemma SameButtonTwiceTogglesOff(st: Store, b: EditBtn, mouse: Position)
    requires st.Valid()
    ensures PressAll(Selection(None, None), st, [b, b], mouse).0 == Selection(None, Some(b.tool))
    ensures PressAll(Selection(None, None), st, [b, b], mouse).1.ents == st.ents
  {
    assert [b, b][..1] == [b];
    assert [b][..0] == [];
    assert PressAll(Selection(None, None), st, [], mouse) == (Selection(None, None), st);
    var r1 := PressAll(Selection(None, None), st, [b], mouse);
    assert r1 == PressButton(Selection(None, None), st, b, mouse);
    var r2 := PressAll(Selection(None, None), st, [b, b], mouse);
    assert r2 == PressButton(r1.0, r1.1, b, mouse);
    assert r2.1.ents == st.ents[st.nextId := Ghost(b.text, mouse)] - {st.nextId};
  }

  // ------------------------------------------------------------ placement

  /** Entity e has a hitbox and a sprite and its hitbox meets `tile`. */
  predicate Hit(ents: map<Entity, Bundle>, e: Entity, tile: Rect)
  {
    e in ents && ents[e].hitbox.Some? && ents[e].sprite.Some? && Overlaps(ents[e].hitbox.value, tile)
  }

  /** The first entity from id i up to n that the tile meets. */
  function FirstHitFrom(ents: map<Entity, Bundle>, i: nat, n: nat, tile: Rect): (r: Option<Entity>)
    ensures r.Some? ==> i <= r.value < n && Hit(ents, r.value, tile)
    ensures forall e: Entity :: i <= e < n && (r.None? || e < r.value) ==> !Hit(ents, e, tile)
    decreases n - i
  {
    if i >= n then None
    else if Hit(ents, i, tile) then Some(i)
    else FirstHitFrom(ents, i + 1, n, tile)
  }

  /** The join's `find`: the lowest id whose hitbox meets the tile. */
  method FindFirstHit(ents: map<Entity, Bundle>, n: nat, tile: Rect) returns (hit: Option<Entity>)
    ensures hit == FirstHitFrom(ents, 0, n, tile)
  {
    hit := None;
    var e := 0;
    while e < n && hit.None?
      invariant e <= n
      invariant FirstHitFrom(ents, 0, n, tile) == if hit.Some? then hit else FirstHitFrom(ents, e, n, tile)
      decreases n - e
    {
      if e in ents && ents[e].hitbox.Some? && ents[e].sprite.Some? && Overlaps(ents[e].hitbox.value, tile) {
        hit := Some(e);
      }
      e := e + 1;
    }
  }

  /** What placement builds: a default DragBox, the tool's sprite and a tile hitbox. */
  function Placed(ty: ToolPalette, pos: Position): Bundle
  {
    Bare.(dragBox := Some(DragBoxDefault), sprite := Some(Sprite(ToolName(ty))), hitbox := Some(Tile(pos.x, pos.y)))
  }

  /** Placing tool `ty` on the tile at `pos`: only the first object there
      counts; the same kind of object stays, any other kind is replaced. */
  function Place(st: Store, ty: ToolPalette, pos: Position): (r: Store)
    requires st.Valid()
    ensures r.Valid()
    ensures var hit := FirstHitFrom(st.ents, 0, st.nextId, Tile(pos.x, pos.y));
      if hit.Some? && st.ents[hit.value].sprite.value.name == ToolName(ty) then r == st
      else
        && st.nextId !in st.ents
        && r.ents.Keys == (if hit.Some? then st.ents.Keys - {hit.value} else st.ents.Keys) + {st.nextId}
        && r.ents[st.nextId] == Placed(ty, pos).(marker := Some(st.nextMarker))
        && forall e :: e in st.ents && Some(e) != hit ==> r.ents[e] == st.ents[e]
  {
    var hit := FirstHitFrom(st.ents, 0, st.nextId, Tile(pos.x, pos.y));
    if hit.Some? && st.ents[hit.value].sprite.value.name == ToolName(ty) then st
    else
      var st1 := if hit.Some? then st.Delete(hit.value) else st;
      st1.SpawnMarked(Placed(ty, pos))
  }

  /** Placement keeps the number of objects when it replaces one and adds
      one on an empty tile. */
  lemma PlacementCount(st: Store, ty: ToolPalette, pos: Position)
    requires st.Valid()
    ensures var hit := FirstHitFrom(st.ents, 0, st.nextId, Tile(pos.x, pos.y));
      && (hit.None? ==> |Place(st, ty, pos).ents| == |st.ents| + 1)
      && (hit.Some? ==> |Place(st, ty, pos).ents| == |st.ents|)
  {
    var hit := FirstHitFrom(st.ents, 0, st.nextId, Tile(pos.x, pos.y));
    var r := Place(st, ty, pos);
    if hit.None? {
      assert r.ents.Keys == st.ents.Keys + {st.nextId};
      assert |r.ents.Keys| == |st.ents.Keys| + 1;
    } else if st.ents[hit.value].sprite.value.name != ToolName(ty) {
      assert r.ents.Keys == st.ents.Keys - {hit.value} + {st.nextId};
      assert |st.ents.Keys - {hit.value}| == |st.ents.Keys| - 1;
      assert |r.ents.Keys| == |st.ents.Keys|;
    }
  }

  /** Holding the mouse on a tile that at most one object meets places an
      object once: the next frame finds it and leaves the tile alone. */
  lemma PlaceTwiceIsPlaceOnce(st: Store, ty: ToolPalette, pos: Position)
    requires st.Valid()
    requires forall e1, e2 :: Hit(st.ents, e1, Tile(pos.x, pos.y)) && Hit(st.ents, e2, Tile(pos.x, pos.y)) ==> e1 == e2
    ensures Place(Place(st, ty, pos), ty, pos) == Place(st, ty, pos)
  {
    var tile := Tile(pos.x, pos.y);
    var hit := FirstHitFrom(st.ents, 0, st.nextId, tile);
    var r := Place(st, ty, pos);
    if r != st {
      var n := st.nextId;
      assert Hit(r.ents, n, tile);
      forall e | Hit(r.ents, e, tile)
        ensures e == n
      {
        assert e != n ==> Hit(st.ents, e, tile);
      }
      var hit2 := FirstHitFrom(r.ents, 0, r.nextId, tile);
      assert hit2 == Some(n);
    }
  }

  // ------------------------------------------------------------ the system

  /** After the buttons: the ghost, if any, moves to the tile under the
      cursor, and a held mouse places the tool there unless a button was
      released over this frame. */
  function Follow(sel: Selection, st: Store, m: Mouse, buttonPressed: bool): (r: (Selection, Store))
    requires st.Valid() && Tracks(sel, st)
    ensures r.1.Valid() && Tracks(r.0, r.1)
    ensures r.0 == sel
    // the ghost sits on the tile under the cursor
    ensures sel.ent.Some? ==> r.1.ents[sel.ent.value].position == Some(FloorSnap(m.position))
    ensures sel.ent.None? ==> r.1 == st
    // without a held mouse only the ghost moves
    ensures !(m.down && !buttonPressed) ==> r.1.ents.Keys == st.ents.Keys && r.1.nextId == st.nextId
    // the rest of the store: a held mouse stamps the tool onto the ghost's tile
    ensures sel.ent.Some? ==>
      var g := sel.ent.value;
      var st2 := st.(ents := st.ents[g := st.ents[g].(position := Some(FloorSnap(m.position)))]);
      r.1 == if m.down && !buttonPressed then Place(st2, sel.ty.value, FloorSnap(m.position)) else st2
  {
    if sel.ent.None? then (sel, st)
    else
      var g := sel.ent.value;
      var pos := FloorSnap(m.position);
      var st2 := st.(ents := st.ents[g := st.ents[g].(position := Some(pos))]);
      SameMarkersKeepValid(st, st2.ents);
      if !buttonPressed && m.down then
        // the ghost has no hitbox, so placement never removes it
        (sel, Place(st2, sel.ty.value, pos))
      else (sel, st2)
  }

  /** One frame of the palette in edit mode. */
  function Handle(sel: Selection, st: Store, m: Mouse): (r: (Selection, Store))
    requires st.Valid() && Tracks(sel, st)
    ensures r.1.Valid() && Tracks(r.0, r.1)
    ensures r.0.ent.Some? ==> r.1.ents[r.0.ent.value].position == Some(FloorSnap(m.position))
    // nothing is selected, placed or relabelled without a release or a held mouse
    ensures !m.released && !m.down ==> r.0 == sel && r.1.ents.Keys == st.ents.Keys
  {
    var btns := PressedButtons(st.ents, st.nextId, m);
    var r := PressAll(sel, st, btns, m.position);
    Follow(r.0, r.1, m, btns != [])
  }

  /** The EditBtnHandle system and its memory between frames. */
  class EditBtnHandle {
    var selectedEnt: Option<Entity>
    var selectedTy: Option<ToolPalette>

    function Selected(): Selection
      reads this
    {
      Selection(selectedEnt, selectedTy)
    }

    constructor ()
      ensures selectedEnt.None? && selectedTy.None?
    {
      selectedEnt, selectedTy := None, None;
    }

    /** The body of the button join for a button released over. */
    method PressOne(w: World, b: EditBtn, mouse: Position)
      requires w.Valid() && Tracks(Selected(), w.View())
      modifies this, w
      ensures (Selected(), w.View()) == PressButton(old(Selected()), old(w.View()), b, mouse)
      ensures w.editing == old(w.editing) && w.shouldSave == old(w.shouldSave)
    {
      if selectedEnt.None? {
        var g := w.Spawn(Ghost(b.text, mouse));
        selectedEnt := Some(g);
      } else if selectedTy.value == b.tool {
        var g := selectedEnt.value;
        selectedEnt := None;
        selectedTy := None;
        w.Delete(g);
      } else {
        var g := selectedEnt.value;
        w.ents := w.ents[g := w.ents[g].(sprite := Some(Sprite(b.text)))];
      }
      selectedTy := Some(b.tool);
    }

    /** Placement of tool `ty` on the tile at `pos`. */
    method PlaceAt(w: World, ty: ToolPalette, pos: Position)
      requires w.Valid()
      modifies w
      ensures w.View() == Place(old(w.View()), ty, pos)
      ensures w.editing == old(w.editing) && w.shouldSave == old(w.shouldSave)
    {
      var hit := FindFirstHit(w.ents, w.nextId, Tile(pos.x, pos.y));
      var canPlace := true;
      if hit.Some? {
        if w.ents[hit.value].sprite.value.name == ToolName(ty) {
          canPlace := false;
        } else {
          w.Delete(hit.value);
        }
      }
      if canPlace {
        var _ := w.SpawnMarked(Placed(ty, pos));
      }
    }

    /** The part after the button join. */
    method FollowCursor(w: World, m: Mouse, buttonPressed: bool)
      requires w.Valid() && Tracks(Selected(), w.View())
      modifies w
      ensures (Selected(), w.View()) == Follow(old(Selected()), old(w.View()), m, buttonPressed)
      ensures w.editing == old(w.editing) && w.shouldSave == old(w.shouldSave)
    {
      if selectedEnt.Some? {
        var g := selectedEnt.value;
        var pos := FloorSnap(m.position);
        SameMarkersKeepValid(w.View(), w.ents[g := w.ents[g].(position := Some(pos))]);
        w.ents := w.ents[g := w.ents[g].(position := Some(pos))];
        if !buttonPressed && m.down {
          PlaceAt(w, selectedTy.value, pos);
        }
      }
    }

    /** The button join: every button the mouse was released over, in id
        order, over the buttons `ents` held when the frame began. */
    method PressButtons(w: World, ents: map<Entity, Bundle>, n: nat, m: Mouse) returns (buttonPressed: bool)
      requires w.Valid() && Tracks(Selected(), w.View())
      modifies this, w
      ensures (Selected(), w.View()) == PressAll(old(Selected()), old(w.View()), PressedButtons(ents, n, m), m.position)
      ensures buttonPressed == (PressedButtons(ents, n, m) != [])
      ensures w.editing == old(w.editing) && w.shouldSave == old(w.shouldSave)
    {
      ghost var sel0, st0 := Selected(), w.View();
      buttonPressed := false;
      for e := 0 to n
        invariant (Selected(), w.View()) == PressAll(sel0, st0, PressedButtons(ents, e, m), m.position)
        invariant buttonPressed == (PressedButtons(ents, e, m) != [])
        invariant w.editing == old(w.editing) && w.shouldSave == old(w.shouldSave)
      {
        ghost var before := PressedButtons(ents, e, m);
        if e in ents && ents[e].editBtn.Some? && m.released && Contains(ents[e].editBtn.value.bounds, m.position) {
          var b := ents[e].editBtn.value;
          assert PressedButtons(ents, e + 1, m) == before + [b];
          PressAllSnoc(sel0, st0, before, b, m.position);
          PressOne(w, b, m.position);
          buttonPressed := true;
        } else {
          assert PressedButtons(ents, e + 1, m) == before;
        }
      }
    }

    /** EditBtnHandle::run. */
    method Run(w: World, m: Mouse)
      requires w.Valid() && Tracks(Selected(), w.View())
      modifies this, w
      ensures w.Valid() && Tracks(Selected(), w.View())
      ensures (Selected(), w.View()) == if old(w.editing) then Handle(old(Selected()), old(w.View()), m) else (old(Selected()), old(w.View()))
      ensures w.editing == old(w.editing) && w.shouldSave == old(w.shouldSave)
    {
      if !w.editing {
        return;
      }
      // the button storage is only read here, so its join sees the frame's start
      var buttonPressed := PressButtons(w, w.ents, w.nextId, m);
      FollowCursor(w, m, buttonPressed);
    }
  }
}
