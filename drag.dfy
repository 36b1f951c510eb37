/** The edit-mode toggle and EditDragHandler: in edit mode a press inside a
    draggable hitbox grabs it, and while grabbed it follows the mouse on the
    32-unit grid until the button is released. */
module Drag {
  import opened Components
  import opened Ecs

  /** f32::round: to the nearest integer, halves away from zero. */
  function Round(x: real): (r: int)
    ensures x >= 0.0 ==> x - 0.5 < r as real <= x + 0.5
    ensures x < 0.0 ==> x - 0.5 <= r as real < x + 0.5
  {
    if x >= 0.0 then (x + 0.5).Floor else -((-x + 0.5).Floor)
  }

  lemma RoundIsSymmetric(x: real)
    ensures Round(-x) == -Round(x)
  {
  }

  /** Rounding a whole number gives it back. */
  lemma RoundWhole(k: int)
    ensures Round(k as real) == k
  {
  }

  /** `v` is a whole multiple of the tile size. */
  predicate OnGrid(v: real)
  {
    (v / TILE).Floor as real * TILE == v
  }

  lemma MultiplesAreOnGrid(k: int)
    ensures OnGrid(k as real * TILE)
  {
    assert k as real * TILE / TILE == k as real;
  }

  /** The drag target: round(p / 32) * 32 on each axis. */
  function RoundSnap(p: Position): (r: Position)
    ensures OnGrid(r.x) && OnGrid(r.y)
    // the nearest grid line, so never more than half a tile away
    ensures -TILE / 2.0 <= r.x - p.x <= TILE / 2.0 && -TILE / 2.0 <= r.y - p.y <= TILE / 2.0
  {
    var q := DivScalar(p, TILE);
    var r := MulScalar(Position(Round(q.x) as real, Round(q.y) as real), TILE);
    MultiplesAreOnGrid(Round(q.x));
    MultiplesAreOnGrid(Round(q.y));
    r
  }

  /** A point already on the grid snaps to itself. */
  lemma RoundSnapFixesGridPoints(p: Position)
    requires OnGrid(p.x) && OnGrid(p.y)
    ensures RoundSnap(p) == p
  {
    RoundWhole((p.x / TILE).Floor);
    RoundWhole((p.y / TILE).Floor);
  }

  /** The ghost's cell: floor(p / 32) * 32 on each axis. */
  function FloorSnap(p: Position): (r: Position)
    ensures OnGrid(r.x) && OnGrid(r.y)
    // the corner of the tile that holds p
    ensures r.x <= p.x < r.x + TILE && r.y <= p.y < r.y + TILE
  {
    var q := DivScalar(p, TILE);
    var r := MulScalar(Position(q.x.Floor as real, q.y.Floor as real), TILE);
    MultiplesAreOnGrid(q.x.Floor);
    MultiplesAreOnGrid(q.y.Floor);
    r
  }

  /** The P key flips edit mode; nothing else changes. */
  method ToggleEdit(w: World, pPressed: bool)
    modifies w
    ensures w.editing == (old(w.editing) != pPressed)
    ensures w.View() == old(w.View()) && w.shouldSave == old(w.shouldSave)
  {
    if pPressed {
      w.editing := !w.editing;
    }
  }

  /** One draggable hitbox's turn. */
  function DragStep(d: DragBox, h: Rect, m: Mouse): (r: (DragBox, Rect))
    ensures r.1.width == h.width && r.1.height == h.height
    // a press inside grabs the box where the cursor holds it
    ensures m.pressed && Contains(h, m.position) ==> r.0.dragOffset == Sub(m.position, h.position)
    ensures !(m.pressed && Contains(h, m.position)) ==> r.0.dragOffset == d.dragOffset
    // a grabbed box sits on the grid cell nearest to the cursor minus the offset
    ensures d.dragging || (m.pressed && Contains(h, m.position)) ==>
      r.1.position == RoundSnap(Sub(m.position, r.0.dragOffset)) && OnGrid(r.1.position.x) && OnGrid(r.1.position.y)
    ensures !d.dragging && !(m.pressed && Contains(h, m.position)) ==> r.1 == h
    // the box stays grabbed until a release
    ensures r.0.dragging <==> !m.released && (d.dragging || (m.pressed && Contains(h, m.position)))
  {
    var d1 := if m.pressed && Contains(h, m.position) then DragBox(true, Sub(m.position, h.position)) else d;
    var h1 := if d1.dragging then h.(position := RoundSnap(Sub(m.position, d1.dragOffset))) else h;
    var d2 := if m.released then d1.(dragging := false) else d1;
    (d2, h1)
  }

  /** Grabbing a box that sits on the grid does not move it. */
  lemma GrabDoesNotMoveAlignedBox(d: DragBox, h: Rect, m: Mouse)
    requires OnGrid(h.position.x) && OnGrid(h.position.y)
    requires m.pressed && Contains(h, m.position)
    ensures DragStep(d, h, m).1 == h
  {
    // the grab offset, taken back off the cursor, returns the box's own corner
    OffsetRoundTrip(h.position, Origin, m.position);
    RoundSnapFixesGridPoints(h.position);
  }

  /** A release lets go, and any later frame without a press, wherever the
      mouse is, leaves the box where the release left it. */
  lemma ReleaseLetsGo(d: DragBox, h: Rect, m: Mouse, m2: Mouse)
    requires m.released && !m2.pressed
    ensures !DragStep(d, h, m).0.dragging
    ensures !DragStep(DragStep(d, h, m).0, DragStep(d, h, m).1, m2).0.dragging
    ensures DragStep(DragStep(d, h, m).0, DragStep(d, h, m).1, m2).1 == DragStep(d, h, m).1
  {
  }

  /** Entity e's turn: only entities with both a DragBox and a hitbox take part. */
  function DragEntity(b: Bundle, m: Mouse): (r: Bundle)
    ensures r.(dragBox := b.dragBox, hitbox := b.hitbox) == b
    ensures r.dragBox.Some? == b.dragBox.Some? && r.hitbox.Some? == b.hitbox.Some?
    ensures b.dragBox.Some? && b.hitbox.Some? ==>
      (r.dragBox.value, r.hitbox.value) == DragStep(b.dragBox.value, b.hitbox.value, m)
    ensures b.dragBox.None? || b.hitbox.None? ==> r == b
  {
    if b.dragBox.Some? && b.hitbox.Some? then
      var r := DragStep(b.dragBox.value, b.hitbox.value, m);
      b.(dragBox := Some(r.0), hitbox := Some(r.1))
    else b
  }

  /** The body of the drag join for one DragBox and its hitbox. */
  method DragOne(d: DragBox, h: Rect, m: Mouse) returns (drag: DragBox, hitbox: Rect)
    ensures (drag, hitbox) == DragStep(d, h, m)
  {
    drag, hitbox := d, h;
    if m.pressed && Contains(hitbox, m.position) {
      drag := drag.(dragOffset := Sub(m.position, hitbox.position), dragging := true);
    }
    if drag.dragging {
      hitbox := hitbox.(position := RoundSnap(Sub(m.position, drag.dragOffset)));
    }
    if m.released {
      drag := drag.(dragging := false);
    }
  }

  /** The drag join over the entities below id n. */
  method DragAll(ents: map<Entity, Bundle>, n: nat, m: Mouse) returns (r: map<Entity, Bundle>)
    requires forall x :: x in ents ==> x < n
    ensures r == map e | e in ents :: DragEntity(ents[e], m)
    // markers are untouched
    ensures r.Keys == ents.Keys && forall e :: e in r ==> r[e].marker == ents[e].marker
  {
    r := ents;
    for e := 0 to n
      invariant r.Keys == ents.Keys
      invariant forall x :: x in r ==> r[x] == if x < e then DragEntity(ents[x], m) else ents[x]
    {
      if e in r && r[e].dragBox.Some? && r[e].hitbox.Some? {
        var b := r[e];
        var drag, hitbox := DragOne(b.dragBox.value, b.hitbox.value, m);
        r := r[e := b.(dragBox := Some(drag), hitbox := Some(hitbox))];
      }
    }
  }

  /** EditDragHandler::run. */
  method EditDragHandler(w: World, m: Mouse)
    requires w.Valid()
    modifies w
    ensures w.Valid()
    ensures w.ents == if !old(w.editing) then old(w.ents) else map e | e in old(w.ents) :: DragEntity(old(w.ents)[e], m)
    ensures w.nextId == old(w.nextId) && w.nextMarker == old(w.nextMarker)
    ensures w.editing == old(w.editing) && w.shouldSave == old(w.shouldSave)
  {
    if !w.editing {
      return;
    }
    // the join writes the two storages in place; here they are collected and written back
    var ents := DragAll(w.ents, w.nextId, m);
    SameMarkersKeepValid(w.View(), ents);
    w.ents := ents;
  }
}
