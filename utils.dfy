/** create_ent: the level-object factory, which fixes the components each
    tool's object is built from. */
module Utils {
  import opened Components
  import opened Ecs
  import opened Physics
  import opened Falling
  import opened Palette
  import opened Icons

  /** The 32 x 32 box one unit above a falling block that a body must touch. */
  function TriggerAbove(p: Position): Rect
  {
    Rect(TILE, TILE, Position(p.x, p.y - 1.0))
  }

  /** The components create_ent gives tool `ty` at `p`; the spike block has none. */
  function LevelObject(ty: ToolPalette, p: Position): (r: Option<Bundle>)
    ensures r.None? <==> ty == SpikeBlock
    // every object is a draggable tile drawn with its tool's sprite, not yet marked
    ensures r.Some? ==>
      && r.value.hitbox == Some(Tile(p.x, p.y)) && r.value.dragBox == Some(DragBoxDefault)
      && r.value.sprite == Some(Sprite(ToolName(ty))) && r.value.marker.None?
      && r.value.moveable.None? && r.value.controller.None?
      && r.value.position.None? && r.value.editBtn.None? && r.value.icon.None?
    // a falling block also has a resting countdown and the trigger above it
    ensures ty == ToolPalette.FallingBlock ==>
      r.value.fallingBlock == Some(FallingBlockDefault) && r.value.trigger == Some(TriggerAbove(p))
    ensures ty == Block ==> r.value.fallingBlock.None? && r.value.trigger.None?
  {
    match ty
    case Block =>
      Some(Bare.(hitbox := Some(Tile(p.x, p.y)), dragBox := Some(DragBoxDefault), sprite := Some(Sprite("block"))))
    case FallingBlock =>
      Some(Bare.(fallingBlock := Some(FallingBlockDefault), sprite := Some(Sprite("fallingblock")),
                 trigger := Some(TriggerAbove(p)), dragBox := Some(DragBoxDefault),
                 hitbox := Some(Tile(p.x, p.y))))
    case SpikeBlock => None
  }

  /** The store after create_ent. */
  function Create(st: Store, ty: ToolPalette, p: Position): (r: Store)
    requires st.Valid()
    ensures r.Valid()
    // the spike block creates nothing
    ensures ty == SpikeBlock ==> r == st
    // any other tool adds one marked entity under a fresh id and keeps the rest
    ensures ty != SpikeBlock ==>
      && st.nextId !in st.ents && r.ents.Keys == st.ents.Keys + {st.nextId}
      && r.ents[st.nextId].marker == Some(st.nextMarker)
      && forall e :: e in st.ents ==> r.ents[e] == st.ents[e]
    // the new entity is the tool's level object under the fresh marker
    ensures ty != SpikeBlock ==> r.ents[st.nextId] == LevelObject(ty, p).value.(marker := Some(st.nextMarker))
  {
    if LevelObject(ty, p).Some? then st.SpawnMarked(LevelObject(ty, p).value) else st
  }

  /** create_ent. */
  method CreateEnt(w: World, ty: ToolPalette, p: Position)
    requires w.Valid()
    modifies w
    ensures w.Valid()
    ensures w.View() == Create(old(w.View()), ty, p)
    ensures w.editing == old(w.editing) && w.shouldSave == old(w.shouldSave)
  {
    match ty
    case Block =>
      var _ := w.SpawnMarked(Bare.(hitbox := Some(Tile(p.x, p.y)), dragBox := Some(DragBoxDefault),
                                   sprite := Some(Sprite("block"))));
    case FallingBlock =>
      var _ := w.SpawnMarked(Bare.(fallingBlock := Some(FallingBlockDefault), sprite := Some(Sprite("fallingblock")),
                                   trigger := Some(TriggerAbove(p)), dragBox := Some(DragBoxDefault),
                                   hitbox := Some(Tile(p.x, p.y))));
    case SpikeBlock =>
  }

  /** Every object create_ent builds is marked, so the clear icon removes
      exactly what was there before plus the new object. */
  lemma ClearRemovesCreated(st: Store, ty: ToolPalette, p: Position)
    requires st.Valid()
    ensures Unmarked(Create(st, ty, p).ents) == Unmarked(st.ents)
    ensures ty != SpikeBlock ==> st.nextId in Create(st, ty, p).ents && st.nextId !in Unmarked(Create(st, ty, p).ents)
  {
    var r := Create(st, ty, p);
    if ty != SpikeBlock {
      assert r.ents == st.ents[st.nextId := LevelObject(ty, p).value.(marker := Some(st.nextMarker))];
      assert Unmarked(r.ents) == Unmarked(st.ents);
    }
  }

  /** A new falling block rests: until a body touches its trigger,
      FallingBlockHandling leaves it exactly as it was built. */
  lemma CreatedFallingBlockRests(p: Position, touches: seq<bool>)
    requires forall i :: 0 <= i < |touches| ==> !touches[i]
    ensures FallSteps(LevelObject(ToolPalette.FallingBlock, p).value, touches) == LevelObject(ToolPalette.FallingBlock, p).value
  {
    UntouchedBlockStaysPut(LevelObject(ToolPalette.FallingBlock, p).value, touches);
  }

  /** A body that landed on top of a falling block (its bottom PADDING above
      the block, as collision leaves it) and lies over it horizontally
      touches the block's trigger, which starts the countdown. */
  lemma LandingOnFallingBlockTriggersIt(p: Position, body: Rect)
    requires body.height > 0.0
    requires body.position.y + body.height + PADDING == p.y
    requires body.position.x < p.x + TILE && body.position.x + body.width > p.x
    ensures Overlaps(body, TriggerAbove(p))
    ensures FallStep(LevelObject(ToolPalette.FallingBlock, p).value, true).fallingBlock == Some(FallingBlock.FallingBlock(0, true))
  {
  }

  /** The editor places a block exactly as create_ent builds one. */
  lemma PlacedBlockIsCreatedBlock(p: Position)
    ensures Placed(Block, p) == LevelObject(Block, p).value
  {
  }

  /** The editor's falling block lacks the countdown and trigger that
      create_ent gives one, so it never falls. */
  lemma PlacedFallingBlockNeverFalls(p: Position, touched: bool)
    ensures Placed(ToolPalette.FallingBlock, p) != LevelObject(ToolPalette.FallingBlock, p).value
    ensures FallStep(Placed(ToolPalette.FallingBlock, p), touched) == Placed(ToolPalette.FallingBlock, p)
  {
  }
}
