# Platformer frame logic in Dafny

A model of the per-frame game logic of a small raylib/specs platformer with
a built-in level editor. The game keeps an entity/component world. Every
frame it runs a fixed set of systems over that world:

- **InputHandling** turns the arrow keys into horizontal speed and the space
  key into a jump. The jump is allowed while `can_jump || coyote_time <
  MAX_COYOTE_TIME`.
- **CollisionHandling** moves every body along X and along Y separately, and
  stops it on an axis whose candidate rectangle meets another hitbox. A Y
  contact is ground or ceiling; ground resets the platform controller;
  without Y contact the body falls under gravity.
- **FallingBlockHandling** runs a falling block's trigger countdown. It ends
  by attaching a `Moveable`, which makes the block a body.
- **EditDragHandler**, **EditBtnHandle** and **IconButtonsHandler** are the
  editor. They drag level objects on a 32-unit grid, pick tools from a
  palette, show a ghost under the cursor, place or replace objects, and
  clear or save the level. The P key flips edit mode.
- **create_ent** is the level-object factory.
- **Position** is the vector type, with its componentwise operators.

Modules follow the program:

| file | module | models |
|---|---|---|
| `components.dfy` | `Components` | `Position` and its operators, the component records |
| `ecs.dfy` | `Ecs` | the world: entities to component records, id and marker allocators, edit state, and the polled mouse |
| `physics.dfy` | `Physics` | InputHandling, CollisionHandling and the game constants |
| `falling.dfy` | `Falling` | FallingBlockHandling |
| `drag.dfy` | `Drag` | the edit toggle, grid snapping, EditDragHandler |
| `palette.dfy` | `Palette` | EditBtnHandle (palette, ghost, placement) |
| `icons.dfy` | `Icons` | IconButtonsHandler |
| `utils.dfy` | `Utils` | create_ent and the properties linking it to the systems |

The world is a class, `Ecs.World`. Its field `ents` maps each live entity id
to a `Bundle`, a record with one optional field per component.
`World.Valid()` states three things:

- every id was handed out by the allocator;
- every marker was handed out by the marker allocator;
- no two entities share a marker.

Each system is a module-level method that takes the world `w: World` and
modifies it; the button system `Run` is a method of class
`Palette.EditBtnHandle`, which holds the selection. Each method is proved against a
specification function on values, and the game's rules are proved as lemmas
about those functions. Joins visit entities in ascending id order.

In several places the code does something other than what a reader of the
game's design would expect. The model follows the code each time:

- One would expect a jump only on the frame the jump key goes down. The code
  tests `is_key_down` (src/systems.rs:123), so the jump fires on every frame
  space is held while the jump condition holds.
- One would expect placement to check every object on the target tile. The
  code uses `find` (src/systems.rs:467), so only the first hitbox in id order
  that meets the tile decides whether to skip or replace.
- One would expect the countdown to last MAX_FALL_COUNT = 80 frames. The
  count increases while it is at most 80 (src/systems.rs:230-234), so it
  reaches 81, and the `Moveable` arrives one frame later.
- One would expect a placed object to carry the label of the button that
  chose its tool, as the ghost does. The code names it with the lower-case
  tool name (src/systems.rs:481).
- One would expect an object placed in the editor to match what
  `create_ent`, the level-object factory (src/utils.rs:10-53), builds for
  its tool. The editor builds them itself, and every tool gets a
  hitbox, a drag box, a sprite and a marker (src/systems.rs:479-484). So a
  falling block placed in the editor has no countdown and no trigger, and it
  never falls: `Utils.PlacedFallingBlockNeverFalls`. Loading a level does
  not call `create_ent` either: `Deserialize` restores only hitboxes,
  positions and sprites with their markers (src/systems.rs:396-397).

Assumptions about code that is not part of this model:

- raylib's `check_collision_recs` and the hitboxes' `point_inside_rec` and
  `collision_rec` are strict: rectangles that only share an edge do not
  meet.
- `Hitbox::new(x, y)` is a 32 x 32 tile with its corner at (x, y).
- `Moveable::new()` has zero velocity (`Components.MoveableNew`).
- `FallingBlock::default()` has count 0 and `should_fall` false
  (`Components.FallingBlockDefault`).
- `DragBox::default()` is not dragging and has a zero offset
  (`Components.DragBoxDefault`).
- `ToolPalette::as_static()` gives the variant's name, so after
  `to_lowercase()` the tools are named "block", "fallingblock" and
  "spikeblock" (`Components.ToolName`).
- `Hitbox`, `Triggerbox`, `EditBtn`, `DragBox`, `FallingBlock` and
  `ToolPalette` are not defined in the files modelled here. Their shapes
  follow how src/utils.rs and src/systems.rs use them.

## Model

| member | source | states |
|---|---|---|
| Components.Add | src/components.rs:21-29 | definition: x and y added componentwise |
| Components.Sub | src/components.rs:54-62 | definition: x and y subtracted componentwise |
| Components.Mul | src/components.rs:86-94 | definition: x and y multiplied componentwise |
| Components.Div | src/components.rs:118-126 | definition: x and y divided componentwise; the divisor's components must be nonzero |
| Components.AddScalar | src/components.rs:31-39 | definition: the scalar added to both coordinates |
| Components.SubScalar | src/components.rs:64-72 | definition: the scalar subtracted from both coordinates |
| Components.MulScalar | src/components.rs:96-104 | definition: both coordinates multiplied by the scalar |
| Components.DivScalar | src/components.rs:128-136 | definition: both coordinates divided by the nonzero scalar |
| Components.Neg | src/components.rs:150-158 | definition: both coordinates negated |
| Components.FromVector2 | src/components.rs:160-167 | definition: a Position with the vector's x and y |
| Components.IntoVector2 | src/components.rs:169-176 | definition: a Vector2 with the position's x and y |
| Components.Tile | src/systems.rs:467 | definition, assumed: `Hitbox::new(x, y)` is the 32 x 32 rectangle with its corner at (x, y) |
| Components.Overlaps | src/systems.rs:166-170 | definition, assumed: `check_collision_recs` with strict comparisons on both axes |
| Components.Contains | src/systems.rs:254 | definition, assumed: `point_inside_rec` with the point strictly inside |
| Components.AddThenSubCancels | src/components.rs:21-29 | adding and then subtracting the same Position, or the reverse, gives the start back (Add and Sub are componentwise, src/components.rs:54-62) |
| Components.OffsetRoundTrip | src/systems.rs:255-259 | the offset algebra of dragging: the offset from p to p + d is d, p plus the offset from p to q is q, and q minus the offset from p to q is p |
| Components.MulThenDivCancels | src/components.rs:118-126 | componentwise Div undoes Mul, and Mul undoes Div, when no component of the divisor is zero |
| Components.ScalarIsSplat | src/components.rs:31-39 | each scalar operator (Add, Sub, Mul, Div by f32, src/components.rs:64-72, 96-104, 128-136) equals its Position operator applied to the scalar on both axes |
| Components.NegIsSubFromOrigin | src/components.rs:150-158 | Neg is subtraction from the origin, is its own inverse, and adding a value to its negation gives the origin |
| Components.VectorRoundTrip | src/components.rs:160-176 | converting into a Vector2 and back, or from a Vector2 and back, is the identity |
| Components.OverlapsIsSymmetric | src/systems.rs:166-170 | the overlap test on rectangles is symmetric |
| Components.ToolName | src/systems.rs:469 | a tool's sprite name is a non-empty word of lower-case letters, as `to_lowercase` leaves it |
| Components.ToolNamesAreDistinct | src/systems.rs:469-472 | two tools have the same sprite name iff they are the same tool, so the "same object" check at placement compares tools |
| Ecs.Store.Spawn | src/systems.rs:438-440 | a created entity gets a fresh id not in use; only that entity is added; the marker counter is unchanged; the store stays valid |
| Ecs.Store.SpawnMarked | src/systems.rs:479-484 | like Spawn, and the new entity carries a fresh marker that no other entity has |
| Ecs.Store.Delete | src/systems.rs:446 | deleting removes exactly that entity, leaves every other one as it was, and keeps the store valid |
| Ecs.SameMarkersKeepValid | src/systems.rs:114 | rewriting components without adding, removing or re-marking entities keeps the store valid |
| Ecs.World.Spawn | src/systems.rs:438-440 | the method's new state is Store.Spawn of its old state |
| Ecs.World.SpawnMarked | src/utils.rs:22 | the method's new state is Store.SpawnMarked of its old state |
| Ecs.World.Delete | src/systems.rs:520 | the method's new state is Store.Delete of its old state |
| Physics.MayJump | src/systems.rs:124 | definition: the jump condition as written, `can_jump` or a coyote time below MAX_COYOTE_TIME |
| Physics.Steer | src/systems.rs:115-128 | vx is -HOZ_SPEED if left is held, else +HOZ_SPEED if right is held, else 0; the jump fires iff space is held and `can_jump or coyote_time < MAX` holds; a jump sets vy to -JUMP_VELOCITY and spends the controller (can_jump false, coyote_time MAX); otherwise controller and vy are kept; a changed controller never allows another jump |
| Physics.SteerEntity | src/systems.rs:114 | only entities with both a controller and a Moveable are steered, and only those two components change |
| Physics.SteerAll | src/systems.rs:114-130 | the join loop leaves every entity steered and every marker unchanged |
| Physics.InputHandling | src/systems.rs:112-131 | in edit mode nothing changes; otherwise every entity is steered; ids, markers and edit state are unchanged |
| Physics.AnyOverlapSplit | src/systems.rs:164-184 | some obstacle is met iff one before the last is met or the last one is |
| Physics.LastContact | src/systems.rs:170-182 | returns an obstacle iff the rectangle meets one; then it is one it meets, and no later obstacle in the list meets the rectangle, so it is the last one met |
| Physics.ResolveX | src/systems.rs:162-169 | after the obstacle loop the X flag is set iff the X candidate meets some obstacle, and vx is 0 exactly then |
| Physics.ResolveY | src/systems.rs:170-183 | after the obstacle loop the Y flag is set iff the Y candidate meets some obstacle; the ground/ceiling verdict, which reads the already snapped y, equals "the body moved down"; ground snaps the bottom PADDING above the last obstacle met and resets the controller; ceiling snaps the top PADDING below it and keeps the controller; vy is 0 on any contact |
| Physics.ContactOf | src/systems.rs:170-182 | definition: the vertical verdict; air when the Y candidate meets no obstacle, otherwise ground when the candidate lies below the body (`pot_rec_y.y > hitbox.position.y` at line 174, i.e. a positive displacement) and ceiling otherwise; ResolveY shows the snapped y never changes this verdict |
| Physics.AfterContact | src/systems.rs:174-193 | definition: ground sets `can_jump` and zeroes the coyote time, a ceiling leaves the controller alone, air clears `can_jump` and adds one frame of coyote time (lines 189-193) |
| Physics.BodyStep | src/systems.rs:158-161 | definition: where the frame time enters; the displacement is `velocity * delta` (lines 159 and 161, and 194) and gravity adds `GRAVITY * delta` to the vertical speed (line 195) |
| Physics.MoveX | src/systems.rs:158-187 | blocked iff the X candidate meets another hitbox: then x is kept and vx is 0; otherwise x becomes x + vx*dt and vx is kept; the body's size never changes |
| Physics.MoveY | src/systems.rs:160-196 | with no Y contact, y += vy*dt, vy += GRAVITY*dt, coyote_time += 1 and can_jump is cleared; a downward contact (ground) sets vy 0, puts the bottom PADDING above the obstacle's top and sets coyote_time 0 and can_jump true; an upward contact (ceiling) sets vy 0, puts the top PADDING below the obstacle's bottom and leaves the controller alone |
| Physics.Against | src/systems.rs:165-183 | definition: one obstacle's turn of the loop; X contact sets the X flag and vx 0; Y contact sets the Y flag and vy 0 and snaps y, to ground (resetting the controller) when the Y candidate lies below the y as earlier obstacles left it, else to ceiling |
| Physics.Resolve | src/systems.rs:164-184 | definition: the obstacle loop, Against over the obstacles in order |
| Physics.Move | src/systems.rs:158-196 | definition: one body's collision step, whose outcome MoveX and MoveY state |
| Physics.StepBody | src/systems.rs:158-196 | the loop over the obstacles with its two collision flags computes Physics.Move |
| Physics.Obstacles | src/systems.rs:149-153 | the obstacle list is every other entity's hitbox, and holds nothing else; the body's own hitbox is never in it |
| Physics.ObstacleIds | src/systems.rs:149-153 | the ids the join visits for one body: strictly ascending, each below the bound, other than the body, with a hitbox, and every such id is among them |
| Physics.ObstaclesInIdOrder | src/systems.rs:149-153 | the obstacle list is in id order: its i-th entry is the hitbox of the i-th qualifying id |
| Physics.CollideEntity | src/systems.rs:147-197 | one body's turn changes only that body's hitbox, Moveable and controller; non-bodies and every other entity are left alone |
| Physics.CollideOne | src/systems.rs:147-197 | the join loop body computes CollideEntity |
| Physics.CollideUpTo | src/systems.rs:147 | after the first k turns only bodies with an id below k changed, and only their hitbox, Moveable and controller |
| Physics.CollisionHandling | src/systems.rs:144-198 | in edit mode nothing changes; otherwise the world is the bodies moved one after another in id order, each against the hitboxes as the bodies before it left them; "every Moveable has a hitbox" is kept |
| Physics.WallStopsOnlyHorizontalMotion | src/systems.rs:164-196 | a body pushing into a wall it only touches stops on X and keeps falling on Y, since a shared edge is not a Y overlap |
| Physics.NoSecondJumpBeforeLanding | src/systems.rs:123-192 | after a jump (src/systems.rs:123-128) no further jump fires, whatever keys are held, until a frame with ground contact (:174-179); airborne frames (:189-192) never reset the controller |
| Physics.LandingRestoresJump | src/systems.rs:174-179 | after a frame with ground contact a jump is allowed again |
| Falling.FallStep | src/systems.rs:219-235 | only the countdown and the Moveable change; blocks with no trigger, no countdown or already a Moveable are untouched; should_fall is never reset and becomes true only on a touch; the count changes only by one, only after the trigger fired and while it is at most 80, so it never exceeds 81; a fresh Moveable is attached only once the count is past 80 |
| Falling.TriggerTouched | src/systems.rs:223-229 | the inner join reports a touch iff some entity with a controller and a hitbox meets the trigger |
| Falling.FallEntity | src/systems.rs:219-235 | definition: entity e's FallStep, touched iff some controlled hitbox meets its trigger |
| Falling.FallOne | src/systems.rs:219-235 | the outer join's body gives block e its FallStep, the touch test reading the bodies |
| Falling.FallUpTo | src/systems.rs:219 | after the first k turns exactly the entities below k have taken their step |
| Falling.FallAll | src/systems.rs:219-236 | the outer join gives every entity its step and keeps every marker |
| Falling.FallingBlockHandling | src/systems.rs:214-237 | in edit mode nothing changes; otherwise every falling block takes its step against the bodies in the world; ids, markers and edit state are unchanged |
| Falling.TriggeredBlockCountsDown | src/systems.rs:230-234 | once triggered, a resting block counts one per frame for 81 frames whatever touches it, then receives a Moveable on the next frame (MAX_FALL_COUNT = 80, :201) |
| Falling.UntouchedBlockStaysPut | src/systems.rs:221-229 | a block whose trigger is never touched never changes |
| Drag.Round | src/systems.rs:260-261 | f32::round lands within half a unit of its argument, halves going away from zero |
| Drag.RoundIsSymmetric | src/systems.rs:260-261 | rounding commutes with negation |
| Drag.RoundWhole | src/systems.rs:260-261 | rounding a whole number gives it back |
| Drag.MultiplesAreOnGrid | src/systems.rs:262 | every whole multiple of 32 is on the grid |
| Drag.RoundSnap | src/systems.rs:259-262 | the drag target is on the grid on both axes and at most half a tile away from the point |
| Drag.RoundSnapFixesGridPoints | src/systems.rs:259-262 | a point on the grid snaps to itself |
| Drag.FloorSnap | src/systems.rs:460-463 | the ghost's cell corner is on the grid, and the point lies in that tile |
| Drag.ToggleEdit | src/systems.rs:39-40 | the P key flips edit mode and changes nothing else |
| Drag.DragStep | src/systems.rs:254-267 | a press inside the hitbox starts a drag with offset = mouse - position; while dragging the hitbox sits at round((mouse - offset)/32)*32, on the grid; otherwise it stays; the box stays grabbed iff it was grabbed or just pressed, and there is no release; the size never changes |
| Drag.GrabDoesNotMoveAlignedBox | src/systems.rs:254-262 | grabbing a box that sits on the grid does not move it |
| Drag.ReleaseLetsGo | src/systems.rs:265-267 | a release ends the drag, and any later frame without a press, wherever the mouse is, leaves the box where the release left it and not dragging |
| Drag.DragEntity | src/systems.rs:253 | only entities with both a drag box and a hitbox take part, and only those two components change |
| Drag.DragOne | src/systems.rs:254-267 | the join's body computes DragStep |
| Drag.DragAll | src/systems.rs:253-268 | the join gives every entity its drag step and keeps every marker |
| Drag.EditDragHandler | src/systems.rs:250-270 | outside edit mode nothing changes; in edit mode every draggable hitbox takes its drag step; ids, markers and edit state are unchanged |
| Palette.PressButton | src/systems.rs:435-454 | with nothing selected, a ghost (button text, at the mouse) appears under a fresh id and becomes the selection; the selected tool's button deletes the ghost and clears the selection; another tool's button relabels the ghost with the button's text; in every case the selected tool is the button's afterwards; the selection always names a live ghost |
| Palette.PressAll | src/systems.rs:433-457 | releases over a sequence of buttons keep the store valid and the selection naming a live ghost |
| Palette.PressAllSnoc | src/systems.rs:433-457 | one more button release is one more PressButton after the others |
| Palette.PressedButtons | src/systems.rs:433-435 | without a release no button is pressed; every button entity below n that the mouse is released over is listed, every listed button is one of them, and each has the mouse inside it |
| Palette.SelectedToolIsLastPressed | src/systems.rs:453 | after several releases the selected tool is the last button's, even after a toggle-off |
| Palette.AtMostOneGhost | src/systems.rs:437-451 | however many buttons are pressed, the only entity added is the selected ghost, and no entity other than the old ghost is removed or changed, and once the selection has moved off the old ghost the old ghost is gone, so there is at most one ghost |
| Palette.GhostStep | src/systems.rs:437-451 | one more release keeps the facts of AtMostOneGhost, including that an abandoned ghost stays gone |
| Palette.SameButtonTwiceTogglesOff | src/systems.rs:437-453 | releasing twice over one button with nothing selected creates and removes a ghost: the entities are as before and only the tool stays selected |
| Palette.FirstHitFrom | src/systems.rs:467 | the answer is the lowest id in range whose hitbox meets the tile and that has a sprite, or none if no id does |
| Palette.FindFirstHit | src/systems.rs:467 | the `find` over the join computes FirstHitFrom |
| Palette.Ghost | src/systems.rs:438-440 | definition: the ghost has exactly a sprite with the button's text and a position at the mouse |
| Palette.Placed | src/systems.rs:479-482 | definition: a placed object has exactly a default drag box, the tool's lower-case sprite and a tile hitbox at the snapped position (its marker is added by Place) |
| Palette.Place | src/systems.rs:467-490 | if the first object meeting the tile has the tool's sprite name, nothing changes; otherwise that object, if any, is deleted and exactly one new entity is added under a fresh id, with a default drag box, the tool's sprite, a tile hitbox at the position and a fresh marker; nothing else changes |
| Palette.PlacementCount | src/systems.rs:471-484 | placing on an empty tile adds one object; replacing keeps the count |
| Palette.PlaceTwiceIsPlaceOnce | src/systems.rs:467-484 | on a tile that at most one object meets, placing twice is placing once |
| Palette.Follow | src/systems.rs:459-493 | the ghost moves to the tile under the cursor; without a selection nothing changes; without a held mouse, or if a button was pressed this frame, only the ghost moves; otherwise the store is exactly the moved ghost plus the selected tool placed on its tile |
| Palette.Handle | src/systems.rs:430-494 | after a frame a selected ghost is on the tile under the cursor; with neither a release nor a held mouse the selection and the set of entities are unchanged |
| Palette.EditBtnHandle.PressOne | src/systems.rs:437-453 | the join's body for a pressed button computes PressButton on the selection fields and the world |
| Palette.EditBtnHandle.PlaceAt | src/systems.rs:467-490 | the placement code computes Place |
| Palette.EditBtnHandle.FollowCursor | src/systems.rs:459-493 | the code after the join computes Follow |
| Palette.EditBtnHandle.PressButtons | src/systems.rs:432-457 | the button join computes PressAll over the buttons released over, in id order, and reports whether there was one |
| Palette.EditBtnHandle.Run | src/systems.rs:429-495 | outside edit mode nothing changes; in edit mode the selection and the world are Handle of the old ones, and the selection still names a live ghost |
| Icons.Unmarked | src/systems.rs:519-521 | what survives clearing is exactly the unmarked entities, unchanged |
| Icons.ClearIsIdempotent | src/systems.rs:519-521 | clearing twice is clearing once |
| Icons.ClearMarked | src/systems.rs:519-521 | the delete loop leaves exactly the unmarked entities |
| Icons.PressedIcons | src/systems.rs:514-516 | without a release no icon is pressed; the kind of every icon below n that the mouse is released over is listed, and every listed kind is that of such an icon |
| Icons.IconsOutcome | src/systems.rs:517-527 | whatever icons are pressed, the level is cleared iff the clear icon is among them, a save is asked for iff the save icon is, and other icons do nothing |
| Icons.IconAction | src/systems.rs:517-527 | definition: the clear icon leaves the unmarked entities, the save icon sets the save flag, any other icon changes nothing |
| Icons.Act | src/systems.rs:517-527 | one icon's action computes IconAction |
| Icons.IconButtonsHandler | src/systems.rs:512-530 | in and out of edit mode, the entities and the save flag are the icon actions of the pressed icons in id order; ids, markers and edit mode are unchanged |
| Utils.LevelObject | src/utils.rs:10-53 | Block is exactly a tile hitbox at p, a default drag box and the sprite "block"; FallingBlock adds a default countdown and a 32 x 32 trigger at (p.x, p.y - 1), with the sprite "fallingblock"; SpikeBlock gives no object |
| Utils.Create | src/utils.rs:10-53 | create_ent keeps the world valid; SpikeBlock leaves the world unchanged; any other tool adds one entity under a fresh id, carrying a fresh marker, and keeps every other entity; the new entity is exactly the tool's level object under that marker |
| Utils.CreateEnt | src/utils.rs:10-53 | the method's new state is Create of its old state: one marked entity for Block and FallingBlock, no change for SpikeBlock |
| Utils.ClearRemovesCreated | src/utils.rs:22-41 | every object create_ent builds is marked, so the clear icon removes it together with what was there before |
| Utils.CreatedFallingBlockRests | src/utils.rs:25-47 | a new falling block has no Moveable, so until its trigger is touched FallingBlockHandling leaves it exactly as built |
| Utils.LandingOnFallingBlockTriggersIt | src/utils.rs:32-39 | a body that has landed on a falling block, as collision leaves it, and lies over it touches the trigger, which starts the countdown |
| Utils.PlacedBlockIsCreatedBlock | src/systems.rs:479-484 | a block placed in the editor is, marker aside, the block create_ent builds |
| Utils.PlacedFallingBlockNeverFalls | src/systems.rs:479-489 | a falling block placed in the editor differs from the one create_ent builds, and FallingBlockHandling never changes it |

## Left out

- Rendering in `DrawSys` (src/systems.rs:19-93) is not modelled. The P-key toggle at :39-40 is kept as `Drag.ToggleEdit`.
- `Serialize`, `Deserialize` and the `Combined` error type (src/systems.rs:273-406) are file I/O through `ron` and `specs::saveload`. Marker allocation is kept only as a counter of fresh markers.
- src/main.rs is not part of this model. It only creates the window and runs the dispatcher.
- raylib polling is replaced by step parameters: `Physics.Keys`, `Ecs.Mouse`, the frame time `dt` and the P-key flag.
- specs internals are not modelled: the dispatcher, liveness bitsets, id reuse and `maintain`. Ids are fresh and never reused; deletion is immediate. Because joins run in ascending id, the model's join order is creation order. specs reuses freed indices after `maintain` and joins in index order. So the first hit that decides placement (src/systems.rs:467), the last Y contact whose snap survives (src/systems.rs:170-182) and the order in which bodies move (src/systems.rs:147) are exact only while no index has been reused after a deletion. The icon and button joins iterate the entities as the frame began, which matches specs' deferred deletion.
- f32 arithmetic is modelled with exact reals. There is no rounding error, infinity or NaN.
- Components.Div and Components.DivScalar require a nonzero divisor, because division by zero makes an infinity or NaN, which reals do not have.
- The `*Assign` operators (src/components.rs:42-52, 74-84, 106-116, 138-148) only rebind `*self` to `*self op v`. On values that is `p := Op(p, v)`, so they get no members of their own.
- `Moveable`'s width and height are left out, because no modelled system reads them.
- The `println!` at src/systems.rs:455 is output only and is left out.
- The order in which the dispatcher runs the systems inside one frame is not modelled. Each system is a separate method.
- Physics.CollisionHandling: the `expect("Moveable component needs hitbox")` abort is a precondition (every Moveable has a hitbox), not a modelled failure path.
