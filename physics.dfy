/** InputHandling and CollisionHandling: the keys steer every controlled
    body, then every body moves along X and along Y separately, stopping on
    the axis whose candidate rectangle meets another hitbox. */
module Physics {
  import opened Components
  import opened Ecs

  const MAX_COYOTE_TIME: real := 15.0
  const TIME_TO_JUMP_HEIGHT: real := 0.55
  const JUMP_HEIGHT: real := 66.0
  const HOZ_SPEED: real := 200.0
  /** Chosen so that a jump peaks JUMP_HEIGHT units up after TIME_TO_JUMP_HEIGHT seconds. */
  const GRAVITY: real := (JUMP_HEIGHT * 2.0) / (TIME_TO_JUMP_HEIGHT * TIME_TO_JUMP_HEIGHT)
  const JUMP_VELOCITY: real := GRAVITY * TIME_TO_JUMP_HEIGHT
  const PADDING: real := 0.05

  /** The keys InputHandling polls this frame. */
  datatype Keys = Keys(left: bool, right: bool, space: bool)

  // ---------------------------------------------------------------- input

  /** The jump condition, kept as written: either flag suffices. */
  predicate MayJump(c: PlatformController)
  {
    c.canJump || c.coyoteTime < MAX_COYOTE_TIME
  }

  /** What a jump leaves in the controller. */
  const Spent := PlatformController(false, MAX_COYOTE_TIME)

  /** Left wins over right; neither key means standing still. */
  function HorizontalSpeed(k: Keys): real
  {
    if k.left then -HOZ_SPEED else if k.right then HOZ_SPEED else 0.0
  }

  /** One controlled body's input step. */
  function Steer(c: PlatformController, m: Moveable, k: Keys): (r: (PlatformController, Moveable))
    ensures r.1.velocity.x == HorizontalSpeed(k)
    ensures k.space && MayJump(c) ==> r.0 == Spent && r.1.velocity.y == -JUMP_VELOCITY
    ensures !(k.space && MayJump(c)) ==> r.0 == c && r.1.velocity.y == m.velocity.y
    // whenever the controller changes, the jump it allowed is used up
    ensures r.0 != c ==> !MayJump(r.0)
  {
    var vx := HorizontalSpeed(k);
    if k.space && MayJump(c) then (Spent, Moveable(Position(vx, -JUMP_VELOCITY)))
    else (c, Moveable(Position(vx, m.velocity.y)))
  }

  /** The input step on one entity: only entities with both a controller and
      a Moveable are steered, and only those two components change. */
  function SteerEntity(b: Bundle, k: Keys): (r: Bundle)
    ensures r.(controller := b.controller, moveable := b.moveable) == b
    ensures b.controller.None? || b.moveable.None? ==> r == b
    ensures b.controller.Some? && b.moveable.Some? ==>
              r.controller == Some(Steer(b.controller.value, b.moveable.value, k).0) &&
              r.moveable == Some(Steer(b.controller.value, b.moveable.value, k).1)
  {
    if b.controller.Some? && b.moveable.Some? then
      var r := Steer(b.controller.value, b.moveable.value, k);
      b.(controller := Some(r.0), moveable := Some(r.1))
    else b
  }

  /** The input join over the entities below id n. */
  method SteerAll(ents: map<Entity, Bundle>, n: nat, k: Keys) returns (r: map<Entity, Bundle>)
    requires forall x :: x in ents ==> x < n
    ensures r == map e | e in ents :: SteerEntity(ents[e], k)
    // markers are untouched
    ensures r.Keys == ents.Keys && forall e :: e in r ==> r[e].marker == ents[e].marker
  {
    r := ents;
    for e := 0 to n
      invariant r.Keys == ents.Keys
      invariant forall x :: x in r ==> r[x] == if x < e then SteerEntity(ents[x], k) else ents[x]
    {
      if e in r && r[e].controller.Some? && r[e].moveable.Some? {
        var b := r[e];
        var s := Steer(b.controller.value, b.moveable.value, k);
        r := r[e := b.(controller := Some(s.0), moveable := Some(s.1))];
      }
    }
  }

  /** InputHandling::run. */
  method InputHandling(w: World, k: Keys)
    requires w.Valid()
    modifies w
    ensures w.Valid()
    ensures w.ents == if old(w.editing) then old(w.ents) else map e | e in old(w.ents) :: SteerEntity(old(w.ents)[e], k)
    ensures w.nextId == old(w.nextId) && w.nextMarker == old(w.nextMarker)
    ensures w.editing == old(w.editing) && w.shouldSave == old(w.shouldSave)
  {
    if w.editing {
      return;
    }
    // the join writes the two storages in place; here they are collected and written back
    var ents := SteerAll(w.ents, w.nextId, k);
    SameMarkersKeepValid(w.View(), ents);
    w.ents := ents;
  }

  // ------------------------------------------------------------ collision

  /** Ground contact resets a controller, if the body has one. */
  function Grounded(c: Option<PlatformController>): Option<PlatformController>
  {
    if c.Some? then Some(PlatformController(true, 0.0)) else None
  }

  /** A frame without vertical contact: one more frame of coyote time, no jump flag. */
  function Airborne(c: Option<PlatformController>): Option<PlatformController>
  {
    if c.Some? then Some(PlatformController(false, c.value.coyoteTime + 1.0)) else None
  }

  function MovedX(r: Rect, dx: real): Rect { r.(position := r.position.(x := r.position.x + dx)) }

  function MovedY(r: Rect, dy: real): Rect { r.(position := r.position.(y := r.position.y + dy)) }

  /** The variables of the obstacle loop: the body's y, its velocity, its
      controller and the two collision flags. */
  datatype Resolution = Resolution(
    y: real, vx: real, vy: real, ctrl: Option<PlatformController>, hitX: bool, hitY: bool)

  function Start(body: Rect, vel: Position, ctrl: Option<PlatformController>): Resolution
  {
    Resolution(body.position.y, vel.x, vel.y, ctrl, false, false)
  }

  /** One obstacle's turn of the loop.  The ground test compares the Y
      candidate with the body's y as earlier obstacles have snapped it. */
  function Against(s: Resolution, body: Rect, candX: Rect, candY: Rect, h: Rect): Resolution
  {
    var s1 := if Overlaps(candX, h) then s.(hitX := true, vx := 0.0) else s;
    if !Overlaps(candY, h) then s1
    else if candY.position.y > s1.y then
      s1.(hitY := true, vy := 0.0, y := h.position.y - body.height - PADDING, ctrl := Grounded(s1.ctrl))
    else
      s1.(hitY := true, vy := 0.0, y := h.position.y + h.height + PADDING)
  }

  /** The obstacle loop run over `obs` in order. */
  function Resolve(s: Resolution, body: Rect, candX: Rect, candY: Rect, obs: seq<Rect>): Resolution
    decreases |obs|
  {
    if obs == [] then s
    else Against(Resolve(s, body, candX, candY, obs[..|obs| - 1]), body, candX, candY, obs[|obs| - 1])
  }

  predicate AnyOverlap(r: Rect, obs: seq<Rect>)
  {
    exists j :: 0 <= j < |obs| && Overlaps(r, obs[j])
  }

  lemma AnyOverlapSplit(r: Rect, obs: seq<Rect>)
    requires obs != []
    ensures AnyOverlap(r, obs) <==> AnyOverlap(r, obs[..|obs| - 1]) || Overlaps(r, obs[|obs| - 1])
  {
    var pre := obs[..|obs| - 1];
    if AnyOverlap(r, pre) {
      var j :| 0 <= j < |pre| && Overlaps(r, pre[j]);
      assert obs[j] == pre[j];
    }
    if AnyOverlap(r, obs) && !Overlaps(r, obs[|obs| - 1]) {
      var j :| 0 <= j < |obs| && Overlaps(r, obs[j]);
      assert pre[j] == obs[j];
    }
  }

  /** The last obstacle that `r` overlaps: the one whose snap survives the loop. */
  function LastContact(r: Rect, obs: seq<Rect>): (c: Option<Rect>)
    ensures c.Some? <==> AnyOverlap(r, obs)
    ensures c.Some? ==> c.value in obs && Overlaps(r, c.value)
    // it is the last one met: nothing after it overlaps
    ensures c.Some? ==> exists j :: 0 <= j < |obs| && obs[j] == c.value && forall k :: j < k < |obs| ==> !Overlaps(r, obs[k])
    decreases |obs|
  {
    if obs == [] then None
    else
      AnyOverlapSplit(r, obs);
      if Overlaps(r, obs[|obs| - 1]) then Some(obs[|obs| - 1])
    else LastContact(r, obs[..|obs| - 1])
  }

  /** The X half of the obstacle loop: X stops iff its candidate meets an obstacle. */
  lemma {:induction false} ResolveX(s0: Resolution, body: Rect, candX: Rect, candY: Rect, obs: seq<Rect>)
    requires !s0.hitX
    ensures Resolve(s0, body, candX, candY, obs).hitX == AnyOverlap(candX, obs)
    ensures Resolve(s0, body, candX, candY, obs).vx == if AnyOverlap(candX, obs) then 0.0 else s0.vx
    decreases |obs|
  {
    if obs != [] {
      ResolveX(s0, body, candX, candY, obs[..|obs| - 1]);
      AnyOverlapSplit(candX, obs);
    }
  }

  /** The Y half of the obstacle loop: a Y contact is ground iff the body was
      moving down (the snapped y never changes that verdict), and the last Y
      contact decides where the body ends. */
  lemma {:induction false} ResolveY(s0: Resolution, body: Rect, candX: Rect, candY: Rect, obs: seq<Rect>)
    requires !s0.hitY && candY.height == body.height
    ensures var r := Resolve(s0, body, candX, candY, obs);
      && r.hitY == AnyOverlap(candY, obs)
      && (candY.position.y > r.y <==> candY.position.y > s0.y)
      && (!r.hitY ==> r.y == s0.y && r.vy == s0.vy && r.ctrl == s0.ctrl)
      && (r.hitY ==> r.vy == 0.0)
      && (r.hitY && candY.position.y > s0.y ==>
            r.ctrl == Grounded(s0.ctrl) &&
            r.y == LastContact(candY, obs).value.position.y - body.height - PADDING)
      && (r.hitY && candY.position.y <= s0.y ==>
            r.ctrl == s0.ctrl &&
            r.y == LastContact(candY, obs).value.position.y + LastContact(candY, obs).value.height + PADDING)
    decreases |obs|
  {
    if obs != [] {
      ResolveY(s0, body, candX, candY, obs[..|obs| - 1]);
      AnyOverlapSplit(candY, obs);
    }
  }

  /** A body's hitbox, velocity and controller after its turn. */
  datatype Body = Body(hitbox: Rect, velocity: Position, controller: Option<PlatformController>)

  /** How the body met the world vertically this frame. */
  datatype Contact = Ground | Ceiling | Air

  /** The vertical contact of a body whose Y candidate is `dy` below it. */
  function ContactOf(body: Rect, dy: real, obs: seq<Rect>): Contact
  {
    if !AnyOverlap(MovedY(body, dy), obs) then Air
    else if dy > 0.0 then Ground
    else Ceiling
  }

  /** The controller after a frame with the given contact. */
  function AfterContact(c: PlatformController, k: Contact): PlatformController
  {
    match k
    case Ground => PlatformController(true, 0.0)
    case Ceiling => c
    case Air => PlatformController(false, c.coyoteTime + 1.0)
  }

  /** One body's collision step against the obstacles `obs`, given the
      frame's displacement d = velocity * dt and the speed gravity adds,
      dv = GRAVITY * dt. */
  function Move(body: Rect, vel: Position, ctrl: Option<PlatformController>, obs: seq<Rect>, d: Position, dv: real): Body
  {
    var candX := MovedX(body, d.x);
    var candY := MovedY(body, d.y);
    var s := Resolve(Start(body, vel, ctrl), body, candX, candY, obs);
    var x := if s.hitX then body.position.x else candX.position.x;
    if s.hitY then Body(Rect(body.width, body.height, Position(x, s.y)), Position(s.vx, s.vy), s.ctrl)
    // without a Y contact velocity.y is untouched, so y + velocity.y * dt is s.y + d.y
    else Body(Rect(body.width, body.height, Position(x, s.y + d.y)), Position(s.vx, s.vy + dv), Airborne(s.ctrl))
  }

  function BodyStep(body: Rect, vel: Position, ctrl: Option<PlatformController>, obs: seq<Rect>, dt: real): Body
  {
    Move(body, vel, ctrl, obs, MulScalar(vel, dt), GRAVITY * dt)
  }

  /** X axis: blocked iff the X candidate meets another hitbox; the body's
      own size never changes. */
  lemma MoveX(body: Rect, vel: Position, ctrl: Option<PlatformController>, obs: seq<Rect>, d: Position, dv: real)
    ensures var r := Move(body, vel, ctrl, obs, d, dv);
      && r.hitbox.width == body.width && r.hitbox.height == body.height
      && (AnyOverlap(MovedX(body, d.x), obs) ==>
            r.hitbox.position.x == body.position.x && r.velocity.x == 0.0)
      && (!AnyOverlap(MovedX(body, d.x), obs) ==>
            r.hitbox.position.x == body.position.x + d.x && r.velocity.x == vel.x)
  {
    ResolveX(Start(body, vel, ctrl), body, MovedX(body, d.x), MovedY(body, d.y), obs);
  }

  /** Y axis: free fall, landing or ceiling, and what each does to the controller. */
  lemma MoveY(body: Rect, vel: Position, ctrl: Option<PlatformController>, obs: seq<Rect>, d: Position, dv: real)
    ensures var r := Move(body, vel, ctrl, obs, d, dv);
      var last := LastContact(MovedY(body, d.y), obs);
      && (ContactOf(body, d.y, obs) == Air ==>
            r.hitbox.position.y == body.position.y + d.y && r.velocity.y == vel.y + dv)
      // landing puts the bottom PADDING above the top of the last obstacle met
      && (ContactOf(body, d.y, obs) == Ground ==>
            r.velocity.y == 0.0 && r.hitbox.position.y + body.height + PADDING == last.value.position.y)
      // a ceiling puts the top PADDING below the bottom of the last obstacle met
      && (ContactOf(body, d.y, obs) == Ceiling ==>
            r.velocity.y == 0.0 && r.hitbox.position.y == last.value.position.y + last.value.height + PADDING)
      && r.controller == if ctrl.Some? then Some(AfterContact(ctrl.value, ContactOf(body, d.y, obs))) else None
  {
    ResolveY(Start(body, vel, ctrl), body, MovedX(body, d.x), MovedY(body, d.y), obs);
  }

  /** The body of CollisionHandling's join loop for one body, given its
      displacement d = velocity * dt and dv = GRAVITY * dt. */
  method StepBody(body: Rect, vel: Position, ctrl: Option<PlatformController>, obs: seq<Rect>, d: Position, dv: real)
    returns (r: Body)
    ensures r == Move(body, vel, ctrl, obs, d, dv)
  {
    var candX := MovedX(body, d.x);
    var candY := MovedY(body, d.y);
    var y, vx, vy, c := body.position.y, vel.x, vel.y, ctrl;
    var hitX, hitY := false, false;
    for i := 0 to |obs|
      invariant Resolution(y, vx, vy, c, hitX, hitY) == Resolve(Start(body, vel, ctrl), body, candX, candY, obs[..i])
    {
      assert obs[..i + 1][..i] == obs[..i];
      var h := obs[i];
      if Overlaps(candX, h) {
        hitX := true;
        vx := 0.0;
      }
      if Overlaps(candY, h) {
        hitY := true;
        vy := 0.0;
        if candY.position.y > y {
          y := h.position.y - body.height - PADDING;
          c := Grounded(c);
        } else {
          y := h.position.y + h.height + PADDING;
        }
      }
    }
    assert obs[..|obs|] == obs;
    var x := if hitX then body.position.x else candX.position.x;
    if !hitY {
      c := Airborne(c);
      // vy is still vel.y here, so this adds vy * dt
      y := y + d.y;
      vy := vy + dv;
    }
    r := Body(Rect(body.width, body.height, Position(x, y)), Position(vx, vy), c);
  }

  /** The ids of the entities below n other than `self` that have a hitbox, ascending. */
  function ObstacleIds(ents: map<Entity, Bundle>, self: Entity, n: nat): (ids: seq<Entity>)
    ensures forall i, j :: 0 <= i < j < |ids| ==> ids[i] < ids[j]
    ensures forall i :: 0 <= i < |ids| ==> ids[i] < n && ids[i] != self && ids[i] in ents && ents[ids[i]].hitbox.Some?
    ensures forall e :: e < n && e != self && e in ents && ents[e].hitbox.Some? ==> e in ids
  {
    if n == 0 then []
    else
      var e := n - 1;
      ObstacleIds(ents, self, e) + (if e != self && e in ents && ents[e].hitbox.Some? then [e] else [])
  }

  /** `hbs`: the hitboxes of every entity below n other than `self`, in id order. */
  function Obstacles(ents: map<Entity, Bundle>, self: Entity, n: nat): (obs: seq<Rect>)
    ensures forall e :: e < n && e != self && e in ents && ents[e].hitbox.Some? ==> ents[e].hitbox.value in obs
    ensures forall h :: h in obs ==> exists e :: e < n && e != self && e in ents && ents[e].hitbox == Some(h)
  {
    if n == 0 then []
    else
      var e := n - 1;
      Obstacles(ents, self, e) + (if e != self && e in ents && ents[e].hitbox.Some? then [ents[e].hitbox.value] else [])
  }

  /** The obstacles come in id order: the i-th is the hitbox of the i-th qualifying id. */
  lemma {:induction false} ObstaclesInIdOrder(ents: map<Entity, Bundle>, self: Entity, n: nat)
    ensures var ids := ObstacleIds(ents, self, n); var obs := Obstacles(ents, self, n);
      |obs| == |ids| && forall i :: 0 <= i < |obs| ==> obs[i] == ents[ids[i]].hitbox.value
  {
    if n > 0 {
      ObstaclesInIdOrder(ents, self, n - 1);
    }
  }

  /** Only a body's hitbox, Moveable and controller change, and none appears or disappears. */
  predicate BodyChangeOnly(after: Bundle, before: Bundle)
  {
    && after.(hitbox := before.hitbox, moveable := before.moveable, controller := before.controller) == before
    && after.hitbox.Some? == before.hitbox.Some?
    && after.moveable.Some? == before.moveable.Some?
    && after.controller.Some? == before.controller.Some?
  }

  /** The loop body of CollisionHandling for entity `e`. */
  function CollideEntity(ents: map<Entity, Bundle>, e: Entity, n: nat, dt: real): (r: map<Entity, Bundle>)
    ensures r.Keys == ents.Keys
    ensures forall e' :: e' in r ==> BodyChangeOnly(r[e'], ents[e'])
    ensures forall e' :: e' in r && (e' != e || ents[e'].moveable.None?) ==> r[e'] == ents[e']
  {
    if e in ents && ents[e].moveable.Some? && ents[e].hitbox.Some? then
      var b := ents[e];
      var obs := Obstacles(ents, e, n);
      var r := BodyStep(b.hitbox.value, b.moveable.value.velocity, b.controller, obs, dt);
      MoveY(b.hitbox.value, b.moveable.value.velocity, b.controller, obs, MulScalar(b.moveable.value.velocity, dt), GRAVITY * dt);
      ents[e := b.(hitbox := Some(r.hitbox), moveable := Some(Moveable(r.velocity)), controller := r.controller)]
    else ents
  }

  /** One turn of CollisionHandling's join: entity `e`, if it is a body,
      moves against every other hitbox. */
  method CollideOne(ents: map<Entity, Bundle>, e: Entity, n: nat, dt: real) returns (r: map<Entity, Bundle>)
    ensures r == CollideEntity(ents, e, n, dt)
  {
    r := ents;
    if e in ents && ents[e].moveable.Some? && ents[e].hitbox.Some? {
      var b := ents[e];
      var hbs := Obstacles(ents, e, n);
      var vel := b.moveable.value.velocity;
      var m := StepBody(b.hitbox.value, vel, b.controller, hbs, MulScalar(vel, dt), GRAVITY * dt);
      r := ents[e := b.(hitbox := Some(m.hitbox), moveable := Some(Moveable(m.velocity)), controller := m.controller)];
    }
  }

  /** CollisionHandling over the entities below k, in id order; each body sees
      the hitboxes as the bodies before it left them. */
  function CollideUpTo(ents: map<Entity, Bundle>, k: nat, n: nat, dt: real): (r: map<Entity, Bundle>)
    ensures r.Keys == ents.Keys
    ensures forall e :: e in r ==> BodyChangeOnly(r[e], ents[e])
    ensures forall e :: e in r && (e >= k || ents[e].moveable.None?) ==> r[e] == ents[e]
  {
    if k == 0 then ents else CollideEntity(CollideUpTo(ents, k - 1, n, dt), k - 1, n, dt)
  }

  /** "Moveable component needs hitbox": the game aborts otherwise. */
  ghost predicate BodiesHaveHitboxes(ents: map<Entity, Bundle>)
  {
    forall e :: e in ents && ents[e].moveable.Some? ==> ents[e].hitbox.Some?
  }

  /** CollisionHandling::run. */
  method CollisionHandling(w: World, dt: real)
    requires w.Valid() && BodiesHaveHitboxes(w.ents)
    modifies w
    ensures w.Valid() && BodiesHaveHitboxes(w.ents)
    ensures w.ents == if old(w.editing) then old(w.ents) else CollideUpTo(old(w.ents), old(w.nextId), old(w.nextId), dt)
    ensures w.nextId == old(w.nextId) && w.nextMarker == old(w.nextMarker)
    ensures w.editing == old(w.editing) && w.shouldSave == old(w.shouldSave)
  {
    if w.editing {
      return;
    }
    ghost var ents0 := w.ents;
    for e := 0 to w.nextId
      invariant w.ents == CollideUpTo(ents0, e, w.nextId, dt)
      invariant w.nextId == old(w.nextId) && w.nextMarker == old(w.nextMarker)
      invariant w.editing == old(w.editing) && w.shouldSave == old(w.shouldSave)
    {
      w.ents := CollideOne(w.ents, e, w.nextId, dt);
    }
    SameMarkersKeepValid(old(w.View()), w.ents);
  }

  /** A body moving right at 100 units per second for a tenth of a second,
      against a tile that touches its right side: it stops on X and falls
      freely on Y, since a shared edge is not an overlap. */
  lemma WallStopsOnlyHorizontalMotion()
    ensures var r := BodyStep(Tile(0.0, 0.0), Position(100.0, 0.0), None, [Tile(32.0, 0.0)], 0.1);
      && r.hitbox.position == Position(0.0, 0.0)
      && r.velocity == Position(0.0, GRAVITY * 0.1)
  {
    var obs := [Tile(32.0, 0.0)];
    assert Overlaps(MovedX(Tile(0.0, 0.0), 100.0 * 0.1), obs[0]);
    assert !AnyOverlap(MovedY(Tile(0.0, 0.0), 0.0 * 0.1), obs);
  }

  /** One frame of a controller: input, then its collision contact. */
  function Frame(c: PlatformController, k: Keys, contact: Contact): PlatformController
  {
    AfterContact(Steer(c, MoveableNew, k).0, contact)
  }

  function Frames(c: PlatformController, frames: seq<(Keys, Contact)>): PlatformController
    decreases |frames|
  {
    if frames == [] then c else Frame(Frames(c, frames[..|frames| - 1]), frames[|frames| - 1].0, frames[|frames| - 1].1)
  }

  /** After a jump, however the keys are held, no jump fires again until a
      frame with ground contact; the frame after a landing may jump again. */
  lemma {:induction false} NoSecondJumpBeforeLanding(frames: seq<(Keys, Contact)>)
    requires forall i :: 0 <= i < |frames| ==> frames[i].1 != Ground
    ensures !MayJump(Frames(Spent, frames))
    ensures forall k :: Steer(Frames(Spent, frames), MoveableNew, k).0 == Frames(Spent, frames)
    decreases |frames|
  {
    if frames != [] {
      NoSecondJumpBeforeLanding(frames[..|frames| - 1]);
    }
  }

  lemma LandingRestoresJump(c: PlatformController, k: Keys)
    ensures MayJump(Frame(c, k, Ground))
  {
  }
}
