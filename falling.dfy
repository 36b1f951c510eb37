/** FallingBlockHandling: a falling block waits until a controlled body
    touches its trigger, counts frames, and then becomes a body itself by
    receiving a Moveable, which also ends its countdown. */
module Falling {
  import opened Components
  import opened Ecs

  const MAX_FALL_COUNT: nat := 80

  /** Entity `p` is a controlled body whose hitbox meets `trigger`. */
  predicate PlayerTouches(ents: map<Entity, Bundle>, p: Entity, trigger: Rect)
  {
    && p in ents && ents[p].controller.Some? && ents[p].hitbox.Some?
    && Overlaps(ents[p].hitbox.value, trigger)
  }

  /** Some controlled body touches `trigger`. */
  ghost predicate Touched(ents: map<Entity, Bundle>, trigger: Rect)
  {
    exists p :: PlayerTouches(ents, p, trigger)
  }

  /** One block's turn, given whether a controlled body touches its trigger. */
  function FallStep(b: Bundle, touched: bool): (r: Bundle)
    // only the countdown and the Moveable can change
    ensures r.(fallingBlock := b.fallingBlock, moveable := b.moveable) == b
    ensures r.fallingBlock.Some? == b.fallingBlock.Some?
    // blocks without a trigger or countdown, and blocks already falling, are left alone
    ensures b.trigger.None? || b.fallingBlock.None? || b.moveable.Some? ==> r == b
    ensures b.fallingBlock.Some? ==>
      var (fb, fb') := (b.fallingBlock.value, r.fallingBlock.value);
      // should_fall is never reset, and is only set by a touch
      && (fb.shouldFall ==> fb'.shouldFall)
      && (fb'.shouldFall && !fb.shouldFall ==> touched)
      // the count moves only after the trigger fired, one frame at a time, and stops past 80
      && (fb'.count != fb.count ==> fb.shouldFall && fb.count <= MAX_FALL_COUNT && fb'.count == fb.count + 1)
      && (fb.count <= MAX_FALL_COUNT + 1 ==> fb'.count <= MAX_FALL_COUNT + 1)
    // a Moveable is only ever attached once the count is past 80
    ensures r.moveable != b.moveable ==>
      && b.moveable.None? && r.moveable == Some(MoveableNew)
      && b.fallingBlock.value.shouldFall && b.fallingBlock.value.count > MAX_FALL_COUNT
  {
    if b.trigger.Some? && b.fallingBlock.Some? && b.moveable.None? then
      var fb := b.fallingBlock.value;
      if !fb.shouldFall then
        (if touched then b.(fallingBlock := Some(fb.(shouldFall := true))) else b)
      else if fb.count <= MAX_FALL_COUNT then b.(fallingBlock := Some(fb.(count := fb.count + 1)))
      else b.(moveable := Some(MoveableNew))
    else b
  }

  /** The inner join: does any controlled body touch `trigger`? */
  method TriggerTouched(ents: map<Entity, Bundle>, trigger: Rect, n: nat) returns (hit: bool)
    requires forall e :: e in ents ==> e < n
    ensures hit == Touched(ents, trigger)
  {
    hit := false;
    for p := 0 to n
      invariant hit <==> exists q: Entity :: q < p && PlayerTouches(ents, q, trigger)
    {
      if p in ents && ents[p].controller.Some? && ents[p].hitbox.Some? {
        if Overlaps(ents[p].hitbox.value, trigger) {
          assert PlayerTouches(ents, p, trigger);
          hit := true;
        }
      }
    }
  }

  /** Entity e's turn, the touch test reading the world as it was. */
  ghost function FallEntity(ents: map<Entity, Bundle>, e: Entity): Bundle
    requires e in ents
  {
    var b := ents[e];
    FallStep(b, b.trigger.Some? && Touched(ents, b.trigger.value))
  }

  /** One turn of the outer join, on entity `e`.  Falling blocks change
      neither hitboxes nor controllers, so the touch test may read the
      bodies as the frame began, `bodies`. */
  method FallOne(ents: map<Entity, Bundle>, e: Entity, n: nat, bodies: map<Entity, Bundle>)
    returns (r: map<Entity, Bundle>)
    requires forall x :: x in bodies ==> x < n
    requires e in ents ==> e in bodies && ents[e] == bodies[e]
    ensures r == if e in ents then ents[e := FallEntity(bodies, e)] else ents
  {
    r := ents;
    if e in ents && ents[e].trigger.Some? && ents[e].fallingBlock.Some? {
      var b := ents[e];
      if b.moveable.None? {
        var fb := b.fallingBlock.value;
        if !fb.shouldFall {
          var touched := TriggerTouched(bodies, b.trigger.value, n);
          if touched {
            r := ents[e := b.(fallingBlock := Some(fb.(shouldFall := true)))];
          }
        } else if fb.count <= MAX_FALL_COUNT {
          r := ents[e := b.(fallingBlock := Some(fb.(count := fb.count + 1)))];
        } else {
          r := ents[e := b.(moveable := Some(MoveableNew))];
        }
      }
    }
  }

  /** The entities after the outer join's first k turns. */
  ghost function FallUpTo(ents: map<Entity, Bundle>, k: nat): (r: map<Entity, Bundle>)
    ensures r.Keys == ents.Keys
    ensures forall x :: x in r ==> r[x] == if x < k then FallEntity(ents, x) else ents[x]
  {
    if k == 0 then ents
    else
      var r := FallUpTo(ents, k - 1);
      if k - 1 in r then r[k - 1 := FallEntity(ents, k - 1)] else r
  }

  /** The outer join over the entities below id n. */
  method FallAll(ents: map<Entity, Bundle>, n: nat) returns (r: map<Entity, Bundle>)
    requires forall x :: x in ents ==> x < n
    ensures r == map e | e in ents :: FallEntity(ents, e)
    // markers are untouched
    ensures r.Keys == ents.Keys && forall e :: e in r ==> r[e].marker == ents[e].marker
  {
    r := ents;
    for e := 0 to n
      invariant r == FallUpTo(ents, e)
    {
      r := FallOne(r, e, n, ents);
    }
  }

  /** FallingBlockHandling::run. */
  method FallingBlockHandling(w: World)
    requires w.Valid()
    modifies w
    ensures w.Valid()
    ensures w.ents == if old(w.editing) then old(w.ents) else map e | e in old(w.ents) :: FallEntity(old(w.ents), e)
    ensures w.nextId == old(w.nextId) && w.nextMarker == old(w.nextMarker)
    ensures w.editing == old(w.editing) && w.shouldSave == old(w.shouldSave)
  {
    if w.editing {
      return;
    }
    // the join writes two storages in place; here they are collected and written back
    var ents := FallAll(w.ents, w.nextId);
    SameMarkersKeepValid(w.View(), ents);
    w.ents := ents;
  }

  /** A block's turns over several frames; `touches[i]` says whether a body
      touched its trigger in frame i. */
  function FallSteps(b: Bundle, touches: seq<bool>): Bundle
    decreases |touches|
  {
    if touches == [] then b else FallStep(FallSteps(b, touches[..|touches| - 1]), touches[|touches| - 1])
  }

  /** Once triggered, a resting block counts one per frame whatever touches
      it, stays put for 81 frames, and receives its Moveable on frame 82. */
  lemma {:induction false} TriggeredBlockCountsDown(b: Bundle, touches: seq<bool>)
    requires b.trigger.Some? && b.moveable.None? && b.fallingBlock == Some(FallingBlock.FallingBlock(0, true))
    ensures |touches| <= MAX_FALL_COUNT + 1 ==>
      FallSteps(b, touches) == b.(fallingBlock := Some(FallingBlock.FallingBlock(|touches|, true)))
    ensures |touches| > MAX_FALL_COUNT + 1 ==>
      FallSteps(b, touches) ==
        b.(fallingBlock := Some(FallingBlock.FallingBlock(MAX_FALL_COUNT + 1, true)), moveable := Some(MoveableNew))
    decreases |touches|
  {
    if touches != [] {
      TriggeredBlockCountsDown(b, touches[..|touches| - 1]);
    }
  }

  /** An untouched block never moves: its trigger has to be met first. */
  lemma {:induction false} UntouchedBlockStaysPut(b: Bundle, touches: seq<bool>)
    requires b.moveable.None? && b.fallingBlock.Some? && !b.fallingBlock.value.shouldFall
    requires forall i :: 0 <= i < |touches| ==> !touches[i]
    ensures FallSteps(b, touches) == b
    decreases |touches|
  {
    if touches != [] {
      UntouchedBlockStaysPut(b, touches[..|touches| - 1]);
    }
  }
}
