/** The component value types of the platformer, with the vector arithmetic
    that Position supports.  Coordinates are f32 in the game; here they are
    exact reals, so rounding error is not modelled. */
module Components {

  /** A point, or a 2D vector, in world coordinates. */
  datatype Position = Position(x: real, y: real)

  /** Position::default(). */
  const Origin := Position(0.0, 0.0)

  // Operators taking another Position work componentwise.

  function Add(a: Position, b: Position): Position { Position(a.x + b.x, a.y + b.y) }

  function Sub(a: Position, b: Position): Position { Position(a.x - b.x, a.y - b.y) }

  function Mul(a: Position, b: Position): Position { Position(a.x * b.x, a.y * b.y) }

  /** f32 division by zero yields an infinity or NaN; the model has no such values. */
  function Div(a: Position, b: Position): Position
    requires b.x != 0.0 && b.y != 0.0
  {
    Position(a.x / b.x, a.y / b.y)
  }

  // Operators taking a scalar apply the same scalar to both coordinates.

  function AddScalar(a: Position, v: real): Position { Position(a.x + v, a.y + v) }

  function SubScalar(a: Position, v: real): Position { Position(a.x - v, a.y - v) }

  function MulScalar(a: Position, v: real): Position { Position(a.x * v, a.y * v) }

  function DivScalar(a: Position, v: real): Position
    requires v != 0.0
  {
    Position(a.x / v, a.y / v)
  }

  function Neg(a: Position): Position { Position(-a.x, -a.y) }

  /** raylib's Vector2, the type Position converts to and from. */
  datatype Vector2 = Vector2(x: real, y: real)

  function FromVector2(v: Vector2): Position { Position(v.x, v.y) }

  function IntoVector2(p: Position): Vector2 { Vector2(p.x, p.y) }

  /** The same value on both axes, as a vector. */
  function Splat(v: real): Position { Position(v, v) }

  lemma AddThenSubCancels(a: Position, b: Position)
    ensures Sub(Add(a, b), b) == a
    ensures Add(Sub(a, b), b) == a
  {
  }

  /** The offset algebra of dragging: the offset from p to p + d is d, and
      p plus the offset from p to q is q. */
  lemma OffsetRoundTrip(p: Position, d: Position, q: Position)
    ensures Sub(Add(p, d), p) == d
    ensures Add(p, Sub(q, p)) == q
    ensures Sub(q, Sub(q, p)) == p
  {
  }

  lemma MulThenDivCancels(a: Position, b: Position)
    requires b.x != 0.0 && b.y != 0.0
    ensures Div(Mul(a, b), b) == a
    ensures Mul(Div(a, b), b) == a
  {
  }

  /** Each scalar operator is its vector operator applied to the splatted scalar. */
  lemma ScalarIsSplat(a: Position, v: real)
    ensures AddScalar(a, v) == Add(a, Splat(v))
    ensures SubScalar(a, v) == Sub(a, Splat(v))
    ensures MulScalar(a, v) == Mul(a, Splat(v))
    ensures v != 0.0 ==> DivScalar(a, v) == Div(a, Splat(v))
  {
  }

  lemma NegIsSubFromOrigin(a: Position)
    ensures Neg(a) == Sub(Origin, a)
    ensures Neg(Neg(a)) == a
    ensures Add(a, Neg(a)) == Origin
  {
  }

  lemma VectorRoundTrip(p: Position, v: Vector2)
    ensures FromVector2(IntoVector2(p)) == p
    ensures IntoVector2(FromVector2(v)) == v
  {
  }

  /** Width, height and top-left corner: the shape shared by Hitbox,
      Triggerbox, Transform and the palette buttons' bounds. */
  datatype Rect = Rect(width: real, height: real, position: Position)

  /** The side of one grid tile. */
  const TILE: real := 32.0

  /** Hitbox::new(x, y): one tile with its corner at (x, y). */
  function Tile(x: real, y: real): Rect { Rect(TILE, TILE, Position(x, y)) }

  /** raylib's check_collision_recs: strict comparisons, so rectangles that
      only share an edge do not overlap. */
  predicate Overlaps(a: Rect, b: Rect)
  {
    && a.position.x < b.position.x + b.width
    && a.position.x + a.width > b.position.x
    && a.position.y < b.position.y + b.height
    && a.position.y + a.height > b.position.y
  }

  /** point_inside_rec: the point lies strictly inside the rectangle. */
  predicate Contains(r: Rect, p: Position)
  {
    r.position.x < p.x < r.position.x + r.width && r.position.y < p.y < r.position.y + r.height
  }

  lemma OverlapsIsSymmetric(a: Rect, b: Rect)
    ensures Overlaps(a, b) <==> Overlaps(b, a)
  {
  }

  /** A body.  Moveable::new() is not part of this model; it is assumed to
      leave the body at rest.  The width and height the component also
      carries are never read by the systems. */
  datatype Moveable = Moveable(velocity: Position)

  const MoveableNew := Moveable(Origin)

  datatype PlatformController = PlatformController(canJump: bool, coyoteTime: real)

  /** The falling-block countdown; count is a u32 in the game. */
  datatype FallingBlock = FallingBlock(count: nat, shouldFall: bool)

  /** FallingBlock::default(), assumed to be the derived default: count 0, not falling. */
  const FallingBlockDefault := FallingBlock.FallingBlock(0, false)

  datatype DragBox = DragBox(dragging: bool, dragOffset: Position)

  /** DragBox::default(), assumed to be the derived default: not dragging, no offset. */
  const DragBoxDefault := DragBox(false, Origin)

  /** The asset key, also used as the type of a placed level object. */
  datatype Sprite = Sprite(name: string)

  datatype ToolPalette = Block | FallingBlock | SpikeBlock

  /** ty.as_static().to_lowercase(): the sprite name of a tool's objects,
      assuming as_static() gives the variant's name. */
  function ToolName(t: ToolPalette): (name: string)
    // a non-empty lower-case word, as to_lowercase() leaves it
    ensures name != [] && forall i :: 0 <= i < |name| ==> 'a' <= name[i] <= 'z'
  {
    match t
    case Block => "block"
    case FallingBlock => "fallingblock"
    case SpikeBlock => "spikeblock"
  }

  lemma ToolNamesAreDistinct(s: ToolPalette, t: ToolPalette)
    ensures ToolName(s) == ToolName(t) <==> s == t
  {
  }

  /** A palette button: where it is, its label and the tool it selects. */
  datatype EditBtn = EditBtn(bounds: Rect, text: string, tool: ToolPalette)

  /** The raylib icon an Icon shows; only two of them have an action. */
  datatype IconKind = EmptyBox | FileSaveClassic | OtherIcon(id: nat)

  datatype Icon = Icon(kind: IconKind, position: Position)
}
