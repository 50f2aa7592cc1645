/** The physical state of one simulated entity as PhysicsSystem reads and
    writes it, and the semi-implicit Euler sub-step that `updatePhysics`
    applies to each entity. */
module PhysicsBody {
  import opened Common

  /** `collisionShape`: the narrowphase knows 'circle' and 'rectangle'; any
      other string selects no test at all. */
  datatype Shape = Circle | Rectangle | OtherShape(name: string)

  /** An axis-aligned box by its four edges (y grows downward). */
  datatype Box = Box(left: real, right: real, top: real, bottom: real)

  /** One entity. `width`/`height` are its `boundingBox` (from its costume);
      `extent` holds the separate `left`/`right`/`top`/`bottom` fields that
      the rectangle tests read, and `radius` the field the circle tests read.
      `gravityScale` is the entity's `gravity` field. */
  datatype Body = Body(
    id: string,
    x: real, y: real,
    vx: real, vy: real,
    ax: real, ay: real,
    gravityScale: real, drag: real, bounce: real, mass: real,
    solid: bool, sleeping: bool,
    width: real, height: real,
    shape: Shape, radius: real, extent: Box,
    groups: seq<string>)

  /** `getBoundingBox`: the box centred on (x, y) with half-extents
      width/2 and height/2. */
  function BoundingBox(b: Body): (box: Box)
    ensures box.right - box.left == b.width && box.bottom - box.top == b.height
    ensures (box.left + box.right) / 2.0 == b.x && (box.top + box.bottom) / 2.0 == b.y
  {
    Box(b.x - b.width / 2.0, b.x + b.width / 2.0, b.y - b.height / 2.0, b.y + b.height / 2.0)
  }

  /** Everything but position, velocity and acceleration agrees. */
  predicate SameExceptMotion(a: Body, b: Body)
  {
    b == a.(x := b.x, y := b.y, vx := b.vx, vy := b.vy, ax := b.ax, ay := b.ay)
  }

  /** The velocity after gravity, acceleration and drag of one sub-step of
      length h, on one axis: gravity only when the scale is non-zero, drag
      only when it is non-zero. */
  function NewVelocity(v: real, g: real, scale: real, a: real, drag: real, h: real): real
  {
    var v1 := if scale != 0.0 then v + g * scale * h else v;
    var v2 := v1 + a * h;
    if drag != 0.0 then v2 * (1.0 - drag * h) else v2
  }

  /** One semi-implicit Euler sub-step of an entity that is integrated:
      velocity first, then position from the NEW velocity, then the
      acceleration is consumed. */
  function Substep(b: Body, gx: real, gy: real, h: real): (r: Body)
    ensures SameExceptMotion(b, r)
    ensures r.ax == 0.0 && r.ay == 0.0
    ensures r.x == b.x + r.vx * h && r.y == b.y + r.vy * h
  {
    var vx := NewVelocity(b.vx, gx, b.gravityScale, b.ax, b.drag, h);
    var vy := NewVelocity(b.vy, gy, b.gravityScale, b.ay, b.drag, h);
    b.(vx := vx, vy := vy, x := b.x + vx * h, y := b.y + vy * h, ax := 0.0, ay := 0.0)
  }

  /** Whether `updatePhysics` skips an entity. */
  predicate Skipped(b: Body, enableSleeping: bool)
  {
    !b.solid || (enableSleeping && b.sleeping)
  }

  /** What `updatePhysics` does to one entity. */
  function IntegrateEntity(b: Body, gx: real, gy: real, h: real, enableSleeping: bool): (r: Body)
    ensures Skipped(b, enableSleeping) ==> r == b
    ensures !Skipped(b, enableSleeping) ==> r == Substep(b, gx, gy, h)
  {
    if Skipped(b, enableSleeping) then b else Substep(b, gx, gy, h)
  }

  /** An entity at rest with nothing acting on it stays where it is. */
  lemma RestingBodyStays(b: Body, gx: real, gy: real, h: real, enableSleeping: bool)
    requires b.vx == 0.0 && b.vy == 0.0 && b.ax == 0.0 && b.ay == 0.0 && b.gravityScale == 0.0
    ensures IntegrateEntity(b, gx, gy, h, enableSleeping).x == b.x
    ensures IntegrateEntity(b, gx, gy, h, enableSleeping).y == b.y
    ensures IntegrateEntity(b, gx, gy, h, enableSleeping).vx == 0.0
    ensures IntegrateEntity(b, gx, gy, h, enableSleeping).vy == 0.0
  {
    if !Skipped(b, enableSleeping) {
      var r := Substep(b, gx, gy, h);
      assert NewVelocity(0.0, gx, 0.0, 0.0, b.drag, h) == 0.0;
      assert r.vx == 0.0 && r.vy == 0.0;
    }
  }

  /** The acceleration present at a sub-step acts exactly like a one-off
      velocity kick a*h with no acceleration: a force added before `update`
      changes the first sub-step only, because that sub-step consumes it. */
  lemma ForceIsOneKick(b: Body, gx: real, gy: real, h: real)
    ensures Substep(b, gx, gy, h)
         == Substep(b.(vx := b.vx + b.ax * h, vy := b.vy + b.ay * h, ax := 0.0, ay := 0.0), gx, gy, h)
  {
    var k := b.(vx := b.vx + b.ax * h, vy := b.vy + b.ay * h, ax := 0.0, ay := 0.0);
    KickCommutes(b.vx, gx, b.gravityScale, b.ax, b.drag, h);
    KickCommutes(b.vy, gy, b.gravityScale, b.ay, b.drag, h);
    var r1, r2 := Substep(b, gx, gy, h), Substep(k, gx, gy, h);
    assert r1.vx == r2.vx && r1.vy == r2.vy;
    assert r1.x == r2.x && r1.y == r2.y;
  }

  /** Adding a*h to the velocity before gravity is the same as after it. */
  lemma KickCommutes(v: real, g: real, scale: real, a: real, drag: real, h: real)
    ensures NewVelocity(v, g, scale, a, drag, h) == NewVelocity(v + a * h, g, scale, 0.0, drag, h)
  {
    MulZero(0.0, h);
    var gsh, ah := g * scale * h, a * h;
    var v2 := if scale != 0.0 then v + gsh + ah else v + ah;
    assert NewVelocity(v, g, scale, a, drag, h) == if drag != 0.0 then v2 * (1.0 - drag * h) else v2;
    assert NewVelocity(v + ah, g, scale, 0.0, drag, h) == if drag != 0.0 then v2 * (1.0 - drag * h) else v2;
  }

  /** The velocity of a sub-step is linear in the old velocity and the
      acceleration: the order gravity-then-acceleration-then-drag gives
      (v + g*s*h + a*h) * (1 - drag*h). */
  lemma NewVelocityClosedForm(v: real, g: real, scale: real, a: real, drag: real, h: real)
    ensures NewVelocity(v, g, scale, a, drag, h) == (v + g * scale * h + a * h) * (1.0 - drag * h)
  {
  }
}
