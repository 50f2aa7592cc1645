/** A Sprite: its costumes (a `Map` from name to image, in insertion order)
    and the current one, its frame animations, its own simple physics, its
    bounding box and bounce response, and its event listeners. */
module Sprites {
  import opened Common
  import opened PhysicsBody
  import opened OrderedSets

  /** What the model keeps of a costume image: its natural size. */
  datatype Image = Image(width: real, height: real)

  /** The `boundingBox` record `{ width, height }`. */
  datatype Size = Size(width: real, height: real)

  /** A registered animation. `frameTime` is `1000 / frameRate`; a zero
      frame rate gives Infinity, modelled as None (the timer never reaches
      it). */
  datatype Animation = Animation(frames: seq<string>, frameRate: real, frameTime: Option<real>)

  /** The playing animation together with the `loop` flag that
      `playAnimation` sets on it. */
  datatype Playing = Playing(anim: Animation, loop: bool)

  /** The three fields `currentAnimation`, `animationFrame` and
      `animationTimer`, as one value. */
  datatype AnimState = AnimState(current: Option<Playing>, frame: nat, timer: real)

  /** The constructor's `options`; None is an absent property. */
  datatype Options = Options(
    id: Option<string>, name: Option<string>,
    x: Option<real>, y: Option<real>, rotation: Option<real>,
    scaleX: Option<real>, scaleY: Option<real>, visible: Option<bool>,
    drag: Option<real>, bounce: Option<real>, gravity: Option<real>, solid: Option<bool>,
    collisionShape: Option<string>, collisionGroups: Option<seq<string>>)

  /** The two listeners `setupEventHandlers` registers. */
  const TickHandler := Callback(0)
  const CollideHandler := Callback(1)

  /** `options.p || d` on a number: an absent or zero value gives the
      default. */
  function NumberOr(o: Option<real>, d: real): (r: real)
    ensures (o.Some? && o.value != 0.0) ==> r == o.value
    ensures (o.None? || o.value == 0.0) ==> r == d
  {
    if o.Some? && o.value != 0.0 then o.value else d
  }

  /** `options.p || d` on a string: an absent or empty string gives the
      default. */
  function StringOr(o: Option<string>, d: string): (r: string)
    ensures (o.Some? && o.value != "") ==> r == o.value
    ensures (o.None? || o.value == "") ==> r == d
  {
    if o.Some? && o.value != "" then o.value else d
  }

  /** `options.p !== undefined ? options.p : d`. */
  function BoolOr(o: Option<bool>, d: bool): bool
  {
    if o.Some? then o.value else d
  }

  /** A scale of 0 passed to the constructor is falsy and becomes 1. */
  lemma ZeroScaleBecomesOne()
    ensures NumberOr(Some(0.0), 1.0) == 1.0
  {
  }

  /** `frameTime = 1000 / frameRate`. */
  function FrameTime(frameRate: real): (r: Option<real>)
    ensures r.Some? <==> frameRate != 0.0
    ensures r.Some? ==> r.value * frameRate == 1000.0
  {
    if frameRate == 0.0 then None else Some(1000.0 / frameRate)
  }

  /** The timer has reached the frame time. */
  predicate Due(timer: real, frameTime: Option<real>)
  {
    frameTime.Some? && timer >= frameTime.value
  }

  /** While an animation is active its frame indexes its frame list (or is
      0 for an empty list); with none active, frame and timer are 0. */
  predicate AnimInvariant(s: AnimState)
  {
    match s.current
    case None => s.frame == 0 && s.timer == 0.0
    case Some(p) => s.frame < |p.anim.frames| || (s.frame == 0 && |p.anim.frames| == 0)
  }

  /** What `updateAnimation` does to the animation fields. */
  function Advance(s: AnimState, dt: real): (r: AnimState)
    ensures AnimInvariant(s) ==> AnimInvariant(r)
  {
    match s.current
    case None => s
    case Some(p) =>
      var t := s.timer + dt;
      if !Due(t, p.anim.frameTime) then s.(timer := t)
      else if s.frame + 1 < |p.anim.frames| then AnimState(s.current, s.frame + 1, 0.0)
      else if p.loop then AnimState(s.current, 0, 0.0)
      else AnimState(None, 0, 0.0)
  }

  /** The frame name `updateAnimation` passes to `switchCostume`, if it
      passes one: only when the frame advanced and the animation is still
      active (an index past an empty list reads `undefined`, which names no
      costume). */
  function Shown(s: AnimState, dt: real): Option<string>
  {
    match s.current
    case None => None
    case Some(p) =>
      var r := Advance(s, dt);
      if Due(s.timer + dt, p.anim.frameTime) && r.current.Some? && r.frame < |p.anim.frames|
      then Some(p.anim.frames[r.frame])
      else None
  }

  /** Before the frame time is reached only the timer moves. */
  lemma AdvanceWaits(s: AnimState, dt: real)
    requires s.current.Some? && !Due(s.timer + dt, s.current.value.anim.frameTime)
    ensures Advance(s, dt) == s.(timer := s.timer + dt)
    ensures Shown(s, dt) == None
  {
  }

  /** When the frame time is reached the timer restarts; past the last
      frame a looping animation wraps to frame 0 and a non-looping one
      stops. */
  lemma AdvanceOnDue(s: AnimState, dt: real)
    requires s.current.Some? && Due(s.timer + dt, s.current.value.anim.frameTime)
    ensures Advance(s, dt).timer == 0.0
    ensures s.frame + 1 < |s.current.value.anim.frames| ==> Advance(s, dt).frame == s.frame + 1
    ensures s.frame + 1 >= |s.current.value.anim.frames| && s.current.value.loop ==>
      Advance(s, dt) == AnimState(s.current, 0, 0.0)
    ensures s.frame + 1 >= |s.current.value.anim.frames| && !s.current.value.loop ==>
      Advance(s, dt) == AnimState(None, 0, 0.0) && Shown(s, dt) == None
  {
  }

  /** k calls of `updateAnimation` with the same time step. */
  function Ticks(s: AnimState, dt: real, k: nat): AnimState
  {
    if k == 0 then s else Advance(Ticks(s, dt, k - 1), dt)
  }

  /** An animation just started (timer 0) whose step is never shorter than
      its frame time. */
  predicate Steady(s: AnimState, dt: real)
  {
    s.current.Some? && s.timer == 0.0 && s.current.value.anim.frameTime.Some?
    && dt >= s.current.value.anim.frameTime.value
  }

  /** A looping animation driven steadily shows frame (f + k) mod n after k
      updates: it cycles through its frames forever. */
  lemma {:induction false} LoopingAnimationCycles(s: AnimState, dt: real, k: nat)
    requires Steady(s, dt) && s.current.value.loop
    requires s.frame < |s.current.value.anim.frames|
    ensures Ticks(s, dt, k) == AnimState(s.current, (s.frame + k) % |s.current.value.anim.frames|, 0.0)
  {
    var n := |s.current.value.anim.frames|;
    if k == 0 {
      ModUnique(s.frame, n, 0, s.frame);
    } else {
      LoopingAnimationCycles(s, dt, k - 1);
      var a: nat := s.frame + k - 1;
      var f := a % n;
      var before := AnimState(s.current, f, 0.0);
      assert Ticks(s, dt, k) == Advance(before, dt);
      assert Due(0.0 + dt, s.current.value.anim.frameTime);
      ModStep(a, n);
      assert a + 1 == s.frame + k;
      if f + 1 < n {
        assert Advance(before, dt) == AnimState(s.current, f + 1, 0.0);
      } else {
        assert Advance(before, dt) == AnimState(s.current, 0, 0.0);
      }
    }
  }

  /** A non-looping animation driven steadily shows each later frame once
      and has stopped after its last one. */
  lemma {:induction false} OneShotAnimationStops(s: AnimState, dt: real)
    requires Steady(s, dt) && !s.current.value.loop
    requires s.frame < |s.current.value.anim.frames|
    ensures Ticks(s, dt, |s.current.value.anim.frames| - s.frame) == AnimState(None, 0, 0.0)
  {
    var n := |s.current.value.anim.frames|;
    OneShotAnimationAdvances(s, dt, n - s.frame - 1);
  }

  lemma {:induction false} OneShotAnimationAdvances(s: AnimState, dt: real, k: nat)
    requires Steady(s, dt) && !s.current.value.loop
    requires s.frame + k < |s.current.value.anim.frames|
    ensures Ticks(s, dt, k) == AnimState(s.current, s.frame + k, 0.0)
  {
    if k > 0 {
      OneShotAnimationAdvances(s, dt, k - 1);
    }
  }

  /** `(rotation + delta) % 360` with JavaScript's truncated remainder:
      below a full turn in magnitude and with the sign of the sum. */
  function Turned(rotation: real, delta: real): (r: real)
    ensures -360.0 < r < 360.0
    ensures rotation + delta >= 0.0 ==> r >= 0.0
    ensures rotation + delta <= 0.0 ==> r <= 0.0
  {
    JsRemBounds(rotation + delta, 360.0);
    JsRem(rotation + delta, 360.0)
  }

  /** A turn that stays within [0, 360) is plain addition. */
  lemma TurnWithinCircle(rotation: real, delta: real)
    requires 0.0 <= rotation + delta < 360.0
    ensures Turned(rotation, delta) == rotation + delta
  {
    JsRemOfSmall(rotation + delta, 360.0);
  }

  /** From a non-negative heading a full turn comes back to the same
      value. */
  lemma FullTurnFromNonNegative(rotation: real)
    requires rotation >= 0.0
    ensures Turned(rotation, 360.0) == Turned(rotation, 0.0)
  {
    var q := rotation / 360.0;
    assert (rotation + 360.0) / 360.0 == q + 1.0;
    assert (q + 1.0).Floor == q.Floor + 1;
  }

  /** The remainder is not normalised: from -90 a full right turn gives 270,
      not -90. */
  lemma FullTurnFromNegativeChangesSign()
    ensures Turned(-90.0, 360.0) == 270.0
    ensures Turned(-90.0, 0.0) == -90.0
  {
    JsRemOfSmall(270.0, 360.0);
    JsRemOfSmall(90.0, 360.0);
  }

  /** `getBoundingBox`: the box centred on (x, y) with half-extents
      width/2 and height/2. */
  function CentredBox(x: real, y: real, size: Size): (b: Box)
    ensures b.right - b.left == size.width && b.bottom - b.top == size.height
    ensures (b.left + b.right) / 2.0 == x && (b.top + b.bottom) / 2.0 == y
  {
    Box(x - size.width / 2.0, x + size.width / 2.0, y - size.height / 2.0, y + size.height / 2.0)
  }

  /** The overlap test of `checkCollision`: no edge strictly apart. */
  predicate BoxesOverlap(a: Box, b: Box)
  {
    !(a.right < b.left || a.left > b.right || a.bottom < b.top || a.top > b.bottom)
  }

  /** `checkCollision` on the two sprites' solidity and boxes. */
  predicate SpritesCollide(solid1: bool, box1: Box, solid2: bool, box2: Box)
  {
    solid1 && solid2 && BoxesOverlap(box1, box2)
  }

  /** The test is symmetric, false when either sprite is not solid, and
      non-strict: boxes that only share an edge collide. */
  lemma SpritesCollideSymmetric(solid1: bool, box1: Box, solid2: bool, box2: Box)
    ensures SpritesCollide(solid1, box1, solid2, box2) == SpritesCollide(solid2, box2, solid1, box1)
    ensures !solid1 || !solid2 ==> !SpritesCollide(solid1, box1, solid2, box2)
  {
  }

  lemma TouchingSpritesCollide(x: real, y: real, size1: Size, size2: Size)
    requires size1.width >= 0.0 && size1.height >= 0.0 && size2.width >= 0.0 && size2.height >= 0.0
    ensures var d := (size1.width + size2.width) / 2.0;
      SpritesCollide(true, CentredBox(x, y, size1), true, CentredBox(x + d, y, size2))
  {
  }

  /** Boxes of two sprites whose centres are further apart than their half
      widths sum do not collide. */
  lemma DistantSpritesDoNotCollide(x1: real, y1: real, size1: Size, x2: real, y2: real, size2: Size)
    requires x2 - x1 > (size1.width + size2.width) / 2.0
    ensures !BoxesOverlap(CentredBox(x1, y1, size1), CentredBox(x2, y2, size2))
  {
  }

  datatype Axis = Horizontal | Vertical

  /** The overlap depths of `handleCollision`. */
  function OverlapX(a: Box, b: Box): real
  {
    Min(a.right - b.left, b.right - a.left)
  }

  function OverlapY(a: Box, b: Box): real
  {
    Min(a.bottom - b.top, b.bottom - a.top)
  }

  /** The axis `handleCollision` reflects: horizontal only when the
      horizontal overlap is strictly smaller. */
  function BounceAxis(a: Box, b: Box): (r: Axis)
    ensures r == Horizontal <==> OverlapX(a, b) < OverlapY(a, b)
  {
    if OverlapX(a, b) < OverlapY(a, b) then Horizontal else Vertical
  }

  /** Both sprites of a pair reflect along the same axis. */
  lemma BounceAxisSymmetric(a: Box, b: Box)
    ensures BounceAxis(a, b) == BounceAxis(b, a)
  {
    assert OverlapX(a, b) == OverlapX(b, a);
    assert OverlapY(a, b) == OverlapY(b, a);
  }

  /** For two overlapping sprites of one size, the overlap depth on an axis
      is the size less the centre offset, so the reflected axis is the one
      along which the centres are relatively further apart. */
  lemma BounceAxisOfEqualSizes(x1: real, y1: real, x2: real, y2: real, size: Size)
    requires Abs(x2 - x1) <= size.width && Abs(y2 - y1) <= size.height
    ensures OverlapX(CentredBox(x1, y1, size), CentredBox(x2, y2, size)) == size.width - Abs(x2 - x1)
    ensures OverlapY(CentredBox(x1, y1, size), CentredBox(x2, y2, size)) == size.height - Abs(y2 - y1)
    ensures BounceAxis(CentredBox(x1, y1, size), CentredBox(x2, y2, size)) == Horizontal
        <==> size.width - Abs(x2 - x1) < size.height - Abs(y2 - y1)
  {
  }

  /** The velocity after `handleCollision`. */
  function Bounced(v: Vec, bounce: real, otherSolid: bool, a: Box, b: Box): (r: Vec)
    ensures bounce == 0.0 || !otherSolid ==> r == v
    ensures bounce != 0.0 && otherSolid && BounceAxis(a, b) == Horizontal ==> r.y == v.y
    ensures bounce != 0.0 && otherSolid && BounceAxis(a, b) == Vertical ==> r.x == v.x
  {
    if bounce != 0.0 && otherSolid then
      if OverlapX(a, b) < OverlapY(a, b) then Vec(v.x * -bounce, v.y) else Vec(v.x, v.y * -bounce)
    else v
  }

  /** The reflected component reverses and is scaled by the bounce factor:
      with bounce 1 the speed is kept. */
  lemma BouncedReflects(v: Vec, bounce: real, a: Box, b: Box)
    requires bounce > 0.0
    ensures var r := Bounced(v, bounce, true, a, b);
      match BounceAxis(a, b)
      case Horizontal => Abs(r.x) == bounce * Abs(v.x) && (v.x > 0.0 ==> r.x < 0.0)
      case Vertical => Abs(r.y) == bounce * Abs(v.y) && (v.y > 0.0 ==> r.y < 0.0)
  {
    var r := Bounced(v, bounce, true, a, b);
    if BounceAxis(a, b) == Horizontal {
      assert r.x == -(bounce * v.x);
      if v.x > 0.0 { MulMonotone(0.0, v.x, bounce); }
    } else {
      assert r.y == -(bounce * v.y);
      if v.y > 0.0 { MulMonotone(0.0, v.y, bounce); }
    }
  }

  /** One axis of `updatePhysics`: gravity (on the y axis only, and only
      when non-zero), then acceleration, then drag when non-zero. */
  function SpriteVelocity(v: real, gravity: real, a: real, drag: real, dt: real): real
  {
    var v1 := if gravity != 0.0 then v + gravity * dt else v;
    var v2 := v1 + a * dt;
    if drag != 0.0 then v2 * (1.0 - drag * dt) else v2
  }

  /** A sprite's own integrator is PhysicsSystem's sub-step under gravity
      (0, 1) scaled by the sprite's `gravity`: the x axis feels no gravity
      whatever its value. */
  lemma SpriteStepIsSubstep(b: Body, dt: real)
    ensures Substep(b, 0.0, 1.0, dt).vx == SpriteVelocity(b.vx, 0.0, b.ax, b.drag, dt)
    ensures Substep(b, 0.0, 1.0, dt).vy == SpriteVelocity(b.vy, b.gravityScale, b.ay, b.drag, dt)
    ensures Substep(b, 0.0, 1.0, dt).x == b.x + SpriteVelocity(b.vx, 0.0, b.ax, b.drag, dt) * dt
    ensures Substep(b, 0.0, 1.0, dt).y == b.y + SpriteVelocity(b.vy, b.gravityScale, b.ay, b.drag, dt) * dt
  {
    MulZero(0.0, b.gravityScale);
    MulZero(0.0 * b.gravityScale, dt);
    assert NewVelocity(b.vx, 0.0, b.gravityScale, b.ax, b.drag, dt) == SpriteVelocity(b.vx, 0.0, b.ax, b.drag, dt);
    assert NewVelocity(b.vy, 1.0, b.gravityScale, b.ay, b.drag, dt) == SpriteVelocity(b.vy, b.gravityScale, b.ay, b.drag, dt);
  }

  /** A sprite at rest with no force, no gravity and any drag stays at
      rest. */
  lemma RestingSpriteStays(drag: real, dt: real)
    ensures SpriteVelocity(0.0, 0.0, 0.0, drag, dt) == 0.0
  {
    MulZero(0.0, dt);
    MulZero(0.0, 1.0 - drag * dt);
  }

  /** The costume fields `switchCostume(name)` leaves: a known name becomes
      current with its insertion position as index; an unknown name changes
      nothing. */
  function Switched(names: seq<string>, costumes: map<string, Image>, current: Option<Image>, index: int, name: string)
    : (r: (Option<Image>, int))
    ensures name !in costumes ==> r == (current, index)
    ensures name in costumes && name in names ==> r.0 == Some(costumes[name]) && 0 <= r.1 < |names| && names[r.1] == name
  {
    if name in costumes then (Some(costumes[name]), IndexOf(names, name)) else (current, index)
  }

  /** `updateBoundingBox` with a costume: its size scaled by |scale|. */
  function Fitted(image: Image, scaleX: real, scaleY: real): Size
  {
    Size(image.width * Abs(scaleX), image.height * Abs(scaleY))
  }

  /** The costume table: its names in insertion order, each once, are
      exactly its keys. */
  ghost predicate CostumeTable(names: seq<string>, costumes: map<string, Image>)
  {
    NoDup(names) && (forall n :: n in costumes <==> n in names)
  }

  /** `costumes.set(name, image)` keeps the table well formed; the name
      keeps its position if it was present and goes last otherwise, and no
      other name moves. */
  lemma SetCostumeKeepsTable(names: seq<string>, costumes: map<string, Image>, name: string, image: Image)
    requires CostumeTable(names, costumes)
    ensures CostumeTable(Add(names, name), costumes[name := image])
    ensures name !in names ==> IndexOf(Add(names, name), name) == |names|
    ensures forall i :: 0 <= i < |names| ==> Add(names, name)[i] == names[i]
  {
    AddKeepsNoDup(names, name);
    if name !in names { AddNewGoesLast(names, name); }
  }

  /** `nextCostume` ends on the costume at position (index + 1) mod n, with
      that position as its index. */
  lemma NextCostumeLandsOnNext(names: seq<string>, costumes: map<string, Image>, current: Option<Image>, index: int)
    requires CostumeTable(names, costumes) && |names| > 0 && index >= 0
    ensures var i := (index + 1) % |names|;
      Switched(names, costumes, current, i, names[i]) == (Some(costumes[names[i]]), i)
  {
    var i := (index + 1) % |names|;
    IndexOfAt(names, i);
  }

  class Sprite {
    var id: string
    var name: string
    var x: real
    var y: real
    var rotation: real
    var scaleX: real
    var scaleY: real
    var visible: bool
    /** The `costumes` Map: `costumeNames` is its key order. */
    var costumeNames: seq<string>
    var costumes: map<string, Image>
    var currentCostume: Option<Image>
    var currentCostumeIndex: int
    var velocity: Vec
    var acceleration: Vec
    var drag: real
    var bounce: real
    var gravity: real
    var solid: bool
    var boundingBox: Size
    var collisionShape: string
    var collisionGroups: seq<string>
    var animations: map<string, Animation>
    var currentAnimation: Option<Playing>
    var animationFrame: nat
    var animationTimer: real
    var eventListeners: Registry<Callback>

    ghost predicate Valid()
      reads this
    {
      CostumesValid() && AnimInvariant(AnimationState())
    }

    /** The costume table is well formed, a current costume implies a
      non-empty table, and the index is a position of the table (or 0). */
    ghost predicate CostumesValid()
      reads this
    {
      CostumeTable(costumeNames, costumes)
      && (currentCostume.Some? ==> |costumeNames| > 0)
      && 0 <= currentCostumeIndex && (currentCostumeIndex < |costumeNames| || currentCostumeIndex == 0)
    }

    function AnimationState(): AnimState
      reads this
    {
      AnimState(currentAnimation, animationFrame, animationTimer)
    }

    /** The constructor with `options`; `randomId` stands for the generated
      `sprite_…` id used when no id is given. */
    constructor(options: Options, randomId: string)
      ensures Valid()
      ensures id == StringOr(options.id, randomId) && name == StringOr(options.name, "Sprite")
      ensures x == NumberOr(options.x, 0.0) && y == NumberOr(options.y, 0.0)
      ensures rotation == NumberOr(options.rotation, 0.0)
      ensures scaleX == NumberOr(options.scaleX, 1.0) && scaleY == NumberOr(options.scaleY, 1.0)
      ensures visible == BoolOr(options.visible, true) && solid == BoolOr(options.solid, true)
      ensures drag == NumberOr(options.drag, 0.0) && bounce == NumberOr(options.bounce, 0.0)
      ensures gravity == NumberOr(options.gravity, 0.0)
      ensures collisionShape == StringOr(options.collisionShape, "rectangle")
      ensures collisionGroups == FromSeq(if options.collisionGroups.Some? then options.collisionGroups.value else ["default"])
      ensures costumeNames == [] && costumes == map[] && currentCostume == None && currentCostumeIndex == 0
      ensures velocity == Vec(0.0, 0.0) && acceleration == Vec(0.0, 0.0) && boundingBox == Size(0.0, 0.0)
      ensures animations == map[] && AnimationState() == AnimState(None, 0, 0.0)
      ensures eventListeners == map["tick" := [TickHandler], "collide" := [CollideHandler]]
    {
      id := StringOr(options.id, randomId);
      name := StringOr(options.name, "Sprite");
      x := NumberOr(options.x, 0.0);
      y := NumberOr(options.y, 0.0);
      rotation := NumberOr(options.rotation, 0.0);
      scaleX := NumberOr(options.scaleX, 1.0);
      scaleY := NumberOr(options.scaleY, 1.0);
      visible := BoolOr(options.visible, true);
      costumeNames := [];
      costumes := map[];
      currentCostume := None;
      currentCostumeIndex := 0;
      velocity := Vec(0.0, 0.0);
      acceleration := Vec(0.0, 0.0);
      drag := NumberOr(options.drag, 0.0);
      bounce := NumberOr(options.bounce, 0.0);
      gravity := NumberOr(options.gravity, 0.0);
      solid := BoolOr(options.solid, true);
      boundingBox := Size(0.0, 0.0);
      collisionShape := StringOr(options.collisionShape, "rectangle");
      collisionGroups := FromSeq(if options.collisionGroups.Some? then options.collisionGroups.value else ["default"]);
      animations := map[];
      currentAnimation := None;
      animationFrame := 0;
      animationTimer := 0.0;
      var none: seq<Callback> := [];
      assert Add(none, TickHandler) == [TickHandler] && Add(none, CollideHandler) == [CollideHandler];
      var listeners: Registry<Callback> := Subscribe(map[], "tick", TickHandler);
      assert listeners == map["tick" := [TickHandler]];
      assert ListenersOf(listeners, "collide") == none;
      listeners := Subscribe(listeners, "collide", CollideHandler);
      eventListeners := listeners;
    }

    /** `getBoundingBox`. */
    function GetBoundingBox(): (b: Box)
      reads this
      ensures b == CentredBox(x, y, boundingBox)
    {
      CentredBox(x, y, boundingBox)
    }

    /** `checkCollision(other)`. */
    predicate CheckCollision(other: Sprite)
      reads this, other
    {
      SpritesCollide(solid, GetBoundingBox(), other.solid, other.GetBoundingBox())
    }

    /** `emit(event)` calls exactly these listeners, in this order. */
    function Listeners(event: string): (r: seq<Callback>)
      reads this
      ensures event !in eventListeners ==> r == []
    {
      ListenersOf(eventListeners, event)
    }

    /** `updateBoundingBox`: only with a current costume. */
    method UpdateBoundingBox()
      modifies this
      ensures unchanged(this`x, this`y, this`scaleX, this`scaleY, this`costumeNames, this`costumes,
        this`currentCostume, this`currentCostumeIndex, this`velocity, this`acceleration, this`solid)
      ensures unchanged(this`currentAnimation, this`animationFrame, this`animationTimer, this`animations,
        this`eventListeners, this`rotation, this`drag, this`bounce, this`gravity)
      ensures currentCostume.Some? ==> boundingBox == Fitted(currentCostume.value, scaleX, scaleY)
      ensures currentCostume.None? ==> boundingBox == old(boundingBox)
    {
      if currentCostume.Some? {
        boundingBox := Fitted(currentCostume.value, scaleX, scaleY);
      }
    }

    /** `switchCostume(name)`. */
    method SwitchCostume(costume: string)
      requires Valid()
      modifies this
      ensures unchanged(this`x, this`y, this`scaleX, this`scaleY, this`costumeNames, this`costumes,
        this`velocity, this`acceleration, this`solid)
      ensures unchanged(this`currentAnimation, this`animationFrame, this`animationTimer, this`animations,
        this`eventListeners, this`rotation, this`drag, this`bounce, this`gravity)
      ensures Valid()
      ensures (currentCostume, currentCostumeIndex)
           == Switched(costumeNames, costumes, old(currentCostume), old(currentCostumeIndex), costume)
      ensures costume in costumes ==> boundingBox == Fitted(costumes[costume], scaleX, scaleY)
      ensures costume !in costumes ==> boundingBox == old(boundingBox)
    {
      if costume in costumes {
        currentCostume := Some(costumes[costume]);
        currentCostumeIndex := IndexOf(costumeNames, costume);
        UpdateBoundingBox();
      }
    }

    /** `addCostume(name, image)`: the first costume becomes current; later
      ones leave the current costume alone. */
    method AddCostume(costume: string, image: Image)
      requires Valid()
      modifies this
      ensures unchanged(this`x, this`y, this`scaleX, this`scaleY, this`velocity, this`acceleration, this`solid)
      ensures unchanged(this`currentAnimation, this`animationFrame, this`animationTimer, this`animations,
        this`eventListeners, this`rotation, this`drag, this`bounce, this`gravity)
      ensures Valid()
      ensures costumes == old(costumes)[costume := image] && costumeNames == Add(old(costumeNames), costume)
      ensures old(currentCostume).None? ==>
        currentCostume == Some(image) && currentCostumeIndex == IndexOf(costumeNames, costume)
      ensures old(currentCostume).Some? ==>
        currentCostume == old(currentCostume) && currentCostumeIndex == old(currentCostumeIndex)
      ensures boundingBox == Fitted(currentCostume.value, scaleX, scaleY)
    {
      SetCostumeKeepsTable(costumeNames, costumes, costume, image);
      var names, table := Add(costumeNames, costume), costumes[costume := image];
      assert |names| >= |costumeNames|;
      costumes, costumeNames := table, names;
      assert CostumesValid();
      if currentCostume.None? {
        SwitchCostume(costume);
      }
      UpdateBoundingBox();
    }

    /** `nextCostume`; the source needs at least one costume (with none it
      computes `NaN` as the index). */
    method NextCostume()
      requires Valid() && |costumeNames| > 0
      modifies this
      ensures unchanged(this`x, this`y, this`scaleX, this`scaleY, this`costumeNames, this`costumes,
        this`velocity, this`acceleration, this`solid)
      ensures unchanged(this`currentAnimation, this`animationFrame, this`animationTimer, this`animations,
        this`eventListeners, this`rotation, this`drag, this`bounce, this`gravity)
      ensures Valid()
      ensures currentCostumeIndex == (old(currentCostumeIndex) + 1) % |costumeNames|
      ensures currentCostume == Some(costumes[costumeNames[currentCostumeIndex]])
      ensures boundingBox == Fitted(currentCostume.value, scaleX, scaleY)
    {
      NextCostumeLandsOnNext(costumeNames, costumes, currentCostume, currentCostumeIndex);
      currentCostumeIndex := (currentCostumeIndex + 1) % |costumeNames|;
      SwitchCostume(costumeNames[currentCostumeIndex]);
    }

    /** `addAnimation(name, frames, frameRate)` (the source's default rate
      is 12). */
    method AddAnimation(animation: string, frames: seq<string>, frameRate: real)
      modifies this
      ensures unchanged(this`x, this`y, this`scaleX, this`scaleY, this`costumeNames, this`costumes,
        this`currentCostume, this`currentCostumeIndex, this`velocity, this`acceleration, this`solid)
      ensures unchanged(this`currentAnimation, this`animationFrame, this`animationTimer, this`boundingBox,
        this`eventListeners, this`rotation, this`drag, this`bounce, this`gravity)
      ensures animations == old(animations)[animation := Animation(frames, frameRate, FrameTime(frameRate))]
    {
      animations := animations[animation := Animation(frames, frameRate, FrameTime(frameRate))];
    }

    /** `playAnimation(name, loop)`: an unknown name changes nothing. */
    method PlayAnimation(animation: string, loop: bool)
      requires Valid()
      modifies this
      ensures unchanged(this`x, this`y, this`scaleX, this`scaleY, this`costumeNames, this`costumes,
        this`currentCostume, this`currentCostumeIndex, this`velocity, this`acceleration, this`solid)
      ensures unchanged(this`animations, this`boundingBox,
        this`eventListeners, this`rotation, this`drag, this`bounce, this`gravity)
      ensures Valid()
      ensures animation in animations ==>
        AnimationState() == AnimState(Some(Playing(animations[animation], loop)), 0, 0.0)
      ensures animation !in animations ==> AnimationState() == old(AnimationState())
    {
      if animation in animations {
        currentAnimation := Some(Playing(animations[animation], loop));
        animationFrame := 0;
        animationTimer := 0.0;
      }
    }

    /** `stopAnimation`. */
    method StopAnimation()
      modifies this
      ensures unchanged(this`x, this`y, this`scaleX, this`scaleY, this`costumeNames, this`costumes,
        this`currentCostume, this`currentCostumeIndex, this`velocity, this`acceleration, this`solid)
      ensures unchanged(this`animations, this`boundingBox,
        this`eventListeners, this`rotation, this`drag, this`bounce, this`gravity)
      ensures old(CostumesValid()) ==> Valid()
      ensures AnimationState() == AnimState(None, 0, 0.0)
    {
      currentAnimation := None;
      animationFrame := 0;
      animationTimer := 0.0;
    }

    /** `updateAnimation(deltaTime)`: the animation fields follow Advance,
      and the frame it lands on, if any, is switched to as a costume. */
    method UpdateAnimation(dt: real)
      requires Valid()
      modifies this
      ensures unchanged(this`x, this`y, this`scaleX, this`scaleY, this`costumeNames, this`costumes,
        this`velocity, this`acceleration, this`solid)
      ensures unchanged(this`animations, this`eventListeners, this`rotation, this`drag, this`bounce, this`gravity)
      ensures Valid()
      ensures AnimationState() == Advance(old(AnimationState()), dt)
      ensures var shown := Shown(old(AnimationState()), dt);
        if shown.Some? then
          (currentCostume, currentCostumeIndex)
            == Switched(costumeNames, costumes, old(currentCostume), old(currentCostumeIndex), shown.value)
          && (shown.value in costumes ==> boundingBox == Fitted(costumes[shown.value], scaleX, scaleY))
          && (shown.value !in costumes ==> boundingBox == old(boundingBox))
        else
          currentCostume == old(currentCostume) && currentCostumeIndex == old(currentCostumeIndex)
          && boundingBox == old(boundingBox)
    {
      if currentAnimation.Some? {
        var p := currentAnimation.value;
        animationTimer := animationTimer + dt;
        if Due(animationTimer, p.anim.frameTime) {
          animationTimer := 0.0;
          animationFrame := animationFrame + 1;
          if animationFrame >= |p.anim.frames| {
            if p.loop {
              animationFrame := 0;
            } else {
              StopAnimation();
            }
          }
          if currentAnimation.Some? && animationFrame < |p.anim.frames| {
            SwitchCostume(p.anim.frames[animationFrame]);
          }
        }
      }
    }

    /** `setVelocity(x, y)`. */
    method SetVelocity(vx: real, vy: real)
      modifies this
      ensures unchanged(this`x, this`y, this`scaleX, this`scaleY, this`costumeNames, this`costumes,
        this`currentCostume, this`currentCostumeIndex, this`acceleration, this`solid, this`boundingBox)
      ensures unchanged(this`currentAnimation, this`animationFrame, this`animationTimer, this`animations,
        this`eventListeners, this`rotation, this`drag, this`bounce, this`gravity)
      ensures velocity == Vec(vx, vy)
    {
      velocity := Vec(vx, vy);
    }

    /** `addForce(x, y)`: forces accumulate until the next update. */
    method AddForce(fx: real, fy: real)
      modifies this
      ensures unchanged(this`x, this`y, this`scaleX, this`scaleY, this`costumeNames, this`costumes,
        this`currentCostume, this`currentCostumeIndex, this`velocity, this`solid, this`boundingBox)
      ensures unchanged(this`currentAnimation, this`animationFrame, this`animationTimer, this`animations,
        this`eventListeners, this`rotation, this`drag, this`bounce, this`gravity)
      ensures acceleration == Vec(old(acceleration).x + fx, old(acceleration).y + fy)
    {
      acceleration := Vec(acceleration.x + fx, acceleration.y + fy);
    }

    /** `turnRight(degrees)`. */
    method TurnRight(degrees: real)
      modifies this
      ensures unchanged(this`x, this`y, this`scaleX, this`scaleY, this`costumeNames, this`costumes,
        this`currentCostume, this`currentCostumeIndex, this`velocity, this`acceleration, this`solid, this`boundingBox)
      ensures unchanged(this`currentAnimation, this`animationFrame, this`animationTimer, this`animations,
        this`eventListeners, this`drag, this`bounce, this`gravity)
      ensures rotation == Turned(old(rotation), degrees)
    {
      rotation := Turned(rotation, degrees);
    }

    /** `turnLeft(degrees)`. */
    method TurnLeft(degrees: real)
      modifies this
      ensures unchanged(this`x, this`y, this`scaleX, this`scaleY, this`costumeNames, this`costumes,
        this`currentCostume, this`currentCostumeIndex, this`velocity, this`acceleration, this`solid, this`boundingBox)
      ensures unchanged(this`currentAnimation, this`animationFrame, this`animationTimer, this`animations,
        this`eventListeners, this`drag, this`bounce, this`gravity)
      ensures rotation == Turned(old(rotation), -degrees)
    {
      rotation := Turned(rotation, -degrees);
    }

    /** `updatePhysics(deltaTime)`: velocity first, then the position from
      the new velocity, then the acceleration is consumed. */
    method UpdatePhysics(dt: real)
      modifies this
      ensures unchanged(this`scaleX, this`scaleY, this`costumeNames, this`costumes,
        this`currentCostume, this`currentCostumeIndex, this`solid, this`boundingBox)
      ensures unchanged(this`currentAnimation, this`animationFrame, this`animationTimer, this`animations,
        this`eventListeners, this`rotation, this`drag, this`bounce, this`gravity)
      ensures velocity == Vec(SpriteVelocity(old(velocity).x, 0.0, old(acceleration).x, drag, dt),
                              SpriteVelocity(old(velocity).y, gravity, old(acceleration).y, drag, dt))
      ensures x == old(x) + velocity.x * dt && y == old(y) + velocity.y * dt
      ensures acceleration == Vec(0.0, 0.0)
    {
      var vx, vy := velocity.x, velocity.y;
      if gravity != 0.0 {
        vy := vy + gravity * dt;
      }
      vx := vx + acceleration.x * dt;
      vy := vy + acceleration.y * dt;
      if drag != 0.0 {
        vx := vx * (1.0 - drag * dt);
        vy := vy * (1.0 - drag * dt);
      }
      velocity := Vec(vx, vy);
      x := x + vx * dt;
      y := y + vy * dt;
      acceleration := Vec(0.0, 0.0);
    }

    /** `update(deltaTime)`: physics, then animation. */
    method Update(dt: real)
      requires Valid()
      modifies this
      ensures unchanged(this`scaleX, this`scaleY, this`costumeNames, this`costumes, this`solid)
      ensures unchanged(this`animations, this`eventListeners, this`rotation, this`drag, this`bounce, this`gravity)
      ensures Valid()
      ensures velocity == Vec(SpriteVelocity(old(velocity).x, 0.0, old(acceleration).x, drag, dt),
                              SpriteVelocity(old(velocity).y, gravity, old(acceleration).y, drag, dt))
      ensures x == old(x) + velocity.x * dt && y == old(y) + velocity.y * dt
      ensures acceleration == Vec(0.0, 0.0)
      ensures AnimationState() == Advance(old(AnimationState()), dt)
    {
      UpdatePhysics(dt);
      UpdateAnimation(dt);
    }

    /** `handleCollision(other)`: only with a non-zero bounce and a solid
      other sprite, one velocity component is reflected and scaled. */
    method HandleCollision(other: Sprite)
      modifies this
      ensures unchanged(this`x, this`y, this`scaleX, this`scaleY, this`costumeNames, this`costumes,
        this`currentCostume, this`currentCostumeIndex, this`acceleration, this`solid, this`boundingBox)
      ensures unchanged(this`currentAnimation, this`animationFrame, this`animationTimer, this`animations,
        this`eventListeners, this`rotation, this`drag, this`bounce, this`gravity)
      ensures velocity == Bounced(old(velocity), bounce, old(other.solid), old(GetBoundingBox()), old(other.GetBoundingBox()))
    {
      var thisBox := GetBoundingBox();
      var otherBox := other.GetBoundingBox();
      if bounce != 0.0 && other.solid {
        var overlapX := Min(thisBox.right - otherBox.left, otherBox.right - thisBox.left);
        var overlapY := Min(thisBox.bottom - otherBox.top, otherBox.bottom - thisBox.top);
        if overlapX < overlapY {
          velocity := Vec(velocity.x * -bounce, velocity.y);
        } else {
          velocity := Vec(velocity.x, velocity.y * -bounce);
        }
      }
    }

    /** `on(event, callback)`. */
    method On(event: string, callback: Callback)
      modifies this
      ensures unchanged(this`x, this`y, this`scaleX, this`scaleY, this`costumeNames, this`costumes,
        this`currentCostume, this`currentCostumeIndex, this`velocity, this`acceleration, this`solid, this`boundingBox)
      ensures unchanged(this`currentAnimation, this`animationFrame, this`animationTimer, this`animations,
        this`rotation, this`drag, this`bounce, this`gravity)
      ensures eventListeners == Subscribe(old(eventListeners), event, callback)
    {
      var listeners := if event in eventListeners then eventListeners[event] else [];
      eventListeners := eventListeners[event := Add(listeners, callback)];
    }

    /** `off(event, callback)`. */
    method Off(event: string, callback: Callback)
      modifies this
      ensures unchanged(this`x, this`y, this`scaleX, this`scaleY, this`costumeNames, this`costumes,
        this`currentCostume, this`currentCostumeIndex, this`velocity, this`acceleration, this`solid, this`boundingBox)
      ensures unchanged(this`currentAnimation, this`animationFrame, this`animationTimer, this`animations,
        this`rotation, this`drag, this`bounce, this`gravity)
      ensures eventListeners == Unsubscribe(old(eventListeners), event, callback)
    {
      if event in eventListeners {
        eventListeners := eventListeners[event := Delete(eventListeners[event], callback)];
      }
    }
  }

  /** `checkCollision` asked either way round gives the same answer. */
  lemma CheckCollisionSymmetric(a: Sprite, b: Sprite)
    ensures a.CheckCollision(b) == b.CheckCollision(a)
  {
    SpritesCollideSymmetric(a.solid, a.GetBoundingBox(), b.solid, b.GetBoundingBox());
  }
}
