/** `applyWorldBounds`: each solid entity whose bounding box crosses a side
    of the world is put back against that side, and its velocity on that
    axis is reflected and scaled by its bounce. */
module WorldBounds {
  import opened PhysicsBody

  /** One side of the world: a finite coordinate, or the default infinite
      bound that nothing can cross. */
  datatype Side = Finite(v: real) | Unbounded

  datatype Bounds = Bounds(left: Side, right: Side, top: Side, bottom: Side)

  /** The constructor's default: every side infinite. */
  const Unlimited := Bounds(Unbounded, Unbounded, Unbounded, Unbounded)

  /** `edge < bound` for a left or top side (false against -Infinity). */
  predicate Before(edge: real, s: Side)
  {
    s.Finite? && edge < s.v
  }

  /** `edge > bound` for a right or bottom side (false against Infinity). */
  predicate Beyond(edge: real, s: Side)
  {
    s.Finite? && edge > s.v
  }

  /** What `applyWorldBounds` does to one entity. The box is taken once,
      before either axis is corrected; the right side is looked at only
      when the left one was not crossed, and the bottom only when the top
      was not. */
  function BoundEntity(b: Body, w: Bounds): (r: Body)
    ensures r == b.(x := r.x, y := r.y, vx := r.vx, vy := r.vy)
    ensures !b.solid ==> r == b
  {
    if !b.solid then b
    else
      var box := BoundingBox(b);
      var bx :=
        if Before(box.left, w.left) then b.(x := w.left.v + b.width / 2.0, vx := b.vx * -b.bounce)
        else if Beyond(box.right, w.right) then b.(x := w.right.v - b.width / 2.0, vx := b.vx * -b.bounce)
        else b;
      if Before(box.top, w.top) then bx.(y := w.top.v + b.height / 2.0, vy := bx.vy * -b.bounce)
      else if Beyond(box.bottom, w.bottom) then bx.(y := w.bottom.v - b.height / 2.0, vy := bx.vy * -b.bounce)
      else bx
  }

  /** A box that crosses no finite side. */
  predicate Inside(box: Box, w: Bounds)
  {
    !Before(box.left, w.left) && !Beyond(box.right, w.right)
    && !Before(box.top, w.top) && !Beyond(box.bottom, w.bottom)
  }

  /** A solid entity past the left side ends with its box's left edge
      exactly on the side and its horizontal velocity reflected; the right
      side is then not looked at. */
  lemma LeftHitLandsOnBound(b: Body, w: Bounds)
    requires b.solid && Before(BoundingBox(b).left, w.left)
    ensures BoundingBox(BoundEntity(b, w)).left == w.left.v
    ensures BoundEntity(b, w).vx == -b.bounce * b.vx
  {
  }

  /** The same for the right side when the left one is not crossed. */
  lemma RightHitLandsOnBound(b: Body, w: Bounds)
    requires b.solid && !Before(BoundingBox(b).left, w.left) && Beyond(BoundingBox(b).right, w.right)
    ensures BoundingBox(BoundEntity(b, w)).right == w.right.v
    ensures BoundEntity(b, w).vx == -b.bounce * b.vx
  {
  }

  /** And for the top and bottom sides. */
  lemma TopHitLandsOnBound(b: Body, w: Bounds)
    requires b.solid && Before(BoundingBox(b).top, w.top)
    ensures BoundingBox(BoundEntity(b, w)).top == w.top.v
    ensures BoundEntity(b, w).vy == -b.bounce * b.vy
  {
  }

  lemma BottomHitLandsOnBound(b: Body, w: Bounds)
    requires b.solid && !Before(BoundingBox(b).top, w.top) && Beyond(BoundingBox(b).bottom, w.bottom)
    ensures BoundingBox(BoundEntity(b, w)).bottom == w.bottom.v
    ensures BoundEntity(b, w).vy == -b.bounce * b.vy
  {
  }

  /** An entity whose box crosses no side is left alone; in particular
      nothing changes under the infinite default bounds. */
  lemma InsideIsUnchanged(b: Body, w: Bounds)
    requires Inside(BoundingBox(b), w)
    ensures BoundEntity(b, w) == b
  {
  }

  lemma UnlimitedChangesNothing(b: Body)
    ensures BoundEntity(b, Unlimited) == b
  {
  }

  /** A solid entity that fits between finite sides ends inside them. */
  lemma FittingEntityEndsInside(b: Body, w: Bounds)
    requires b.solid && w.left.Finite? && w.right.Finite? && w.top.Finite? && w.bottom.Finite?
    requires 0.0 <= b.width <= w.right.v - w.left.v && 0.0 <= b.height <= w.bottom.v - w.top.v
    ensures Inside(BoundingBox(BoundEntity(b, w)), w)
  {
  }

  /** So bounding a fitting entity twice is bounding it once. */
  lemma BoundingFittingEntityIsIdempotent(b: Body, w: Bounds)
    requires b.solid && w.left.Finite? && w.right.Finite? && w.top.Finite? && w.bottom.Finite?
    requires 0.0 <= b.width <= w.right.v - w.left.v && 0.0 <= b.height <= w.bottom.v - w.top.v
    ensures BoundEntity(BoundEntity(b, w), w) == BoundEntity(b, w)
  {
    FittingEntityEndsInside(b, w);
    InsideIsUnchanged(BoundEntity(b, w), w);
  }

  /** An entity wider than the world that crosses both vertical sides is
      put against the left one and still overhangs the right one. */
  lemma WideEntityOverhangsRight(b: Body, w: Bounds)
    requires b.solid && w.left.Finite? && w.right.Finite?
    requires b.width > w.right.v - w.left.v
    requires Before(BoundingBox(b).left, w.left)
    ensures Beyond(BoundingBox(BoundEntity(b, w)).right, w.right)
  {
  }
}
