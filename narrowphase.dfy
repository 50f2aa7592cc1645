/** The collision-group filter and the exact overlap tests of PhysicsSystem
    (`checkCollision`, `checkCollisionGroups`, `checkCircleCircle`,
    `checkCircleRect`, `checkRectRect`). */
module Narrowphase {
  import opened Common
  import opened PhysicsBody

  /** The ordered rule key `${group1}_${group2}` of `setCollisionGroup`. */
  function GroupKey(g1: string, g2: string): (k: string)
    ensures |k| == |g1| + |g2| + 1 && k[..|g1|] == g1 && k[|g1|] == '_' && k[|g1| + 1..] == g2
  {
    g1 + "_" + g2
  }

  /** The reference: some group of the first entity and some group of the
      second have their ordered key registered. */
  ghost predicate SomeRule(matrix: map<string, Callback>, gs1: seq<string>, gs2: seq<string>)
  {
    exists i, j :: 0 <= i < |gs1| && 0 <= j < |gs2| && GroupKey(gs1[i], gs2[j]) in matrix
  }

  /** The inner loop of `checkCollisionGroups`: one group of the first entity
      against every group of the second. */
  function RuleFor(matrix: map<string, Callback>, g1: string, gs2: seq<string>): (r: bool)
    ensures r <==> exists j :: 0 <= j < |gs2| && GroupKey(g1, gs2[j]) in matrix
  {
    if |gs2| == 0 then false
    else if GroupKey(g1, gs2[0]) in matrix then true
    else
      var rest := RuleFor(matrix, g1, gs2[1..]);
      assert forall j :: 1 <= j < |gs2| ==> gs2[j] == gs2[1..][j - 1];
      rest
  }

  /** `checkCollisionGroups`: the nested loops over both group lists,
      returning true at the first registered key. */
  function CheckCollisionGroups(matrix: map<string, Callback>, gs1: seq<string>, gs2: seq<string>): (r: bool)
    ensures r <==> SomeRule(matrix, gs1, gs2)
  {
    if |gs1| == 0 then false
    else if RuleFor(matrix, gs1[0], gs2) then true
    else
      var rest := CheckCollisionGroups(matrix, gs1[1..], gs2);
      assert forall i :: 1 <= i < |gs1| ==> gs1[i] == gs1[1..][i - 1];
      assert rest ==> SomeRule(matrix, gs1, gs2) by {
        if rest {
          var i, j :| 0 <= i < |gs1[1..]| && 0 <= j < |gs2| && GroupKey(gs1[1..][i], gs2[j]) in matrix;
          assert GroupKey(gs1[i + 1], gs2[j]) in matrix;
        }
      }
      rest
  }

  /** `checkCircleCircle` without the square root: `sqrt(d2) < m` holds
      exactly when m is positive and d2 < m*m (see CircleCircleMatchesDistance). */
  predicate CheckCircleCircle(c1: Body, c2: Body)
  {
    var m := c1.radius + c2.radius;
    m > 0.0 && WithinRadius(c2.x - c1.x, c2.y - c1.y, m)
  }

  /** Against any Euclidean distance d (d >= 0, d*d = dx*dx + dy*dy), the
      squared test agrees with the source's `distance < minDistance`. */
  lemma CircleCircleMatchesDistance(c1: Body, c2: Body, d: real)
    requires d >= 0.0
    requires d * d == (c2.x - c1.x) * (c2.x - c1.x) + (c2.y - c1.y) * (c2.y - c1.y)
    ensures CheckCircleCircle(c1, c2) <==> d < c1.radius + c2.radius
  {
    var m := c1.radius + c2.radius;
    if d < m {
      MulMonotone(d, m, d + m);
      MulMonotone(d, m, m - d + (d + m));
      var p, q := m - d, m + d;
      MulMonotone(0.0, p, q);
      assert p * q == m * m - d * d;
    }
    if m > 0.0 && d >= m {
      MulMonotone(m, d, m);
      MulMonotone(m, d, d);
      assert m * m <= d * d;
    }
  }

  /** Circles with one centre collide whenever their radius sum is
      positive. */
  lemma ConcentricCirclesCollide(c1: Body, c2: Body)
    requires c1.x == c2.x && c1.y == c2.y && c1.radius + c2.radius > 0.0
    ensures CheckCircleCircle(c1, c2)
  {
    WithinRadiusAtCentre(c2.x, c1.x, c2.y, c1.y, c1.radius + c2.radius);
  }

  /** Tangent circles (centre distance exactly r1 + r2) do not collide. */
  lemma TangentCirclesDoNotCollide(c1: Body, c2: Body)
    requires (c2.x - c1.x) * (c2.x - c1.x) + (c2.y - c1.y) * (c2.y - c1.y)
          == (c1.radius + c2.radius) * (c1.radius + c2.radius)
    ensures !CheckCircleCircle(c1, c2)
  {
  }

  /** The clamped closest point of `checkCircleRect`. */
  function ClosestPoint(cx: real, cy: real, rect: Box): (real, real)
  {
    (Max(rect.left, Min(cx, rect.right)), Max(rect.top, Min(cy, rect.bottom)))
  }

  /** `checkCircleRect`: strictly closer than the radius to the closest
      point of the rectangle's `left/right/top/bottom` extent. */
  predicate CheckCircleRect(circle: Body, rect: Body)
  {
    var p := ClosestPoint(circle.x, circle.y, rect.extent);
    WithinRadius(circle.x - p.0, circle.y - p.1, circle.radius)
  }

  /** A displacement strictly shorter than r, compared squared. */
  predicate WithinRadius(dx: real, dy: real, r: real)
  {
    dx * dx + dy * dy < r * r
  }

  lemma WithinRadiusAtCentre(cx: real, px: real, cy: real, py: real, r: real)
    requires cx == px && cy == py && r != 0.0
    ensures WithinRadius(cx - px, cy - py, r)
  {
    SquarePositive(r);
    MulZero(cx - px, cx - px);
    MulZero(cy - py, cy - py);
  }

  /** A circle of non-zero radius whose centre lies in the rectangle
      collides with it. */
  lemma CentreInsideRectCollides(circle: Body, rect: Body)
    requires circle.radius != 0.0
    requires rect.extent.left <= circle.x <= rect.extent.right
    requires rect.extent.top <= circle.y <= rect.extent.bottom
    ensures CheckCircleRect(circle, rect)
  {
    var p := ClosestPoint(circle.x, circle.y, rect.extent);
    assert p == (circle.x, circle.y);
    WithinRadiusAtCentre(circle.x, p.0, circle.y, p.1, circle.radius);
  }

  /** Circle-rectangle is strict: at squared distance exactly r*r from the
      closest point there is no collision. */
  lemma CircleRectBoundaryIsStrict(circle: Body, rect: Body)
    requires var p := ClosestPoint(circle.x, circle.y, rect.extent);
             (circle.x - p.0) * (circle.x - p.0) + (circle.y - p.1) * (circle.y - p.1)
             == circle.radius * circle.radius
    ensures !CheckCircleRect(circle, rect)
  {
  }

  /** `checkRectRect`: no separating comparison among the four; touching
      counts as overlapping. */
  predicate CheckRectRect(r1: Body, r2: Body)
  {
    var a, b := r1.extent, r2.extent;
    !(a.right < b.left || a.left > b.right || a.bottom < b.top || a.top > b.bottom)
  }

  /** Rectangles sharing an edge collide, whichever pair is asked first. */
  lemma TouchingRectsCollide(r1: Body, r2: Body)
    requires r1.extent.left <= r1.extent.right && r2.extent.left <= r2.extent.right
    requires r1.extent.right == r2.extent.left
    requires r1.extent.top <= r2.extent.bottom && r2.extent.top <= r1.extent.bottom
    ensures CheckRectRect(r1, r2) && CheckRectRect(r2, r1)
  {
  }

  /** `checkCollision`: the group filter first, then dispatch on the first
      shape; a rectangle against a circle swaps into the circle test, and an
      unknown first shape never collides. */
  function CheckCollision(matrix: map<string, Callback>, e1: Body, e2: Body): (r: bool)
    ensures !SomeRule(matrix, e1.groups, e2.groups) ==> !r
    ensures e1.shape.OtherShape? ==> !r
    ensures SomeRule(matrix, e1.groups, e2.groups) ==>
      (r <==> match e1.shape
               case Circle => if e2.shape == Circle then CheckCircleCircle(e1, e2) else CheckCircleRect(e1, e2)
               case Rectangle => if e2.shape == Circle then CheckCircleRect(e2, e1) else CheckRectRect(e1, e2)
               case OtherShape(_) => false)
  {
    if !CheckCollisionGroups(matrix, e1.groups, e2.groups) then false
    else
      match e1.shape
      case Circle => if e2.shape == Circle then CheckCircleCircle(e1, e2) else CheckCircleRect(e1, e2)
      case Rectangle => if e2.shape == Circle then CheckCircleRect(e2, e1) else CheckRectRect(e1, e2)
      case OtherShape(_) => false
  }

  /** Registering red-then-blue lets a red entity hit a blue one, but not a
      blue one hit a red one: the key is ordered. */
  lemma RuleKeyIsOrdered(cb: Callback)
    ensures CheckCollisionGroups(map[GroupKey("red", "blue") := cb], ["red"], ["blue"])
    ensures !CheckCollisionGroups(map[GroupKey("red", "blue") := cb], ["blue"], ["red"])
  {
    assert GroupKey("blue", "red") != GroupKey("red", "blue") by {
      assert GroupKey("blue", "red")[0] == 'b';
    }
  }

  /** The joined key does not separate its two parts: the rule registered
      for ("a", "b_c") also admits the groups ("a_b", "c"). */
  lemma RuleKeyConflates(cb: Callback)
    ensures CheckCollisionGroups(map[GroupKey("a", "b_c") := cb], ["a_b"], ["c"])
  {
    assert GroupKey("a_b", "c") == GroupKey("a", "b_c");
  }
}
