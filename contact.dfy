/** The impulse response of `resolveCollision`, without the square root.

    The source normalises the centre offset (dx, dy) by its length d. Every
    quantity it then applies is a product of two normal components, so the
    change of velocity depends on d only through d*d = dx*dx + dy*dy:
    with w = (v1 - v2).(dx, dy) and S = 1/m1 + 1/m2, the source's impulse
    scalar times nx equals k*dx with k = -(1 + e)*w / (d*d*S).
    ResolveMatchesSource proves the two forms equal. The arithmetic is
    stated on plain reals first (Dot, Share, ImpulseCoeff and the lemmas
    about them) and then lifted to bodies. */
module Contact {
  import opened Common
  import opened PhysicsBody

  /** The positional-correction constants of `resolveCollision`. */
  const Percent: real := 0.2
  const Slop: real := 0.01

  function Dot(px: real, py: real, qx: real, qy: real): real
  {
    px * qx + py * qy
  }

  /** Masses whose inverses and inverse sum 1/m1 + 1/m2 exist. */
  predicate MassesUsable(m1: real, m2: real)
  {
    m1 != 0.0 && m2 != 0.0 && m1 + m2 != 0.0
  }

  lemma InverseSumNonZero(m1: real, m2: real)
    requires MassesUsable(m1, m2)
    ensures 1.0 / m1 + 1.0 / m2 != 0.0
  {
    assert 1.0 / m1 + 1.0 / m2 == (m1 + m2) / (m1 * m2);
  }

  lemma ProductNonZero(a: real, b: real)
    requires a != 0.0 && b != 0.0
    ensures a * b != 0.0
  {
  }

  /** The impulse scalar per unit of offset, for restitution e, approach
      w = (v1 - v2).(dx, dy) and squared distance d2. */
  function ImpulseCoeff(e: real, w: real, d2: real, m1: real, m2: real): real
    requires d2 != 0.0 && MassesUsable(m1, m2)
  {
    InverseSumNonZero(m1, m2);
    ProductNonZero(d2, 1.0 / m1 + 1.0 / m2);
    -(1.0 + e) * w / (d2 * (1.0 / m1 + 1.0 / m2))
  }

  /** The velocity change k*delta/m that one body of mass m receives. */
  function Share(k: real, delta: real, m: real): real
    requires m != 0.0
  {
    k * delta / m
  }

  /** (v1 - v2) . (dx, dy): the source's `velocityAlongNormal` times d. */
  function Approach(b1: Body, b2: Body): real
  {
    Dot(b1.vx - b2.vx, b1.vy - b2.vy, b2.x - b1.x, b2.y - b1.y)
  }

  /** Where the source's arithmetic is defined on the reals: a non-zero
      centre distance and usable masses. */
  predicate Resolvable(b1: Body, b2: Body)
  {
    SqNorm(b2.x - b1.x, b2.y - b1.y) != 0.0 && MassesUsable(b1.mass, b2.mass)
  }

  function ImpulseFactor(b1: Body, b2: Body): real
    requires Resolvable(b1, b2)
  {
    ImpulseCoeff(Min(b1.bounce, b2.bounce), Approach(b1, b2),
                 SqNorm(b2.x - b1.x, b2.y - b1.y), b1.mass, b2.mass)
  }

  /** `resolveCollision` on a pair. A pair whose relative velocity along
      the 1->2 normal is positive is left alone, as is a pair outside
      Resolvable (see the zero-distance finding); otherwise the first body
      loses and the second gains the impulse along the offset. Only
      velocities ever change. */
  function Resolve(b1: Body, b2: Body): (r: (Body, Body))
    ensures r.0 == b1.(vx := r.0.vx, vy := r.0.vy) && r.1 == b2.(vx := r.1.vx, vy := r.1.vy)
    ensures !Resolvable(b1, b2) || Approach(b1, b2) > 0.0 ==> r == (b1, b2)
  {
    if !Resolvable(b1, b2) || Approach(b1, b2) > 0.0 then (b1, b2)
    else
      var k := ImpulseFactor(b1, b2);
      var dx, dy := b2.x - b1.x, b2.y - b1.y;
      (b1.(vx := b1.vx - Share(k, dx, b1.mass), vy := b1.vy - Share(k, dy, b1.mass)),
       b2.(vx := b2.vx + Share(k, dx, b2.mass), vy := b2.vy + Share(k, dy, b2.mass)))
  }

  /** The source's unit normal (dx, dy)/d and its normal velocity
      (v1 - v2).n for the centre distance d that `Math.sqrt` returns. */
  function SourceNormal(b1: Body, b2: Body, d: real): (n: (real, real, real))
    requires d != 0.0
  {
    var nx, ny := (b2.x - b1.x) / d, (b2.y - b1.y) / d;
    (nx, ny, (b1.vx - b2.vx) * nx + (b1.vy - b2.vy) * ny)
  }

  /** The velocity change impulse * n / m the source applies on one axis to
      a body of mass m, with impulse = -(1 + e) * van / (1/m1 + 1/m2) for
      restitution e and normal velocity van. */
  function SourceKick(e: real, van: real, n: real, m1: real, m2: real, m: real): real
    requires MassesUsable(m1, m2) && m != 0.0
  {
    InverseSumNonZero(m1, m2);
    var j := -(1.0 + e) * van;
    var imp := j / (1.0 / m1 + 1.0 / m2);
    imp * n / m
  }

  /** The impulse step of `resolveCollision`: restitution min(bounce1,
      bounce2), and each velocity moved by the kick along the unit normal,
      the first body against it and the second along it. */
  function SourceImpulse(b1: Body, b2: Body, d: real): (r: (Body, Body))
    requires d != 0.0 && MassesUsable(b1.mass, b2.mass)
    ensures r.0 == b1.(vx := r.0.vx, vy := r.0.vy) && r.1 == b2.(vx := r.1.vx, vy := r.1.vy)
  {
    var n := SourceNormal(b1, b2, d);
    var e, m1, m2 := Min(b1.bounce, b2.bounce), b1.mass, b2.mass;
    (b1.(vx := b1.vx - SourceKick(e, n.2, n.0, m1, m2, m1), vy := b1.vy - SourceKick(e, n.2, n.1, m1, m2, m1)),
     b2.(vx := b2.vx + SourceKick(e, n.2, n.0, m1, m2, m2), vy := b2.vy + SourceKick(e, n.2, n.1, m1, m2, m2)))
  }

  /** `resolveCollision` step by step as the source computes it, given the
      centre distance d: early return for a positive normal velocity, the
      impulse, then the positional correction guarded by a negative
      penetration. */
  function ResolveWithDistance(b1: Body, b2: Body, d: real): (r: (Body, Body))
    requires d != 0.0 && MassesUsable(b1.mass, b2.mass)
    ensures r.0.groups == b1.groups && r.1.groups == b2.groups
  {
    InverseSumNonZero(b1.mass, b2.mass);
    var n := SourceNormal(b1, b2, d);
    if n.2 > 0.0 then (b1, b2)
    else
      var v := SourceImpulse(b1, b2, d);
      var s := 1.0 / b1.mass + 1.0 / b2.mass;
      var penetration := d - (b1.radius + b2.radius);
      if penetration < 0.0 then
        var correction := (Max(penetration - Slop, 0.0) / s) * Percent;
        var cx, cy := n.0 * correction, n.1 * correction;
        (v.0.(x := v.0.x - cx / b1.mass, y := v.0.y - cy / b1.mass),
         v.1.(x := v.1.x + cx / b2.mass, y := v.1.y + cy / b2.mass))
      else v
  }

  // ---- the arithmetic on plain reals ----

  lemma MulDivCancel(m: real, a: real)
    requires m != 0.0
    ensures m * (a / m) == a
  {
  }

  /** The normal velocity rv.(dx, dy)/d is the approach divided by d. */
  lemma NormalDot(rvx: real, rvy: real, dx: real, dy: real, d: real)
    requires d != 0.0
    ensures rvx * (dx / d) + rvy * (dy / d) == Dot(rvx, rvy, dx, dy) / d
  {
  }

  lemma DivPositive(w: real, d: real)
    requires d > 0.0
    ensures w / d > 0.0 <==> w > 0.0
  {
    if w > 0.0 { MulDivCancel(d, w); }
    if w / d > 0.0 { MulDivCancel(d, w); }
  }

  /** (w/d) * (n/d) == w*n / d2 when d2 = d*d. */
  lemma NormalProduct(w: real, n: real, d: real, d2: real)
    requires d != 0.0 && d2 == d * d && d2 != 0.0
    ensures (w / d) * (n / d) == (w * n) / d2
  {
    var p, q := w / d, n / d;
    MulDivCancel(d, w);
    MulDivCancel(d, n);
    assert w * n == (p * q) * d2;
    DivMulCancel(p * q, d2);
  }

  /** The source's kick on one axis, for normal velocity w/d and normal
      component delta/d, is the square-root-free Share of ImpulseCoeff
      whenever d*d is the squared distance d2. */
  lemma SourceKickAgrees(e: real, w: real, d: real, d2: real, delta: real, m1: real, m2: real, m: real)
    requires d != 0.0 && d2 == d * d && d2 != 0.0 && MassesUsable(m1, m2) && m != 0.0
    ensures SourceKick(e, w / d, delta / d, m1, m2, m) == Share(ImpulseCoeff(e, w, d2, m1, m2), delta, m)
  {
    InverseSumNonZero(m1, m2);
    var c, s := -(1.0 + e), 1.0 / m1 + 1.0 / m2;
    SourceShare(c, w / d, w, d, d2, s, delta, m);
    assert SourceKick(e, w / d, delta / d, m1, m2, m) == ((c * (w / d)) / s) * (delta / d) / m;
    assert ImpulseCoeff(e, w, d2, m1, m2) == c * w / (d2 * s);
  }

  /** The same identity with the source's operands: imp*n/m, with imp =
      (c*van)/s its impulse scalar, van = w/d its normal velocity and n/d a
      component of its unit normal, equals (c*w/(d2*s))*n/m. */
  lemma SourceShare(c: real, van: real, w: real, d: real, d2: real, s: real, n: real, m: real)
    requires d != 0.0 && s != 0.0 && m != 0.0 && d2 == d * d && d2 != 0.0
    requires van == w / d
    ensures ((c * van) / s) * (n / d) / m == (c * w / (d2 * s)) * n / m
  {
    NormalProduct(w, n, d, d2);
    var t := (w / d) * (n / d);
    assert ((c * van) / s) * (n / d) == c * t / s;
    assert (c * w / (d2 * s)) * n == c * ((w * n) / d2) / s;
    var lhs, rhs := ((c * van) / s) * (n / d), (c * w / (d2 * s)) * n;
    assert lhs == rhs;
  }

  /** With a negative penetration the correction max(pen - slop, 0)/s * percent
      vanishes, and so does every displacement built from it. */
  lemma NoCorrection(penetration: real, s: real, n: real, m: real)
    requires penetration < 0.0 && s != 0.0 && m != 0.0
    ensures n * ((Max(penetration - Slop, 0.0) / s) * Percent) / m == 0.0
  {
    assert Max(penetration - Slop, 0.0) == 0.0;
  }

  lemma ExchangeCancels(m1: real, m2: real, v1: real, v2: real, k: real, delta: real)
    requires m1 != 0.0 && m2 != 0.0
    ensures m1 * (v1 - Share(k, delta, m1)) + m2 * (v2 + Share(k, delta, m2)) == m1 * v1 + m2 * v2
  {
    MulDivCancel(m1, k * delta);
    MulDivCancel(m2, k * delta);
  }

  /** Cross(a, b) == 0 says a and b are parallel. */
  function Cross(px: real, py: real, qx: real, qy: real): real
  {
    px * qy - py * qx
  }

  lemma ShareParallel(k: real, dx: real, dy: real, m: real)
    requires m != 0.0
    ensures Cross(Share(k, dx, m), Share(k, dy, m), dx, dy) == 0.0
    ensures Cross(-Share(k, dx, m), -Share(k, dy, m), dx, dy) == 0.0
  {
  }

  /** The approach after both kicks: w - k * (1/m1 + 1/m2) * d2. */
  lemma ApproachAfterKick(v1x: real, v1y: real, v2x: real, v2y: real, k: real,
                          dx: real, dy: real, m1: real, m2: real)
    requires m1 != 0.0 && m2 != 0.0
    ensures Dot((v1x - Share(k, dx, m1)) - (v2x + Share(k, dx, m2)),
                (v1y - Share(k, dy, m1)) - (v2y + Share(k, dy, m2)), dx, dy)
         == Dot(v1x - v2x, v1y - v2y, dx, dy) - k * (1.0 / m1 + 1.0 / m2) * SqNorm(dx, dy)
  {
  }

  lemma CoeffCancels(e: real, w: real, d2: real, m1: real, m2: real)
    requires d2 != 0.0 && MassesUsable(m1, m2)
    ensures ImpulseCoeff(e, w, d2, m1, m2) * (1.0 / m1 + 1.0 / m2) * d2 == -(1.0 + e) * w
  {
    InverseSumNonZero(m1, m2);
    var s := 1.0 / m1 + 1.0 / m2;
    var c := -(1.0 + e);
    var k := ImpulseCoeff(e, w, d2, m1, m2);
    assert k == (c * w) / (d2 * s);
    ProductNonZero(d2, s);
    MulDivCancel(d2 * s, c * w);
    assert k * s * d2 == (d2 * s) * k;
  }

  // ---- the properties of Resolve ----

  /** Linear momentum m1*v1 + m2*v2 is the same before and after, on both
      axes. */
  lemma MomentumConserved(b1: Body, b2: Body)
    ensures var r := Resolve(b1, b2);
      b1.mass * r.0.vx + b2.mass * r.1.vx == b1.mass * b1.vx + b2.mass * b2.vx
      && b1.mass * r.0.vy + b2.mass * r.1.vy == b1.mass * b1.vy + b2.mass * b2.vy
  {
    if Resolvable(b1, b2) && Approach(b1, b2) <= 0.0 {
      var k := ImpulseFactor(b1, b2);
      ExchangeCancels(b1.mass, b2.mass, b1.vx, b2.vx, k, b2.x - b1.x);
      ExchangeCancels(b1.mass, b2.mass, b1.vy, b2.vy, k, b2.y - b1.y);
    }
  }

  /** Each velocity changes only along the centre line: the change is
      parallel to the offset (dx, dy). */
  lemma ChangeAlongNormal(b1: Body, b2: Body)
    ensures var r := Resolve(b1, b2);
      Cross(r.0.vx - b1.vx, r.0.vy - b1.vy, b2.x - b1.x, b2.y - b1.y) == 0.0
      && Cross(r.1.vx - b2.vx, r.1.vy - b2.vy, b2.x - b1.x, b2.y - b1.y) == 0.0
  {
    var r := Resolve(b1, b2);
    if Resolvable(b1, b2) && Approach(b1, b2) <= 0.0 {
      var k := ImpulseFactor(b1, b2);
      var dx, dy := b2.x - b1.x, b2.y - b1.y;
      ShareParallel(k, dx, dy, b1.mass);
      ShareParallel(k, dx, dy, b2.mass);
      assert r.0.vx - b1.vx == -Share(k, dx, b1.mass) && r.0.vy - b1.vy == -Share(k, dy, b1.mass);
      assert r.1.vx - b2.vx == Share(k, dx, b2.mass) && r.1.vy - b2.vy == Share(k, dy, b2.mass);
    } else {
      assert r.0.vx - b1.vx == 0.0 && r.0.vy - b1.vy == 0.0;
      assert r.1.vx - b2.vx == 0.0 && r.1.vy - b2.vy == 0.0;
      assert Cross(0.0, 0.0, b2.x - b1.x, b2.y - b1.y) == 0.0;
    }
  }

  /** With e = min(bounce1, bounce2), a resolved pair leaves with relative
      normal velocity (2 + e) times the one it came in with: the sign
      convention of the source pushes a separating pair further apart
      rather than reversing an approaching one. */
  lemma RestitutionScalesApproach(b1: Body, b2: Body)
    requires Resolvable(b1, b2) && Approach(b1, b2) <= 0.0
    ensures var r := Resolve(b1, b2);
      Approach(r.0, r.1) == (2.0 + Min(b1.bounce, b2.bounce)) * Approach(b1, b2)
  {
    var r := Resolve(b1, b2);
    var k := ImpulseFactor(b1, b2);
    var dx, dy := b2.x - b1.x, b2.y - b1.y;
    var e, w := Min(b1.bounce, b2.bounce), Approach(b1, b2);
    ApproachAfterKick(b1.vx, b1.vy, b2.vx, b2.vy, k, dx, dy, b1.mass, b2.mass);
    CoeffCancels(e, w, SqNorm(dx, dy), b1.mass, b2.mass);
    assert r.1.x - r.0.x == dx && r.1.y - r.0.y == dy;
    assert r.0.vx - r.1.vx == (b1.vx - Share(k, dx, b1.mass)) - (b2.vx + Share(k, dx, b2.mass));
    assert r.0.vy - r.1.vy == (b1.vy - Share(k, dy, b1.mass)) - (b2.vy + Share(k, dy, b2.mass));
    assert Approach(r.0, r.1) == w - k * (1.0 / b1.mass + 1.0 / b2.mass) * SqNorm(dx, dy);
  }

  // ---- the source's form ----

  /** The source never moves a body: whenever its penetration guard
      fires, max(penetration - slop, 0) is zero and so is the correction;
      only the two velocities can change. */
  lemma SourceKeepsPositions(b1: Body, b2: Body, d: real)
    requires d != 0.0 && MassesUsable(b1.mass, b2.mass)
    ensures var r := ResolveWithDistance(b1, b2, d);
      r.0 == b1.(vx := r.0.vx, vy := r.0.vy) && r.1 == b2.(vx := r.1.vx, vy := r.1.vy)
  {
    InverseSumNonZero(b1.mass, b2.mass);
    var n := SourceNormal(b1, b2, d);
    var penetration := d - (b1.radius + b2.radius);
    var s := 1.0 / b1.mass + 1.0 / b2.mass;
    if n.2 <= 0.0 && penetration < 0.0 {
      NoCorrection(penetration, s, n.0, b1.mass);
      NoCorrection(penetration, s, n.1, b1.mass);
      NoCorrection(penetration, s, n.0, b2.mass);
      NoCorrection(penetration, s, n.1, b2.mass);
    }
  }

  /** The source's computation and the square-root-free one agree for every
      pair with a positive distance: the same early return, the same
      velocities, and the same (unchanged) positions. */
  lemma ResolveMatchesSource(b1: Body, b2: Body, d: real)
    requires Resolvable(b1, b2) && d > 0.0 && d * d == SqNorm(b2.x - b1.x, b2.y - b1.y)
    ensures ResolveWithDistance(b1, b2, d) == Resolve(b1, b2)
  {
    SourceKeepsPositions(b1, b2, d);
    var dx, dy := b2.x - b1.x, b2.y - b1.y;
    var w, d2 := Approach(b1, b2), SqNorm(dx, dy);
    var n := SourceNormal(b1, b2, d);
    NormalDot(b1.vx - b2.vx, b1.vy - b2.vy, dx, dy, d);
    assert n.2 == w / d;
    DivPositive(w, d);
    if w <= 0.0 {
      var e, m1, m2 := Min(b1.bounce, b2.bounce), b1.mass, b2.mass;
      SourceKickAgrees(e, w, d, d2, dx, m1, m2, m1);
      SourceKickAgrees(e, w, d, d2, dy, m1, m2, m1);
      SourceKickAgrees(e, w, d, d2, dx, m1, m2, m2);
      SourceKickAgrees(e, w, d, d2, dy, m1, m2, m2);
    }
  }

  // ---- examples ----

  /** Twice the kinetic energy of a body. */
  function DoubleKineticEnergy(b: Body): real
  {
    b.mass * SqNorm(b.vx, b.vy)
  }

  /** ImpulseFactor through known values of its operands. */
  lemma FactorOf(b1: Body, b2: Body, e: real, w: real, d2: real, m1: real, m2: real)
    requires Resolvable(b1, b2)
    requires Min(b1.bounce, b2.bounce) == e && Approach(b1, b2) == w
    requires SqNorm(b2.x - b1.x, b2.y - b1.y) == d2 && b1.mass == m1 && b2.mass == m2
    ensures ImpulseFactor(b1, b2) == ImpulseCoeff(e, w, d2, m1, m2)
  {
  }

  /** The four velocities of a resolved pair through known values of the
      impulse factor, the offset and the masses. */
  lemma KicksOf(b1: Body, b2: Body, k: real, dx: real, dy: real, m1: real, m2: real)
    requires Resolvable(b1, b2) && Approach(b1, b2) <= 0.0 && ImpulseFactor(b1, b2) == k
    requires b2.x - b1.x == dx && b2.y - b1.y == dy && b1.mass == m1 && b2.mass == m2
    ensures var r := Resolve(b1, b2);
      r.0.vx == b1.vx - Share(k, dx, m1) && r.0.vy == b1.vy - Share(k, dy, m1)
      && r.1.vx == b2.vx + Share(k, dx, m2) && r.1.vy == b2.vy + Share(k, dy, m2)
  {
  }

  /** Two perfectly elastic bodies of unit mass one unit apart on the x
      axis, the first drifting away from the second at speed 1 (a pair
      that overlaps when both have radius 1): the pair is resolved, the
      first body is sped up to -2 and the second is kicked to 1. */
  lemma SeparatingPairIsPushedApart(b1: Body, b2: Body)
    requires b1.x == 0.0 && b1.y == 0.0 && b1.vx == -1.0 && b1.vy == 0.0 && b1.mass == 1.0 && b1.bounce == 1.0
    requires b2.x == 1.0 && b2.y == 0.0 && b2.vx == 0.0 && b2.vy == 0.0 && b2.mass == 1.0 && b2.bounce == 1.0
    ensures var r := Resolve(b1, b2);
      r.0.vx == -2.0 && r.0.vy == 0.0 && r.1.vx == 1.0 && r.1.vy == 0.0
  {
    assert SqNorm(1.0, 0.0) == 1.0;
    assert Approach(b1, b2) == -1.0;
    FactorOf(b1, b2, 1.0, -1.0, 1.0, 1.0, 1.0);
    assert ImpulseCoeff(1.0, -1.0, 1.0, 1.0, 1.0) == 1.0;
    KicksOf(b1, b2, 1.0, 1.0, 0.0, 1.0, 1.0);
    assert Share(1.0, 1.0, 1.0) == 1.0 && Share(1.0, 0.0, 1.0) == 0.0;
  }

  /** In that example twice the kinetic energy grows from 1 to 5: the
      source's resolution is not energy-preserving. */
  lemma EnergyCanGrow(b1: Body, b2: Body)
    requires b1.x == 0.0 && b1.y == 0.0 && b1.vx == -1.0 && b1.vy == 0.0 && b1.mass == 1.0 && b1.bounce == 1.0
    requires b2.x == 1.0 && b2.y == 0.0 && b2.vx == 0.0 && b2.vy == 0.0 && b2.mass == 1.0 && b2.bounce == 1.0
    ensures var r := Resolve(b1, b2);
      DoubleKineticEnergy(r.0) + DoubleKineticEnergy(r.1) == 5.0
      && DoubleKineticEnergy(b1) + DoubleKineticEnergy(b2) == 1.0
  {
    SeparatingPairIsPushedApart(b1, b2);
    var r := Resolve(b1, b2);
    assert r.0.mass == 1.0 && r.1.mass == 1.0;
    assert SqNorm(-2.0, 0.0) == 4.0 && SqNorm(1.0, 0.0) == 1.0;
    assert SqNorm(-1.0, 0.0) == 1.0 && SqNorm(0.0, 0.0) == 0.0;
  }

  /** The same bodies with the first moving toward the second are not
      resolved at all. */
  lemma ApproachingPairIsSkipped(b1: Body, b2: Body)
    requires b1.x == 0.0 && b1.y == 0.0 && b1.vx == 1.0 && b1.vy == 0.0
    requires b2.x == 1.0 && b2.y == 0.0 && b2.vx == 0.0 && b2.vy == 0.0
    ensures Resolve(b1, b2) == (b1, b2)
  {
    assert Approach(b1, b2) == 1.0;
  }
}
