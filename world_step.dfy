/** What one `update` of PhysicsSystem does to the whole entity collection,
    as functions of the old collection: `iterations` integration sub-steps,
    then one collision pass over the broadphase pairs, then one pass of
    world bounds. */
module WorldStep {
  import opened Common
  import opened PhysicsBody
  import opened Narrowphase
  import opened Contact
  import opened Broadphase
  import opened WorldBounds

  /** The ids of the entities, in iteration order. */
  function Ids(es: seq<Body>): (r: seq<string>)
    ensures |r| == |es| && forall i :: 0 <= i < |es| ==> r[i] == es[i].id
  {
    seq(|es|, i requires 0 <= i < |es| => es[i].id)
  }

  /** No two entities share an id: the model's stand-in for the identity of
      the objects in the `entities` set. */
  predicate DistinctIds(es: seq<Body>)
  {
    forall i, j :: 0 <= i < j < |es| ==> es[i].id != es[j].id
  }

  // ---- integration ----

  /** One `updatePhysics(h)`: every entity integrated on its own. */
  function IntegrateAll(es: seq<Body>, g: Vec, h: real, enableSleeping: bool): (r: seq<Body>)
  {
    seq(|es|, i requires 0 <= i < |es| => IntegrateEntity(es[i], g.x, g.y, h, enableSleeping))
  }

  /** n calls of `updatePhysics(h)` in a row. */
  function IntegrateTimes(es: seq<Body>, g: Vec, h: real, enableSleeping: bool, n: nat): (r: seq<Body>)
  {
    if n == 0 then es else IntegrateAll(IntegrateTimes(es, g, h, enableSleeping, n - 1), g, h, enableSleeping)
  }

  /** n sub-steps of one entity. */
  function IterateEntity(b: Body, g: Vec, h: real, enableSleeping: bool, n: nat): (r: Body)
  {
    if n == 0 then b else IntegrateEntity(IterateEntity(b, g, h, enableSleeping, n - 1), g.x, g.y, h, enableSleeping)
  }

  /** The sub-steps act on each entity independently of the others. */
  lemma {:induction false} IntegrateTimesPointwise(es: seq<Body>, g: Vec, h: real, enableSleeping: bool, n: nat)
    ensures var r := IntegrateTimes(es, g, h, enableSleeping, n);
      |r| == |es| && forall i :: 0 <= i < |es| ==> r[i] == IterateEntity(es[i], g, h, enableSleeping, n)
  {
    if n > 0 {
      IntegrateTimesPointwise(es, g, h, enableSleeping, n - 1);
    }
  }

  /** Integration never changes which entity sits where. */
  lemma IntegrateTimesKeepsIds(es: seq<Body>, g: Vec, h: real, enableSleeping: bool, n: nat)
    ensures Ids(IntegrateTimes(es, g, h, enableSleeping, n)) == Ids(es)
  {
    IntegrateTimesPointwise(es, g, h, enableSleeping, n);
    var r := IntegrateTimes(es, g, h, enableSleeping, n);
    forall i | 0 <= i < |es| ensures r[i].id == es[i].id {
      IterateKeepsAttributes(es[i], g, h, enableSleeping, n);
    }
  }

  /** Only position, velocity and acceleration ever change. */
  lemma {:induction false} IterateKeepsAttributes(b: Body, g: Vec, h: real, enableSleeping: bool, n: nat)
    ensures SameExceptMotion(b, IterateEntity(b, g, h, enableSleeping, n))
  {
    if n > 0 {
      IterateKeepsAttributes(b, g, h, enableSleeping, n - 1);
    }
  }

  /** A non-solid entity, and a sleeping one when sleeping is enabled, is
      left exactly as it was by any number of sub-steps. */
  lemma {:induction false} SkippedEntityStaysPut(b: Body, g: Vec, h: real, enableSleeping: bool, n: nat)
    requires Skipped(b, enableSleeping)
    ensures IterateEntity(b, g, h, enableSleeping, n) == b
  {
    if n > 0 {
      SkippedEntityStaysPut(b, g, h, enableSleeping, n - 1);
    }
  }

  /** After at least one sub-step an integrated entity has no acceleration
      left. */
  lemma AccelerationIsConsumed(b: Body, g: Vec, h: real, enableSleeping: bool, n: nat)
    requires !Skipped(b, enableSleeping) && n > 0
    ensures IterateEntity(b, g, h, enableSleeping, n).ax == 0.0
    ensures IterateEntity(b, g, h, enableSleeping, n).ay == 0.0
  {
    IterateKeepsAttributes(b, g, h, enableSleeping, n - 1);
  }

  /** A force added before `update` acts in the first sub-step only: the
      n sub-steps give the same result as a single velocity kick a*h with
      no acceleration. */
  lemma {:induction false} ForceActsOnce(b: Body, g: Vec, h: real, enableSleeping: bool, n: nat)
    requires !Skipped(b, enableSleeping) && n > 0
    ensures IterateEntity(b, g, h, enableSleeping, n)
         == IterateEntity(b.(vx := b.vx + b.ax * h, vy := b.vy + b.ay * h, ax := 0.0, ay := 0.0), g, h, enableSleeping, n)
  {
    var k := b.(vx := b.vx + b.ax * h, vy := b.vy + b.ay * h, ax := 0.0, ay := 0.0);
    if n == 1 {
      ForceIsOneKick(b, g.x, g.y, h);
    } else {
      ForceActsOnce(b, g, h, enableSleeping, n - 1);
    }
  }

  /** Free fall under gravity (0, 10) for one second in one sub-step: the
      semi-implicit step takes the new velocity 10 for the whole second and
      ends at y = 10 (the exact fall is 5); two half-second sub-steps end
      at y = 7.5. */
  lemma FreeFall(b: Body, enableSleeping: bool)
    requires b.solid && !b.sleeping && b.y == 0.0 && b.vx == 0.0 && b.vy == 0.0
    requires b.ax == 0.0 && b.ay == 0.0 && b.gravityScale == 1.0 && b.drag == 0.0
    ensures IterateEntity(b, Vec(0.0, 10.0), 1.0, enableSleeping, 1).y == 10.0
    ensures IterateEntity(b, Vec(0.0, 10.0), 0.5, enableSleeping, 2).y == 7.5
  {
    var g := Vec(0.0, 10.0);
    assert NewVelocity(0.0, 10.0, 1.0, 0.0, 0.0, 1.0) == 10.0;
    assert NewVelocity(0.0, 10.0, 1.0, 0.0, 0.0, 0.5) == 5.0;
    assert NewVelocity(5.0, 10.0, 1.0, 0.0, 0.0, 0.5) == 10.0;
    assert IterateEntity(b, g, 1.0, enableSleeping, 1) == Substep(b, 0.0, 10.0, 1.0);
    assert NewVelocity(b.vy, 10.0, b.gravityScale, b.ay, b.drag, 1.0) == 10.0;
    var half := IterateEntity(b, g, 0.5, enableSleeping, 1);
    assert IterateEntity(b, g, 0.5, enableSleeping, 0) == b;
    assert half == Substep(b, 0.0, 10.0, 0.5);
    assert NewVelocity(b.vy, 10.0, b.gravityScale, b.ay, b.drag, 0.5) == 5.0;
    assert half.vy == 5.0 && half.y == 2.5;
    assert !Skipped(half, enableSleeping) && half.ay == 0.0 && half.gravityScale == 1.0 && half.drag == 0.0;
    assert IterateEntity(b, g, 0.5, enableSleeping, 2) == Substep(half, 0.0, 10.0, 0.5);
    assert NewVelocity(half.vy, 10.0, half.gravityScale, half.ay, half.drag, 0.5) == 10.0;
  }

  // ---- collisions ----

  /** Pairs of distinct entity positions. */
  predicate ProperPairs(ps: seq<Pair>, n: nat)
  {
    forall k :: 0 <= k < |ps| ==> ps[k].0 < n && ps[k].1 < n && ps[k].0 != ps[k].1
  }

  /** One turn of the `handleCollisions` loop: test the pair as the two
      entities are now, and resolve it when it collides. */
  function ResolvePair(es: seq<Body>, matrix: map<string, Callback>, p: Pair): (r: seq<Body>)
    requires p.0 < |es| && p.1 < |es| && p.0 != p.1
  {
    if CheckCollision(matrix, es[p.0], es[p.1]) then
      var res := Resolve(es[p.0], es[p.1]);
      es[p.0 := res.0][p.1 := res.1]
    else es
  }

  /** The whole `handleCollisions` loop over the pairs, in order. Every
      entity keeps its place and everything but its velocity. */
  function CollideAll(es: seq<Body>, matrix: map<string, Callback>, ps: seq<Pair>): (r: seq<Body>)
    requires ProperPairs(ps, |es|)
    ensures |r| == |es|
    ensures forall i :: 0 <= i < |es| ==> r[i] == es[i].(vx := r[i].vx, vy := r[i].vy)
  {
    if |ps| == 0 then es
    else
      var init := ps[..|ps| - 1];
      assert forall k :: 0 <= k < |init| ==> init[k] == ps[k];
      var prev := CollideAll(es, matrix, init);
      ResolvePair(prev, matrix, ps[|ps| - 1])
  }

  /** The momentum m*v of one entity. */
  function Momentum(b: Body): Vec
  {
    Vec(b.mass * b.vx, b.mass * b.vy)
  }

  function Plus(p: Vec, q: Vec): Vec
  {
    Vec(p.x + q.x, p.y + q.y)
  }

  function Minus(p: Vec, q: Vec): Vec
  {
    Vec(p.x - q.x, p.y - q.y)
  }

  /** Sum of m*v over the entities. */
  function TotalMomentum(es: seq<Body>): Vec
  {
    if |es| == 0 then Vec(0.0, 0.0) else Plus(TotalMomentum(es[..|es| - 1]), Momentum(es[|es| - 1]))
  }

  /** Replacing one entity changes the total by the difference of its
      momentum. */
  lemma {:induction false} TotalMomentumUpdate(es: seq<Body>, i: nat, b: Body)
    requires i < |es|
    ensures TotalMomentum(es[i := b]) == Plus(Minus(TotalMomentum(es), Momentum(es[i])), Momentum(b))
  {
    var n := |es|;
    var u := es[i := b];
    if i < n - 1 {
      assert u[..n - 1] == es[..n - 1][i := b];
      TotalMomentumUpdate(es[..n - 1], i, b);
      assert u[n - 1] == es[n - 1];
    } else {
      assert u[..n - 1] == es[..n - 1];
    }
  }

  /** Exchanging momentum between two members keeps a total. */
  lemma ExchangeKeepsTotal(t: Vec, a: Vec, b: Vec, c: Vec, d: Vec)
    requires Plus(c, d) == Plus(a, b)
    ensures Plus(Minus(Plus(Minus(t, a), c), b), d) == t
  {
  }

  lemma PairMomentum(b1: Body, b2: Body)
    ensures Plus(Momentum(Resolve(b1, b2).0), Momentum(Resolve(b1, b2).1)) == Plus(Momentum(b1), Momentum(b2))
  {
    MomentumConserved(b1, b2);
  }

  /** A pair is either left alone or replaced by its resolution. */
  lemma ResolvePairCases(es: seq<Body>, matrix: map<string, Callback>, p: Pair)
    requires p.0 < |es| && p.1 < |es| && p.0 != p.1
    ensures var res := Resolve(es[p.0], es[p.1]);
      ResolvePair(es, matrix, p) == es || ResolvePair(es, matrix, p) == es[p.0 := res.0][p.1 := res.1]
  {
  }

  /** Resolving one pair conserves the total momentum of the collection. */
  lemma ResolvePairConservesMomentum(es: seq<Body>, matrix: map<string, Callback>, p: Pair)
    requires p.0 < |es| && p.1 < |es| && p.0 != p.1
    ensures TotalMomentum(ResolvePair(es, matrix, p)) == TotalMomentum(es)
  {
    ResolvePairCases(es, matrix, p);
    var b1, b2 := es[p.0], es[p.1];
    var res := Resolve(b1, b2);
    var mid := es[p.0 := res.0];
    if ResolvePair(es, matrix, p) != es {
      PairMomentum(b1, b2);
      TotalMomentumUpdate(es, p.0, res.0);
      assert mid[p.1] == b2;
      TotalMomentumUpdate(mid, p.1, res.1);
      ExchangeKeepsTotal(TotalMomentum(es), Momentum(b1), Momentum(b2), Momentum(res.0), Momentum(res.1));
    }
  }

  /** So does the whole collision pass. */
  lemma {:induction false} CollideAllConservesMomentum(es: seq<Body>, matrix: map<string, Callback>, ps: seq<Pair>)
    requires ProperPairs(ps, |es|)
    ensures TotalMomentum(CollideAll(es, matrix, ps)) == TotalMomentum(es)
  {
    if |ps| > 0 {
      var init := ps[..|ps| - 1];
      assert forall k :: 0 <= k < |init| ==> init[k] == ps[k];
      CollideAllConservesMomentum(es, matrix, init);
      ResolvePairConservesMomentum(CollideAll(es, matrix, init), matrix, ps[|ps| - 1]);
    }
  }

  /** The pairs of the broadphase the system is configured with: the
      quadtree scan for 'quadtree', brute force for any other name. */
  function PairsFor(broadphase: string, es: seq<Body>, cands: seq<seq<nat>>): (r: seq<Pair>)
    requires broadphase == "quadtree" ==> CandidatesWithin(cands, |es|)
    ensures ProperPairs(r, |es|)
  {
    if broadphase == "quadtree" then
      CandidatesAreWithin(cands, |es|);
      var r := QuadTreePairs(Ids(es), cands);
      assert r == Dedup(Ids(es), Candidates(cands));
      DedupHasNoSelfPairs(Ids(es), Candidates(cands));
      r
    else
      var r := BrutePairs(|es|);
      assert forall k :: 0 <= k < |r| ==> r[k].0 < r[k].1 < |es|;
      r
  }

  // ---- world bounds ----

  /** One `applyWorldBounds` pass. */
  function BoundAll(es: seq<Body>, w: Bounds): (r: seq<Body>)
  {
    seq(|es|, i requires 0 <= i < |es| => BoundEntity(es[i], w))
  }

  /** Under the infinite default bounds the pass changes nothing. */
  lemma BoundAllUnlimited(es: seq<Body>)
    ensures BoundAll(es, Unlimited) == es
  {
    forall i | 0 <= i < |es| ensures BoundAll(es, Unlimited)[i] == es[i] {
      UnlimitedChangesNothing(es[i]);
    }
  }

  // ---- one update ----

  /** The length of one sub-step, `deltaTime * timeScale / iterations`
      (only ever taken when there is at least one sub-step). */
  function SubstepLength(deltaTime: real, timeScale: real, iterations: nat): real
  {
    if iterations == 0 then 0.0 else deltaTime * timeScale / (iterations as real)
  }

  /** The collection after one `update`. */
  function Step(es: seq<Body>, g: Vec, h: real, enableSleeping: bool, iterations: nat,
                matrix: map<string, Callback>, broadphase: string, cands: seq<seq<nat>>, w: Bounds): (r: seq<Body>)
    requires broadphase == "quadtree" ==> CandidatesWithin(cands, |es|)
  {
    var moved := IntegrateTimes(es, g, h, enableSleeping, iterations);
    IntegrateTimesPointwise(es, g, h, enableSleeping, iterations);
    BoundAll(CollideAll(moved, matrix, PairsFor(broadphase, moved, cands)), w)
  }

  /** With infinite bounds, `update` conserves the total momentum of the
      integrated collection: collisions only exchange momentum. */
  lemma StepConservesMomentumOfCollisions(es: seq<Body>, g: Vec, h: real, enableSleeping: bool, iterations: nat,
                                          matrix: map<string, Callback>, broadphase: string, cands: seq<seq<nat>>)
    requires broadphase == "quadtree" ==> CandidatesWithin(cands, |es|)
    ensures TotalMomentum(Step(es, g, h, enableSleeping, iterations, matrix, broadphase, cands, Unlimited))
         == TotalMomentum(IntegrateTimes(es, g, h, enableSleeping, iterations))
  {
    var moved := IntegrateTimes(es, g, h, enableSleeping, iterations);
    IntegrateTimesPointwise(es, g, h, enableSleeping, iterations);
    var ps := PairsFor(broadphase, moved, cands);
    CollideAllConservesMomentum(moved, matrix, ps);
    BoundAllUnlimited(CollideAll(moved, matrix, ps));
  }

  // ---- the zero-distance case ----

  /** Two circles with one centre and a positive radius sum, whose groups
      have a rule, pass `checkCollision`, and the only distance d >= 0 with
      d*d equal to their squared offset is 0, for which the source's normal
      dx/d is a division by zero (ResolveWithDistance requires d != 0).
      Resolve leaves such a pair alone. */
  lemma CoincidentCirclesReachZeroDistance(matrix: map<string, Callback>, b1: Body, b2: Body, d: real)
    requires b1.shape == Circle && b2.shape == Circle
    requires b1.x == b2.x && b1.y == b2.y && b1.radius + b2.radius > 0.0
    requires SomeRule(matrix, b1.groups, b2.groups)
    requires d >= 0.0 && d * d == SqNorm(b2.x - b1.x, b2.y - b1.y)
    ensures CheckCollision(matrix, b1, b2)
    ensures d == 0.0
    ensures Resolve(b1, b2) == (b1, b2)
  {
    ConcentricCirclesCollide(b1, b2);
    MulZero(b2.x - b1.x, b2.x - b1.x);
    MulZero(b2.y - b1.y, b2.y - b1.y);
    assert SqNorm(b2.x - b1.x, b2.y - b1.y) == 0.0;
    SquareZero(d);
  }
}
