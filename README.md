# game-visual engine core in Dafny

A model of the core of the game-visual browser engine, with proofs about that model. The core is five JavaScript classes:

- **PhysicsSystem** holds a collection of entities and steps them through time. Each `update` does three things:
  - it moves the entities by semi-implicit Euler sub-steps under gravity, forces and drag;
  - it finds candidate pairs with a quadtree or brute-force broadphase, filters them through collision-group rules and exact circle/rectangle overlap tests, and resolves each colliding pair with an impulse;
  - it clamps solid entities to the world bounds.
- **Sprite** holds the state of one game object: costumes, frame animations, heading, its own simple physics, bounce on collision and event listeners.
- **InputManager** tracks key edge states (pressed, held, released), mouse buttons and position, a touch table and tap/swipe gestures. It routes listeners by event-name prefix.
- **Renderer** holds the camera, and named layers drawn in z-order with their visible sprites.
- **BlockManager** holds the palette of visual-programming blocks, the rewrite of block templates into input widgets, and the chaining of placed blocks.

Numbers are modelled as `real` (JavaScript doubles without rounding). Objects whose fields the source updates in place become classes: `Physics.PhysicsSystem`, `Sprites.Sprite`, `Input.InputManager`, `Rendering.Renderer`, `Blocks.Block` and `Blocks.BlockManager`.

Inside the physics system the entities are values (`PhysicsBody.Body`), held in a sequence in `Set` insertion order. Each method of a class is proved against a function of the old state, and the properties are lemmas about those functions:

- the momentum exchange of a collision;
- the pairs each broadphase emits;
- the exactness of the collision-group index;
- the inverse camera transforms;
- the z-order of drawing;
- the idempotence of template formatting.

Files, one module each:

- `common.dfy`: shared value types, and JavaScript `%`, `Math.min` and `Math.max`.
- `ordered_set.dfy`: insertion-ordered `Set`/`Map` keys and listener registries.
- `physics_body.dfy`: the entity record and one integration sub-step.
- `narrowphase.dfy`: collision groups and shape tests.
- `contact.dfy`: `resolveCollision`.
- `broadphase.dfy`: the two pair generators.
- `world_bounds.dfy`: `applyWorldBounds`.
- `group_index.dfy`: the `collisionGroups` index.
- `world_step.dfy`: the whole `update` on the collection.
- `physics_system.dfy`: the PhysicsSystem class.
- `sprite.dfy`, `input.dfy`, `renderer.dfy` and `blocks.dfy`: the other four classes.

Where the code and the engine's design description disagree, the model follows the code:

- **Free fall.** With one sub-step of one second under gravity 10, semi-implicit Euler moves a body from rest by 10, not by the 5 of the closed form. With two half-second sub-steps it moves 7.5 (`WorldStep.FreeFall`).
- **Collision direction.** `resolveCollision` returns early when the relative velocity along the 1→2 normal is positive, which is when the bodies *approach* each other, and it applies the impulse to *separating* pairs. A resolved pair therefore leaves with (2 + e) times its normal velocity (`Contact.RestitutionScalesApproach`), and kinetic energy can grow (`Contact.EnergyCanGrow`). Momentum is still conserved (`Contact.MomentumConserved`).
- **Positional correction.** The correction amount is `max(penetration - slop, 0)` and is applied only when the penetration is negative. It is therefore always zero, so collisions never move a body (`Contact.SourceKeepsPositions`).
- **Pair key.** The quadtree scan deduplicates pairs by the two ids sorted and joined with `_`. Distinct pairs can share that key, which drops a genuine pair (`Broadphase.ConflatedPairIsDropped`). Collision-rule keys `${group1}_${group2}` conflate in the same way (`Narrowphase.RuleKeyConflates`).

## Model

| member | source | states |
|---|---|---|
| PhysicsBody.BoundingBox | core/Sprite.js:150-157 | the box has the entity's bounding-box width and height and is centred on its position |
| PhysicsBody.Substep | core/PhysicsSystem.js:102-124 | one sub-step changes only motion, consumes the acceleration, and moves the position by the *new* velocity times h (semi-implicit Euler) |
| PhysicsBody.IntegrateEntity | core/PhysicsSystem.js:99-125 | a non-solid entity, or a sleeping one with sleeping enabled, is left as it is; any other takes exactly one sub-step |
| PhysicsBody.RestingBodyStays | core/PhysicsSystem.js:102-124 | an entity with no velocity, acceleration or gravity scale keeps its position and stays at rest |
| PhysicsBody.ForceIsOneKick | core/PhysicsSystem.js:109-124 | the acceleration acts as a one-off velocity kick a*h: a sub-step with it equals a sub-step of the kicked entity without it |
| PhysicsBody.KickCommutes | core/PhysicsSystem.js:103-116 | adding a*h before gravity or after it gives the same new velocity |
| PhysicsBody.NewVelocityClosedForm | core/PhysicsSystem.js:103-116 | the new velocity is (v + g*scale*h + a*h)(1 - drag*h), the skipped gravity and drag branches included |
| Narrowphase.GroupKey | core/PhysicsSystem.js:75-78 | the rule key is the first group, then '_', then the second group |
| Narrowphase.RuleFor | core/PhysicsSystem.js:196-201 | true iff some group of the second entity forms a registered key with the given group |
| Narrowphase.CheckCollisionGroups | core/PhysicsSystem.js:194-204 | true iff some ordered pair (group of the first, group of the second) has a registered rule |
| Narrowphase.CircleCircleMatchesDistance | core/PhysicsSystem.js:206-213 | the square-root-free test agrees with `distance < r1 + r2` for the Euclidean distance |
| Narrowphase.ConcentricCirclesCollide | core/PhysicsSystem.js:206-213 | circles with one centre and a positive radius sum collide |
| Narrowphase.TangentCirclesDoNotCollide | core/PhysicsSystem.js:206-213 | circles exactly r1 + r2 apart do not collide (the test is strict) |
| Narrowphase.WithinRadiusAtCentre | core/PhysicsSystem.js:215-224 | at the closest point itself, the circle-rectangle test holds for a non-zero radius |
| Narrowphase.CentreInsideRectCollides | core/PhysicsSystem.js:215-224 | a circle of non-zero radius whose centre lies in the rectangle collides with it |
| Narrowphase.CircleRectBoundaryIsStrict | core/PhysicsSystem.js:215-224 | a circle exactly its radius from the closest point does not collide |
| Narrowphase.TouchingRectsCollide | core/PhysicsSystem.js:226-231 | rectangles sharing an edge collide, asked either way round |
| Narrowphase.CheckCollision | core/PhysicsSystem.js:174-192 | no group rule means no collision; an unknown shape never collides; otherwise the dispatch is on the two shapes, with circle-rectangle in either order |
| Narrowphase.RuleKeyIsOrdered | core/PhysicsSystem.js:75-78 | a rule registered red→blue admits a red entity against a blue one, but not blue against red |
| Narrowphase.RuleKeyConflates | core/PhysicsSystem.js:75-78 | the rule ("a", "b_c") also admits groups ("a_b", "c") |
| Contact.Resolve | core/PhysicsSystem.js:233-280 | only the two velocities change; a pair with positive normal velocity is left alone, as the source's early return does; the model also leaves alone a pair at zero distance or with zero or opposite masses, where the source writes NaN or infinities (see Left out) |
| Contact.SourceImpulse | core/PhysicsSystem.js:253-263 | the impulse step changes only the two velocities |
| Contact.ResolveWithDistance | core/PhysicsSystem.js:233-280 | the step-by-step source computation keeps the groups of both bodies |
| Contact.SourceKickAgrees | core/PhysicsSystem.js:256-263 | the source's kick impulse*n/m on one axis equals the square-root-free share k*delta/m |
| Contact.NoCorrection | core/PhysicsSystem.js:266-279 | for a negative penetration the positional correction is zero |
| Contact.SourceKeepsPositions | core/PhysicsSystem.js:266-279 | the source never moves either body, because its guarded correction is always zero |
| Contact.ResolveMatchesSource | core/PhysicsSystem.js:233-280 | for every positive distance the source's computation equals Resolve |
| Contact.MomentumConserved | core/PhysicsSystem.js:253-263 | m1*v1 + m2*v2 is unchanged on both axes |
| Contact.ChangeAlongNormal | core/PhysicsSystem.js:259-263 | each velocity changes only along the centre line |
| Contact.RestitutionScalesApproach | core/PhysicsSystem.js:247-263 | a resolved pair leaves with (2 + min(bounce1, bounce2)) times its normal velocity |
| Contact.SeparatingPairIsPushedApart | core/PhysicsSystem.js:247-263 | a unit-mass elastic pair separating at speed 1 leaves separating at speed 3 |
| Contact.EnergyCanGrow | core/PhysicsSystem.js:247-263 | in that example twice the kinetic energy grows from 1 to 5 |
| Contact.ApproachingPairIsSkipped | core/PhysicsSystem.js:249-250 | the same pair approaching is returned unchanged |
| Broadphase.RowSpan | core/PhysicsSystem.js:165-169 | the inner loop emits (i, lo), …, (i, hi - 1) in order |
| Broadphase.BruteRows | core/PhysicsSystem.js:161-172 | rows 0..i-1 contain only pairs (a, b) with a < i and a < b < n |
| Broadphase.BruteRowsIncreasing | core/PhysicsSystem.js:161-172 | the rows are strictly increasing in lexicographic order |
| Broadphase.BruteRowsLength | core/PhysicsSystem.js:161-172 | rows 0..i-1 hold i(2n - i - 1)/2 pairs |
| Broadphase.BruteRowsComplete | core/PhysicsSystem.js:161-172 | every (a, b) with a < i and a < b < n is emitted |
| Broadphase.BrutePairsAreAllOrderedPairs | core/PhysicsSystem.js:161-172 | the brute force emits exactly the pairs i < j < n, each once, n(n-1)/2 of them |
| Broadphase.LexTotal | core/PhysicsSystem.js:150 | the default string order of `sort` is total |
| Broadphase.LexAntisymmetric | core/PhysicsSystem.js:150 | the default string order is antisymmetric |
| Broadphase.PairKeySymmetric | core/PhysicsSystem.js:150 | the pair key does not depend on the order of the two ids |
| Broadphase.PairKeyConflates | core/PhysicsSystem.js:150 | the pairs ("a", "b_c") and ("a_b", "c") share the key "a_b_c" |
| Broadphase.Row | core/PhysicsSystem.js:146-157 | the candidates of entity i become the pairs (i, c) in retrieve order |
| Broadphase.CandidatesMembership | core/PhysicsSystem.js:143-157 | the scan meets (i, j) iff j is a candidate of entity i |
| Broadphase.CandidatesBelow | core/PhysicsSystem.js:143-157 | candidates naming entities give pairs naming entities |
| Broadphase.Keys | core/PhysicsSystem.js:142-153 | the checked set contains the key of every pair kept |
| Broadphase.Keep | core/PhysicsSystem.js:148-155 | a candidate is appended iff it is not a self-pair and its key is unchecked; the checked set only grows |
| Broadphase.Dedup | core/PhysicsSystem.js:140-159 | every emitted pair names entities |
| Broadphase.DedupStep | core/PhysicsSystem.js:148-155 | one more candidate is one more Keep |
| Broadphase.DedupHasNoSelfPairs | core/PhysicsSystem.js:148-149 | the quadtree scan never emits a self-pair |
| Broadphase.DedupKeysAreUnique | core/PhysicsSystem.js:150-154 | no two emitted pairs share a key |
| Broadphase.DedupKeepsCandidates | core/PhysicsSystem.js:140-159 | only candidate pairs are emitted |
| Broadphase.DedupCoversCandidates | core/PhysicsSystem.js:150-154 | the key of every candidate that is not a self-pair ends up checked |
| Broadphase.CandidatesAreWithin | core/PhysicsSystem.js:143-157 | candidate lists within n give pairs within n |
| Broadphase.QuadTreePairsUnordered | core/PhysicsSystem.js:140-159 | each unordered pair is emitted at most once, in one direction |
| Broadphase.ConflatedCandidatePairs | core/PhysicsSystem.js:143-157 | the example candidate lists give the pairs (0, 1) and (2, 3) |
| Broadphase.ConflatedPairIsDropped | core/PhysicsSystem.js:150-154 | with ids "a", "b_c", "a_b", "c" the genuine pair (2, 3) is dropped |
| WorldBounds.BoundEntity | core/PhysicsSystem.js:283-305 | only position and velocity change, and a non-solid entity is untouched |
| WorldBounds.LeftHitLandsOnBound | core/PhysicsSystem.js:289-291 | an entity past the left side ends with its left edge on it and its x velocity times -bounce |
| WorldBounds.RightHitLandsOnBound | core/PhysicsSystem.js:292-294 | the same on the right side when the left is not crossed |
| WorldBounds.TopHitLandsOnBound | core/PhysicsSystem.js:298-300 | the same on the top side, for y |
| WorldBounds.BottomHitLandsOnBound | core/PhysicsSystem.js:301-303 | the same on the bottom side when the top is not crossed |
| WorldBounds.InsideIsUnchanged | core/PhysicsSystem.js:283-305 | an entity crossing no side is left as it is |
| WorldBounds.UnlimitedChangesNothing | core/PhysicsSystem.js:283-305 | the default infinite bounds change no entity |
| WorldBounds.FittingEntityEndsInside | core/PhysicsSystem.js:283-305 | a solid entity that fits between the sides ends inside them |
| WorldBounds.BoundingFittingEntityIsIdempotent | core/PhysicsSystem.js:283-305 | bounding a fitting entity twice is bounding it once |
| WorldBounds.WideEntityOverhangsRight | core/PhysicsSystem.js:289-295 | an entity wider than the world is put against the left side and still overhangs the right one |
| GroupIndex.AddToGroups | core/PhysicsSystem.js:46-52 | the keys gain the entity's groups, and each group's set gains the id iff it is one of the entity's groups |
| GroupIndex.RemoveFromGroups | core/PhysicsSystem.js:57-63 | the keys are unchanged, and the id leaves exactly the sets of the entity's groups |
| GroupIndex.Join | core/PhysicsSystem.js:46-52 | the loop of `addEntity` computes AddToGroups |
| GroupIndex.Leave | core/PhysicsSystem.js:57-63 | the loop of `removeEntity` computes RemoveFromGroups, skipping missing groups |
| GroupIndex.RemoveIsIdempotent | core/PhysicsSystem.js:57-63 | removing twice is removing once |
| GroupIndex.RemoveUndoesAdd | core/PhysicsSystem.js:43-64 | adding a new entity and removing it restores every existing set |
| GroupIndex.AddIsLocal | core/PhysicsSystem.js:46-52 | a group the entity is not in is neither created nor changed |
| WorldStep.Ids | core/PhysicsSystem.js:99 | the ids of the entities in iteration order |
| WorldStep.IntegrateTimesPointwise | core/PhysicsSystem.js:87-89 | n integration passes act on each entity independently |
| WorldStep.IntegrateTimesKeepsIds | core/PhysicsSystem.js:87-89 | integration never changes which entity sits where |
| WorldStep.IterateKeepsAttributes | core/PhysicsSystem.js:98-126 | only position, velocity and acceleration ever change |
| WorldStep.SkippedEntityStaysPut | core/PhysicsSystem.js:100 | a non-solid entity, or a sleeping one with sleeping enabled, never moves |
| WorldStep.AccelerationIsConsumed | core/PhysicsSystem.js:123-124 | after at least one sub-step an integrated entity has no acceleration |
| WorldStep.ForceActsOnce | core/PhysicsSystem.js:109-124 | a force acts in the first sub-step only |
| WorldStep.FreeFall | core/PhysicsSystem.js:87-124 | from rest under gravity 10: y = 10 after one 1s sub-step, and 7.5 after two half-second ones |
| WorldStep.CollideAll | core/PhysicsSystem.js:133-137 | the collision loop keeps every entity in its place and changes only velocities |
| WorldStep.TotalMomentumUpdate | core/PhysicsSystem.js:133-137 | replacing one entity changes the total momentum by the difference |
| WorldStep.PairMomentum | core/PhysicsSystem.js:253-263 | a resolved pair has the momentum it came with |
| WorldStep.ResolvePairCases | core/PhysicsSystem.js:134-136 | a pair is either left alone or replaced by its resolution |
| WorldStep.ResolvePairConservesMomentum | core/PhysicsSystem.js:134-136 | one turn of the loop conserves the total momentum |
| WorldStep.CollideAllConservesMomentum | core/PhysicsSystem.js:128-138 | the whole collision pass conserves the total momentum |
| WorldStep.PairsFor | core/PhysicsSystem.js:129-131 | either broadphase yields pairs of distinct entities |
| WorldStep.BoundAllUnlimited | core/PhysicsSystem.js:282-306 | under infinite bounds the pass changes nothing |
| WorldStep.StepConservesMomentumOfCollisions | core/PhysicsSystem.js:80-96 | with infinite bounds, one `update` has the momentum of the integrated collection |
| WorldStep.CoincidentCirclesReachZeroDistance | core/PhysicsSystem.js:233-240 | coincident circles with a rule collide and reach distance 0, where the normal divides by zero; Resolve leaves them alone |
| Physics.Find | core/PhysicsSystem.js:43-64 | the position of the entity with the id, or None iff no entity has it |
| Physics.InsertedKeepsDistinct | core/PhysicsSystem.js:44 | `entities.add` keeps ids distinct and appends a new id |
| Physics.AddKeepsIndex | core/PhysicsSystem.js:43-53 | `addEntity` keeps the group index exact |
| Physics.WithoutKeepsDistinct | core/PhysicsSystem.js:56 | `entities.delete` keeps ids distinct and removes the id |
| Physics.WithoutTakesFromOld | core/PhysicsSystem.js:56 | every entity left was held before |
| Physics.WithoutKeepsOthers | core/PhysicsSystem.js:56 | every entity with another id survives |
| Physics.OnlyHolderOfId | core/PhysicsSystem.js:43-64 | with distinct ids, the held entity carrying an id is unique |
| Physics.RemovedIdIsInNoGroup | core/PhysicsSystem.js:55-64 | after `removeEntity` the id is in no group set |
| Physics.RemoveKeepsWitnessed | core/PhysicsSystem.js:55-64 | after removal every group member is a held entity of that group |
| Physics.RemoveKeepsCovered | core/PhysicsSystem.js:55-64 | after removal every held entity is in the sets of its groups |
| Physics.RemoveKeepsIndex | core/PhysicsSystem.js:55-64 | `removeEntity` keeps the index exact and clears the id from every group |
| Physics.RemoveEntityIsIdempotent | core/PhysicsSystem.js:55-64 | a second `removeEntity` changes neither the entities nor the index |
| Physics.TagsKeepIndex | core/PhysicsSystem.js:80-96 | the index depends only on the ids and groups |
| Physics.StepKeepsTags | core/PhysicsSystem.js:80-96 | `update` changes no entity's place, id or groups |
| Physics.CollidePrefixStep | core/PhysicsSystem.js:133-137 | one more turn of the collision loop is one more ResolvePair |
| Physics.CollideKeepsTags | core/PhysicsSystem.js:133-137 | collisions change velocities only |
| Physics.ResolvePairs | core/PhysicsSystem.js:133-137 | the loop over the pairs computes CollideAll |
| Physics.RegisteredRuleAdmits | core/PhysicsSystem.js:194-204 | once (g1, g2) is registered, entities carrying g1 and g2 pass the group filter |
| Physics.ScannedWithin | core/PhysicsSystem.js:143-157 | the candidates met so far name entities |
| Physics.ScannedRowsWithin | core/PhysicsSystem.js:143-157 | so do those of the earlier entities |
| Physics.ScannedRowStart | core/PhysicsSystem.js:143-146 | before entity i's first candidate the scan has met rows 0..i-1 |
| Physics.ScannedRowEnd | core/PhysicsSystem.js:146-157 | after its last candidate it has met rows 0..i |
| Physics.ScannedStep | core/PhysicsSystem.js:146-155 | meeting one more candidate is one more Keep |
| Physics.KeysSnoc | core/PhysicsSystem.js:152 | the checked set grows by the kept pair's key |
| Physics.PhysicsSystem.constructor | core/PhysicsSystem.js:2-29 | empty entities, index and rules; gravity (0, 9.81); infinite bounds; timeScale 1; 3 iterations; sleeping on; quadtree broadphase |
| Physics.PhysicsSystem.AddEntity | core/PhysicsSystem.js:43-53 | the entity is added to the set and to the sets of its groups; the index stays exact |
| Physics.PhysicsSystem.RemoveEntity | core/PhysicsSystem.js:55-64 | the entity leaves the set and every group set; the index stays exact |
| Physics.PhysicsSystem.SetGravity | core/PhysicsSystem.js:66-69 | gravity becomes (x, y) and nothing else changes |
| Physics.PhysicsSystem.SetWorldBounds | core/PhysicsSystem.js:71-73 | the bounds become the four given sides |
| Physics.PhysicsSystem.SetCollisionGroup | core/PhysicsSystem.js:75-78 | the rule key of (group1, group2) maps to the callback, replacing any earlier one |
| Physics.PhysicsSystem.UpdatePhysics | core/PhysicsSystem.js:98-126 | the entities become IntegrateAll of the old ones |
| Physics.PhysicsSystem.CollisionPairsBruteForce | core/PhysicsSystem.js:161-172 | returns BrutePairs of the entity count |
| Physics.PhysicsSystem.CollisionPairsQuadTree | core/PhysicsSystem.js:140-159 | returns the deduplicated candidate scan |
| Physics.PhysicsSystem.HandleCollisions | core/PhysicsSystem.js:128-138 | the entities become CollideAll over the configured broadphase's pairs |
| Physics.PhysicsSystem.ApplyWorldBounds | core/PhysicsSystem.js:282-306 | the entities become BoundAll under the world bounds |
| Physics.PhysicsSystem.Update | core/PhysicsSystem.js:80-96 | the entities become Step: `iterations` passes of deltaTime*timeScale/iterations, then collisions, then bounds |
| Common.JsRemBounds | core/Sprite.js:122-128 | JavaScript's `%` is below the modulus in magnitude and keeps the dividend's sign |
| OrderedSets.Add | core/Sprite.js:185-190 | `Set.add` contains the new element, keeps every old one and adds nothing else |
| OrderedSets.Delete | core/Sprite.js:192-196 | `Set.delete` removes the element and keeps every other |
| OrderedSets.IndexOf | core/Sprite.js:69 | the first position holding the element, or -1 iff absent |
| OrderedSets.AddKeepsNoDup | core/Sprite.js:185-190 | add keeps the elements distinct |
| OrderedSets.DeleteKeepsNoDup | core/Sprite.js:192-196 | delete keeps the elements distinct |
| OrderedSets.DeleteAbsent | core/Sprite.js:192-196 | deleting an absent element changes nothing |
| OrderedSets.DeleteUndoesAdd | core/Sprite.js:185-196 | delete after add of a new element restores the order |
| OrderedSets.AddIsIdempotent | core/Sprite.js:185-190 | a second add changes nothing |
| OrderedSets.IndexOfAt | core/Sprite.js:69 | in a sequence without repeats each element is found at its own position |
| OrderedSets.AddKeepsPositions | core/Sprite.js:59-65 | adding keeps the positions of the old elements |
| OrderedSets.AddNewGoesLast | core/Sprite.js:59-65 | a new element goes last |
| OrderedSets.AddExtendsPrefix | core/BlockManager.js:75-81 | adding the next element of a repeat-free sequence extends the prefix |
| OrderedSets.FromSeq | core/Sprite.js:32 | `new Set(array)` keeps each element once and adds nothing else |
| OrderedSets.SubscribeAppends | core/Sprite.js:185-190 | `on` appends a new listener, keeps a present one in place, and touches no other event |
| OrderedSets.UnsubscribeRemoves | core/Sprite.js:192-196 | after `off` the listener is not called for the event; others keep their order; no other event changes |
| OrderedSets.UnsubscribeUndoesSubscribe | core/Sprite.js:185-196 | `off` after `on` of a new listener calls the same listeners as before, for every event |
| Sprites.NumberOr | core/Sprite.js:8-26 | `options.p \|\| d`: an absent or zero option gives the default, any other the option |
| Sprites.StringOr | core/Sprite.js:4-5 | an absent or empty string gives the default |
| Sprites.ZeroScaleBecomesOne | core/Sprite.js:11-12 | a scale of 0 passed in becomes 1 |
| Sprites.FrameTime | core/Sprite.js:82-88 | a frame time exists iff the rate is non-zero, and then frameTime * frameRate = 1000 |
| Sprites.Advance | core/Sprite.js:235-256 | `updateAnimation` keeps the frame within the active animation's frames |
| Sprites.AdvanceWaits | core/Sprite.js:236-238 | before the frame time only the timer moves, and no costume is switched |
| Sprites.AdvanceOnDue | core/Sprite.js:238-253 | at the frame time the timer restarts and the frame advances, wraps when looping, or stops |
| Sprites.LoopingAnimationCycles | core/Sprite.js:235-256 | driven steadily, a looping animation shows frame (f + k) mod n after k updates |
| Sprites.OneShotAnimationStops | core/Sprite.js:242-247 | a non-looping animation stops after its remaining frames |
| Sprites.OneShotAnimationAdvances | core/Sprite.js:235-256 | a non-looping animation shows each later frame in turn |
| Sprites.Turned | core/Sprite.js:122-128 | the new heading lies in (-360, 360) and has the sign of rotation + delta |
| Sprites.TurnWithinCircle | core/Sprite.js:122-124 | a turn that stays in [0, 360) is plain addition |
| Sprites.FullTurnFromNonNegative | core/Sprite.js:122-124 | from a non-negative heading a full turn is no turn |
| Sprites.FullTurnFromNegativeChangesSign | core/Sprite.js:122-124 | from -90 a full turn gives 270, not -90 |
| Sprites.CentredBox | core/Sprite.js:150-157 | `getBoundingBox` is centred on (x, y) with the bounding-box size |
| Sprites.SpritesCollideSymmetric | core/Sprite.js:138-148 | the sprite test is symmetric and false when either sprite is not solid |
| Sprites.TouchingSpritesCollide | core/Sprite.js:142-147 | boxes that just touch overlap |
| Sprites.DistantSpritesDoNotCollide | core/Sprite.js:142-147 | centres further apart than the half widths do not overlap |
| Sprites.BounceAxis | core/Sprite.js:265-268 | the reflection is horizontal iff the x overlap is smaller |
| Sprites.BounceAxisSymmetric | core/Sprite.js:265-268 | both sprites of a pair reflect on the same axis |
| Sprites.BounceAxisOfEqualSizes | core/Sprite.js:265-268 | for equal sizes the overlaps are size minus centre distance |
| Sprites.Bounced | core/Sprite.js:258-274 | no bounce or a non-solid other changes nothing; otherwise only the reflected component changes |
| Sprites.BouncedReflects | core/Sprite.js:267-272 | the reflected component is reversed and scaled by the bounce |
| Sprites.SpriteStepIsSubstep | core/Sprite.js:210-233 | a sprite's own step is PhysicsSystem's sub-step under gravity (0, 1) |
| Sprites.RestingSpriteStays | core/Sprite.js:210-233 | a sprite at rest with no force or gravity keeps zero velocity |
| Sprites.Switched | core/Sprite.js:67-73 | an unknown name changes nothing; a known one becomes current at its index |
| Sprites.SetCostumeKeepsTable | core/Sprite.js:59-65 | `costumes.set` keeps the table well formed; a new name goes last; old names keep their places |
| Sprites.NextCostumeLandsOnNext | core/Sprite.js:75-79 | `nextCostume` lands on the costume at (index + 1) mod n |
| Sprites.Sprite.constructor | core/Sprite.js:2-56 | every field takes its option or its default, and the two default listeners are registered |
| Sprites.Sprite.GetBoundingBox | core/Sprite.js:150-157 | the centred box of the sprite |
| Sprites.Sprite.Listeners | core/Sprite.js:198-202 | an event with no set calls no listener |
| Sprites.Sprite.UpdateBoundingBox | core/Sprite.js:131-136 | with a costume the size becomes the image size times the scale magnitudes; without one nothing changes |
| Sprites.Sprite.SwitchCostume | core/Sprite.js:67-73 | the costume fields follow Switched and the box follows the costume |
| Sprites.Sprite.AddCostume | core/Sprite.js:59-65 | the table gains the costume; the first costume becomes current |
| Sprites.Sprite.NextCostume | core/Sprite.js:75-79 | the index becomes (old + 1) mod n and that costume is current |
| Sprites.Sprite.AddAnimation | core/Sprite.js:82-88 | the animation is stored with its frames, rate and frame time |
| Sprites.Sprite.PlayAnimation | core/Sprite.js:90-97 | a known animation restarts at frame 0; an unknown one changes nothing |
| Sprites.Sprite.StopAnimation | core/Sprite.js:99-103 | no animation, frame 0, timer 0 |
| Sprites.Sprite.UpdateAnimation | core/Sprite.js:235-256 | the animation fields follow Advance and the shown frame is switched to |
| Sprites.Sprite.SetVelocity | core/Sprite.js:106-109 | the velocity becomes (x, y) |
| Sprites.Sprite.AddForce | core/Sprite.js:111-114 | forces accumulate in the acceleration |
| Sprites.Sprite.TurnRight | core/Sprite.js:122-124 | the heading becomes Turned(rotation, degrees) |
| Sprites.Sprite.TurnLeft | core/Sprite.js:126-128 | the heading becomes Turned(rotation, -degrees) |
| Sprites.Sprite.UpdatePhysics | core/Sprite.js:210-233 | velocity first, then position from the new velocity; acceleration reset |
| Sprites.Sprite.Update | core/Sprite.js:205-208 | physics, then animation |
| Sprites.Sprite.HandleCollision | core/Sprite.js:258-274 | the velocity becomes Bounced against the other sprite |
| Sprites.Sprite.On | core/Sprite.js:185-190 | the registry becomes Subscribe of the old one |
| Sprites.Sprite.Off | core/Sprite.js:192-196 | the registry becomes Unsubscribe of the old one |
| Sprites.CheckCollisionSymmetric | core/Sprite.js:138-148 | `a.checkCollision(b)` equals `b.checkCollision(a)` |
| Input.KeyDown | core/InputManager.js:120-135 | the key becomes held, and it is pressed iff it was pressed already or not held |
| Input.KeyUp | core/InputManager.js:137-146 | the key becomes released and no longer held |
| Input.ClearEdges | core/InputManager.js:324-328 | the pressed and released sets empty; the held set stays |
| Input.KeyEventsKeepInvariant | core/InputManager.js:120-146 | every pressed key is held or released in the same frame, whatever the events |
| Input.AutoRepeatIsNotAPress | core/InputManager.js:126-129 | an auto-repeated keydown in a later frame is not a new press |
| Input.PressAfterRelease | core/InputManager.js:120-146 | after a keyup the next keydown is a press |
| Input.Resolve | core/InputManager.js:260-270 | an unmapped key resolves to itself |
| Input.MapKeyOverwrites | core/InputManager.js:284-286 | `mapKey` overwrites the action's mapping and no other |
| Input.ButtonDown | core/InputManager.js:272-274 | an unknown button is not down |
| Input.ButtonsFollowLastEvent | core/InputManager.js:148-168 | a button reflects its last event; other buttons are untouched |
| Input.IdentifiersSnoc | core/InputManager.js:194-202 | the changed identifiers grow by the last touch |
| Input.StartTouches | core/InputManager.js:189-209 | the table gains a fresh record per changed touch and keeps the others |
| Input.EndTouches | core/InputManager.js:211-221 | the changed touches' records are removed and the others kept |
| Input.MoveTouches | core/InputManager.js:223-237 | known touches move; unknown ones are skipped; no key appears |
| Input.MoveLandsOnLastPosition | core/InputManager.js:223-237 | a moved known touch ends where it was last reported |
| Input.EndUndoesStart | core/InputManager.js:189-221 | a touch that starts and ends leaves the table as it was |
| Input.SwipeOf | core/InputManager.js:92-107 | a swipe is recognised iff either delta exceeds 50, with the two deltas |
| Input.TapOf | core/InputManager.js:79-90 | a tap is recognised iff the touch lasted under 300 ms, at the start position |
| Input.SwipeDirectionCases | core/InputManager.js:99-101 | horizontal iff \|dx\| > \|dy\|, then the sign picks right/left or down/up |
| Input.MirroredSwipe | core/InputManager.js:99-101 | mirroring swaps right and left; a tie is vertical |
| Input.ChannelOf | core/InputManager.js:288-310 | an event routes to the key, mouse, touch or gesture registry iff it has that prefix |
| Input.FirstLetter | core/InputManager.js:288-310 | a prefixed name begins with the prefix's first letter |
| Input.PrefixesExclusive | core/InputManager.js:288-310 | no name has two of the four prefixes |
| Input.SubscribeKeepsPrefixed | core/InputManager.js:288-322 | `on`/`off` keep every stored name prefixed |
| Input.AsWrittenGestureReachesNoListener | core/InputManager.js:239-243 | as written, `emitGesture` looks up 'tap'/'swipe' in a registry of 'gesture…' names and finds nothing |
| Input.GestureType | core/InputManager.js:85-103 | the recogniser emits the bare 'tap' or 'swipe', which lacks the 'gesture' prefix; prefixing it gives the corrected lookup name |
| Input.GestureEvent | core/InputManager.js:239-243 | the corrected lookup name carries the 'gesture' prefix |
| Input.GestureReachesListener | core/InputManager.js:239-243 | with it, a listener registered for a gesture is called |
| Input.InputManager.constructor | core/InputManager.js:2-36 | empty key sets, maps, touches and registries, and the mouse at (0, 0) |
| Input.InputManager.HandleKeyDown | core/InputManager.js:120-135 | the key sets follow KeyDown, and the 'keydown' listeners are called |
| Input.InputManager.HandleKeyUp | core/InputManager.js:137-146 | the key sets follow KeyUp, and the 'keyup' listeners are called |
| Input.InputManager.Update | core/InputManager.js:324-333 | the edges are cleared |
| Input.InputManager.MapKey | core/InputManager.js:284-286 | the key map gains action → key |
| Input.InputManager.HandleMouseButton | core/InputManager.js:148-168 | the button is set down or up, and the position and listeners follow |
| Input.InputManager.HandleMouseMove | core/InputManager.js:170-178 | the position becomes the target-relative one; 'mousemove' listeners are called |
| Input.InputManager.HandleTouchStart | core/InputManager.js:189-209 | the table follows StartTouches |
| Input.InputManager.HandleTouchEnd | core/InputManager.js:211-221 | the table follows EndTouches |
| Input.InputManager.HandleTouchMove | core/InputManager.js:223-237 | the table follows MoveTouches |
| Input.InputManager.EmitGesture | core/InputManager.js:239-243 | as written: the listeners stored under the bare gesture type are called, and there are none, since every gesture registry name starts with 'gesture' |
| Input.InputManager.On | core/InputManager.js:288-310 | only the registry of the name's prefix gains the listener |
| Input.InputManager.Off | core/InputManager.js:312-322 | only the registry of the name's prefix loses the listener |
| Input.MousePosition | core/InputManager.js:251-257 | the position plus the target's corner is the client position |
| Input.UnroutedEventIsIgnored | core/InputManager.js:288-322 | a name with none of the prefixes reaches no registry |
| Input.MappedActionAsksMappedKey | core/InputManager.js:260-270 | after `mapKey(action, key)` the queries for the action ask about the key |
| Rendering.NewLayer | core/Renderer.js:51-58 | a new layer is visible, opaque, empty and at its z-index |
| Rendering.ScreenToWorld | core/Renderer.js:232-236 | defined iff the camera scale is non-zero |
| Rendering.ScreenToWorldInvertsWorldToScreen | core/Renderer.js:232-242 | screen→world undoes world→screen |
| Rendering.WorldToScreenInvertsScreenToWorld | core/Renderer.js:232-242 | world→screen undoes screen→world |
| Rendering.CameraIsAtScreenCentre | core/Renderer.js:238-242 | the camera's position is drawn at the screen centre |
| Rendering.MovingCameraShiftsScreen | core/Renderer.js:238-242 | moving the camera by (dx, dy) draws every point as if it had moved by (-dx, -dy) |
| Rendering.RotationIsIgnored | core/Renderer.js:228-242 | the camera rotation does not affect either transform |
| Rendering.Entries | core/Renderer.js:115 | the layer entries in insertion order |
| Rendering.InsertByZ | core/Renderer.js:115-116 | one stable insertion keeps the entries and the order |
| Rendering.AppendKeepsSorted | core/Renderer.js:115-116 | appending a layer with a larger z keeps the order |
| Rendering.InsertBeforeLast | core/Renderer.js:115-116 | inserting before a larger last entry keeps entries and order |
| Rendering.SortByZ | core/Renderer.js:115-116 | the sort is a permutation ordered by z-index |
| Rendering.InsertAfterLast | core/Renderer.js:115-116 | an entry with the largest z goes last (stability) |
| Rendering.SortedInit | core/Renderer.js:115-116 | a prefix of an ordered sequence is ordered |
| Rendering.SortKeepsSorted | core/Renderer.js:115-116 | sorting an ordered sequence changes nothing (stable sort) |
| Rendering.DrawnOf | core/Renderer.js:125-144 | only visible sprites of the layer with a costume are drawn |
| Rendering.DrawnAreVisible | core/Renderer.js:118-144 | every drawn sprite is visible, has a costume, and belongs to a visible layer |
| Rendering.VisitedAreVisibleEntries | core/Renderer.js:118-132 | every layer drawn is a visible entry |
| Rendering.VisitedInZOrder | core/Renderer.js:115-132 | layers are drawn in non-decreasing z-index |
| Rendering.Renderer.constructor | core/Renderer.js:2-24 | camera (0, 0, 1, 0), one "default" layer at z 0, current layer "default" |
| Rendering.Renderer.AddLayer | core/Renderer.js:51-58 | the named layer is created or replaced; a new name goes last |
| Rendering.Renderer.SetLayer | core/Renderer.js:60-64 | a known layer becomes current; an unknown one changes nothing |
| Rendering.Renderer.AddToLayer | core/Renderer.js:66-70 | a known layer gains the sprite; an unknown one changes nothing |
| Rendering.Renderer.RemoveFromLayer | core/Renderer.js:72-76 | a known layer loses the sprite; an unknown one changes nothing |
| Rendering.Renderer.SetCamera | core/Renderer.js:212-217 | the camera becomes the four values |
| Rendering.Renderer.MoveCamera | core/Renderer.js:219-222 | the camera moves by (dx, dy) |
| Rendering.Renderer.ZoomCamera | core/Renderer.js:224-226 | the scale is multiplied by the factor |
| Rendering.Renderer.RotateCamera | core/Renderer.js:228-230 | the rotation grows by the angle |
| Rendering.Renderer.SortedLayers | core/Renderer.js:115-116 | a z-ordered permutation of the layer entries |
| Rendering.Renderer.Render | core/Renderer.js:110-141 | the layers visited and the sprites drawn are those of the z-ordered visible layers |
| Rendering.DrawLayer | core/Renderer.js:125-129 | the inner loop appends the drawable sprites of one layer |
| Rendering.RenderStep | core/Renderer.js:118-132 | a visible layer adds its name and its drawable sprites; a hidden one adds nothing |
| Rendering.DrawnOfStep | core/Renderer.js:125-144 | a drawable sprite is appended; any other is skipped |
| Rendering.RenderVisitsInZOrder | core/Renderer.js:110-141 | `render` draws known layers in z order |
| Blocks.WidgetsAreTags | core/BlockManager.js:118-127 | the three widgets are tags without '%' |
| Blocks.Replacement | core/BlockManager.js:120-125 | n, s and b become widgets; any other letter keeps its placeholder |
| Blocks.FormatBlockTemplate | core/BlockManager.js:118-127 | the result has no n, s or b placeholder left and begins like the template or with a tag |
| Blocks.SettledIsUnchanged | core/BlockManager.js:118-127 | a template with no such placeholder is unchanged |
| Blocks.FormatIsIdempotent | core/BlockManager.js:118-127 | formatting twice is formatting once |
| Blocks.FormatMatchFirst | core/BlockManager.js:119-126 | a leading `%x` is replaced and the rest formatted |
| Blocks.FormatKeepFirst | core/BlockManager.js:119-126 | any other first character is kept |
| Blocks.FormatDistributes | core/BlockManager.js:118-127 | formatting distributes over a split not right after '%' |
| Blocks.DistributesAfterMatch | core/BlockManager.js:118-127 | one step of that proof after a placeholder |
| Blocks.DistributesAfterKeep | core/BlockManager.js:118-127 | one step after a kept character |
| Blocks.InputPlaceholders | core/BlockManager.js:120-125 | `%n`, `%s` and `%b` become the number, text and boolean widgets |
| Blocks.OtherPlaceholderKept | core/BlockManager.js:124-125 | another letter, e.g. `%m`, is kept |
| Blocks.LonePercentKept | core/BlockManager.js:119-126 | a '%' not followed by a letter is kept |
| Blocks.TrailingPercentAfterNumber | core/BlockManager.js:118-127 | `%n%` becomes the number widget followed by '%' |
| Blocks.NumberThenPercent | core/BlockManager.js:118-127 | a settled prefix followed by `%n%` keeps the trailing '%' |
| Blocks.Plain | core/BlockManager.js:14-72 | a block with no stack, no else and no result type |
| Blocks.Block.constructor | core/BlockManager.js:185-193 | a fresh block has no neighbours |
| Blocks.LinksAreInverse | core/BlockManager.js:185-193 | next and previous are inverse; only the last block has no next |
| Blocks.FollowReaches | core/BlockManager.js:185-193 | following next k times from block i reaches block i + k |
| Blocks.UpdateBlockConnections | core/BlockManager.js:185-193 | the blocks form a chain in order; the first keeps its previous link |
| Blocks.CategoryNamesAreDistinct | core/BlockManager.js:12-73 | the seven categories have distinct names |
| Blocks.AddsInOrder | core/BlockManager.js:12-81 | adding the seven names in turn gives them in order |
| Blocks.BlockManager.constructor | core/BlockManager.js:2-73 | the seven categories with their colours and blocks, in order |
| Blocks.BlockManager.AddCategory | core/BlockManager.js:75-81 | the category is stored under the name, which is added to the order |

## Left out

- SoundSystem.js and Engine.js are not part of this model. Audio playback needs the browser, and the engine loop needs the clock.
- DOM and canvas work is left out: `createCategoryUI`, `createBlockElement`'s elements, drag and drop, `findDropTarget`, `updateDropIndicator`, `handleBlockDrop`, `renderDebugInfo`, effects, `clear`/`beginDraw`/`endDraw` and `handleResize`. The model keeps only what they compute.
- The quadtree's own `insert`/`retrieve` are not modelled, nor are `setupQuadTree` and `updateQuadTree`. A scan's candidates are a parameter, one list of entity positions per entity. As written, `setupQuadTree` builds a plain object with no `insert` or `retrieve` method, so `update` would throw at `updateQuadTree` as soon as a solid entity exists; the model takes the quadtree path as the evidently intended scan over some candidate lists.
- Floating point is left out: numbers are unrounded reals, NaN and infinities aside. The infinite default world sides are the `Unbounded` side.
- `Math.sqrt` is left out: the distance is a parameter, or replaced by squared comparisons.
- Trigonometry is left out: `Sprite.move`, and the effect of the camera rotation on drawing (the rotation is stored but does not enter either transform).
- Callbacks are opaque tokens. Calling them is modelled as returning the list of listeners that would be called.
- Configuration fields the core never reads are left out, and so are JavaScript's type coercions of option values.
- Aliasing between Sprite objects and PhysicsSystem entities is left out: physics entities are values, so their identity is their id.
- Per-event timing is left out. A touch event gets one `now`. Gamepad polling, the gesture recogniser's closure state and the order of `getTouches` are not modelled.
- The mouse wheel (`handleMouseWheel`), `getMousePos`, `getTouches`, `setWorldPosition` and `getWorldPosition` are left out. They are accessors or only forward DOM events.
- `render` takes a `sprites` argument that it never uses.
- The `engine` of Sprite and BlockManager is left out. Sprite only stores it. BlockManager reads from it only the placed blocks of the code area, which `UpdateBlockConnections` takes as its parameter.
- Blocks.UpdateBlockConnections: requires distinct blocks, which `querySelectorAll` guarantees.
- Sprites.Sprite.NextCostume: requires at least one costume. With none, the source computes the index `NaN`.
- Rendering.ScreenToWorld: a camera scale of 0 gives None, where the source divides by zero.
- Contact.Resolve: leaves the pair unchanged whenever a mass is 0 or the two masses are opposite, because real division by zero is undefined. The source divides anyway. With mass 0 for one body, `1/0` is Infinity, so the impulse scalar is 0 and `0/0` makes that body's velocity NaN. With opposite masses, the inverse sum is 0, so the impulse is ±Infinity (NaN when the approach is 0) and both velocities become non-finite. An infinite mass, which in the source makes `1/mass` zero and freezes that body's velocity while the other takes the whole impulse, cannot be represented, because masses are reals.

## Findings

| source | as written | input that shows it | evidently intended | confidence | as-written member | corrected member |
|---|---|---|---|---|---|---|
| core/PhysicsSystem.js:235-240 | the normal divides by the centre distance, even when it is 0 | two circles with one centre whose groups have a rule: they collide, and dx/0 makes the velocities NaN | skip or special-case a coincident pair | not executed; high | WorldStep.CoincidentCirclesReachZeroDistance | Contact.Resolve |
| core/InputManager.js:239-243 | `emitGesture` (`Input.InputManager.EmitGesture`) looks up the bare 'tap'/'swipe', but `on` stores gesture listeners only under names starting with 'gesture' | `on('gesturetap', f)`, then a tap: f is never called | look the gesture up under its prefixed name | not executed; medium; the intended key format is not stated | Input.AsWrittenGestureReachesNoListener | Input.GestureReachesListener |
