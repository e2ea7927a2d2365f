# Dice-3D scene core, modelled in Dafny

The browser widget throws a handful of dice onto a floor. A rendering engine draws them and a rigid-body engine simulates them. The widget's own logic lives in `src/lib/scene.svelte.js`, and it has three parts, all modelled here:

* **Result resolver** (`getDiceResult`). A fixed table maps the six axis normals of a die to pip values: +Y→1, −Y→6, +X→4, −X→3, +Z→5, −Z→2. For each die that has a body, every normal is rotated by the body's orientation and its up-ness (its dot product with (0,1,0)) is compared against the best so far. The best starts at −1 and is replaced only on a strictly larger value. The value of the winning face is added to the total.
* **Roll/settle session** (`rollDice` and the settlement part of `animate`). A throw sets the "awaiting result" flag, unless some die has no body, and gives every die that has a body a random velocity, position and spin. Each frame copies each complete die's body transform onto its mesh. It then recomputes whether any die is moving: a die moves when both its linear and its angular speed are at least 0.05. The first frame that finds the dice at rest while a result is awaited publishes the total to the result store and clears the flag.
* **Dice collection** (`addDice`, `removeDice`, the start-up loop of `createScene`). This is an ordered list of {mesh, body} records plus the set of bodies registered in the physics world. Adding is guarded against a missing body and against a body already in the world. Removing pops the last die. A complete die's body is then unregistered and both of its references are cleared.

Modules, leaf first:

- `Wrappers`: `Option`.
- `Geometry`: exact real vectors and quaternions.
- `Faces`: the face table.
- `Stamps`: a pass that writes one value per die into a map, where the last write wins.
- `Dice`: die records, the world, and add/remove/create as functions on values.
- `Resolver`: the arg-max scan, the per-die value, the total, and the two loops of `getDiceResult`.
- `Session`: the session flags, one frame, a run of frames, and a throw.
- `Scene`: the class holding the scene's module-level state, with `Create`, `Roll`, `Frame`, `Add` and `Remove`.

Each method is proved against the functions of the modules below it. The lemmas about those functions carry the properties.

These behaviours are kept as the code has them:

- **Motion scan without a body.** The motion scan reads `dice.diceBody.velocity` without a guard (src/lib/scene.svelte.js:29), so a frame throws at the first die without a body. The model reports this as a crash. The frame then publishes nothing and leaves the awaiting flag alone. The motion flag keeps whatever the dice before that die gave it. The transform copy has already happened.
- **Removing from an empty collection.** `pop()` yields `undefined` and the next line throws (src/lib/scene.svelte.js:213). The model returns `None` and changes nothing.
- **Start-up on existing state.** `createScene` builds a new physics world but resets neither the dice list, nor the awaiting flag, nor the store (src/lib/scene.svelte.js:9, 13-14, 77-84). A second start-up appends its dice after the earlier ones, whose bodies are then in no world. A throw made before start-up leaves the flag set, so the first frame at rest after start-up publishes. `Scene.Scene.Create` keeps all of this.
- **Resolver and bodiless dice.** The resolver skips bodiless dice, as the code does. But the motion scan runs first and throws on such a die, so a published total always covers every die. `Session.FramePublishesAtMostOnce` states this.

## Model

| member | source | states |
|---|---|---|
| Faces.NormalsAreDistinctAxes | src/lib/scene.svelte.js:171-178 | the table has six faces whose normals are the six axis unit vectors, none listed twice |
| Faces.ValuesArePermutation | src/lib/scene.svelte.js:171-178 | the six pip values are 1..6, each exactly once |
| Faces.OppositeFacesSumToSeven | src/lib/scene.svelte.js:171-178 | faces are listed in opposite pairs whose normals are negations and whose values sum to 7; all six sum to 21 |
| Geometry.Rotate | src/lib/scene.svelte.js:181 | `vmult`'s rotation of a normal by the body's quaternion, as q (v,0) q*; the identity quaternion (0,0,0,1) leaves every vector where it is |
| Geometry.UpDot | src/lib/scene.svelte.js:181-182 | the dot product of the rotated normal with (0,1,0), which is the rotated normal's height |
| Geometry.UpDotNeg | src/lib/scene.svelte.js:181-182 | for any orientation, a normal and its opposite have up-ness of opposite sign and equal size |
| Geometry.UpDotAxes | src/lib/scene.svelte.js:181-182 | closed forms of the up-ness of +Y, +X and +Z under a quaternion, as the rotate-then-dot computes them |
| Resolver.FaceDots | src/lib/scene.svelte.js:180-182 | one up-ness value per table face, in table order; `Resolver.FaceDotsClosedForm` gives them in closed form |
| Resolver.Leader | src/lib/scene.svelte.js:168-188 | the scan from −1 with strict `>` ends on the face that beats −1, is at least as high as every face, and is strictly higher than every earlier face; it ends on no face exactly when no dot exceeds −1 |
| Resolver.LeaderIsUnique | src/lib/scene.svelte.js:184-187 | any index with that first-maximum property is the one the scan picks, so ties go to the earliest face in table order |
| Resolver.FaceDotsPaired | src/lib/scene.svelte.js:171-182 | the six up-ness values are three values followed each by its negation, in table order |
| Resolver.OppositeDots | src/lib/scene.svelte.js:171-182 | for every orientation, opposite faces have opposite up-ness |
| Resolver.FaceDotsClosedForm | src/lib/scene.svelte.js:171-182 | the six up-ness values of a die in closed form in the quaternion's components |
| Resolver.SomeFaceWins | src/lib/scene.svelte.js:168-189 | for every orientation some face beats −1, so a die never adds `null` |
| Resolver.DieValue | src/lib/scene.svelte.js:168-189 | a die's value lies in 1..6 and is the value of a first-maximal face |
| Resolver.Resolve | src/lib/scene.svelte.js:162-194 | the total lies between B and 6·B, where B is the number of dice that have a body; bodiless dice add nothing |
| Resolver.ResolveBounds | src/lib/scene.svelte.js:163-193 | when every die has a body, the total of N dice lies between N and 6·N |
| Resolver.UnrotatedShowsOne | src/lib/scene.svelte.js:171-188 | an unrotated die (either identity quaternion) has up-ness (1,−1,0,0,0,0) and shows 1 |
| Resolver.HalfTurnShowsSix | src/lib/scene.svelte.js:171-188 | half a turn about X puts −Y on top: up-ness (−1,1,0,0,0,0), value 6 |
| Resolver.QuarterTurnShowsFive | src/lib/scene.svelte.js:171-188 | the unit quarter turn about X that brings +Z up gives up-ness (0,0,0,0,1,−1) and value 5 |
| Resolver.TopFaceValue | src/lib/scene.svelte.js:167-189 | the loop over the six faces (maxDot, diceValue) ends with the die's value |
| Resolver.GetDiceResult | src/lib/scene.svelte.js:162-194 | the loop over the dice, skipping bodiless ones, returns the resolver's total |
| Dice.RestartStrandsEarlierDice | src/lib/scene.svelte.js:76-84 | a start-up over a non-empty collection leaves unregistered every earlier die whose body is not among the loaded ones |
| Dice.CreateRegistersEach | src/lib/scene.svelte.js:80-84 | start-up with N loaded dice with distinct bodies registers every body, and the world then holds exactly N bodies |
| Dice.AddDie | src/lib/scene.svelte.js:196-209 | the outcome is `MissingBody` exactly when the die has no body; a rejected die changes nothing; an accepted one extends the collection by one die, keeps the earlier dice, and grows the world by one body |
| Dice.AddIsGuardedAppend | src/lib/scene.svelte.js:196-209 | adding succeeds exactly when the body exists and is not yet in the world; it then appends the die and registers its body, otherwise nothing changes |
| Dice.RemoveDie | src/lib/scene.svelte.js:211-239 | something is popped exactly when the collection is non-empty; the rest is the collection without its last die; the world loses at most one body, and none when the returned record still has its body |
| Dice.RemoveIsLifo | src/lib/scene.svelte.js:211-239 | removal fails only on an empty collection; otherwise it drops exactly the last die; a complete die is unregistered and returned with both references cleared, an incomplete one is returned as it was and the world is untouched |
| Dice.AddKeepsRegistered | src/lib/scene.svelte.js:196-209 | adding keeps every die's body registered and no body shared by two dice |
| Dice.RemoveKeepsRegistered | src/lib/scene.svelte.js:211-239 | removing keeps every remaining die's body registered and no body shared |
| Dice.RemoveThenAddKeepsCounts | src/lib/scene.svelte.js:196-239 | removing a complete die and then adding one with a fresh body leaves the collection and the world the same size |
| Session.IsMoving | src/lib/scene.svelte.js:29 | a die counts as moving only when both its linear and angular speed reach 0.05; a die that only travels (falling without spin) or only spins counts as at rest |
| Session.AnyMoving | src/lib/scene.svelte.js:27-32 | the roll is moving exactly when some die is moving |
| Session.BodiedPrefix | src/lib/scene.svelte.js:28-29 | the motion scan gets through the dice up to, and not including, the first die without a body |
| Session.ScanCrashesIffBodiless | src/lib/scene.svelte.js:28-29 | the motion scan throws exactly when some die lacks a body |
| Session.AfterRoll | src/lib/scene.svelte.js:114-119 | a throw leaves the history and the motion flag alone, and awaits a result exactly when the count of bodied dice equals the number of dice |
| Session.AfterFrame | src/lib/scene.svelte.js:27-38 | a frame either publishes nothing or appends exactly the resolver's total, and only when every die has a body; it never starts awaiting; a frame that publishes clears both flags |
| Session.MotionFlagIsRecomputed | src/lib/scene.svelte.js:27-32 | a frame's outcome does not depend on the previous motion flag; with every die bodied the new flag is "some die moves" |
| Session.SettledFramePublishes | src/lib/scene.svelte.js:34-38 | awaiting a result with every die at rest: the frame publishes the resolver's total once and clears both flags |
| Session.MovingFrameWaits | src/lib/scene.svelte.js:27-38 | while some die moves, a frame publishes nothing and keeps awaiting |
| Session.FramePublishesAtMostOnce | src/lib/scene.svelte.js:34-38 | a frame appends at most one value, only when a result was awaited and every die has a body, and then stops awaiting; the value lies between N and 6·N |
| Session.RunFrames | src/lib/scene.svelte.js:16-38 | a run of frames, as the self-rescheduling `animate` loop produces them, only extends the published history and never starts awaiting a result |
| Session.NoRollNoPublish | src/lib/scene.svelte.js:34-38 | with no result awaited, any run of frames publishes nothing and awaits nothing |
| Session.OnePublicationPerRoll | src/lib/scene.svelte.js:34-38 | between two throws, a run of frames keeps the earlier results and appends at most one |
| Session.NothingBeforeFirstRoll | src/lib/scene.svelte.js:14-38 | since the awaiting flag starts out falsy, no frame publishes before the first throw |
| Session.IncompleteRollNeverPublishes | src/lib/scene.svelte.js:112-119 | a throw over dice with a bodiless die leaves the flag false, so no later frame publishes |
| Session.RollThenSettlePublishes | src/lib/scene.svelte.js:112-119 | a throw over bodied dice followed by a frame with every die at rest publishes the total and stops awaiting |
| Session.KickOf | src/lib/scene.svelte.js:121-123 | with draws in [0,1), a throw gives the body upward velocity 5 with horizontal jitter in [−0.5,0.5), places it at height 3 within [−2,2), and spins it in [0,10) about each axis |
| Scene.Scene.constructor | src/lib/scene.svelte.js:9-14 | the module starts with no dice, no result awaited, not moving, and a store holding 0 |
| Scene.Scene.Create | src/lib/scene.svelte.js:76-84 | the loaded dice are appended in order after those already held; the world is replaced by one holding exactly the loaded bodies; flags, store, throws and poses are untouched; from an empty collection with distinct bodies the collection is registered and the world holds one body per die; any earlier die whose body is not reloaded leaves the collection unregistered |
| Scene.Scene.Roll | src/lib/scene.svelte.js:112-126 | the awaiting flag ends true exactly when every die has a body; every bodied die, including those after a bodiless one, gets the throw from its own draws; a body no die holds keeps its last throw |
| Stamps.StampLastWriter | src/lib/scene.svelte.js:19-24 | after a per-die pass writes into a map, a key holds the value written by the last die carrying it |
| Stamps.StampUntouched | src/lib/scene.svelte.js:112-126 | a key carried by no die keeps its old entry, or stays absent |
| Scene.Scene.SyncMeshes | src/lib/scene.svelte.js:19-24 | each complete die's mesh takes its body's position and orientation; a mesh no complete die holds keeps its last transform, or stays without one |
| Scene.Scene.ScanMotion | src/lib/scene.svelte.js:27-32 | the motion flag is reset, then set by the dice scanned; the scan crashes exactly when some die has no body |
| Scene.Scene.Frame | src/lib/scene.svelte.js:19-38 | a frame syncs meshes, crashes exactly when a die lacks a body, and otherwise moves the session as `Session.AfterFrame` does; no other mesh, body or die changes |
| Scene.Scene.Add | src/lib/scene.svelte.js:196-209 | the outcome and new collection are those of `Dice.AddDie`; the registration invariant is kept; the session is untouched |
| Scene.Scene.Remove | src/lib/scene.svelte.js:211-239 | `None` exactly on an empty collection, with nothing changed; otherwise the popped record and new collection of `Dice.RemoveDie`; the invariant is kept |

## Left out

- The rendering engine: scene, lights, camera, shadows, `resize` and the per-frame `renderer.render` call (src/lib/scene.svelte.js:41-74, 97-108). This is drawing only. The model also does not track which meshes are attached to the scene graph (`scene.add` in the loader, `scene.remove` in `removeDice`).
- Physics integration. `world.step(1/60)` and the floor body (src/lib/scene.svelte.js:18, 87-95) are the physics engine's floating-point work. A frame takes each body's post-step state as input (`BodyState`: position, orientation, linear and angular speed). `velocity.length()` is given, not computed.
- Floating point. All arithmetic is exact real arithmetic. `Quaternion.vmult` is modelled as the sandwich product q v q*, with the same formula the engine uses. Rounding, NaN and non-unit drift are not captured.
- Randomness. Each throw's seven `Math.random()` results per die are an input (`Session.Draw`). The loader's random start positions are not modelled.
- Asset loading (`generateDice`, src/lib/scene.svelte.js:128-159). It is asynchronous I/O, and its Promise never rejects. A loaded die is an input to `Scene.Scene.Create` and `Scene.Scene.Add`.
- GPU resource release in `removeDice` (`dispose` of geometry, materials and textures, src/lib/scene.svelte.js:215-232). It is a foreign side effect with no state the model keeps.
- `requestAnimationFrame` scheduling, the reactive store object and the server-side-rendering guard (src/lib/scene.svelte.js:9, 17, 52-55). The store is the `published` history; its current value is the last entry, or 0 when the history is empty. Because `animate` reschedules itself before doing any work, a frame that throws does not stop later frames. That is why `Session.RunFrames` continues past such frames.
- Scene.Scene.Create: requires every loaded die to have a body, because the loader always builds one (src/lib/scene.svelte.js:146-152). The engine's own handling of `addBody(undefined)` is not part of this model. Start-up awaits each load in turn, but the model takes it as one step: a throw, add, remove or animation frame that runs between two awaits is not modelled. Nor is the second `animate` loop that a second start-up launches (line 109); with it the settlement step runs twice per displayed frame.
- Scene.Scene.constructor: before the first start-up no physics world exists (`world` is undefined); the model starts from an empty world instead.
- Registering a body already in the world is a no-op in the engine, and unregistering removes it. The world is therefore a set of body handles, not the engine's ordered list.
- src/lib/three/Floor.js is not part of this model. It only builds a mesh.
