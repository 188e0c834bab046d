# Chain simulation (CommunalHelper `Chain` entity)

A Dafny model of the rope-like `Chain` entity of CommunalHelper
(`src/Entities/ChainStuff/Chain.cs`). A chain is an array of `ChainNode`s
(position, velocity, pending acceleration) between two endpoints. Each
endpoint is free, held at a fixed point, or held at a constant offset from a
moving solid. Every frame the chain:

- resets its anchored ends to their anchors;
- integrates every node under gravity and wind;
- runs Gauss–Seidel distance-constraint sweeps whose direction and range depend
  on which ends are anchored.

It then tests whether it is stretched far enough to break in half, and lets the
player push its free nodes.

The project has five files, each a module:

- `vectors.dfy` (`Vectors`) — 2D real vectors standing in for XNA's `Vector2`.
  `Vector2.Distance` comparisons become `FartherThan`, which compares squared
  lengths. `Vector2.Normalize` is a function the host supplies, constrained by
  `IsNormalizer`: it gives a unit vector pointing the same way.
- `chain_node.dfy` (`Nodes`) — the `ChainNode` struct as a datatype.
  `UpdateStep` and `ConstraintTo` return the updated node value.
- `world.dfy` (`World`) — what the chain reads from the engine (`Host`,
  `Player`). It also holds the `Anchor` datatype that replaces the
  `Func<Vector2>` endpoint getters: `Free` for a `null` getter, `Fixed(p)`,
  or `Tracking(solid, offset)`.
- `tick.dfy` (`Simulation`) — the specification functions on node sequences:
  - `Layout`, the constructor's placement;
  - `ResetEnds`, `Integrate`, `ForwardSweep`, `BackwardSweep`, `Solve` and
    `Tick`, which together make up `UpdateChain`;
  - `ShouldBreak`, the break test;
  - `Touched`, `Shaken` and `Jittered`, the three loops over the interior span;
  - `Initial`, a freshly constructed chain.

  It also holds the lemmas about these functions.
- `chain.dfy` (`Chains`) — the `Chain` class. `Nodes` is an `array<ChainNode>`
  that its methods update in place. `attachedStart`, `attachedEnd`, `attached`,
  `removed`, `placed` and `AllowPlayerInteraction` are fields. Each method's
  postcondition equates the new array contents with a `Simulation` function of
  the old contents, and states the new field values.

Host services are parameters:

- `Engine.DeltaTime`, the level's wind and the current positions of solids
  come in a `Host` value;
- `scene.CollideFirst<Solid>` is `host.collideFirst(endpoint)`;
- `Util.TryGetPlayer` is an `Option<Player>`;
- the random directions of `Util.RandomDir` are given as sequences of vectors;
- the children that `Scene.Add` would receive are returned by the method that
  creates them.

## Behaviour of the code worth knowing

The model follows `Chain.cs` in each of these points:

- When both ends are anchored, `UpdateChain` runs a forward sweep over nodes
  1..n-2 **and then** a backward sweep over nodes n-2..1 (Chain.cs:151-158).
  The backward sweep can move node 1 again after the forward sweep fitted it to
  node 0. After such a tick, link (0,1) is therefore not guaranteed to be within
  the rest distance. `SolveLinksWithinRest` proves every other link is.
- `AttachedEndsToSolids` probes **both** ends, including one that already has
  an anchor. It replaces each anchor by a binding to the solid found there, or
  by `Free` when there is none (Chain.cs:55-73). A half created by a break
  therefore never keeps its fixed start at the break point. When a solid lies
  under its node 0, the start tracks that solid from where node 0 is, one
  gravity step below the break point (Chain.cs:55, 62-63). Otherwise the start
  is freed. A half of one node whose far end is anchored is the exception: its
  end reset overwrites its start reset (Chain.cs:129-136), so its node 0, and
  with it the probe and any binding, sits one gravity step below the far
  anchor instead. `IsHalf` states this.
- Both halves of a break get `Nodes.Length / 2` nodes, rounded down. They have
  rest distance 8 whatever the parent's was (Chain.cs:111, 115).
- The placement weight `i / (nodeCount - 1)` is an integer division
  (Chain.cs:45). Every node the loop visits sits at the start point, and the
  last node keeps the zero value of a new array (`LayoutStacksAtStart`).
- The code never rejects small node counts:
  - a chain of one node works, and never breaks (`BreakNeedsTwoNodes`);
  - a node count of zero or less makes the source fail when it indexes or
    allocates the array, so the model requires at least one node.
- The chain is not yet in a scene during construction, so the constructor's
  `UpdateChain` adds no wind (Chain.cs:140).
- The base constructor calls the start getter, so a chain cannot be built with
  a free start (Chain.cs:30).
- Nothing guards `Vector2.Normalize` against a zero vector. With a
  non-negative rest distance the guard `Distance > distance` already excludes
  it, and `IsNormalizer` promises nothing for the zero vector.

## Model

| member | source | states |
|---|---|---|
| `Vectors.FartherThanIsDistance` | src/Entities/ChainStuff/Chain.cs:223 | `FartherThan(a, b, t)` holds exactly when the true distance between `a` and `b` exceeds `t`, so the squared-length test is the source's `Vector2.Distance(..) > t` |
| `Vectors.NeverFartherFromItself` | src/Entities/ChainStuff/Chain.cs:91 | a point is never farther than a non-negative distance from itself |
| `Nodes.ChainNode.UpdateStep` | src/Entities/ChainStuff/Chain.cs:216-220 | semi-implicit Euler: the velocity changes by acceleration·dt, the position then changes by the NEW velocity·dt, and the pending acceleration is zero afterwards |
| `Nodes.ChainNode.ConstraintTo` | src/Entities/ChainStuff/Chain.cs:222-233 | a node within `distance` of the target is returned unchanged; the velocity is never changed; the acceleration gains 210 × (new − old position) exactly when the node was too far and `cancelAcceleration` is off |
| `Nodes.ConstraintToGeometry` | src/Entities/ChainStuff/Chain.cs:223-227 | a node that was too far ends exactly `distance` from the target, on the ray from the target through its old position (parallel and same direction); in every case it ends within `distance` |
| `World.Bind` | src/Entities/ChainStuff/Chain.cs:61-73 | an endpoint is freed exactly when no solid was found; otherwise it tracks that solid with the offset that puts the anchor exactly on the endpoint at binding time |
| `World.TrackingFollowsBody` | src/Entities/ChainStuff/Chain.cs:62-63 | a tracking anchor moves by exactly the displacement of its solid |
| `Simulation.Interior` | src/Entities/ChainStuff/Chain.cs:97 | the shared loop range of the interior loops holds exactly the nodes that are not anchored ends |
| `Simulation.LayoutStacksAtStart` | src/Entities/ChainStuff/Chain.cs:41-46 | with the integer weight, every node the placement loop visits sits at the start point and the last node is the zero node |
| `Simulation.ForwardSweepSpec` | src/Entities/ChainStuff/Chain.cs:146-147 | a forward sweep over `[lo, hi)` changes no node outside it, and constrains each node inside it to the already-updated position of its predecessor (Gauss–Seidel) |
| `Simulation.BackwardSweepSpec` | src/Entities/ChainStuff/Chain.cs:148-149 | a backward sweep over `[lo, i]` changes no node outside it, and constrains each node inside it to the already-updated position of its successor |
| `Simulation.ForwardSweepLinks` | src/Entities/ChainStuff/Chain.cs:152-153 | after a forward sweep, every link it visited is within the rest distance |
| `Simulation.BackwardSweepLinks` | src/Entities/ChainStuff/Chain.cs:156-157 | after a backward sweep, every link it visited is within the rest distance |
| `Simulation.SolveKeepsAnchoredEnds` | src/Entities/ChainStuff/Chain.cs:145-159 | no constraint sweep ever changes an anchored end node |
| `Simulation.SolveLinksWithinRest` | src/Entities/ChainStuff/Chain.cs:145-159 | after the sweeps every link is within the rest distance, except link (0,1) when both ends are anchored |
| `Simulation.TickLinksWithinRest` | src/Entities/ChainStuff/Chain.cs:126-160 | the same for a whole `UpdateChain` |
| `Simulation.TickAnchoredStart` | src/Entities/ChainStuff/Chain.cs:129-143 | after a tick an anchored start node has taken one integration step from rest at its anchor, gravity and wind included, and is not constrained |
| `Simulation.TickAnchoredEnd` | src/Entities/ChainStuff/Chain.cs:133-143 | the same for an anchored end node |
| `Simulation.StepFromRestIsUpdateStep` | src/Entities/ChainStuff/Chain.cs:216-220 | `UpdateStep` of a node at rest moves it at velocity a·dt and by that velocity times dt |
| `Simulation.InteriorLoopsSpareAnchoredEnds` | src/Entities/ChainStuff/Chain.cs:170-180 | player contact, `ShakeImpulse` and `FakeShake` leave anchored end nodes unchanged; the two acceleration loops never change a position or a velocity, and `FakeShake` changes only positions |
| `Simulation.BreakNeedsTwoNodes` | src/Entities/ChainStuff/Chain.cs:91-93 | with a non-negative rest distance, a chain that passes the break test has at least two nodes |
| `Simulation.InitialHangsFromStart` | src/Entities/ChainStuff/Chain.cs:29-48 | the first node of a new chain has taken one gravity-only step from rest at its start anchor |
| `Chains.TruncateToInt` | src/Entities/ChainStuff/Chain.cs:24 | C#'s `(int)` conversion: the result lies within 1 of its argument, on the side nearer zero |
| `Chains.NodeCountCoversDistance` | src/Entities/ChainStuff/Chain.cs:24 | without extra joints, a placed chain gets one node per whole 8 units of distance plus one |
| `Chains.Chain.constructor` | src/Entities/ChainStuff/Chain.cs:29-48 | a new chain has `nodeCount` fresh nodes, laid out and updated once outside any scene (`Initial`), with the given anchors, not placed, not attached, not removed |
| `Chains.Chain.Placed` | src/Entities/ChainStuff/Chain.cs:23-27 | a placed chain has fixed anchors at its two points, rest distance 8, may shatter, lets the player push it and binds to solids on `Awake` |
| `Chains.Chain.LayOut` | src/Entities/ChainStuff/Chain.cs:44-46 | the placement loop leaves the array equal to `Layout` |
| `Chains.Chain.AttachedEndsToSolids` | src/Entities/ChainStuff/Chain.cs:50-77 | runs once: afterwards `attached` holds; on the first call each end is `Bind` of the probe at its end node, and the chain is removed when both ends are free; later calls change nothing |
| `Chains.Chain.Awake` | src/Entities/ChainStuff/Chain.cs:79-84 | only a placed chain binds its ends to solids |
| `Chains.Chain.Update` | src/Entities/ChainStuff/Chain.cs:86-104 | one tick; then, exactly when `ShouldBreak` holds of the ticked nodes, the chain is removed and two halves are returned; then the player's push when interaction is allowed and a player exists |
| `Chains.Chain.PushByPlayer` | src/Entities/ChainStuff/Chain.cs:97-101 | the player-contact loop leaves the array equal to `Touched` over the interior span |
| `Chains.Chain.BreakInHalf` | src/Entities/ChainStuff/Chain.cs:106-117 | removes the chain and returns two fresh halves of `n / 2` nodes from the frozen middle-node position, towards the old start and the old end anchor respectively (`IsHalf`) |
| `Chains.Chain.Half` | src/Entities/ChainStuff/Chain.cs:111-113 | one half: built from the middle towards its far anchor, bound to solids at its end nodes, shaken with strength 10000 |
| `Chains.Chain.UpdateChain` | src/Entities/ChainStuff/Chain.cs:126-160 | the array after the call is `Tick` of the array before it |
| `Chains.Chain.ResetAnchoredEnds` | src/Entities/ChainStuff/Chain.cs:129-136 | the array after the call is `ResetEnds` of the array before it |
| `Chains.Chain.Advance` | src/Entities/ChainStuff/Chain.cs:138-143 | the array after the call is `Integrate` of the array before it |
| `Chains.Chain.Constrain` | src/Entities/ChainStuff/Chain.cs:145-159 | the array after the call is `Solve` of the array before it |
| `Chains.Chain.SweepForward` | src/Entities/ChainStuff/Chain.cs:146-147 | the loop leaves the array equal to `ForwardSweep` |
| `Chains.Chain.SweepBackward` | src/Entities/ChainStuff/Chain.cs:148-149 | the loop leaves the array equal to `BackwardSweep` |
| `Chains.Chain.DetachStart` | src/Entities/ChainStuff/Chain.cs:162-164 | frees the start anchor and changes nothing else |
| `Chains.Chain.DetachEnd` | src/Entities/ChainStuff/Chain.cs:166-168 | frees the end anchor and changes nothing else |
| `Chains.Chain.FakeShake` | src/Entities/ChainStuff/Chain.cs:170-174 | the array after the call is `Jittered` over the interior span, radius 4 |
| `Chains.Chain.ShakeImpulse` | src/Entities/ChainStuff/Chain.cs:176-180 | the array after the call is `Shaken` over the interior span |

## Left out

- `Render`, `InitializeTextures`, `ChainTexture` and the `segment`/`outline`
  fields (Chain.cs:182-209) only draw the chain.
- The audio cue and the particle burst of `BreakInHalf` (Chain.cs:119-123) are
  calls into the engine. They do not affect the chain's state.
- `base.Update` and `base.Awake` of `Entity` belong to the engine.
- `RemoveSelf` sets the `removed` flag. For an entity already in its scene the
  engine removes it at the end of the frame, and that removal is not modelled. `Scene.Add` of the two halves
  is modelled by returning them.
- Chains.Chain.BreakInHalf: `removed` of a half only records that its
  `AttachedEndsToSolids` called `RemoveSelf` (Chain.cs:75-76). That call comes
  right after `Scene.Add` (Chain.cs:111-112, 115-116), before the engine has
  added the half. Whether the engine honours a removal of an entity that is not
  yet in its scene is engine behaviour and is not modelled, so a half with two
  free ends may in fact stay in the scene as a free chain.
- `Util.RandomDir` is not part of this model. The directions it would draw are
  method parameters, one per node.
- The 4×4 probe rectangle that `AttachedEndsToSolids` builds from truncated
  coordinates is part of `host.collideFirst`.
- Floating-point rounding is idealised to real arithmetic.
- `Vector2.Normalize` is a host function. Only its unit-length,
  same-direction property is used.
- Chains.Chain.Placed: the distance between the placed points is a parameter
  (`Vector2.Distance` needs a square root) and is not tied to the points.
  Overflow of the `(int)` conversion is not modelled.
- Chains.Chain.constructor: requires a non-negative rest distance. Every
  constructor call in the source passes 8. With a negative distance every pair
  of nodes counts as too far apart. A one-node chain would then pass the break
  test, and `BreakInHalf` would build halves of zero nodes, whose first
  `UpdateChain` indexes `Nodes[0]` of an empty array (Chain.cs:111, 130) and
  fails. No halves would come out.
- Chains.Chain.Update: takes the directions both halves would be shaken with,
  even in frames where the chain does not break.
- `src/CommunalHelperModule.cs` and `src/CommunalHelperSettings.cs` are not part
  of this model. They register hooks and hold settings.
