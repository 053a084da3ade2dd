# plankton-ai world core in Dafny

This project models the simulation and interaction core of the plankton-ai
game (`src/app/game`): a world of humans and resources on a zoomable,
pannable canvas, where the player selects entities by clicking or dragging a
box, orders the selected humans to walk somewhere for a token fee, and watches
them move, chatter and push each other apart on every tick.

Modules, following the program's files:

- `Geometry`: the vector, viewport and rectangle types and the scalar/vector
  helpers of `utils/canvas.utils.ts`, plus the world/screen maps. Coordinates are
  exact reals. `Math.sqrt` is a parameter `sqrt` constrained by `IsSqrt`, and
  every distance guard is also stated on squared distances.
- `Motion`: the value-level behaviour of a human. This covers one tick of the
  movement state machine (`Step`), the speech-bubble timer (`BubbleStep`), the
  pairwise collision push (`Push`), and the whole avoidance pass of a tick
  (`Avoid`, `AvoidPass`).
- `Stock`: the value-level behaviour of a resource's stock under harvests.
- `Entities`: the entity class. `Entity`, `Human` and `Resource` are one class
  told apart by the constant `kind`, with the constructors `Human` and
  `Resource`. Methods update the fields in place.
- `EntityTable`: the `EntityManager` class. It holds an insertion-ordered id
  list plus an id-to-entity map, which together give the semantics of a
  JavaScript `Map`.
- `World`: the `GameWorld` class. It holds the selection, the drag box, the
  viewport and the tick.
  - The selection is a duplicate-free sequence of ids, which is a JavaScript
    `Set` in insertion order.
  - The `selected` flags of the stored entities are described by the ghost map
    `Flags()`, which maps each id to its flag. The selection operations state
    the new selection and the new `Flags()`.
  - Their frames (``manager.table.Values`selected``) say that nothing else
    changes.
  - `SelectionSound` is the invariant that every raised flag belongs to a
    selected id. Every selection, drag-box, click and removal operation
    preserves it. `AddEntity` preserves it when the added entity is
    unflagged or its id is already selected.
- `Controls`: the rules inside the game screen component `GameCanvas.tsx`.
  These are the token ledger, the right-click move order, wheel zoom anchored
  at the cursor, drag panning, the select tool's mouse-down and the reset.

A human exactly `speed * dt` from its target, and at least `ArrivalRadius`
(2) away from it, lands on it in one tick but stays Moving. The snap that clears the target and sets Idle happens on the
next tick (`Motion.ArrivalTakesTwoTicks`).

## Model

| member | source | states |
|---|---|---|
| Geometry.Clamp | plankton-ai/src/app/game/utils/canvas.utils.ts:22-24 | the result lies in [lo, hi] when lo <= hi; a value already in range is returned unchanged; values below and above are sent to the bounds |
| Geometry.ClampIdempotent | plankton-ai/src/app/game/utils/canvas.utils.ts:22-24 | clamping twice is clamping once |
| Geometry.Lerp | plankton-ai/src/app/game/utils/canvas.utils.ts:34-36 | factor 0 gives start, factor 1 gives end, a factor in [0, 1] stays between start and end |
| Geometry.LerpBetween | plankton-ai/src/app/game/utils/canvas.utils.ts:34-36 | the interpolation offset lies between 0 and end - start for a factor in [0, 1] |
| Geometry.LerpVector | plankton-ai/src/app/game/utils/canvas.utils.ts:39-44 | each coordinate is `Lerp` of that coordinate; factors 0 and 1 give the end points |
| Geometry.DistSq | plankton-ai/src/app/game/utils/canvas.utils.ts:27-31 | the squared distance is non-negative and positive exactly for distinct points |
| Geometry.DistSqSymmetric | plankton-ai/src/app/game/utils/canvas.utils.ts:27-31 | the squared distance is symmetric |
| Geometry.Distance | plankton-ai/src/app/game/utils/canvas.utils.ts:27-31 | the distance is the non-negative root of the squared distance, and is 0 exactly when the points coincide |
| Geometry.DistanceSymmetric | plankton-ai/src/app/game/utils/canvas.utils.ts:27-31 | the distance is symmetric |
| Geometry.PointInRectCorners | plankton-ai/src/app/game/utils/canvas.utils.ts:47-52 | the rectangle test is inclusive: all four corners of a rectangle with non-negative extent lie inside it |
| Geometry.InBox | plankton-ai/src/app/game/core/EntityManager.ts:33-43 | min(a.x, b.x) <= p.x <= max(a.x, b.x) and the same for y, all inclusive: the closed box spanned by two corners in either order (definition; see `InBoxSwap`, `InBoxCorners`) |
| Geometry.InBoxSwap | plankton-ai/src/app/game/core/EntityManager.ts:34-37 | the box spanned by two corners does not depend on their order |
| Geometry.InBoxCorners | plankton-ai/src/app/game/core/EntityManager.ts:33-43 | both corners lie in the box they span (the box is closed) |
| Geometry.PointInRect | plankton-ai/src/app/game/utils/canvas.utils.ts:47-52 | rect.x <= x <= rect.x + width and rect.y <= y <= rect.y + height, all inclusive (definition; see `PointInRectCorners`) |
| Geometry.Add | plankton-ai/src/app/game/utils/canvas.utils.ts:65-70 | componentwise sum (definition; see `SubAddCancel`) |
| Geometry.Sub | plankton-ai/src/app/game/utils/canvas.utils.ts:73-78 | componentwise difference (definition; see `SubAddCancel`) |
| Geometry.Scale | plankton-ai/src/app/game/utils/canvas.utils.ts:81-86 | both components times the scalar (definition; see `ScaleOne`) |
| Geometry.SubAddCancel | plankton-ai/src/app/game/utils/canvas.utils.ts:65-78 | subtracting b after adding b gives the vector back |
| Geometry.ScaleOne | plankton-ai/src/app/game/utils/canvas.utils.ts:81-86 | multiplying a vector by 1 gives the vector back |
| Geometry.Length | plankton-ai/src/app/game/utils/canvas.utils.ts:55-57 | the magnitude is the non-negative root of the squared length and is 0 only for the zero vector |
| Geometry.Normalize | plankton-ai/src/app/game/utils/canvas.utils.ts:55-62 | the zero vector comes back as the zero vector; any other vector yields a unit vector that, scaled by the magnitude, gives the input back |
| Geometry.WorldToScreen | plankton-ai/src/app/game/core/GameWorld.ts:55-60 | world to screen is (p - origin) scaled by zoom |
| Geometry.ScreenToWorld | plankton-ai/src/app/game/core/GameWorld.ts:47-52 | at zoom 1 screen to world is a shift by the origin |
| Geometry.ScreenWorldRoundTrip | plankton-ai/src/app/game/core/GameWorld.ts:47-60 | for a non-zero zoom the two maps are inverse to each other in both orders |
| Geometry.MergeViewport | plankton-ai/src/app/game/core/GameWorld.ts:42-44 | each supplied field replaces the old one and each missing field is kept |
| Motion.IsMoving | plankton-ai/src/app/game/entities/Human.ts:272-274 | moving state and a target present (definition) |
| Motion.Step | plankton-ai/src/app/game/entities/Human.ts:56-84 | a human that is not moving with a target is unchanged; one closer than 2 snaps onto its target, loses it and becomes idle; otherwise it keeps target and state and advances speed * dt along the unit direction to the target |
| Motion.StepDistance | plankton-ai/src/app/game/entities/Human.ts:76-84 | a step that does not arrive covers exactly speed * dt |
| Motion.StepOvershoots | plankton-ai/src/app/game/entities/Human.ts:76-84 | nothing clamps the step: when speed * dt exceeds the remaining distance the human ends further from its start than the target is, still moving |
| Motion.ArrivalTakesTwoTicks | plankton-ai/src/app/game/entities/Human.ts:70-84 | a step of exactly the remaining distance lands on the target still moving; only the next tick clears the target and makes it idle |
| Motion.StepArrivedIsFixed | plankton-ai/src/app/game/entities/Human.ts:70-75 | after the arrival snap the human stands on its target, is no longer moving and further ticks change nothing |
| Motion.BubbleStep | plankton-ai/src/app/game/entities/Human.ts:37-54 | a non-idle human's bubble is reset and hidden; an idle human's timer advances, the bubble shows once its interval has elapsed and, 2 seconds later, resets with the next interval |
| Motion.BubbleStepKeepsOk | plankton-ai/src/app/game/entities/Human.ts:37-54 | a shown bubble stays within its display window after each tick |
| Motion.PushComponent | plankton-ai/src/app/game/entities/Human.ts:309-310 | (delta / d) * (30 - d) * 5 / 30 (definition; see `PushMovesAway`) |
| Motion.Push | plankton-ai/src/app/game/entities/Human.ts:303-314 | a peer at distance 0 or at least 30 does not move the human; a peer strictly inside that range pushes it strictly further away |
| Motion.PushMovesAway | plankton-ai/src/app/game/entities/Human.ts:307-313 | the push formula stretches the offset from the peer by a factor above 1, so the human ends strictly further from the peer |
| Motion.PushNeverCloser | plankton-ai/src/app/game/entities/Human.ts:300-315 | a push never brings a human closer to the peer it is pushed from |
| Motion.Avoid | plankton-ai/src/app/game/entities/Human.ts:296-316 | the peers in order, own id skipped, each other peer applying `Push` to the position left by the previous ones (definition; see `AvoidClear`, `TwoHumansSeparate`) |
| Motion.AvoidPass | plankton-ai/src/app/game/core/GameWorld.ts:165-170 | the avoidance pass lets humans take their turns in order; humans whose turn has not come keep their positions |
| Motion.AvoidPassNext | plankton-ai/src/app/game/core/GameWorld.ts:168-170 | one more turn of the pass moves only the human whose turn it is, by `avoidCollision` against everybody's current positions |
| Motion.AvoidClear | plankton-ai/src/app/game/entities/Human.ts:300-315 | a human with no peer of another id strictly within 30 is not moved by its own turn |
| Motion.AvoidPassSpread | plankton-ai/src/app/game/core/GameWorld.ts:168-170 | when no two humans with different ids are strictly within 30 of each other, the pass moves nobody |
| Motion.AvoidPassStill | plankton-ai/src/app/game/core/GameWorld.ts:168-170 | the turn of a human with no close peer leaves all positions as they were |
| Motion.TwoHumansSeparate | plankton-ai/src/app/game/entities/Human.ts:296-316 | two humans with different ids closer than 30 end the pass strictly further apart |
| Stock.Harvested | plankton-ai/src/app/game/entities/Resource.ts:71-75 | a harvest takes min(request, amount): at most each of them and equal to one of them |
| Stock.CanHarvest | plankton-ai/src/app/game/entities/Resource.ts:66-68 | amount > 0 (definition; see `CanHarvestIffNotDepleted`) |
| Stock.IsDepleted | plankton-ai/src/app/game/entities/Resource.ts:79-81 | amount <= 0 (definition; see `CanHarvestIffNotDepleted`) |
| Stock.CanHarvestIffNotDepleted | plankton-ai/src/app/game/entities/Resource.ts:66-81 | exactly one of `canHarvest` and `isDepleted` holds |
| Stock.HarvestBounds | plankton-ai/src/app/game/entities/Resource.ts:71-75 | with a non-negative stock and request the harvest lies in [0, request] and the stock stays non-negative |
| Stock.HarvestEmpties | plankton-ai/src/app/game/entities/Resource.ts:72-81 | a request of at least the stock leaves 0, which is depleted and not harvestable |
| Stock.HarvestDepleted | plankton-ai/src/app/game/entities/Resource.ts:71-75 | an empty stock yields nothing |
| Stock.HarvestRun | plankton-ai/src/app/game/entities/Resource.ts:71-75 | repeated `harvest` calls in order: total taken and what remains (definition; see the next two rows) |
| Stock.HarvestRunConserves | plankton-ai/src/app/game/entities/Resource.ts:71-75 | over any run of harvests, what was taken plus what is left is the initial amount |
| Stock.HarvestRunBounds | plankton-ai/src/app/game/entities/Resource.ts:71-75 | with non-negative requests, the stock stays between 0 and its initial amount and the total taken is non-negative |
| Entities.Entity.Human | plankton-ai/src/app/game/entities/Human.ts:16-22 | a new human takes id, position, speed, target and state from its arguments and starts unselected with a hidden bubble |
| Entities.Entity.Resource | plankton-ai/src/app/game/entities/Resource.ts:9-14 | a new resource takes id, position, type and amount from its arguments and starts unselected |
| Entities.Entity.DistanceTo | plankton-ai/src/app/game/core/Entity.ts:20-24 | the distance to a point is the non-negative root of the squared distance |
| Entities.Entity.ContainsPoint | plankton-ai/src/app/game/core/Entity.ts:27-29 | the hit test holds exactly when the radius is non-negative and the squared distance is at most its square (inclusive boundary, default radius 10) |
| Entities.Entity.ContainsOwnPosition | plankton-ai/src/app/game/core/Entity.ts:20-29 | an entity contains its own position for every radius >= 0 |
| Entities.Entity.ScreenPosition | plankton-ai/src/app/game/core/Entity.ts:32-37 | the screen position is `WorldToScreen` of the position, and maps back to it for a non-zero zoom |
| Entities.Entity.SetTarget | plankton-ai/src/app/game/entities/Human.ts:260-263 | the target becomes the point and the human is moving; position and flag are kept |
| Entities.Entity.Stop | plankton-ai/src/app/game/entities/Human.ts:266-269 | from any state, the target is cleared and the human is idle and not moving |
| Entities.Entity.IsMoving | plankton-ai/src/app/game/entities/Human.ts:272-274 | `Motion.IsMoving` of the entity's motion fields (see `SetTarget`, `Stop`) |
| Entities.Entity.GetTarget | plankton-ai/src/app/game/entities/Human.ts:277-279 | a copy of the target, present exactly when the target is |
| Entities.Entity.Update | plankton-ai/src/app/game/entities/Human.ts:32-89 | a human's motion fields advance by `Step` and its bubble by `BubbleStep` of the state before the tick; a resource is unchanged (Resource.ts:28-31); the flag and the stock never change |
| Entities.Entity.UpdateBubble | plankton-ai/src/app/game/entities/Human.ts:37-54 | the bubble advances by `BubbleStep`, and nothing but the bubble changes |
| Entities.Entity.UpdateMotion | plankton-ai/src/app/game/entities/Human.ts:56-84 | position, target and state advance by `Step`, and nothing else changes |
| Entities.Entity.AvoidCollision | plankton-ai/src/app/game/entities/Human.ts:296-316 | only the position changes; it becomes `Avoid` over the peers (own id skipped, each other peer pushing in turn) |
| Entities.Entity.PushAwayFrom | plankton-ai/src/app/game/entities/Human.ts:303-314 | the position becomes `Push` from the peer, and nothing else changes |
| Entities.Entity.CanHarvest | plankton-ai/src/app/game/entities/Resource.ts:66-68 | `Stock.CanHarvest` of the amount |
| Entities.Entity.IsDepleted | plankton-ai/src/app/game/entities/Resource.ts:79-81 | `Stock.IsDepleted` of the amount |
| Entities.PushStep | plankton-ai/src/app/game/entities/Human.ts:303-314 | the guarded in-place update of `avoidCollision` for one peer is `Push` |
| Entities.Entity.Harvest | plankton-ai/src/app/game/entities/Resource.ts:71-75 | returns `Harvested(amount, request)` (default request 1) and lowers the stock by exactly that |
| EntityTable.Without | plankton-ai/src/app/game/core/GameWorld.ts:25 | deleting from an ordered id set removes exactly that id, keeps the others in order and keeps them distinct |
| EntityTable.OfType | plankton-ai/src/app/game/core/EntityManager.ts:28-30 | keeps exactly the entities of the type, in order |
| EntityTable.InRange | plankton-ai/src/app/game/core/EntityManager.ts:33-43 | keeps exactly the entities in the closed box, in order |
| EntityTable.FirstHit | plankton-ai/src/app/game/core/EntityManager.ts:46-48 | the index of the first entity whose hit test holds, or the length when none does |
| EntityTable.EntityManager.constructor | plankton-ai/src/app/game/core/EntityManager.ts:5 | a new table is empty |
| EntityTable.EntityManager.AddEntity | plankton-ai/src/app/game/core/EntityManager.ts:8-10 | the entity is stored under its id; an existing id keeps its slot and the count, a new id goes last and the count grows by 1 |
| EntityTable.EntityManager.RemoveEntity | plankton-ai/src/app/game/core/EntityManager.ts:13-15 | returns whether the id was stored; afterwards only that id is gone, the others keep their entries and order |
| EntityTable.EntityManager.StoredUnderOwnId | plankton-ai/src/app/game/core/EntityManager.ts:8-10 | every stored entity is stored under its own id |
| EntityTable.EntityManager.GetEntity | plankton-ai/src/app/game/core/EntityManager.ts:18-20 | the entity under the id, present exactly when the id is stored |
| EntityTable.EntityManager.GetAllEntities | plankton-ai/src/app/game/core/EntityManager.ts:23-25 | the stored entities in insertion order, each exactly once |
| EntityTable.EntityManager.GetByType | plankton-ai/src/app/game/core/EntityManager.ts:28-30 | exactly the stored entities of the type, in stored order |
| EntityTable.EntityManager.GetEntitiesInRect | plankton-ai/src/app/game/core/EntityManager.ts:33-43 | exactly the stored entities inside the closed box spanned by the two corners |
| EntityTable.EntityManager.RectInStoredOrder | plankton-ai/src/app/game/core/EntityManager.ts:33-43 | the entities in a box come in stored order |
| EntityTable.EntityManager.RectCornersCommute | plankton-ai/src/app/game/core/EntityManager.ts:33-43 | swapping the corners gives the same result |
| EntityTable.EntityManager.GetEntityAtPoint | plankton-ai/src/app/game/core/EntityManager.ts:46-48 | nothing exactly when no stored entity contains the point; otherwise the first one in stored order that does |
| EntityTable.EntityManager.Update | plankton-ai/src/app/game/core/EntityManager.ts:51-53 | every stored entity is ticked exactly once by its own `update` |
| EntityTable.EntityManager.Clear | plankton-ai/src/app/game/core/EntityManager.ts:61-63 | the table is empty and the count is 0 |
| EntityTable.EntityManager.Count | plankton-ai/src/app/game/core/EntityManager.ts:66-68 | the number of entries is the number of stored ids |
| World.Insert | plankton-ai/src/app/game/core/GameWorld.ts:67 | `Set.add` on an insertion-ordered set (definition; see `InsertFacts`) |
| World.AddAll | plankton-ai/src/app/game/core/GameWorld.ts:121-123 | `Insert` of each id in turn (definition; see `AddAllFacts`) |
| World.SetFlag | plankton-ai/src/app/game/core/GameWorld.ts:68-71 | the flag of a stored id set, an unknown id ignored (definition; see `SetFlagFacts`) |
| World.SetFlags | plankton-ai/src/app/game/core/GameWorld.ts:83-88 | `SetFlag` for each id in turn (definition; see `SetFlagsFacts`) |
| World.InsertFacts | plankton-ai/src/app/game/core/GameWorld.ts:67 | adding to an ordered id set adds exactly that id, keeps the ids distinct and changes nothing when the id is present |
| World.AddAllFacts | plankton-ai/src/app/game/core/GameWorld.ts:121-123 | adding ids in turn yields the union and keeps the ids distinct |
| World.AddAllToEmpty | plankton-ai/src/app/game/core/GameWorld.ts:117-123 | adding duplicate-free ids to the empty set gives exactly those ids in order |
| World.SetFlagFacts | plankton-ai/src/app/game/core/GameWorld.ts:68-71 | setting one entity's flag changes that flag only and adds no entity |
| World.SetFlagsFacts | plankton-ai/src/app/game/core/GameWorld.ts:83-88 | after setting the flags of listed ids, exactly the stored listed ids carry the value and the others are as before |
| World.ClearedSound | plankton-ai/src/app/game/core/GameWorld.ts:82-90 | clearing the flags of a sound selection lowers every flag |
| World.SelectKeepsSound | plankton-ai/src/app/game/core/GameWorld.ts:63-72 | adding an id and raising its flag keeps every raised flag selected |
| World.DeselectKeepsSound | plankton-ai/src/app/game/core/GameWorld.ts:74-80 | removing an id and lowering its flag keeps every raised flag selected |
| World.SteppedPositions | plankton-ai/src/app/game/core/GameWorld.ts:162 | each human's position after its own motion step |
| World.GameWorld.constructor | plankton-ai/src/app/game/core/GameWorld.ts:14-17 | a new world has an empty table and selection, the viewport (0, 0, zoom 1) and no drag box |
| World.GameWorld.AddEntity | plankton-ai/src/app/game/core/GameWorld.ts:20-22 | delegates to the table, and keeps the selection sound when the new entity is unflagged or already selected |
| World.GameWorld.RemoveEntity | plankton-ai/src/app/game/core/GameWorld.ts:24-27 | drops the id from the selection and returns whether the table held it, which it no longer does |
| World.GameWorld.GetEntity | plankton-ai/src/app/game/core/GameWorld.ts:29-31 | the table's lookup |
| World.GameWorld.GetAllEntities | plankton-ai/src/app/game/core/GameWorld.ts:33-35 | the table's entities in order |
| World.GameWorld.GetViewport | plankton-ai/src/app/game/core/GameWorld.ts:38-40 | the current viewport, as a value copy |
| World.GameWorld.SetViewport | plankton-ai/src/app/game/core/GameWorld.ts:42-44 | the viewport becomes `MergeViewport` of the old one and the patch |
| World.GameWorld.ScreenToWorld | plankton-ai/src/app/game/core/GameWorld.ts:47-52 | the world point that the current viewport shows at the screen point |
| World.GameWorld.WorldToScreen | plankton-ai/src/app/game/core/GameWorld.ts:55-60 | the screen point of a world point, which maps back for a non-zero zoom |
| World.GameWorld.ClearSelection | plankton-ai/src/app/game/core/GameWorld.ts:82-90 | the selection is empty and exactly the flags of the previously selected ids are lowered |
| World.GameWorld.SetSelected | plankton-ai/src/app/game/core/GameWorld.ts:68-71 | the flag of the entity stored under the id, if any, is set; no other flag changes |
| World.GameWorld.SelectEntity | plankton-ai/src/app/game/core/GameWorld.ts:63-72 | the selection becomes exactly [id], or the old one with the id added; the previous selection's flags are lowered first when not adding; the id joins the selection even when no entity has it, and the flag of the entity stored under it, if any, is raised |
| World.GameWorld.AddSelected | plankton-ai/src/app/game/core/GameWorld.ts:67-71 | the id joins the selection and its entity's flag is raised |
| World.GameWorld.DeselectEntity | plankton-ai/src/app/game/core/GameWorld.ts:74-80 | the id leaves the selection and only its entity's flag is lowered; an absent id changes nothing |
| World.GameWorld.GetSelectedEntities | plankton-ai/src/app/game/core/GameWorld.ts:92-94 | the stored entities of selected ids, unknown ids dropped |
| World.GameWorld.StoredOf | plankton-ai/src/app/game/core/GameWorld.ts:93 | the stored entities of a list of ids, unknown ids dropped; when every id is known, exactly the entity of each id in the order of the ids |
| World.GameWorld.StoredOfKnown | plankton-ai/src/app/game/core/GameWorld.ts:93 | in general the result is the entity of each known id, in the order of the ids (`map` then `filter(Boolean)`) |
| World.Known | plankton-ai/src/app/game/core/GameWorld.ts:93 | the ids the table holds, in order: exactly those ids, as a subsequence |
| World.GameWorld.GetSelectedEntityIds | plankton-ai/src/app/game/core/GameWorld.ts:96-98 | the selected ids in insertion order |
| World.GameWorld.StartSelection | plankton-ai/src/app/game/core/GameWorld.ts:101-105 | the box becomes active with both corners at the point; no selection flag changes |
| World.GameWorld.UpdateSelection | plankton-ai/src/app/game/core/GameWorld.ts:107-111 | only the end corner moves, and only while the box is active |
| World.GameWorld.GetSelectionRect | plankton-ai/src/app/game/core/GameWorld.ts:131-139 | the corners, present exactly when the box is active |
| World.GameWorld.FinishSelection | plankton-ai/src/app/game/core/GameWorld.ts:113-129 | always ends with no box; while a box was active, the selection becomes the in-box ids added to the empty or (additive) the old selection and exactly their flags are raised, with nothing toggled off |
| World.GameWorld.SelectBox | plankton-ai/src/app/game/core/GameWorld.ts:114-128 | the active-box branch of `finishSelection` |
| World.GameWorld.EndBox | plankton-ai/src/app/game/core/GameWorld.ts:126-128 | the box is forgotten |
| World.GameWorld.SelectAll | plankton-ai/src/app/game/core/GameWorld.ts:117-123 | each listed entity is selected additively in turn, after clearing unless additive |
| World.GameWorld.BoxFlags | plankton-ai/src/app/game/core/GameWorld.ts:115-123 | after a box selection an entity is flagged exactly when it lies in the box or was flagged before |
| World.GameWorld.SelectAtPoint | plankton-ai/src/app/game/core/GameWorld.ts:142-158 | returns whether something was hit; the new selection and flags are `Clicked`: a selected hit with the additive modifier is deselected, any other hit selected, a miss clears the selection unless additive, and an additive miss changes nothing |
| World.Clicked | plankton-ai/src/app/game/core/GameWorld.ts:142-158 | the four outcomes of a click on the selection and the flags (definition only) |
| World.GameWorld.Update | plankton-ai/src/app/game/core/GameWorld.ts:161-171 | every entity is ticked first; then the humans, in table order, run the avoidance pass over their stepped positions, keeping their selected flag and stock; resources are only ticked |
| World.GameWorld.HumansDistinct | plankton-ai/src/app/game/core/GameWorld.ts:165-166 | the humans of the table are distinct objects |
| World.AvoidAll | plankton-ai/src/app/game/core/GameWorld.ts:168-170 | the positions become the avoidance pass over the positions before it; no other field changes |
| World.AvoidTurn | plankton-ai/src/app/game/core/GameWorld.ts:169 | one human's `avoidCollision` is one turn of the pass |
| Controls.Deduct | plankton-ai/src/app/game/components/GameCanvas.tsx:72-85 | succeeds exactly when enough tokens are available; then moves the cost from available to spent and appends one transaction; on failure nothing changes |
| Controls.InitialBalanced | plankton-ai/src/app/game/components/GameCanvas.tsx:137-139 | the reset ledger (300, 0, no transactions) is balanced |
| Controls.DeductKeepsBalanced | plankton-ai/src/app/game/components/GameCanvas.tsx:72-85 | every deduction keeps available + spent at 300 and spent equal to the recorded costs |
| Controls.DeductNeverOverdraws | plankton-ai/src/app/game/components/GameCanvas.tsx:72-85 | with a non-negative cost, the available tokens never go negative nor grow |
| Controls.TokenLedger.constructor | plankton-ai/src/app/game/components/GameCanvas.tsx:137-139 | the ledger starts at 300 available, 0 spent, no transactions |
| Controls.TokenLedger.DeductTokens | plankton-ai/src/app/game/components/GameCanvas.tsx:72-85 | the new ledger and the result are `Deduct` of the old ledger |
| Controls.TokenLedger.Reset | plankton-ai/src/app/game/components/GameCanvas.tsx:137-139 | the ledger is back at 300 available, 0 spent, no transactions |
| Controls.NatToString | plankton-ai/src/app/game/components/GameCanvas.tsx:283 | a non-empty string of decimal digits |
| Controls.NatToStringRoundTrip | plankton-ai/src/app/game/components/GameCanvas.tsx:283 | the numeral reads back as the number |
| Controls.Join | plankton-ai/src/app/game/components/GameCanvas.tsx:282 | no ids give the empty string and a single id gives itself |
| Controls.JoinSnoc | plankton-ai/src/app/game/components/GameCanvas.tsx:282 | appending an id to a non-empty list appends the separator and the id, so ids are joined in order with one separator between neighbours |
| Controls.MoveDescription | plankton-ai/src/app/game/components/GameCanvas.tsx:283 | "Move n human" with "s" for more than one, then the joined ids in parentheses (definition only; its numeral is fixed by `NatToStringRoundTrip`) |
| Controls.SelectedHumans | plankton-ai/src/app/game/components/GameCanvas.tsx:277-278 | exactly the stored humans whose ids are selected |
| Controls.MoveSelected | plankton-ai/src/app/game/components/GameCanvas.tsx:275-290 | with no selected human nothing is charged or moved; otherwise 10 per human is charged, and only if that succeeds all of them get the target and start moving with every other field kept; every other entity is unchanged |
| Controls.MoveHumans | plankton-ai/src/app/game/components/GameCanvas.tsx:280-290 | the same rule for a given list of humans |
| Controls.SendAll | plankton-ai/src/app/game/components/GameCanvas.tsx:286-288 | every listed human gets the target and starts moving, keeping its position |
| Controls.ZoomFactor | plankton-ai/src/app/game/components/GameCanvas.tsx:350-354 | scrolling down zooms out; anything else, a zero delta included, zooms in |
| Controls.ZoomAt | plankton-ai/src/app/game/components/GameCanvas.tsx:343-371 | the new zoom is the clamped product, it lies in [0.1, 5], and the world point under the cursor stays under it |
| Controls.Wheel | plankton-ai/src/app/game/components/GameCanvas.tsx:336-372 | the wheel handler's two viewport updates yield `ZoomAt`; the selection state is untouched |
| Controls.Pan | plankton-ai/src/app/game/components/GameCanvas.tsx:305-312 | zoom is kept and the world point under the previous cursor is now under the current one |
| Controls.PanStep | plankton-ai/src/app/game/components/GameCanvas.tsx:302-312 | the pan handler's viewport update yields `Pan`; the selection state is untouched |
| Controls.SelectToolDown | plankton-ai/src/app/game/components/GameCanvas.tsx:266-273 | the selection and flags change as `Clicked` says, with Ctrl/Meta as the additive modifier; a drag box starts at the point exactly when nothing was hit and Ctrl/Meta is not held, otherwise the box is unchanged; the selection stays sound |
| Controls.ResetWorld | plankton-ai/src/app/game/components/GameCanvas.tsx:113-139 | the clearing half of the reset: the table and selection are empty, the viewport is centred at zoom 1, the drag box is untouched and the ledger is back at 300/0/none |
| Controls.RemoveAllEntities | plankton-ai/src/app/game/components/GameCanvas.tsx:115-117 | removing every id in turn through the world empties the table; the selection keeps exactly its ids that had no stored entity; the viewport and the drag box are left alone |

## Left out

- Drawing: all `render` and draw code, and the selection-box drawing, are canvas side effects with no simulation state.
- Randomness: the interval a finished speech bubble takes is a parameter (`nextInterval`, or `redraw` per entity id for the whole tick). Random colours, random speeds and random resource placements are not modelled (see `Controls.ResetWorld` below).
- Browser plumbing: mouse and touch coordinate conversion, canvas resizing, listeners, the animation-frame loop, and the mouse-move and mouse-up handlers themselves. Those handlers only call `UpdateSelection`, `PanStep` and `FinishSelection`, which are modelled.
- Numbers: coordinates, zooms and times are exact reals. Floating-point rounding, infinities and NaN are not modelled.
  - `Math.sqrt` is any function satisfying `IsSqrt`.
  - Token counts and resource amounts are mathematical integers.
  - `Math.sign` of a NaN wheel delta is not modelled.
- Geometry.ScreenToWorld: requires a non-zero zoom, because JavaScript would divide by zero. The same requirement is on `World.GameWorld.ScreenToWorld`, `Controls.ZoomAt`, `Controls.Wheel`, `Controls.Pan` and `Controls.PanStep`. The viewport's zoom is 1 initially and after a reset, and the wheel clamps it to [0.1, 5].
- Controls.ResetWorld: models only the clearing half of the reset. The reset then adds five humans and ten resources, and those are not modelled.
  - The humans are `human-0` to `human-4`: Idle, unselected, at 50 * (cos 2πi/5, sin 2πi/5). Only their speeds are random.
  - The resources are `resource-0` to `resource-9`, with random positions, types and amounts.
  - Adding them needs `cos` and `sin` and freshly allocated entities.
- Controls.Deduct: the transaction's time-based id and timestamp are not recorded.
- Controls.TokenLedger.DeductTokens: React's state updates are modelled as immediate and sequential. The handler reading a stale `availableTokens` from its closure is not modelled.
- World.GameWorld.GetSelectedEntities: the contract states which entities are returned and bounds the count, but not their order. The order is stated for `StoredOf`, which computes them, by its contract and by `StoredOfKnown`.
- World.GameWorld.AddEntity: the selection stays sound only when the added entity is unflagged or its id is already selected. The JavaScript code gives no more.
- World.GameWorld.FinishSelection: the code checks `isSelecting && selectionStart && selectionEnd`. The class invariant `Valid` states that an active box always has both corners, so the guard is `isSelecting` alone.
- The debug snapshot `getGameState` is not modelled (its entity map is always empty).
- The animation fields `animationTime`, `walkCycle` and `facingDirection` only feed the drawing and are not modelled.
- `HumanState.Selected` exists in the type but is never assigned by the code. It is kept in the datatype and treated like any other non-moving state.
- Entity constructors copy the configured position. Here positions are values, so a later change to the caller's point cannot move an entity.
- Entity classes: `Entity`, `Human` and `Resource` are one class with a `kind` field. `Harvest` requires a resource, which TypeScript's type system guarantees.
- The presentation panels, the floating menu and the page component are not part of this model.
