# Contraption entity bookkeeping

A model of the discrete bookkeeping of `AbstractContraptionEntity` in the Create mod: the
engine entity that carries a moving cluster of blocks (a *contraption*) through the world.
Every tick the entity ages its table of recently colliding entities, records its previous
position, initializes its contraption once and runs the loop over the contraption's *actors*
(the blocks whose movement behaviour reacts while the contraption moves). That loop decides for
each actor whether it has reached a new grid cell, makes the behaviour callbacks, stops at once
when a callback removes the entity, and aggregates the actors' stall flags into the
contraption's, together with the stall of any stabilized sub-contraption riding it. The entity
also keeps the rider-to-seat table (seating, dismounting, the capacity test and the
seat-interaction eject rule), filters which entities it may push, and guards its one-shot
disassembly so that `contraption.stop` happens at most once.

Files and modules:

- `Geometry.dfy` (`Geometry`): vectors over the reals, grid cells, the floor that maps one to
  the other.
- `Entities.dfy` (`Entities`): other entities as records (`kind`, `noClip`, `spectator`,
  `ridingId`, `pushReaction`), and the event log the entity writes: behaviour callbacks,
  calls into the contraption and packets to the clients.
- `Rotation.dfy` (`Rotation`): `ContraptionRotationState` and `hasVerticalRotation`.
- `Collision.dfy` (`Collision`): `canCollideWith`, as a predicate in source order and as a
  first-match rule list.
- `Aging.dfy` (`Aging`): one tick of the colliding-entity table as a function on maps.
- `Actors.dfy` (`Actors`): `MovementContext`, `shouldActorTrigger`, one actor's turn of the
  loop of `tickActors` and the whole loop (`Run`) as functions, with the trigger, abort and
  stall lemmas.
- `Seats.dfy` (`Seats`): the passenger list and seat-table helpers, and the packets sent
  while every passenger is dismounted.
- `ContraptionEntity.dfy` (`ContraptionEntities`): the classes `Contraption` (the fields of the
  contraption the entity reads and writes) and `ContraptionEntity`, whose methods update the
  entity in place and are proved against the functions above.

Modelling choices:

- Behaviour callbacks are oracle inputs: per actor and tick an `ActorInput` gives the actor's
  global position (the result of the vector transform) and a `Behaviour` script
  (`isActive`, whether each of the visit, speed-change and tick callbacks removes the entity,
  and the stall flag the tick callback leaves). A callback that removes the entity calls the
  entity's own `Remove`.
- `reverseRotation` is a function parameter; `new BlockPos(vec)` is the floor of each
  coordinate; `Vector3d.length() > 0` is "not the zero vector".
- Packets, `contraption.stop`, `onEntityInitialize`/`onEntityTick`, block and passenger
  placement and the moving of entities during disassembly are ghost log entries (`events`).
- Entity identity (`IdentityHashMap`, `UUID`) is an integer id.
- The passengers of the entity are a sequence of records in riding order; `riders` are the
  objects of those passengers that are themselves contraption entities, so that disassembly
  can recurse into stabilized sub-contraptions. The entity's invariant ties the two: the rider
  ids are exactly the ids of the `OrientedContraption` passengers, in riding order, so a
  sub-contraption entity that boards comes with its entity object.
- The engine's `removePassengers` is taken to dismount passengers last-first, each through
  `removePassenger`. The engine's `startRiding` is taken as Minecraft 1.16 has it: a passenger
  already aboard first leaves through this entity's `removePassenger` (on the server its seat
  is freed and the mapping sent), then `addPassenger` puts a player boarding on the server at
  the front of the passenger list (the entity has no controlling passenger) and any other
  passenger at the end.

## Model

| member | source | states |
|---|---|---|
| ContraptionEntities.ContraptionEntity.constructor | src/main/java/com/simibubi/create/content/contraptions/components/structureMovement/AbstractContraptionEntity.java:64-68 | a new entity has no contraption, an invalid previous position, an empty colliding table, no passengers and an empty log, and is valid |
| ContraptionEntities.ContraptionEntity.Tick | src/main/java/com/simibubi/create/content/contraptions/components/structureMovement/AbstractContraptionEntity.java:212-236 | the invariant is kept; without a contraption the entity only removes itself; otherwise the colliding table is aged, `prevPosInvalid` is cleared so the previous position is the current one, the contraption is initialized exactly when it was not, `initialized` is true afterwards, and the contraption is ticked; `stop` stays at most once |
| ContraptionEntities.ContraptionEntity.ContraptionInitialize | src/main/java/com/simibubi/create/content/contraptions/components/structureMovement/AbstractContraptionEntity.java:83-86 | initializing calls into the contraption once and sets `initialized` |
| ContraptionEntities.ContraptionEntity.AgeCollidingEntities | src/main/java/com/simibubi/create/content/contraptions/components/structureMovement/AbstractContraptionEntity.java:219-224 | the in-place iterator loop leaves exactly `Aged` of the old table |
| Aging.Aged | src/main/java/com/simibubi/create/content/contraptions/components/structureMovement/AbstractContraptionEntity.java:219-224 | no key is added, every surviving counter is its old value plus one and at most 3, and every entry whose new counter is at most 3 survives |
| Aging.AgedTimes | src/main/java/com/simibubi/create/content/contraptions/components/structureMovement/AbstractContraptionEntity.java:219-224 | n ticks add no key, add n to every surviving counter, and after at least one tick every counter is at most 3 |
| Aging.AgedTimesSurvivors | src/main/java/com/simibubi/create/content/contraptions/components/structureMovement/AbstractContraptionEntity.java:219-224 | after n ticks without new collisions exactly the entries with counter + n <= 3 remain, each n older |
| Aging.AgeOut | src/main/java/com/simibubi/create/content/contraptions/components/structureMovement/AbstractContraptionEntity.java:219-224 | an entity that stops colliding is forgotten after four ticks |
| ContraptionEntities.ContraptionEntity.Remove | src/main/java/com/simibubi/create/content/contraptions/components/structureMovement/AbstractContraptionEntity.java:459-467 | on the server, removing a live entity with a contraption calls `stop` unless the removal happens inside the actor tick; the entity is removed afterwards and `stop` stays at most once |
| ContraptionEntities.ContraptionEntity.SetContraption | src/main/java/com/simibubi/create/content/contraptions/components/structureMovement/AbstractContraptionEntity.java:70-77 | the entity takes ownership of the contraption |
| ContraptionEntities.ContraptionEntity.AddSittingPassenger | src/main/java/com/simibubi/create/content/contraptions/components/structureMovement/AbstractContraptionEntity.java:92-100 | the passenger starts riding: one already aboard leaves first, then it joins (at the front if it is a player on the server, otherwise at the end; a sub-contraption entity also joins the riders); on the server `seatMapping[uuid] := seatIndex` with no other key changed, preceded by the leaving packet when it was aboard and followed by one full-mapping packet; on a client the mapping and the log are untouched |
| ContraptionEntities.ContraptionEntity.Board | src/main/java/com/simibubi/create/content/contraptions/components/structureMovement/AbstractContraptionEntity.java:93 | `addPassenger`: a passenger not aboard joins the list as `Boarded` says, a sub-contraption passenger's object joins the end of the riders, and the entity stays valid |
| ContraptionEntities.ContraptionEntity.StartRiding | src/main/java/com/simibubi/create/content/contraptions/components/structureMovement/AbstractContraptionEntity.java:93 | `startRiding`: the passenger list becomes `Boarded(Without(passengers, id), passenger, atFront)` with `atFront` exactly for a player on the server, the riders lose the passenger's old rider and gain its object; the server frees the seat and sends one packet exactly when the passenger was aboard, and nothing else is logged |
| ContraptionEntities.ContraptionEntity.RemovePassenger | src/main/java/com/simibubi/create/content/contraptions/components/structureMovement/AbstractContraptionEntity.java:102-115 | the passenger leaves, and the riders if it is one; on the server its key is deleted (a no-op when absent) with no other key changed, followed by one full-mapping packet; on a client nothing else changes |
| ContraptionEntities.ContraptionEntity.Unboard | src/main/java/com/simibubi/create/content/contraptions/components/structureMovement/AbstractContraptionEntity.java:105 | the engine's part of `removePassenger`: the passenger leaves the passenger list and the rider list, and the entity stays valid |
| ContraptionEntities.ContraptionEntity.RemovePassengers | src/main/java/com/simibubi/create/content/contraptions/components/structureMovement/AbstractContraptionEntity.java:442 | dismounting every passenger frees all their seats on the server and sends one packet per passenger, each with the mapping left at that point |
| ContraptionEntities.ContraptionEntity.DetachLast | src/main/java/com/simibubi/create/content/contraptions/components/structureMovement/AbstractContraptionEntity.java:102-115 | one dismount of the last passenger sends the first packet still due |
| Seats.DetachLog | src/main/java/com/simibubi/create/content/contraptions/components/structureMovement/AbstractContraptionEntity.java:102-115 | dismounting the passengers last-first sends one full-mapping packet per passenger and nothing else |
| Seats.DetachLogEndsWithFinalMapping | src/main/java/com/simibubi/create/content/contraptions/components/structureMovement/AbstractContraptionEntity.java:102-115 | the last packet of a full dismount carries the mapping without every dismounted passenger |
| Seats.WithoutLast | src/main/java/com/simibubi/create/content/contraptions/components/structureMovement/AbstractContraptionEntity.java:102-115 | removing the last of a list of distinct passengers leaves the others in order |
| Seats.Boarded | src/main/java/com/simibubi/create/content/contraptions/components/structureMovement/AbstractContraptionEntity.java:93 | boarding adds exactly the passenger, at the front or the end, adds its id, and keeps ids distinct when it was not aboard |
| Seats.BoardedThenWithout | src/main/java/com/simibubi/create/content/contraptions/components/structureMovement/AbstractContraptionEntity.java:93 | a passenger that was not aboard and leaves again after boarding leaves the passenger list as it was |
| Seats.OrientedIdsBoarded | src/main/java/com/simibubi/create/content/contraptions/components/structureMovement/AbstractContraptionEntity.java:93 | boarding a sub-contraption entity appends its id to the sub-contraption ids; any other boarding, at the front or the end, leaves them alone |
| Seats.OrientedIdsAppend | src/main/java/com/simibubi/create/content/contraptions/components/structureMovement/AbstractContraptionEntity.java:93 | appending an entity to a passenger list appends its id to the sub-contraption ids exactly when it is a sub-contraption entity |
| Seats.OrientedIdsWithout | src/main/java/com/simibubi/create/content/contraptions/components/structureMovement/AbstractContraptionEntity.java:105 | a passenger that leaves takes its id out of the sub-contraption ids, the others keep their order |
| Seats.Without | src/main/java/com/simibubi/create/content/contraptions/components/structureMovement/AbstractContraptionEntity.java:105 | leaving removes exactly the passenger's id and keeps the others |
| ContraptionEntities.ContraptionEntity.CanFitPassenger | src/main/java/com/simibubi/create/content/contraptions/components/structureMovement/AbstractContraptionEntity.java:149-156 | true iff the passenger is a sub-contraption (whether or not there is a contraption) or the mapping has fewer entries than there are seats |
| ContraptionEntities.ContraptionEntity.AdmittedPassengerFits | src/main/java/com/simibubi/create/content/contraptions/components/structureMovement/AbstractContraptionEntity.java:149-156 | a seat passenger admitted by the capacity test keeps the mapping within the number of seats |
| Seats.IndexOf | src/main/java/com/simibubi/create/content/contraptions/components/structureMovement/AbstractContraptionEntity.java:160-163 | `indexOf`: -1 iff the position is not a seat, otherwise the first index holding it |
| ContraptionEntities.ContraptionEntity.SeatOccupant | src/main/java/com/simibubi/create/content/contraptions/components/structureMovement/AbstractContraptionEntity.java:165-179 | the scan finds whether a player passenger is mapped to the seat, and otherwise a non-player passenger mapped there, if there is one |
| ContraptionEntities.ContraptionEntity.HandlePlayerInteraction | src/main/java/com/simibubi/create/content/contraptions/components/structureMovement/AbstractContraptionEntity.java:158-192 | false if the position is not a seat or a player sits there; otherwise true, and on the server a non-player occupant is dismounted (one packet), the player leaves a seat it already had (one packet), and it is put at the front of the passengers and mapped to the seat (one more packet); on a client nothing changes |
| ContraptionEntities.ContraptionEntity.ReplaceOccupant | src/main/java/com/simibubi/create/content/contraptions/components/structureMovement/AbstractContraptionEntity.java:181-190 | the occupant, if any, is dismounted before the player is seated; a player already aboard leaves its old seat first |
| Actors.ShouldActorTrigger | src/main/java/com/simibubi/create/content/contraptions/components/structureMovement/AbstractContraptionEntity.java:316-328 | without a previous position the result is false and the context is unchanged; otherwise the new `motion` carries the previous position to the actor's position, `relativeMotion` is `reverseRotation(motion)`, nothing else changes, and the result is true iff the grid cell changed or the relative motion is nonzero while `firstMovement` holds |
| Actors.TriggerRule | src/main/java/com/simibubi/create/content/contraptions/components/structureMovement/AbstractContraptionEntity.java:260-261 | an active, unstalled actor with a previous position is visited iff its grid cell changed, or its relative motion is nonzero while `firstMovement` holds |
| Actors.StalledActorIsNotMoved | src/main/java/com/simibubi/create/content/contraptions/components/structureMovement/AbstractContraptionEntity.java:260-261 | a stalled actor skips the trigger test: its motion is not recomputed and it gets no visit and no speed-change callback |
| Actors.FirstTickOnlyRecordsPosition | src/main/java/com/simibubi/create/content/contraptions/components/structureMovement/AbstractContraptionEntity.java:318-320 | an actor with no previous position is never visited on that tick |
| Actors.FirstMovementClearedByVisit | src/main/java/com/simibubi/create/content/contraptions/components/structureMovement/AbstractContraptionEntity.java:267-272 | `firstMovement` is cleared only by a visit the entity survives (a further callback follows it), and by every such visit |
| Actors.SameCellVisitsOnce | src/main/java/com/simibubi/create/content/contraptions/components/structureMovement/AbstractContraptionEntity.java:260-272 | after a visit, an actor that stays in the same cell on the next tick is not visited again |
| Actors.ActorTurn | src/main/java/com/simibubi/create/content/contraptions/components/structureMovement/AbstractContraptionEntity.java:251-282 | an inactive actor gets no callbacks and cannot break the loop; every callback is of this actor; the context records the new position; the turn breaks exactly when an active actor's callback leaves the entity dead |
| Actors.Callbacks | src/main/java/com/simibubi/create/content/contraptions/components/structureMovement/AbstractContraptionEntity.java:267-280 | the visit is made iff the actor triggered and is not stalled; the speed change iff the motion differs from `oldMotion` and no visit killed the entity; the tick iff neither earlier callback killed it; the entity ends alive iff no callback made killed it; `firstMovement` is cleared iff a visit was survived; the position is kept |
| Actors.SpeedAndTickCalls | src/main/java/com/simibubi/create/content/contraptions/components/structureMovement/AbstractContraptionEntity.java:273-280 | from the speed-change check on: the speed change is made iff the motion differs from `oldMotion`, the tick iff the speed change did not kill the entity, never a visit; the entity ends alive iff no callback made killed it; position, motion and `firstMovement` are kept |
| Actors.SpeedChangeRule | src/main/java/com/simibubi/create/content/contraptions/components/structureMovement/AbstractContraptionEntity.java:273-277 | an active, unstalled actor with a previous position gets `onSpeedChanged` iff its new motion differs from its old one and it was not killed by a visit |
| Actors.Run | src/main/java/com/simibubi/create/content/contraptions/components/structureMovement/AbstractContraptionEntity.java:251-282 | the loop keeps one context per actor, breaks only with the entity dead, and an unbroken loop leaves the entity as alive as it found it |
| Actors.RunStalled | src/main/java/com/simibubi/create/content/contraptions/components/structureMovement/AbstractContraptionEntity.java:281 | when the loop completes, the aggregate stall flag is its start value OR the stall flags of the active actors; inactive actors contribute nothing |
| Actors.AbortSkipsLaterActors | src/main/java/com/simibubi/create/content/contraptions/components/structureMovement/AbstractContraptionEntity.java:269-280 | once a callback kills the entity, no later actor gets a callback or changes |
| Actors.RunBrokenIsFinal | src/main/java/com/simibubi/create/content/contraptions/components/structureMovement/AbstractContraptionEntity.java:270 | after the break, later iterations change nothing |
| Actors.RunTouchesPrefix | src/main/java/com/simibubi/create/content/contraptions/components/structureMovement/AbstractContraptionEntity.java:251-282 | only active actors already reached have had callbacks; the others are untouched |
| Actors.RunNeverStops | src/main/java/com/simibubi/create/content/contraptions/components/structureMovement/AbstractContraptionEntity.java:251-282 | the loop itself never calls `stop` |
| ContraptionEntities.ContraptionEntity.TickActor | src/main/java/com/simibubi/create/content/contraptions/components/structureMovement/AbstractContraptionEntity.java:252-280 | one iteration updates the actor's context in place as `ActorTurn` says |
| ContraptionEntities.ContraptionEntity.RunCallbacks | src/main/java/com/simibubi/create/content/contraptions/components/structureMovement/AbstractContraptionEntity.java:265-281 | the in-place callbacks follow `Callbacks` |
| ContraptionEntities.ContraptionEntity.Callback | src/main/java/com/simibubi/create/content/contraptions/components/structureMovement/AbstractContraptionEntity.java:268-279 | a callback is logged and may remove the entity |
| ContraptionEntities.ContraptionEntity.RunActors | src/main/java/com/simibubi/create/content/contraptions/components/structureMovement/AbstractContraptionEntity.java:250-282 | the in-place loop with `break` ends in the state `Run` describes |
| ContraptionEntities.ContraptionEntity.BeginTick | src/main/java/com/simibubi/create/content/contraptions/components/structureMovement/AbstractContraptionEntity.java:245-250 | the previous stall flag is kept, the server clears the flag, and `ticking` is set |
| ContraptionEntities.ContraptionEntity.StabilizedRiderStalled | src/main/java/com/simibubi/create/content/contraptions/components/structureMovement/AbstractContraptionEntity.java:289-299 | the scan is true iff some stabilized sub-contraption passenger (every `OrientedContraption` passenger is a rider) has a stalled contraption |
| ContraptionEntities.ContraptionEntity.EndTick | src/main/java/com/simibubi/create/content/contraptions/components/structureMovement/AbstractContraptionEntity.java:283-309 | a dead entity calls `stop` once and stays `ticking`; otherwise the tick ends as `FinishTick` says |
| ContraptionEntities.ContraptionEntity.FinishTick | src/main/java/com/simibubi/create/content/contraptions/components/structureMovement/AbstractContraptionEntity.java:287-309 | on the server `stalled` is OR-ed with the sub-contraption stall, the stall packet is sent exactly when `stalled` goes from false to true, and the synced flag equals `stalled`; on a client `stalled` takes the synced flag |
| ContraptionEntities.ContraptionEntity.ActorsTick | src/main/java/com/simibubi/create/content/contraptions/components/structureMovement/AbstractContraptionEntity.java:244-309 | the whole of `tickActors`: the loop as `Run` from a cleared flag (server) or the old flag (client), then the end of the tick |
| ContraptionEntities.ContraptionEntity.TickActors | src/main/java/com/simibubi/create/content/contraptions/components/structureMovement/AbstractContraptionEntity.java:244-309 | `tickActors` on a valid entity keeps it valid, and from an entity alive when the tick starts `stop` is called at most once over the entity's life |
| ContraptionEntities.ContraptionEntity.Disassemble | src/main/java/com/simibubi/create/content/contraptions/components/structureMovement/AbstractContraptionEntity.java:415-444 | a no-op on a removed entity or without a contraption (its whole footprint is unchanged); otherwise the entity is removed first (so a second call is a no-op), the log is exactly `DisassemblyLog`, every passenger is dismounted and on the server its seat freed, and every old rider is left as `Disassembled` says: a stabilized one that is alive and has a contraption ends removed with the same contraption, no passengers and no riders, and its log extended by a log with the outline of a disassembly (`DisassemblyShaped`); any other keeps its removed flag, contraption, log, passengers and riders |
| ContraptionEntities.ContraptionEntity.DisassembleLive | src/main/java/com/simibubi/create/content/contraptions/components/structureMovement/AbstractContraptionEntity.java:421-443 | the steps of a disassembly that goes ahead, in order, with the outcome for the entity and for each old rider that `Disassemble` states |
| ContraptionEntities.ContraptionEntity.Withdraw | src/main/java/com/simibubi/create/content/contraptions/components/structureMovement/AbstractContraptionEntity.java:421-428 | removal (with `stop` on the server) precedes the disassembly packet and the placement of blocks and passengers |
| ContraptionEntities.ContraptionEntity.Dismantle | src/main/java/com/simibubi/create/content/contraptions/components/structureMovement/AbstractContraptionEntity.java:430-443 | sub-contraptions are disassembled, then passengers dismounted, then colliding entities moved; every old rider is left as `Disassembled` says |
| ContraptionEntities.ContraptionEntity.Release | src/main/java/com/simibubi/create/content/contraptions/components/structureMovement/AbstractContraptionEntity.java:442-443 | after the sub-contraptions, all passengers are dismounted (seats freed and one packet each on the server) and the colliding entities moved; no rider's own state changes |
| ContraptionEntities.ContraptionEntity.MoveCollidedEntities | src/main/java/com/simibubi/create/content/contraptions/components/structureMovement/AbstractContraptionEntity.java:446-455 | the entities in the colliding table are moved along with the blocks |
| ContraptionEntities.ContraptionEntity.DisassembleRiders | src/main/java/com/simibubi/create/content/contraptions/components/structureMovement/AbstractContraptionEntity.java:430-440 | each stabilized sub-contraption passenger, in passenger order (the riders are exactly those passengers), is moved and disassembled; the log gains exactly `SubContraptionMoves`, and every rider is left as `Disassembled` says |
| ContraptionEntities.ContraptionEntity.DisassembleRider | src/main/java/com/simibubi/create/content/contraptions/components/structureMovement/AbstractContraptionEntity.java:431-439 | one iteration: a stabilized rider is disassembled and moved (one `SubContraptionMoved` entry), a rider that is not stabilized has its whole footprint unchanged and nothing is logged; either way the rider is left as `Disassembled` says and no other rider changes |
| ContraptionEntities.ContraptionEntity.DisassembleStabilized | src/main/java/com/simibubi/create/content/contraptions/components/structureMovement/AbstractContraptionEntity.java:436-439 | a stabilized rider runs its own `disassemble` and is then moved: when it was alive with a contraption its log gains exactly its own `DisassemblyLog` and on the server its contraption frees the seats of its old passengers; it is left as `Disassembled` says, and no other rider changes |
| ContraptionEntities.DisassemblyLog | src/main/java/com/simibubi/create/content/contraptions/components/structureMovement/AbstractContraptionEntity.java:421-443 | the disassembly log starts with `stop` exactly on the server and with the disassembly packet exactly on a client, and ends with the colliding entities moved |
| ContraptionEntities.DisassemblyStopsOnce | src/main/java/com/simibubi/create/content/contraptions/components/structureMovement/AbstractContraptionEntity.java:415-444 | a disassembly calls `stop` once on the server and never on a client |
| ContraptionEntities.DisassemblyLogShaped | src/main/java/com/simibubi/create/content/contraptions/components/structureMovement/AbstractContraptionEntity.java:421-443 | every disassembly log has the outline `DisassemblyShaped`: `stop` first on the server, then the disassembly packet and the placement of blocks and passengers, the colliding entities moved last, and `stop` once on the server and never on a client |
| ContraptionEntities.DisassembledStopsAtMostOnce | src/main/java/com/simibubi/create/content/contraptions/components/structureMovement/AbstractContraptionEntity.java:430-440 | a rider left by a disassembly as `Disassembled` says keeps its contraption, ends removed iff it already was or it is stabilized and has a contraption, and still calls `stop` at most once over its life |
| ContraptionEntities.SubContraptionMoves | src/main/java/com/simibubi/create/content/contraptions/components/structureMovement/AbstractContraptionEntity.java:430-440 | exactly the stabilized riders are moved: every entry is a stabilized rider, every stabilized rider has an entry, at most one per rider |
| ContraptionEntities.SubContraptionMovesAreRiders | src/main/java/com/simibubi/create/content/contraptions/components/structureMovement/AbstractContraptionEntity.java:430-440 | every move names a rider, and riders with distinct ids are moved at most once each (no entry repeats) |
| ContraptionEntities.RidersWithout | src/main/java/com/simibubi/create/content/contraptions/components/structureMovement/AbstractContraptionEntity.java:105 | a dismounted rider leaves the rider list and the others stay |
| Collision.CanCollideWith | src/main/java/com/simibubi/create/content/contraptions/components/structureMovement/AbstractContraptionEntity.java:584-610 | a collision needs a clipping entity that is not a hanging entity, glue, seat or projectile; a minecart then collides iff the contraption is not mounted, any other entity only with `NORMAL` push reaction, not riding and off the contraption's riding chain |
| Collision.CanCollideWithCharacterized | src/main/java/com/simibubi/create/content/contraptions/components/structureMovement/AbstractContraptionEntity.java:584-610 | a clipping minecart collides iff the contraption is not mounted, before the later tests; any other entity collides iff it is not excluded and its push reaction is `NORMAL`; `noClip` never collides |
| Collision.CanCollideWithIsFirstMatch | src/main/java/com/simibubi/create/content/contraptions/components/structureMovement/AbstractContraptionEntity.java:584-610 | the filter equals the first deciding test, in source order, falling through to the push reaction |
| Collision.OnRidingChain | src/main/java/com/simibubi/create/content/contraptions/components/structureMovement/AbstractContraptionEntity.java:602-607 | the riding-chain walk finds an entity iff it is on the chain |
| ContraptionEntities.ContraptionEntity.PrevPositionVec | src/main/java/com/simibubi/create/content/contraptions/components/structureMovement/AbstractContraptionEntity.java:570-572 | the current position while `prevPosInvalid` |
| Rotation.ContraptionRotationState.HasVerticalRotation | src/main/java/com/simibubi/create/content/contraptions/components/structureMovement/AbstractContraptionEntity.java:643-645 | a vertical rotation is a rotation, and one that remains with the yaw removed |
| Rotation.VerticalRotationIgnoresYaw | src/main/java/com/simibubi/create/content/contraptions/components/structureMovement/AbstractContraptionEntity.java:643-645 | vertical rotation iff the x or z angle is nonzero; the yaw angles do not matter |
| Geometry.GridOf | src/main/java/com/simibubi/create/content/contraptions/components/structureMovement/AbstractContraptionEntity.java:259 | the grid cell of a position contains it |
| Geometry.Sub | src/main/java/com/simibubi/create/content/contraptions/components/structureMovement/AbstractContraptionEntity.java:322 | the motion added to the previous position gives the new one |
| Entities.StopCount | src/main/java/com/simibubi/create/content/contraptions/components/structureMovement/AbstractContraptionEntity.java:461-462 | the number of `stop` calls in a log is zero iff none is there |

## Left out

- Vector and rotation arithmetic (`toGlobalVector`, `toLocalVector`, `getPassengerPosition`,
  `getContactPointMotion`, `asMatrix`, `yawFromVector`, `pitchFromVector`): floating-point
  trigonometry over abstract `applyRotation`/`reverseRotation`. Actor positions are inputs and
  `reverseRotation` a parameter; the dismount location written in `removePassenger` and the
  positions set during disassembly are not modelled.
- Networking and data sync: packets are log entries; `STALLED` is the field `stalledData`; the
  client packet handlers are not modelled.
- NBT persistence and spawn data (`writeAdditional`, `readAdditional`, `writeSpawnData`,
  `readSpawnData`, `writeWithoutTypeId`): engine serialization of the contraption.
- Inside disassembly, `addBlocksToWorld`, `addPassengersToWorld`, `makeStructureTransform`,
  `StructureTransform.apply` and `moveCollidedEntitiesOnDisassembly` are single log entries.
- `contraption.onEntityCreated`, `onEntityRemoved`, `onEntityInitialize` and `onEntityTick`,
  `tickContraption` and `super.tick` are foreign or abstract; initialization and the contraption
  tick are log entries, the others are not modelled.
- What a behaviour callback does besides removing the entity and setting `stall` (changing
  `motion`, or stalling in the visit or speed-change callback) is not modelled.
- Concrete movement behaviours and `AllMovementBehaviours.of`: the `Behaviour` oracle.
- Empty engine overrides (`setMotion`, `setFire`, `doWaterSplashEffect`, `attackEntityFrom`,
  `canBeCollidedWith`, `getPushReaction`, `build`, `createSpawnPacket`, `doLocalTransforms`),
  `updatePassengerPosition`, `setPosition`, `move` and `getYawOffset`: engine glue with no
  bookkeeping.
- `onKillCommand` and `outOfWorld` dismount every passenger through `removePassengers` (which
  `RemovePassengers` models) before the engine's own handling, and `onRemovedFromWorld` on the
  server removes every passenger, which stops the contraption of a sub-contraption rider through
  that rider's `remove`. These engine hooks are not modelled as operations of their own.
- `CreateClient.java`: client event-bus, model and renderer registration.
- `startRiding` from another vehicle: leaving that vehicle is the other vehicle's business and
  is not modelled. A sub-contraption entity that boards is given to `AddSittingPassenger`
  together with its entity object, which the engine would find through the passenger.
- ContraptionEntities.ContraptionEntity.Unboard: the footprint `Repr` keeps the objects of a
  rider that leaves; it is a ghost upper bound on what the entity may change, so later methods
  may name a former rider in their frames.
- ContraptionEntities.ContraptionEntity.HandlePlayerInteraction: when several non-player
  passengers are mapped to the seat, the model promises only that one of them is dismounted,
  not which one the scan over the (unordered) seat mapping meets last.
- ContraptionEntities.ContraptionEntity.Disassemble: a stabilized rider's own disassembly is
  logged before the entry that moves it, while the entity sets the rider's position first; the
  position itself is not modelled.
- `remove` on a client also marks the entity removed; `super.remove(keepData)` is otherwise
  engine code, and `keepData` is not modelled.
- `supportsTerrainCollision` answers whether the contraption is a translating contraption;
  contraption kinds are not modelled. `collisionEnabled` (always true) and `isOnePlayerRiding`
  (always false) are constant answers with no bookkeeping.
- ContraptionEntities.ContraptionEntity.Disassemble: it requires the object invariant
  `Valid()`, under which a live entity is not inside its actor tick. A disassembly started by an
  actor callback on a live entity, while `ticking` is set (line 248) so that `remove` skips
  `stop` (line 461), is not modelled.
- ContraptionEntities.ContraptionEntity.DisassembleRiders: the loop, and `Dismantle`,
  `DisassembleLive` and `Disassemble` above it, state of a stabilized rider only the outline of
  the log it adds (`DisassemblyShaped`), not its exact `DisassemblyLog`, and of every rider
  neither its contraption's seat mapping nor the objects deeper in its footprint.
  `DisassembleStabilized` and `DisassembleRider` state those for the one rider they handle;
  carrying them through the loop exceeds the verifier's resource bound.
- ContraptionEntities.ContraptionEntity.AddSittingPassenger: it promises no bound of the seat
  mapping by the number of seats, because the source keeps none: the passenger boards with
  `startRiding(this, true)` (line 93), which skips `canFitPassenger`. `AdmittedPassengerFits`
  states the bound for a passenger that passed the test.
