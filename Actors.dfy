/** The per-tick processing of a contraption's actors: the blocks whose movement behaviour
    reacts while the contraption moves. The behaviours themselves are not modelled; what they
    do in one tick is given as a `Behaviour`. */
module Actors {
  import opened Geometry
  import opened Entities

  /** The working state an actor keeps between ticks. `position` is the actor's global
      position at the previous tick, `None` before its first tick. */
  datatype MovementContext = MovementContext(
    motion: Vec3,
    relativeMotion: Vec3,
    position: Option<Vec3>,
    stall: bool,
    firstMovement: bool)

  /** An actor: its block's position inside the contraption and its context. */
  datatype Actor = Actor(localPos: GridPos, context: MovementContext)

  /** What an actor's behaviour does in one tick: whether it is active, whether each of its
      three callbacks removes the contraption entity, and the stall flag its tick callback
      leaves in the context. */
  datatype Behaviour = Behaviour(
    isActive: bool,
    killsOnVisit: bool,
    killsOnSpeedChange: bool,
    killsOnTick: bool,
    stallAfterTick: bool)

  /** The inputs for one actor in one tick: its global position this tick (the contraption's
      transform applied to the actor's block centre and active-area offset) and its behaviour. */
  datatype ActorInput = ActorInput(position: Vec3, behaviour: Behaviour)

  /** `shouldActorTrigger`: whether the actor has moved to a new position that its behaviour
      must visit, together with the context with `motion` and `relativeMotion` refreshed.
      `reverseRotation` undoes the contraption's current rotation. */
  function ShouldActorTrigger(ctx: MovementContext, actorPosition: Vec3, gridPosition: GridPos,
                              reverseRotation: Vec3 -> Vec3): (r: (bool, MovementContext))
    ensures r.1.position == ctx.position && r.1.stall == ctx.stall
    ensures r.1.firstMovement == ctx.firstMovement
    ensures ctx.position.None? ==> r == (false, ctx)
    ensures ctx.position.Some? ==>
      var previous := ctx.position.value;
      && Vec3(previous.x + r.1.motion.x, previous.y + r.1.motion.y, previous.z + r.1.motion.z)
           == actorPosition
      && r.1.relativeMotion == reverseRotation(r.1.motion)
      && (r.0 <==> GridOf(previous) != gridPosition
                   || (HasPositiveLength(r.1.relativeMotion) && ctx.firstMovement))
  {
    match ctx.position
    case None => (false, ctx)
    case Some(previousPosition) =>
      var motion := Sub(actorPosition, previousPosition);
      var moved := ctx.(motion := motion, relativeMotion := reverseRotation(motion));
      (GridOf(previousPosition) != gridPosition
         || (HasPositiveLength(moved.relativeMotion) && moved.firstMovement),
       moved)
  }

  /** The outcome of one actor's turn: its new context, whether the contraption entity is
      still alive, the callbacks made, and whether the loop stops here. */
  datatype Turn = Turn(context: MovementContext, alive: bool, calls: seq<Event>, broke: bool)

  /** The callbacks from the speed-change check on: a speed change when the motion differs
      from `oldMotion`, then the tick, each followed by a check of the entity. The tick leaves
      the actor's stall flag in the context. */
  function SpeedAndTickCalls(i: nat, ctx: MovementContext, oldMotion: Vec3, behaviour: Behaviour,
                             alive: bool): (t: Turn)
    ensures t.broke <==> !t.alive
    ensures t.alive <==> alive && (SpeedChanged(i) in t.calls ==> !behaviour.killsOnSpeedChange)
                             && (ActorTick(i) in t.calls ==> !behaviour.killsOnTick)
    ensures t.calls != [] && forall e :: e in t.calls ==> e.IsCallback() && e.actor == i
    ensures SpeedChanged(i) in t.calls <==> oldMotion != ctx.motion
    ensures ActorTick(i) in t.calls <==>
      !(SpeedChanged(i) in t.calls && (!alive || behaviour.killsOnSpeedChange))
    ensures VisitNewPosition(i) !in t.calls
    ensures t.context.position == ctx.position && t.context.motion == ctx.motion
    ensures t.context.firstMovement == ctx.firstMovement
  {
    if oldMotion != ctx.motion then
      if !alive || behaviour.killsOnSpeedChange then Turn(ctx, false, [SpeedChanged(i)], true)
      else
        var aliveAfterTick := !behaviour.killsOnTick;
        Turn(ctx.(stall := behaviour.stallAfterTick), aliveAfterTick, [SpeedChanged(i), ActorTick(i)],
             !aliveAfterTick)
    else
      var aliveAfterTick := alive && !behaviour.killsOnTick;
      Turn(ctx.(stall := behaviour.stallAfterTick), aliveAfterTick, [ActorTick(i)], !aliveAfterTick)
  }

  /** The callbacks of an active actor whose context `placed` has been moved to its new
      position: a visit when it triggered and is not stalled, after which the first movement
      is over, then the speed change and the tick; the entity, `alive` or not on entry, is
      checked after each callback, and the turn breaks off at the first check that finds it
      removed. */
  function Callbacks(i: nat, placed: MovementContext, oldMotion: Vec3, triggered: bool,
                     behaviour: Behaviour, alive: bool): (t: Turn)
    ensures t.broke <==> !t.alive
    ensures t.alive <==> alive && (VisitNewPosition(i) in t.calls ==> !behaviour.killsOnVisit)
                             && (SpeedChanged(i) in t.calls ==> !behaviour.killsOnSpeedChange)
                             && (ActorTick(i) in t.calls ==> !behaviour.killsOnTick)
    ensures t.calls != [] && forall e :: e in t.calls ==> e.IsCallback() && e.actor == i
    ensures VisitNewPosition(i) in t.calls <==> triggered && !placed.stall
    ensures SpeedChanged(i) in t.calls <==>
      oldMotion != placed.motion
      && !(VisitNewPosition(i) in t.calls && (!alive || behaviour.killsOnVisit))
    ensures ActorTick(i) in t.calls <==>
      && !(VisitNewPosition(i) in t.calls && (!alive || behaviour.killsOnVisit))
      && !(SpeedChanged(i) in t.calls && (!alive || behaviour.killsOnSpeedChange))
    ensures t.context.firstMovement
            == (placed.firstMovement && !(VisitNewPosition(i) in t.calls && t.calls != [VisitNewPosition(i)]))
    ensures t.context.position == placed.position
  {
    if triggered && !placed.stall then
      if !alive || behaviour.killsOnVisit then Turn(placed, false, [VisitNewPosition(i)], true)
      else
        var t := SpeedAndTickCalls(i, placed.(firstMovement := false), oldMotion, behaviour, true);
        t.(calls := [VisitNewPosition(i)] + t.calls)
    else SpeedAndTickCalls(i, placed, oldMotion, behaviour, alive)
  }

  /** One iteration of the actor loop for actor `i`, with the entity `alive` or not on entry:
      an actor that is not stalled is asked whether it triggers, its context records its new
      position, and an active actor's callbacks run. */
  function ActorTurn(i: nat, ctx: MovementContext, input: ActorInput,
                     reverseRotation: Vec3 -> Vec3, alive: bool): (t: Turn)
    ensures t.broke <==> input.behaviour.isActive && !t.alive
    ensures t.alive ==> alive
    ensures forall e :: e in t.calls ==> e.IsCallback() && e.actor == i
    ensures !input.behaviour.isActive <==> t.calls == []
    ensures !input.behaviour.isActive ==> t.alive == alive
    ensures t.context.position == Some(input.position)
  {
    var trigger :=
      if ctx.stall then (false, ctx)
      else ShouldActorTrigger(ctx, input.position, GridOf(input.position), reverseRotation);
    var placed := trigger.1.(position := Some(input.position));
    if !input.behaviour.isActive then Turn(placed, alive, [], false)
    else Callbacks(i, placed, ctx.motion, trigger.0, input.behaviour, alive)
  }

  /** The state of the actor loop. */
  datatype LoopState = LoopState(actors: seq<Actor>, alive: bool, stalled: bool, calls: seq<Event>,
                                 broke: bool)

  /** The loop after its first `k` iterations (fewer if it broke out earlier), starting from the
      actors `actors0`, the entity alive or not, and the aggregate stall flag `stalled0`. */
  function Run(actors0: seq<Actor>, inputs: seq<ActorInput>, reverseRotation: Vec3 -> Vec3,
               alive0: bool, stalled0: bool, k: nat): (st: LoopState)
    requires |inputs| == |actors0| && k <= |actors0|
    ensures |st.actors| == |actors0|
    ensures st.broke ==> !st.alive
    ensures !st.broke ==> st.alive == alive0
  {
    if k == 0 then LoopState(actors0, alive0, stalled0, [], false)
    else
      var st := Run(actors0, inputs, reverseRotation, alive0, stalled0, k - 1);
      if st.broke then st
      else
        var turn := ActorTurn(k - 1, st.actors[k - 1].context, inputs[k - 1], reverseRotation, st.alive);
        LoopState(st.actors[k - 1 := st.actors[k - 1].(context := turn.context)],
                  turn.alive,
                  if !turn.broke && inputs[k - 1].behaviour.isActive then st.stalled || turn.context.stall
                  else st.stalled,
                  st.calls + turn.calls,
                  turn.broke)
  }

  /** A stalled actor is not asked whether it triggers: its motion is left as it was, and it
      gets neither a visit nor a speed-change callback. */
  lemma StalledActorIsNotMoved(i: nat, ctx: MovementContext, input: ActorInput,
                               reverseRotation: Vec3 -> Vec3, alive: bool)
    requires ctx.stall
    ensures var t := ActorTurn(i, ctx, input, reverseRotation, alive);
      && t.context.motion == ctx.motion && t.context.relativeMotion == ctx.relativeMotion
      && VisitNewPosition(i) !in t.calls && SpeedChanged(i) !in t.calls
  {
  }

  /** An actor on its first tick has no previous position: it neither visits nor changes
      speed, and only records where it is. */
  lemma FirstTickOnlyRecordsPosition(i: nat, ctx: MovementContext, input: ActorInput,
                                     reverseRotation: Vec3 -> Vec3, alive: bool)
    requires ctx.position.None?
    ensures var t := ActorTurn(i, ctx, input, reverseRotation, alive);
      && t.context.motion == ctx.motion && t.context.relativeMotion == ctx.relativeMotion
      && VisitNewPosition(i) !in t.calls && SpeedChanged(i) !in t.calls
  {
  }

  /** The trigger rule: an active, unstalled actor with a previous position is asked to visit
      its new position exactly when its grid cell changed, or when it moved relative to the
      contraption before its first completed visit. */
  lemma TriggerRule(i: nat, ctx: MovementContext, input: ActorInput,
                    reverseRotation: Vec3 -> Vec3, alive: bool)
    requires input.behaviour.isActive && !ctx.stall && ctx.position.Some?
    ensures var previous := ctx.position.value;
      var motion := Sub(input.position, previous);
      VisitNewPosition(i) in ActorTurn(i, ctx, input, reverseRotation, alive).calls
      <==> GridOf(previous) != GridOf(input.position)
           || (HasPositiveLength(reverseRotation(motion)) && ctx.firstMovement)
  {
  }

  /** `firstMovement` is cleared only by a visit, and always by a visit that the entity
      survives. */
  lemma FirstMovementClearedByVisit(i: nat, ctx: MovementContext, input: ActorInput,
                                    reverseRotation: Vec3 -> Vec3, alive: bool)
    ensures var t := ActorTurn(i, ctx, input, reverseRotation, alive);
      && (ctx.firstMovement && !t.context.firstMovement ==> VisitNewPosition(i) in t.calls && |t.calls| > 1)
      && (!ctx.firstMovement ==> !t.context.firstMovement)
      && (VisitNewPosition(i) in t.calls && |t.calls| > 1 ==> !t.context.firstMovement)
  {
  }

  /** The speed-change rule: an active, unstalled actor with a previous position gets a
      speed-change callback exactly when its recomputed motion differs from the motion it had,
      unless a visit made just before it removed the entity. */
  lemma SpeedChangeRule(i: nat, ctx: MovementContext, input: ActorInput,
                        reverseRotation: Vec3 -> Vec3, alive: bool)
    requires input.behaviour.isActive && !ctx.stall && ctx.position.Some?
    ensures var t := ActorTurn(i, ctx, input, reverseRotation, alive);
      SpeedChanged(i) in t.calls
      <==> Sub(input.position, ctx.position.value) != ctx.motion
           && !(VisitNewPosition(i) in t.calls && |t.calls| == 1)
  {
  }

  /** An actor that visited a position and stays in the same grid cell on the next tick is
      not asked to visit again. */
  lemma SameCellVisitsOnce(i: nat, ctx: MovementContext, first: ActorInput, second: ActorInput,
                           reverseRotation: Vec3 -> Vec3, alive: bool)
    requires var t := ActorTurn(i, ctx, first, reverseRotation, alive);
      VisitNewPosition(i) in t.calls && !t.broke
    requires GridOf(second.position) == GridOf(first.position)
    ensures var t := ActorTurn(i, ctx, first, reverseRotation, alive);
      VisitNewPosition(i) !in ActorTurn(i, t.context, second, reverseRotation, t.alive).calls
  {
    var t := ActorTurn(i, ctx, first, reverseRotation, alive);
    FirstMovementClearedByVisit(i, ctx, first, reverseRotation, alive);
    assert |t.calls| > 1;
  }

  /** Once the loop has broken out, later iterations change nothing. */
  lemma {:induction false} RunBrokenIsFinal(actors0: seq<Actor>, inputs: seq<ActorInput>,
                                            reverseRotation: Vec3 -> Vec3, alive0: bool,
                                            stalled0: bool, j: nat, k: nat)
    requires |inputs| == |actors0| && j <= k <= |actors0|
    requires Run(actors0, inputs, reverseRotation, alive0, stalled0, j).broke
    ensures Run(actors0, inputs, reverseRotation, alive0, stalled0, k)
            == Run(actors0, inputs, reverseRotation, alive0, stalled0, j)
    decreases k
  {
    if k > j {
      RunBrokenIsFinal(actors0, inputs, reverseRotation, alive0, stalled0, j, k - 1);
      assert Run(actors0, inputs, reverseRotation, alive0, stalled0, k - 1).broke;
    }
  }

  /** After `k` iterations only active actors among the first `k` have had callbacks, and
      the actors from `k` on are untouched. */
  lemma {:induction false} RunTouchesPrefix(actors0: seq<Actor>, inputs: seq<ActorInput>,
                                            reverseRotation: Vec3 -> Vec3, alive0: bool,
                                            stalled0: bool, k: nat)
    requires |inputs| == |actors0| && k <= |actors0|
    ensures var st := Run(actors0, inputs, reverseRotation, alive0, stalled0, k);
      && (forall e :: e in st.calls ==>
            e.IsCallback() && e.actor < k && inputs[e.actor].behaviour.isActive)
      && (forall m :: k <= m < |actors0| ==> st.actors[m] == actors0[m])
  {
    if k > 0 {
      RunTouchesPrefix(actors0, inputs, reverseRotation, alive0, stalled0, k - 1);
      var st := Run(actors0, inputs, reverseRotation, alive0, stalled0, k - 1);
      if !st.broke {
        var t := ActorTurn(k - 1, st.actors[k - 1].context, inputs[k - 1], reverseRotation, st.alive);
        assert t.calls != [] ==> inputs[k - 1].behaviour.isActive;
        assert Run(actors0, inputs, reverseRotation, alive0, stalled0, k).calls == st.calls + t.calls;
      }
    }
  }

  /** The actor loop makes behaviour callbacks only: it never stops the contraption itself. */
  lemma RunNeverStops(actors0: seq<Actor>, inputs: seq<ActorInput>, reverseRotation: Vec3 -> Vec3,
                      alive0: bool, stalled0: bool)
    requires |inputs| == |actors0|
    ensures StopCount(Run(actors0, inputs, reverseRotation, alive0, stalled0, |actors0|).calls) == 0
  {
    RunTouchesPrefix(actors0, inputs, reverseRotation, alive0, stalled0, |actors0|);
    assert ContraptionStopped !in Run(actors0, inputs, reverseRotation, alive0, stalled0, |actors0|).calls;
  }

  /** When a callback removes the entity while actor `j` is processed, no later actor gets a
      callback and no later actor's context changes. */
  lemma AbortSkipsLaterActors(actors0: seq<Actor>, inputs: seq<ActorInput>,
                              reverseRotation: Vec3 -> Vec3, alive0: bool, stalled0: bool, j: nat)
    requires |inputs| == |actors0| && j < |actors0|
    requires Run(actors0, inputs, reverseRotation, alive0, stalled0, j + 1).broke
    ensures var st := Run(actors0, inputs, reverseRotation, alive0, stalled0, |actors0|);
      && !st.alive
      && (forall e :: e in st.calls ==> e.IsCallback() && e.actor <= j)
      && (forall m :: j < m < |actors0| ==> st.actors[m] == actors0[m])
  {
    var st := Run(actors0, inputs, reverseRotation, alive0, stalled0, j + 1);
    RunBrokenIsFinal(actors0, inputs, reverseRotation, alive0, stalled0, j + 1, |actors0|);
    RunTouchesPrefix(actors0, inputs, reverseRotation, alive0, stalled0, j + 1);
    assert forall e :: e in st.calls ==> e.IsCallback() && e.actor <= j;
  }

  /** Stall aggregation: when the loop runs to the end, the aggregate stall flag is its
      initial value or-ed with the stall flags that active actors' tick callbacks left;
      inactive actors contribute nothing. */
  lemma {:induction false} RunStalled(actors0: seq<Actor>, inputs: seq<ActorInput>,
                                      reverseRotation: Vec3 -> Vec3, alive0: bool,
                                      stalled0: bool, k: nat)
    requires |inputs| == |actors0| && k <= |actors0|
    ensures var st := Run(actors0, inputs, reverseRotation, alive0, stalled0, k);
      !st.broke ==>
        (st.stalled <==> stalled0 || exists j :: 0 <= j < k && inputs[j].behaviour.isActive
                                                 && inputs[j].behaviour.stallAfterTick)
  {
    if k > 0 {
      RunStalled(actors0, inputs, reverseRotation, alive0, stalled0, k - 1);
    }
  }
}
