/** The engine's entities as seen by a contraption entity, and the log of what the contraption entity does. */
module Entities {

  /** An entity's unique id (`getUniqueID()`); entity identity is compared through it. */
  type Uuid = int

  datatype Option<T> = None | Some(value: T)

  /** The engine classes that the contraption entity tests with `instanceof`. */
  datatype Kind =
    | Player
    | OrientedContraption
    | Hanging
    | Minecart
    | SuperGlue
    | Seat
    | Projectile
    | OtherKind

  /** How an entity reacts to being pushed. */
  datatype PushReaction = Normal | Destroy | Block | Ignore | PushOnly

  /** An entity other than the contraption entity itself: `spectator` only matters for players,
      `ridingId` is the entity it rides, if any. */
  datatype Entity = Entity(
    id: Uuid,
    kind: Kind,
    noClip: bool,
    spectator: bool,
    ridingId: Option<Uuid>,
    pushReaction: PushReaction)

  /** What a contraption entity does that is visible outside its own fields: behaviour callbacks
      of its actors (numbered by their place in the actor list), calls into its contraption,
      and packets sent to the clients tracking it. */
  datatype Event =
    | VisitNewPosition(actor: nat)
    | SpeedChanged(actor: nat)
    | ActorTick(actor: nat)
    | ContraptionInitialized
    | ContraptionTicked
    | ContraptionStopped
    | StallPacket
    | SeatMappingPacket(mapping: map<Uuid, int>)
    | DisassemblyPacket
    | BlocksPlaced
    | PassengersPlaced
    | SubContraptionMoved(rider: Uuid)
    | CollidedEntitiesMoved(entities: set<Uuid>)
  {
    /** A call into the movement behaviour of one actor. */
    predicate IsCallback()
    {
      VisitNewPosition? || SpeedChanged? || ActorTick?
    }
  }

  /** How many times `contraption.stop` appears in a log. */
  function StopCount(log: seq<Event>): (n: nat)
    ensures n <= |log|
    ensures n == 0 <==> ContraptionStopped !in log
  {
    if log == [] then 0
    else (if log[0] == ContraptionStopped then 1 else 0) + StopCount(log[1..])
  }

  lemma {:induction false} StopCountAppend(a: seq<Event>, b: seq<Event>)
    ensures StopCount(a + b) == StopCount(a) + StopCount(b)
  {
    if a == [] {
      assert a + b == b;
    } else {
      assert (a + b)[1..] == a[1..] + b;
      StopCountAppend(a[1..], b);
    }
  }

  /** Proof helper: appending to a log in two steps. */
  lemma AppendAssoc(a: seq<Event>, b: seq<Event>, c: seq<Event>)
    ensures (a + b) + c == a + (b + c)
  {
  }

  /** Proof helper: a set that is not empty has a member to pick. */
  lemma NonEmptyHasMember(s: set<Uuid>)
    requires s != {}
    ensures exists x :: x in s
  {
    if forall x :: x !in s {
      assert false;
    }
  }
}
