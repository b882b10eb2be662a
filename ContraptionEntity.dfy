/** The contraption entity: the engine entity that carries a contraption through the world,
    ticks its actors, seats its passengers and turns it back into blocks. */
module ContraptionEntities {
  import opened Geometry
  import opened Entities
  import opened Actors
  import opened Seats
  import opened Aging

  /** The part of a contraption the entity reads and updates: its actors, its seats and who
      sits where, the aggregate stall flag, and the ids of the sub-contraption riders that are
      stabilized on it. `mounted` says whether it is a mounted contraption (one on a minecart). */
  class Contraption {
    var stalled: bool
    var actors: seq<Actor>
    var seats: seq<GridPos>
    var seatMapping: map<Uuid, int>
    const stabilized: set<Uuid>
    const mounted: bool

    constructor (mounted: bool, actors: seq<Actor>, seats: seq<GridPos>, stabilized: set<Uuid>)
      ensures this.mounted == mounted && this.actors == actors && this.seats == seats
      ensures this.stabilized == stabilized
      ensures !stalled && seatMapping == map[]
    {
      this.mounted := mounted;
      this.actors := actors;
      this.seats := seats;
      this.stabilized := stabilized;
      stalled := false;
      seatMapping := map[];
    }
  }

  /** The callbacks in a log of the sub-contraption riders moved during a disassembly: one for
      each rider, in passenger order, whose id is stabilized. */
  function SubContraptionMoves(riders: seq<ContraptionEntity>, stabilized: set<Uuid>): (log: seq<Event>)
    ensures |log| <= |riders|
    ensures forall e :: e in log ==> e.SubContraptionMoved? && e.rider in stabilized
    ensures forall r :: r in riders && r.id in stabilized ==> SubContraptionMoved(r.id) in log
    decreases |riders|
  {
    if riders == [] then []
    else
      var last := riders[|riders| - 1];
      assert riders == riders[..|riders| - 1] + [last];
      SubContraptionMoves(riders[..|riders| - 1], stabilized)
        + (if last.id in stabilized then [SubContraptionMoved(last.id)] else [])
  }

  /** No two riders share an id. */
  predicate DistinctRiderIds(riders: seq<ContraptionEntity>)
  {
    forall k, l :: 0 <= k < l < |riders| ==> riders[k].id != riders[l].id
  }

  /** No entry of a log appears twice. */
  predicate NoRepeats(log: seq<Event>)
  {
    forall k, l :: 0 <= k < l < |log| ==> log[k] != log[l]
  }

  /** Every entry of the sub-contraption moves names one of the riders, and riders with
      distinct ids are moved at most once each. */
  lemma {:induction false} SubContraptionMovesAreRiders(riders: seq<ContraptionEntity>, stabilized: set<Uuid>)
    ensures forall e :: e in SubContraptionMoves(riders, stabilized) ==>
      exists r :: r in riders && r.id == e.rider
    ensures DistinctRiderIds(riders) ==> NoRepeats(SubContraptionMoves(riders, stabilized))
    decreases |riders|
  {
    if riders != [] {
      var front := riders[..|riders| - 1];
      var last := riders[|riders| - 1];
      var moves := SubContraptionMoves(front, stabilized);
      assert riders == front + [last];
      SubContraptionMovesAreRiders(front, stabilized);
      forall e | e in moves
        ensures exists r :: r in riders && r.id == e.rider
      {
        var r :| r in front && r.id == e.rider;
        assert r in riders;
      }
      assert last in riders;
      if DistinctRiderIds(riders) {
        assert DistinctRiderIds(front) by {
          forall k, l | 0 <= k < l < |front| ensures front[k].id != front[l].id {
            assert front[k] == riders[k] && front[l] == riders[l];
          }
        }
        if last.id in stabilized {
          var log := moves + [SubContraptionMoved(last.id)];
          forall k, l | 0 <= k < l < |log|
            ensures log[k] != log[l]
          {
            if l == |moves| {
              var r :| r in front && r.id == moves[k].rider;
              var m :| 0 <= m < |front| && front[m] == r;
              assert riders[m] == r;
            } else {
              assert log[k] == moves[k] && log[l] == moves[l];
            }
          }
        }
      }
    }
  }

  /** No rider object appears twice. */
  predicate NoDuplicates(riders: seq<ContraptionEntity>)
  {
    forall i, j :: 0 <= i < j < |riders| ==> riders[i] != riders[j]
  }

  /** The ids of a list of riders; only the empty list has none. */
  function RiderIds(riders: seq<ContraptionEntity>): (ids: set<Uuid>)
    ensures ids == {} <==> riders == []
  {
    var ids := set r | r in riders :: r.id;
    assert riders != [] ==> riders[0] in riders && riders[0].id in ids;
    ids
  }

  /** The ids of a list of riders, in order. */
  function RiderIdSeq(riders: seq<ContraptionEntity>): (ids: seq<Uuid>)
    ensures |ids| == |riders|
  {
    if riders == [] then [] else [riders[0].id] + RiderIdSeq(riders[1..])
  }

  /** The passenger records and the rider objects agree: passenger ids are distinct, and the
      riders are exactly the sub-contraption entities among the passengers, in riding order. */
  predicate RidersAmongPassengers(riders: seq<ContraptionEntity>, passengers: seq<Entity>)
  {
    DistinctIds(passengers) && RiderIdSeq(riders) == OrientedIds(passengers)
  }

  /** A rider that joins goes to the end of the list. */
  lemma {:induction false} RiderIdSeqAppend(riders: seq<ContraptionEntity>, r: ContraptionEntity)
    ensures RiderIdSeq(riders + [r]) == RiderIdSeq(riders) + [r.id]
  {
    if riders == [] {
      assert riders + [r] == [r];
      assert [r][1..] == [];
    } else {
      assert (riders + [r])[1..] == riders[1..] + [r];
      RiderIdSeqAppend(riders[1..], r);
    }
  }

  /** The id of every rider is among the rider ids. */
  lemma {:induction false} RiderIdSeqHas(riders: seq<ContraptionEntity>, r: ContraptionEntity)
    requires r in riders
    ensures r.id in RiderIdSeq(riders)
  {
    if riders[0] != r {
      RiderIdSeqHas(riders[1..], r);
    }
  }

  /** A rider that leaves takes its id out of the rider ids and keeps the others in order. */
  lemma {:induction false} RiderIdSeqWithout(riders: seq<ContraptionEntity>, id: Uuid)
    ensures RiderIdSeq(RidersWithout(riders, id)) == RemoveId(RiderIdSeq(riders), id)
  {
    if riders != [] {
      RiderIdSeqWithout(riders[1..], id);
      var tail := RiderIdSeq(riders[1..]);
      assert ([riders[0].id] + tail)[0] == riders[0].id && ([riders[0].id] + tail)[1..] == tail;
      if riders[0].id != id {
        var w := RidersWithout(riders[1..], id);
        assert ([riders[0]] + w)[0] == riders[0] && ([riders[0]] + w)[1..] == w;
      }
    }
  }

  /** The rider list without the rider whose id is `id`. */
  function RidersWithout(riders: seq<ContraptionEntity>, id: Uuid): (rest: seq<ContraptionEntity>)
    ensures forall k :: 0 <= k < |rest| ==> rest[k] in riders && rest[k].id != id
    ensures forall k :: 0 <= k < |riders| && riders[k].id != id ==> riders[k] in rest
    ensures NoDuplicates(riders) ==> NoDuplicates(rest)
  {
    if riders == [] then []
    else
      var tail := RidersWithout(riders[1..], id);
      assert riders == [riders[0]] + riders[1..];
      if riders[0].id == id then tail else [riders[0]] + tail
  }

  /** Removing an id no rider has changes nothing. */
  lemma {:induction false} RidersWithoutAbsent(riders: seq<ContraptionEntity>, id: Uuid)
    requires forall k :: 0 <= k < |riders| ==> riders[k].id != id
    ensures RidersWithout(riders, id) == riders
  {
    if riders != [] {
      RidersWithoutAbsent(riders[1..], id);
      assert riders == [riders[0]] + riders[1..];
    }
  }

  /** What a disassembly that goes ahead logs, in order: the contraption stopped by `remove`
      on the server, the disassembly packet, the blocks and the passengers placed in the world,
      the stabilized sub-contraptions moved, on the server the seat-mapping packets of the
      dismounts, and the colliding entities moved. */
  function DisassemblyLog(isRemote: bool, riders: seq<ContraptionEntity>, stabilized: set<Uuid>,
                          seatMapping: map<Uuid, int>, passengers: seq<Entity>,
                          colliding: set<Uuid>): (log: seq<Event>)
    ensures |log| >= 4
    ensures log[|log| - 1] == CollidedEntitiesMoved(colliding)
    ensures isRemote <==> log[0] == DisassemblyPacket
    ensures !isRemote <==> log[0] == ContraptionStopped
  {
    (if isRemote then [] else [ContraptionStopped])
      + [DisassemblyPacket, BlocksPlaced, PassengersPlaced]
      + SubContraptionMoves(riders, stabilized)
      + (if isRemote then [] else DetachLog(seatMapping, passengers))
      + [CollidedEntitiesMoved(colliding)]
  }

  /** The log of a disassembly is what precedes taking the contraption apart, then what taking
      it apart logs. */
  lemma DisassemblyLogSplit(isRemote: bool, riders: seq<ContraptionEntity>, stabilized: set<Uuid>,
                            seatMapping: map<Uuid, int>, passengers: seq<Entity>, colliding: set<Uuid>)
    ensures DisassemblyLog(isRemote, riders, stabilized, seatMapping, passengers, colliding)
      == ((if isRemote then [] else [ContraptionStopped])
            + [DisassemblyPacket, BlocksPlaced, PassengersPlaced])
         + (SubContraptionMoves(riders, stabilized)
            + (if isRemote then [] else DetachLog(seatMapping, passengers))
            + [CollidedEntitiesMoved(colliding)])
  {
  }

  /** What precedes taking the contraption apart and what taking it apart logs make up the
      log of a disassembly, which stops the contraption once on the server and never on a
      client. */
  lemma DisassemblyLogParts(isRemote: bool, riders: seq<ContraptionEntity>, stabilized: set<Uuid>,
                            seatMapping: map<Uuid, int>, passengers: seq<Entity>, colliding: set<Uuid>,
                            head: seq<Event>, rest: seq<Event>)
    requires head == (if isRemote then [] else [ContraptionStopped])
                     + [DisassemblyPacket, BlocksPlaced, PassengersPlaced]
    requires rest == SubContraptionMoves(riders, stabilized)
                     + (if isRemote then [] else DetachLog(seatMapping, passengers))
                     + [CollidedEntitiesMoved(colliding)]
    ensures head + rest == DisassemblyLog(isRemote, riders, stabilized, seatMapping, passengers, colliding)
    ensures StopCount(head + rest) == if isRemote then 0 else 1
  {
    DisassemblyLogSplit(isRemote, riders, stabilized, seatMapping, passengers, colliding);
    DisassemblyStopsOnce(isRemote, riders, stabilized, seatMapping, passengers, colliding);
  }

  /** A disassembly stops the contraption once on the server and never on a client. */
  lemma DisassemblyStopsOnce(isRemote: bool, riders: seq<ContraptionEntity>, stabilized: set<Uuid>,
                             seatMapping: map<Uuid, int>, passengers: seq<Entity>, colliding: set<Uuid>)
    ensures StopCount(DisassemblyLog(isRemote, riders, stabilized, seatMapping, passengers, colliding))
            == if isRemote then 0 else 1
  {
    var stop: seq<Event> := if isRemote then [] else [ContraptionStopped];
    var placed := [DisassemblyPacket, BlocksPlaced, PassengersPlaced];
    var moves := SubContraptionMoves(riders, stabilized);
    var detach := if isRemote then [] else DetachLog(seatMapping, passengers);
    var last := [CollidedEntitiesMoved(colliding)];
    assert ContraptionStopped !in moves && ContraptionStopped !in detach;
    StopCountAppend(stop, placed);
    StopCountAppend(stop + placed, moves);
    StopCountAppend(stop + placed + moves, detach);
    StopCountAppend(stop + placed + moves + detach, last);
  }

  /** What a disassembly of the entity it rides can change of a rider: its flags, contraption
      and log, its passengers and sub-contraption riders, and its contraption's seat mapping. */
  datatype RiderState = RiderState(removed: bool, contraption: Contraption?, events: seq<Event>,
                                   passengers: seq<Entity>, riders: seq<ContraptionEntity>)
  {
    /** `contraption.stop` has been logged at most once, and not at all while not removed. */
    predicate StopsAtMostOnce()
    {
      StopCount(events) <= if removed then 1 else 0
    }
  }

  /** The outline of the log of a disassembly that goes ahead: on the server the contraption is
      stopped first; then come the disassembly packet and the blocks and passengers placed in the
      world; the colliding entities are moved last; the contraption is stopped once on the
      server and never on a client. */
  predicate DisassemblyShaped(log: seq<Event>, isRemote: bool)
  {
    var n := if isRemote then 0 else 1;
    && |log| >= n + 4
    && (!isRemote ==> log[0] == ContraptionStopped)
    && log[n] == DisassemblyPacket && log[n + 1] == BlocksPlaced && log[n + 2] == PassengersPlaced
    && log[|log| - 1].CollidedEntitiesMoved?
    && StopCount(log) == n
  }

  /** The log of every disassembly that goes ahead has that outline. */
  lemma DisassemblyLogShaped(isRemote: bool, riders: seq<ContraptionEntity>, stabilized: set<Uuid>,
                             seatMapping: map<Uuid, int>, passengers: seq<Entity>, colliding: set<Uuid>)
    ensures DisassemblyShaped(DisassemblyLog(isRemote, riders, stabilized, seatMapping, passengers, colliding),
                              isRemote)
  {
    DisassemblyLogSplit(isRemote, riders, stabilized, seatMapping, passengers, colliding);
    DisassemblyStopsOnce(isRemote, riders, stabilized, seatMapping, passengers, colliding);
  }

  /** Proof helper: a log extended by the log of a disassembly keeps what it had and then
      has that outline. */
  lemma LoggedDisassembly(before: seq<Event>, after: seq<Event>, isRemote: bool,
                          riders: seq<ContraptionEntity>, stabilized: set<Uuid>,
                          seatMapping: map<Uuid, int>, passengers: seq<Entity>, colliding: set<Uuid>)
    requires after == before + DisassemblyLog(isRemote, riders, stabilized, seatMapping, passengers, colliding)
    ensures before <= after && DisassemblyShaped(after[|before|..], isRemote)
  {
    DisassemblyLogShaped(isRemote, riders, stabilized, seatMapping, passengers, colliding);
    assert after[|before|..] == DisassemblyLog(isRemote, riders, stabilized, seatMapping, passengers, colliding);
  }

  /** How a disassembly leaves one of the entity's sub-contraption riders, whose id is `id`: a
      stabilized rider that is alive and has a contraption is disassembled itself, so that it is
      removed, keeps its contraption, has no passengers and no riders left, and has logged a
      disassembly after what it had logged before; any other rider is left as it was. */
  predicate Disassembled(before: RiderState, after: RiderState, id: Uuid, stabilized: set<Uuid>,
                         isRemote: bool)
  {
    if id in stabilized && !before.removed && before.contraption != null then
      && after.removed && after.contraption == before.contraption
      && after.passengers == [] && after.riders == []
      && before.events <= after.events
      && DisassemblyShaped(after.events[|before.events|..], isRemote)
    else
      after == before
  }

  /** A rider left by a disassembly keeps its contraption, ends removed exactly when it was
      already or it is stabilized and has a contraption, and stops that contraption at most
      once over its life. */
  lemma DisassembledStopsAtMostOnce(before: RiderState, after: RiderState, id: Uuid,
                                    stabilized: set<Uuid>, isRemote: bool)
    requires Disassembled(before, after, id, stabilized, isRemote)
    ensures after.contraption == before.contraption
    ensures after.removed == (before.removed || (id in stabilized && before.contraption != null))
    ensures before.StopsAtMostOnce() ==> after.StopsAtMostOnce()
  {
    if id in stabilized && !before.removed && before.contraption != null {
      var tail := after.events[|before.events|..];
      assert after.events == before.events + tail;
      StopCountAppend(before.events, tail);
    }
  }

  /** The rider `r` was left by a disassembly of the entity it rides as `Disassembled` says. */
  twostate predicate RiderDisassembled(r: ContraptionEntity, stabilized: set<Uuid>)
    reads r
  {
    Disassembled(old(r.State()), r.State(), r.id, stabilized, r.isRemote)
  }

  /** A rider whose state a step leaves alone. */
  twostate predicate RiderUntouched(r: ContraptionEntity)
    reads r
  {
    old(r.State()) == r.State()
  }

  /** A contraption entity. `isRemote` tells a client copy from the server's; `passengers` are
      all its passengers in riding order, and `riders` the objects of those passengers that are
      themselves contraption entities. `stalledData` is the synced stall flag clients read.
      `events` logs what the entity does outside its own fields. */
  class ContraptionEntity {
    const id: Uuid
    const isRemote: bool
    var contraption: Contraption?
    var initialized: bool
    var prevPosInvalid: bool
    var ticking: bool
    var removed: bool
    var pos: Vec3
    var prevPos: Vec3
    var stalledData: bool
    var collidingEntities: map<Uuid, int>
    var passengers: seq<Entity>
    var riders: seq<ContraptionEntity>
    ghost var events: seq<Event>
    ghost var Repr: set<object>

    /** The object invariant: the entity is outside a tick of its actors unless it has been
        removed by one of their callbacks, and it owns its footprint. */
    ghost predicate Valid()
      reads this`removed, this`ticking, this`contraption, this`passengers, this`riders, this`Repr
      reads Others()
      decreases Repr, 1
    {
      && (!removed ==> !ticking)
      && Owned()
    }

    /** The footprint invariant: the entity owns its contraption and its riders, whose
        footprints are disjoint from each other and from the entity's own; passengers are
        distinct, and the riders are the sub-contraption entities among the passengers, in
        riding order. */
    ghost predicate Owned()
      reads this`contraption, this`passengers, this`riders, this`Repr
      reads Others()
      decreases Repr, 0
    {
      && this in Repr
      && (contraption != null ==> contraption in Repr)
      && RidersAmongPassengers(riders, passengers)
      && NoDuplicates(riders)
      && (forall k :: 0 <= k < |riders| ==>
            && riders[k] in Repr && riders[k] != this
            && riders[k] in riders[k].Repr && riders[k].Repr <= Repr && this !in riders[k].Repr
            && (contraption != null ==> contraption !in riders[k].Repr)
            && riders[k].Valid())
      && (forall i, j :: 0 <= i < |riders| && 0 <= j < |riders| && i != j ==>
            riders[i].Repr !! riders[j].Repr)
    }

    /** The contraption, as a set of objects: empty while there is none. */
    function ContraptionSet(): (cs: set<Contraption>)
      reads this`contraption
      ensures contraption == null <==> cs == {}
    {
      if contraption == null then {} else {contraption}
    }

    /** The footprint without the entity and its contraption: the riders and what they own. */
    ghost function Others(): set<object>
      reads this`Repr, this`contraption
    {
      Repr - {this} - ContraptionSet()
    }

    /** What a disassembly of the entity it rides can change of the entity, as a value. */
    ghost function State(): RiderState
      reads this`removed, this`contraption, this`events, this`passengers, this`riders
    {
      RiderState(removed, contraption, events, passengers, riders)
    }

    /** `contraption.stop` has been called at most once, and not at all while the entity is
        alive. */
    ghost predicate StopsAtMostOnce()
      reads this
    {
      StopCount(events) <= if removed then 1 else 0
    }

    /** A new entity has no contraption yet and its previous position is not valid. */
    constructor (id: Uuid, isRemote: bool, pos: Vec3)
      ensures Valid() && fresh(Repr) && StopsAtMostOnce()
      ensures this.id == id && this.isRemote == isRemote && this.pos == pos
      ensures contraption == null && prevPosInvalid && !initialized && !ticking && !removed
      ensures collidingEntities == map[] && passengers == [] && riders == [] && events == []
    {
      this.id := id;
      this.isRemote := isRemote;
      this.pos := pos;
      prevPos := pos;
      contraption := null;
      initialized := false;
      prevPosInvalid := true;
      ticking := false;
      removed := false;
      stalledData := false;
      collidingEntities := map[];
      passengers := [];
      riders := [];
      events := [];
      Repr := {this};
    }

    /** `setContraption`: the entity takes ownership of `c`. */
    method SetContraption(c: Contraption?)
      requires Valid()
      requires c != null ==> forall r :: r in riders ==> c !in r.Repr
      modifies this`contraption, this`Repr
      ensures Valid() && contraption == c
      ensures Repr == old(Repr) + (if c == null then {} else {c})
    {
      contraption := c;
      if c != null {
        Repr := Repr + {c};
      }
      forall r | r in riders
        ensures r.Valid()
      {
        assert old(r.Valid()) && this !in r.Repr;
        assert r.Repr == old(r.Repr) && r.Others() == old(r.Others());
        assert r.Owned() == old(r.Owned());
      }
    }

    /** `remove`: on the server, removing a live entity with a contraption stops the contraption,
        unless the removal comes from a callback in the middle of the entity's own actor tick. */
    method Remove()
      modifies this`removed, this`events
      ensures removed
      ensures events == old(events)
        + (if !isRemote && !old(removed) && contraption != null && !ticking
           then [ContraptionStopped] else [])
      ensures old(StopsAtMostOnce()) ==> StopsAtMostOnce()
    {
      if !isRemote && !removed && contraption != null {
        if !ticking {
          StopCountAppend(events, [ContraptionStopped]);
          events := events + [ContraptionStopped];
        }
      }
      removed := true;
    }

    /** `contraptionInitialize`. */
    method ContraptionInitialize()
      modifies this`initialized, this`events
      ensures initialized && events == old(events) + [ContraptionInitialized]
      ensures StopCount(events) == StopCount(old(events))
    {
      StopCountAppend(events, [ContraptionInitialized]);
      events := events + [ContraptionInitialized];
      initialized := true;
    }

    /** The iterator loop of `tick` over the colliding entities: every counter goes up by one
        and an entry whose counter passes `MaxAge` is removed from the table in place. */
    method AgeCollidingEntities()
      modifies this`collidingEntities
      ensures collidingEntities == Aged(old(collidingEntities))
    {
      var table := collidingEntities;
      var pending := table.Keys;
      while pending != {}
        invariant pending <= table.Keys && collidingEntities.Keys <= table.Keys
        invariant forall e :: e in pending ==> e in collidingEntities && collidingEntities[e] == table[e]
        invariant forall e :: e in table && e !in pending ==>
          (e in collidingEntities <==> e in Aged(table))
          && (e in collidingEntities ==> collidingEntities[e] == Aged(table)[e])
        decreases pending
      {
        NonEmptyHasMember(pending);
        var e :| e in pending;
        var age := collidingEntities[e] + 1;
        if age > MaxAge {
          collidingEntities := collidingEntities - {e};
        } else {
          collidingEntities := collidingEntities[e := age];
        }
        pending := pending - {e};
      }
      forall e | e in collidingEntities
        ensures e in Aged(table) && collidingEntities[e] == Aged(table)[e]
      {
        assert e !in pending;
      }
      forall e | e in Aged(table)
        ensures e in collidingEntities
      {
        assert e !in pending;
      }
    }

    /** `tick`: without a contraption the entity removes itself and does nothing else; otherwise
        it ages the colliding entities, records its position as the previous one, initializes
        the contraption the first time, and ticks the contraption. The frame leaves the
        contraption, the passengers and the riders alone, so `Valid()` is kept. */
    method Tick()
      modifies this`removed, this`events, this`collidingEntities, this`prevPos,
               this`prevPosInvalid, this`initialized
      ensures old(Valid()) ==> Valid()
      ensures old(contraption) == null ==>
        && removed && events == old(events)
        && collidingEntities == old(collidingEntities) && prevPos == old(prevPos)
        && prevPosInvalid == old(prevPosInvalid) && initialized == old(initialized)
      ensures old(contraption) != null ==>
        && removed == old(removed)
        && collidingEntities == Aged(old(collidingEntities))
        && prevPos == pos && !prevPosInvalid && PrevPositionVec() == pos && initialized
        && events == old(events)
             + (if old(initialized) then [] else [ContraptionInitialized]) + [ContraptionTicked]
      ensures old(StopsAtMostOnce()) ==> StopsAtMostOnce()
    {
      label start:
      if contraption == null {
        Remove();
        if old(Valid()) {
          StepKeepsValid@start();
        }
        return;
      }
      AgeCollidingEntities();
      prevPos := pos;
      prevPosInvalid := false;
      if !initialized {
        ContraptionInitialize();
      }
      StopCountAppend(events, [ContraptionTicked]);
      events := events + [ContraptionTicked];
      if old(Valid()) {
        StepKeepsValid@start();
      }
    }

    /** `addSittingPassenger`: the passenger starts riding the entity; on the server its seat
        is recorded in the seat mapping and the whole mapping is sent to the clients. */
    method AddSittingPassenger(passenger: Entity, seatIndex: int, rider: ContraptionEntity?)
      requires Valid()
      requires !isRemote || passenger.id in Ids(passengers) ==> contraption != null
      requires rider != null <==> passenger.kind == OrientedContraption
      requires rider != null ==> rider.id == passenger.id && MayJoin(rider)
      modifies this`passengers, this`riders, this`Repr, this`events, ContraptionSet()`seatMapping
      ensures Valid()
      ensures passengers == Boarded(Without(old(passengers), passenger.id), passenger,
                                    !isRemote && passenger.kind == Player)
      ensures riders == RidersWithout(old(riders), passenger.id) + (if rider == null then [] else [rider])
      ensures Repr == old(Repr) + (if rider == null then {} else old(rider.Repr))
      ensures isRemote ==> events == old(events) && unchanged(ContraptionSet())
      ensures !isRemote ==>
        && contraption.seatMapping == old(contraption.seatMapping)[passenger.id := seatIndex]
        && events == old(events)
             + (if passenger.id in Ids(old(passengers))
                then [SeatMappingPacket(old(contraption.seatMapping) - {passenger.id})] else [])
             + [SeatMappingPacket(contraption.seatMapping)]
      ensures StopCount(events) == StopCount(old(events))
    {
      ghost var aboard := passenger.id in Ids(passengers);
      StartRiding(passenger, rider);
      if !isRemote {
        label boarded:
        assert (old(contraption.seatMapping) - {passenger.id})[passenger.id := seatIndex]
               == old(contraption.seatMapping)[passenger.id := seatIndex];
        contraption.seatMapping := contraption.seatMapping[passenger.id := seatIndex];
        StopCountAppend(events, [SeatMappingPacket(contraption.seatMapping)]);
        events := events + [SeatMappingPacket(contraption.seatMapping)];
        StepKeepsValid@boarded();
      }
    }

    /** `rider` may start riding the entity: it is one of the riders already, or a valid entity
        whose footprint is apart from the entity's. */
    ghost predicate MayJoin(rider: ContraptionEntity)
      reads this`riders, this`Repr, rider, rider.Repr
    {
      rider in riders || (rider.Valid() && rider.Repr !! Repr)
    }

    /** `startRiding`: a passenger already aboard first leaves through `removePassenger`, then it
        boards through `addPassenger`. A sub-contraption entity comes with its entity object,
        which is one of the riders when it is aboard. */
    method StartRiding(passenger: Entity, rider: ContraptionEntity?)
      requires Valid()
      requires passenger.id in Ids(passengers) ==> contraption != null
      requires rider != null <==> passenger.kind == OrientedContraption
      requires rider != null ==> rider.id == passenger.id && MayJoin(rider)
      modifies this`passengers, this`riders, this`Repr, this`events, ContraptionSet()`seatMapping
      ensures Valid()
      ensures passengers == Boarded(Without(old(passengers), passenger.id), passenger,
                                    !isRemote && passenger.kind == Player)
      ensures riders == RidersWithout(old(riders), passenger.id) + (if rider == null then [] else [rider])
      ensures Repr == old(Repr) + (if rider == null then {} else old(rider.Repr))
      ensures passenger.id !in Ids(old(passengers)) || isRemote ==>
        events == old(events) && unchanged(ContraptionSet())
      ensures passenger.id in Ids(old(passengers)) && !isRemote ==>
        && contraption.seatMapping == old(contraption.seatMapping) - {passenger.id}
        && events == old(events) + [SeatMappingPacket(contraption.seatMapping)]
      ensures StopCount(events) == StopCount(old(events))
    {
      if passenger.id in Ids(passengers) {
        label aboard:
        RemovePassenger(passenger);
        if rider != null {
          StillJoinable@aboard(rider);
        }
      } else {
        NotAboard(passenger, rider);
      }
      Board(passenger, rider);
    }

    /** `addPassenger`: a passenger that is not aboard joins the passenger list, at the front
        when it is a player boarding on the server (the entity has no controlling passenger)
        and at the end otherwise; a sub-contraption entity also joins the riders. */
    method Board(passenger: Entity, rider: ContraptionEntity?)
      requires Valid() && passenger.id !in Ids(passengers)
      requires rider != null <==> passenger.kind == OrientedContraption
      requires rider != null ==> rider.id == passenger.id && Joinable(rider)
      modifies this`passengers, this`riders, this`Repr
      ensures Valid()
      ensures passengers == Boarded(old(passengers), passenger, !isRemote && passenger.kind == Player)
      ensures riders == old(riders) + (if rider == null then [] else [rider])
      ensures Repr == old(Repr) + (if rider == null then {} else old(rider.Repr))
    {
      OrientedIdsBoarded(passengers, passenger, !isRemote && passenger.kind == Player);
      passengers := Boarded(passengers, passenger, !isRemote && passenger.kind == Player);
      if rider == null {
        OwnershipKept();
      } else {
        RiderIdSeqAppend(riders, rider);
        riders := riders + [rider];
        Repr := Repr + rider.Repr;
        RiderAdded(rider);
      }
    }

    /** `r` can be added to the riders: it is valid, and its footprint holds neither the
        entity, its contraption nor anything a rider owns. */
    ghost predicate Joinable(r: ContraptionEntity)
      reads this`contraption, this`riders, riders, r, r.Repr
    {
      && r.Valid() && this !in r.Repr && (contraption != null ==> contraption !in r.Repr)
      && forall k :: 0 <= k < |riders| ==> riders[k].Repr !! r.Repr
    }

        /** `removePassenger`: the passenger leaves the entity (and the riders, if it is one); on the
        server its seat is freed and the whole mapping is sent to the clients. */
    method RemovePassenger(passenger: Entity)
      requires Valid() && contraption != null
      modifies this`passengers, this`riders, this`events, contraption`seatMapping
      ensures Valid()
      ensures passengers == Without(old(passengers), passenger.id)
      ensures riders == RidersWithout(old(riders), passenger.id)
      ensures isRemote ==> events == old(events) && contraption.seatMapping == old(contraption.seatMapping)
      ensures !isRemote ==>
        && contraption.seatMapping == old(contraption.seatMapping) - {passenger.id}
        && events == old(events) + [SeatMappingPacket(contraption.seatMapping)]
      ensures StopCount(events) == StopCount(old(events))
    {
      Unboard(passenger);
      if !isRemote {
        label left:
        contraption.seatMapping := contraption.seatMapping - {passenger.id};
        StopCountAppend(events, [SeatMappingPacket(contraption.seatMapping)]);
        events := events + [SeatMappingPacket(contraption.seatMapping)];
        StepKeepsValid@left();
      }
    }

    /** The engine's part of `removePassenger`: the passenger leaves the passenger list, and
        the riders if it is one. */
    method Unboard(passenger: Entity)
      requires Valid()
      modifies this`passengers, this`riders
      ensures Valid()
      ensures passengers == Without(old(passengers), passenger.id)
      ensures riders == RidersWithout(old(riders), passenger.id)
    {
      OrientedIdsWithout(passengers, passenger.id);
      RiderIdSeqWithout(riders, passenger.id);
      passengers := Without(passengers, passenger.id);
      riders := RidersWithout(riders, passenger.id);
      OwnershipKept();
    }

    /** `removePassengers`: every passenger is dismounted, the last one first; on the server
        each dismount frees its seat and sends the mapping. */
    method RemovePassengers()
      requires Valid() && contraption != null
      modifies this`passengers, this`riders, this`events, contraption`seatMapping
      ensures Valid() && passengers == [] && riders == []
      ensures isRemote ==> events == old(events) && contraption.seatMapping == old(contraption.seatMapping)
      ensures !isRemote ==>
        && contraption.seatMapping == old(contraption.seatMapping) - Ids(old(passengers))
        && events == old(events) + DetachLog(old(contraption.seatMapping), old(passengers))
    {
      ghost var whole := DetachLog(contraption.seatMapping, passengers);
      ghost var sent := [];
      assert sent + DetachLog(contraption.seatMapping, passengers) == whole;
      while passengers != []
        invariant Valid() && contraption == old(contraption)
        invariant isRemote ==> events == old(events) && contraption.seatMapping == old(contraption.seatMapping)
        invariant !isRemote ==>
          && contraption.seatMapping - Ids(passengers) == old(contraption.seatMapping) - Ids(old(passengers))
          && events == old(events) + sent
          && sent + DetachLog(contraption.seatMapping, passengers) == whole
        decreases |passengers|
      {
        DetachLast();
        if !isRemote {
          ghost var packet := SeatMappingPacket(contraption.seatMapping);
          AppendAssoc(old(events), sent, [packet]);
          SentOneMore(sent, packet, DetachLog(contraption.seatMapping, passengers), whole);
          sent := sent + [packet];
        }
      }
      assert |RiderIdSeq(riders)| == 0;
    }

    /** One iteration of `removePassengers`: the last passenger is dismounted; on the server
        the packet sent is the first of those still due for the passengers left. */
    method DetachLast()
      requires Valid() && contraption != null && passengers != []
      modifies this`passengers, this`riders, this`events, contraption`seatMapping
      ensures Valid() && passengers == old(passengers[..|passengers| - 1])
      ensures isRemote ==> events == old(events) && contraption.seatMapping == old(contraption.seatMapping)
      ensures !isRemote ==>
        && contraption.seatMapping - Ids(passengers) == old(contraption.seatMapping) - Ids(old(passengers))
        && events == old(events) + [SeatMappingPacket(contraption.seatMapping)]
        && DetachLog(old(contraption.seatMapping), old(passengers))
           == [SeatMappingPacket(contraption.seatMapping)] + DetachLog(contraption.seatMapping, passengers)
    {
      var last := passengers[|passengers| - 1];
      DetachLogStep(contraption.seatMapping, passengers);
      WithoutLast(passengers);
      RemovePassenger(last);
    }

    /** `canFitPassenger`: a sub-contraption always fits; any other passenger needs a seat that
        is not yet mapped. */
    predicate CanFitPassenger(passenger: Entity)
      requires contraption == null ==> passenger.kind == OrientedContraption
      reads this`contraption, ContraptionSet()`seatMapping, ContraptionSet()`seats
      ensures passenger.kind == OrientedContraption ==> CanFitPassenger(passenger)
      ensures passenger.kind != OrientedContraption ==>
        (CanFitPassenger(passenger) <==> |contraption.seatMapping| < |contraption.seats|)
    {
      passenger.kind == OrientedContraption || |contraption.seatMapping| < |contraption.seats|
    }

    /** A passenger that is not a sub-contraption and passes the capacity test keeps the seat
        mapping within the number of seats once its seat is recorded. */
    lemma AdmittedPassengerFits(passenger: Entity, seatIndex: int)
      requires contraption != null && passenger.kind != OrientedContraption
      requires CanFitPassenger(passenger)
      ensures |contraption.seatMapping[passenger.id := seatIndex]| <= |contraption.seats|
    {
    }

    /** `handlePlayerInteraction`: a player clicks the block at `localPos`. Nothing happens
        unless it is a seat that no player occupies; otherwise a non-player occupant is
        dismounted and, on the server, the player is seated there. */
    method HandlePlayerInteraction(player: Entity, localPos: GridPos) returns (handled: bool)
      requires Valid() && contraption != null && player.kind == Player
      modifies this`passengers, this`riders, this`Repr, this`events, contraption`seatMapping
      ensures Valid() && Repr == old(Repr)
      ensures var seat := IndexOf(contraption.seats, localPos);
        handled == (seat != -1 && !PlayerSeatedAt(old(contraption.seatMapping), old(passengers), seat))
      ensures !handled || isRemote ==>
        && passengers == old(passengers) && riders == old(riders) && events == old(events)
        && contraption.seatMapping == old(contraption.seatMapping)
      ensures handled && !isRemote && !OtherSeatedAt(old(contraption.seatMapping), old(passengers),
                                                     IndexOf(contraption.seats, localPos)) ==>
        var seat := IndexOf(contraption.seats, localPos);
        && passengers == Boarded(Without(old(passengers), player.id), player, true)
        && riders == RidersWithout(old(riders), player.id)
        && contraption.seatMapping == old(contraption.seatMapping)[player.id := seat]
        && events == old(events)
             + (if player.id in Ids(old(passengers))
                then [SeatMappingPacket(old(contraption.seatMapping) - {player.id})] else [])
             + [SeatMappingPacket(contraption.seatMapping)]
      ensures handled && !isRemote && OtherSeatedAt(old(contraption.seatMapping), old(passengers),
                                                    IndexOf(contraption.seats, localPos)) ==>
        var seat := IndexOf(contraption.seats, localPos);
        exists o :: o in old(passengers) && SeatedAt(old(contraption.seatMapping), o, seat)
          && o.kind != Player
          && passengers == Boarded(Without(Without(old(passengers), o.id), player.id), player, true)
          && riders == RidersWithout(RidersWithout(old(riders), o.id), player.id)
          && contraption.seatMapping == (old(contraption.seatMapping) - {o.id})[player.id := seat]
          && events == old(events) + [SeatMappingPacket(old(contraption.seatMapping) - {o.id})]
               + (if player.id in Ids(old(passengers)) - {o.id}
                  then [SeatMappingPacket(old(contraption.seatMapping) - {o.id} - {player.id})]
                  else [])
               + [SeatMappingPacket(contraption.seatMapping)]
    {
      var seat := IndexOf(contraption.seats, localPos);
      if seat == -1 {
        return false;
      }
      var playerSeated, toDismount := SeatOccupant(seat);
      OwnershipKept();
      if playerSeated {
        return false;
      }
      if isRemote {
        return true;
      }
      ReplaceOccupant(player, seat, toDismount);
      return true;
    }

    /** The server side of a handled interaction: the occupant found on the seat, if any, is
        dismounted, then the player is seated there. */
    method ReplaceOccupant(player: Entity, seat: int, toDismount: Option<Entity>)
      requires Valid() && contraption != null && !isRemote && player.kind == Player
      modifies this`passengers, this`riders, this`Repr, this`events, contraption`seatMapping
      ensures Valid() && Repr == old(Repr)
      ensures toDismount.None? ==>
        && passengers == Boarded(Without(old(passengers), player.id), player, true)
        && riders == RidersWithout(old(riders), player.id)
        && contraption.seatMapping == old(contraption.seatMapping)[player.id := seat]
        && events == old(events)
             + (if player.id in Ids(old(passengers))
                then [SeatMappingPacket(old(contraption.seatMapping) - {player.id})] else [])
             + [SeatMappingPacket(contraption.seatMapping)]
      ensures toDismount.Some? ==>
        var o := toDismount.value;
        && passengers == Boarded(Without(Without(old(passengers), o.id), player.id), player, true)
        && riders == RidersWithout(RidersWithout(old(riders), o.id), player.id)
        && contraption.seatMapping == (old(contraption.seatMapping) - {o.id})[player.id := seat]
        && events == old(events) + [SeatMappingPacket(old(contraption.seatMapping) - {o.id})]
             + (if player.id in Ids(old(passengers)) - {o.id}
                then [SeatMappingPacket(old(contraption.seatMapping) - {o.id} - {player.id})]
                else [])
             + [SeatMappingPacket(contraption.seatMapping)]
    {
      if toDismount.Some? {
        RemovePassenger(toDismount.value);
      }
      AddSittingPassenger(player, seat, null);
    }

    /** The scan of `handlePlayerInteraction` over the seat mapping and the passengers: whether
        a player sits on `seat`, and otherwise the non-player passenger sitting there, if any. */
    method SeatOccupant(seat: int) returns (playerSeated: bool, toDismount: Option<Entity>)
      requires contraption != null
      ensures playerSeated == PlayerSeatedAt(contraption.seatMapping, passengers, seat)
      ensures !playerSeated ==>
        (toDismount.Some? <==> OtherSeatedAt(contraption.seatMapping, passengers, seat))
      ensures toDismount.Some? ==>
        && toDismount.value in passengers && SeatedAt(contraption.seatMapping, toDismount.value, seat)
        && toDismount.value.kind != Player
    {
      var mapping := contraption.seatMapping;
      toDismount := None;
      var pending := mapping.Keys;
      while pending != {}
        invariant pending <= mapping.Keys
        invariant forall o :: o in passengers && SeatedAt(mapping, o, seat) && o.id !in pending ==>
          o.kind != Player && toDismount.Some?
        invariant toDismount.Some? ==>
          toDismount.value in passengers && SeatedAt(mapping, toDismount.value, seat)
          && toDismount.value.kind != Player
        decreases pending
      {
        NonEmptyHasMember(pending);
        var key :| key in pending;
        pending := pending - {key};
        if mapping[key] != seat {
          continue;
        }
        var j := 0;
        while j < |passengers|
          invariant 0 <= j <= |passengers|
          invariant forall o :: (o in passengers && SeatedAt(mapping, o, seat) && o.id !in pending
                                 && o.id != key) ==> o.kind != Player && toDismount.Some?
          invariant forall k :: 0 <= k < j && passengers[k].id == key ==>
            passengers[k].kind != Player && toDismount.Some?
          invariant toDismount.Some? ==>
            toDismount.value in passengers && SeatedAt(mapping, toDismount.value, seat)
            && toDismount.value.kind != Player
        {
          var entity := passengers[j];
          if entity.id != key {
            j := j + 1;
            continue;
          }
          if entity.kind == Player {
            assert SeatedAt(mapping, entity, seat);
            return true, toDismount;
          }
          toDismount := Some(entity);
          j := j + 1;
        }
      }
      return false, toDismount;
    }

    /** A step that leaves the contraption reference, the footprint and the riders' objects
        alone, keeps only riders it had, and keeps every rider a passenger with distinct
        passenger ids, keeps the footprint invariant. */
    twostate lemma OwnershipKept()
      requires old(Owned())
      requires unchanged(this`contraption, this`Repr)
      requires unchanged(old(Others()))
      requires forall k :: 0 <= k < |riders| ==> riders[k] in old(riders)
      requires NoDuplicates(riders)
      requires RidersAmongPassengers(riders, passengers)
      ensures Owned()
    {
    }

    /** A step that may remove the entity but changes none of the other fields the invariant
        reads nor anything its riders own keeps the invariant. */
    twostate lemma StepKeepsValid()
      requires old(Valid()) && (old(removed) ==> removed)
      requires unchanged(this`ticking, this`contraption, this`passengers, this`riders, this`Repr)
      requires unchanged(old(Others()))
      ensures Valid()
    {
    }

    /** A passenger that is not aboard has nothing to leave, and the entity object that comes
        with it can be added to the riders. */
    lemma NotAboard(passenger: Entity, rider: ContraptionEntity?)
      requires Owned() && passenger.id !in Ids(passengers)
      requires rider != null ==> rider.id == passenger.id && MayJoin(rider)
      ensures Without(passengers, passenger.id) == passengers
      ensures RidersWithout(riders, passenger.id) == riders
      ensures rider != null ==> Joinable(rider)
    {
      WithoutAbsent(passengers, passenger.id);
      OrientedIdsAreIds(passengers);
      forall k | 0 <= k < |riders|
        ensures riders[k].id != passenger.id
      {
        RiderIdSeqHas(riders, riders[k]);
      }
      RidersWithoutAbsent(riders, passenger.id);
    }

    /** An entity that could start riding still can be added to the riders once the rider with
        its id has left, when nothing it or the remaining riders own has changed. */
    twostate lemma StillJoinable(r: ContraptionEntity)
      requires old(Owned()) && old(MayJoin(r))
      requires unchanged(this`contraption, this`Repr) && unchanged(old(Others())) && unchanged(old(r.Repr))
      requires riders == RidersWithout(old(riders), r.id)
      ensures Joinable(r)
    {
      ValidUntouched(r);
      forall k | 0 <= k < |riders|
        ensures riders[k].Repr !! r.Repr
      {
        var m :| 0 <= m < |old(riders)| && old(riders)[m] == riders[k];
        if r in old(riders) {
          var n :| 0 <= n < |old(riders)| && old(riders)[n] == r;
          assert m != n;
        }
      }
    }

    /** A step that adds a rider `r` that could join to the end of the riders and its footprint
        to the entity's, and leaves everything else the entity owned alone, keeps the footprint
        invariant. */
    twostate lemma RiderAdded(r: ContraptionEntity)
      requires old(Owned()) && old(Joinable(r))
      requires unchanged(this`contraption) && unchanged(old(Others())) && unchanged(old(r.Repr))
      requires Repr == old(Repr) + old(r.Repr) && riders == old(riders) + [r]
      requires RidersAmongPassengers(riders, passengers)
      ensures Owned()
    {
      var n := |old(riders)|;
      ValidUntouched(r);
      assert r in r.Repr && r != this && riders[n] == r;
      forall k | 0 <= k < n
        ensures riders[k].Valid() && riders[k].Repr == old(riders[k].Repr)
        ensures riders[k].Repr !! r.Repr && riders[k] != r
      {
        assert riders[k] == old(riders)[k];
        assert old(riders[k].Valid()) && old(riders[k].Repr) !! old(r.Repr);
        assert old(riders[k] in riders[k].Repr);
        ValidUntouched(riders[k]);
      }
      forall k | 0 <= k < |riders|
        ensures && riders[k] in Repr && riders[k] != this
                && riders[k] in riders[k].Repr && riders[k].Repr <= Repr && this !in riders[k].Repr
                && (contraption != null ==> contraption !in riders[k].Repr)
                && riders[k].Valid()
      {
      }
      forall a, b | 0 <= a < |riders| && 0 <= b < |riders| && a != b
        ensures riders[a].Repr !! riders[b].Repr
      {
        if a < n && b < n {
          assert riders[a] == old(riders)[a] && riders[b] == old(riders)[b];
        } else if a == n {
          assert riders[b].Repr !! r.Repr;
        } else {
          assert riders[a].Repr !! r.Repr;
        }
      }
      forall a, b | 0 <= a < b < |riders|
        ensures riders[a] != riders[b]
      {
        if b < n {
          assert riders[a] == old(riders)[a] && riders[b] == old(riders)[b];
        }
      }
    }

    /** One callback of an actor's behaviour, made during the entity's actor tick; the
        behaviour removes the entity when `kills` is set. */
    method Callback(e: Event, kills: bool)
      requires ticking
      modifies this`removed, this`events
      ensures removed == (old(removed) || kills) && events == old(events) + [e]
    {
      events := events + [e];
      if kills {
        Remove();
      }
    }

    /** The callbacks of an active actor in the loop of `tickActors`, with the entity checked
        after each; returns the actor's new context and whether the loop breaks. */
    method RunCallbacks(i: nat, placed: MovementContext, oldMotion: Vec3, triggered: bool,
                        behaviour: Behaviour) returns (ctx: MovementContext, broke: bool)
      requires ticking
      modifies this`removed, this`events
      ensures var t := Callbacks(i, placed, oldMotion, triggered, behaviour, !old(removed));
        ctx == t.context && removed == !t.alive && events == old(events) + t.calls && broke == t.broke
    {
      ctx := placed;
      if triggered && !ctx.stall {
        Callback(VisitNewPosition(i), behaviour.killsOnVisit);
        if removed {
          return ctx, true;
        }
        ctx := ctx.(firstMovement := false);
      }
      if oldMotion != ctx.motion {
        Callback(SpeedChanged(i), behaviour.killsOnSpeedChange);
        if removed {
          return ctx, true;
        }
      }
      Callback(ActorTick(i), behaviour.killsOnTick);
      ctx := ctx.(stall := behaviour.stallAfterTick);
      return ctx, removed;
    }

    /** One iteration of the loop of `tickActors` for actor `i`: its context is moved to its new
        position, and an active actor's callbacks run. A callback that removes the entity does
        so inside the tick, so it does not stop the contraption. */
    method TickActor(i: nat, input: ActorInput, reverseRotation: Vec3 -> Vec3) returns (broke: bool)
      requires contraption != null && i < |contraption.actors| && ticking
      modifies this`removed, this`events, contraption`actors
      ensures var t := ActorTurn(i, old(contraption.actors[i].context), input, reverseRotation, !old(removed));
        && contraption.actors == old(contraption.actors)[i := old(contraption.actors[i]).(context := t.context)]
        && removed == !t.alive && events == old(events) + t.calls && broke == t.broke
    {
      var ctx := contraption.actors[i].context;
      var oldMotion := ctx.motion;
      var newPosVisited := false;
      if !ctx.stall {
        var trigger := ShouldActorTrigger(ctx, input.position, GridOf(input.position), reverseRotation);
        newPosVisited, ctx := trigger.0, trigger.1;
      }
      ctx := ctx.(position := Some(input.position));
      broke := false;
      if input.behaviour.isActive {
        ctx, broke := RunCallbacks(i, ctx, oldMotion, newPosVisited, input.behaviour);
      }
      contraption.actors := contraption.actors[i := contraption.actors[i].(context := ctx)];
    }

    /** Rider `r` is a sub-contraption stabilized on this entity's contraption whose own
        contraption is stalled. */
    predicate StabilizedStalled(r: ContraptionEntity)
      reads this`contraption, r`contraption, r.ContraptionSet()`stalled
    {
      contraption != null && r.id in contraption.stabilized && r.contraption != null
      && r.contraption.stalled
    }

    /** The riders, as a set of objects. */
    function RiderSet(): set<ContraptionEntity>
      reads this`riders
    {
      set r | r in riders
    }

    /** The contraptions of the riders. */
    function RiderContraptions(): set<Contraption>
      reads this`riders, RiderSet()
    {
      set r | r in riders && r.contraption != null :: r.contraption
    }

    /** Some stabilized sub-contraption among the riders is stalled. */
    predicate SubContraptionStalled()
      reads this`riders, this`contraption, RiderSet(), RiderContraptions()
    {
      exists k :: 0 <= k < |riders| && StabilizedStalled(riders[k])
    }

    /** The scan of `tickActors` over the passengers: whether a stabilized sub-contraption
        among them is stalled. */
    method StabilizedRiderStalled() returns (stalled: bool)
      ensures stalled == SubContraptionStalled()
    {
      var j := 0;
      while j < |riders|
        invariant 0 <= j <= |riders|
        invariant forall k :: 0 <= k < j ==> !StabilizedStalled(riders[k])
      {
        if StabilizedStalled(riders[j]) {
          return true;
        }
        j := j + 1;
      }
      return false;
    }

    /** The loop of `tickActors` over the actors, with the entity marked as ticking: it follows
        `Run` to the end or to the break. */
    method RunActors(inputs: seq<ActorInput>, reverseRotation: Vec3 -> Vec3)
      requires contraption != null && |inputs| == |contraption.actors| && ticking
      modifies this`removed, this`events, contraption`actors, contraption`stalled
      ensures var st := Run(old(contraption.actors), inputs, reverseRotation, !old(removed),
                            old(contraption.stalled), |inputs|);
        && contraption.actors == st.actors && removed == !st.alive
        && contraption.stalled == st.stalled && events == old(events) + st.calls
    {
      ghost var actors0, alive0, stalled0, events0 := contraption.actors, !removed, contraption.stalled, events;
      ghost var calls: seq<Event> := [];
      var i := 0;
      var broke := false;
      while i < |inputs| && !broke
        invariant 0 <= i <= |inputs|
        invariant Run(actors0, inputs, reverseRotation, alive0, stalled0, i)
          == LoopState(contraption.actors, !removed, contraption.stalled, calls, broke)
        invariant events == events0 + calls
        decreases |inputs| - i
      {
        ghost var t := ActorTurn(i, contraption.actors[i].context, inputs[i], reverseRotation, !removed);
        AppendAssoc(events0, calls, t.calls);
        broke := TickActor(i, inputs[i], reverseRotation);
        if !broke && inputs[i].behaviour.isActive {
          contraption.stalled := contraption.stalled || contraption.actors[i].context.stall;
        }
        calls := calls + t.calls;
        i := i + 1;
      }
      if broke {
        RunBrokenIsFinal(actors0, inputs, reverseRotation, alive0, stalled0, i, |inputs|);
      }
    }

    /** The entity is not one of its riders, and its contraption is none of theirs. */
    lemma RiderContraptionsApart()
      requires Owned()
      ensures this !in riders && contraption !in RiderContraptions()
    {
      forall r | r in riders && r.contraption != null
        ensures r.contraption != contraption
      {
        assert r.Valid() && r.Owned();
      }
    }

    /** The end of `tickActors`, after the loop over the actors. When a callback removed the
        entity, the contraption is stopped and the entity stays marked as ticking. Otherwise a
        stalled stabilized sub-contraption stalls the contraption too; the server announces a
        stall that was not there before the tick and publishes the flag, and a client takes
        the flag the server published. */
    method EndTick(stalledPreviously: bool) returns (ghost sent: seq<Event>)
      requires contraption != null && ticking && this !in riders
      requires contraption !in RiderContraptions()
      modifies this`ticking, this`events, this`stalledData, contraption`stalled
      ensures events == old(events) + sent
      ensures removed ==>
        && ticking && contraption.stalled == old(contraption.stalled)
        && stalledData == old(stalledData) && sent == [ContraptionStopped]
      ensures !removed && isRemote ==>
        && !ticking && contraption.stalled == old(stalledData) && stalledData == old(stalledData)
        && sent == []
      ensures !removed && !isRemote ==>
        var stalled := old(contraption.stalled) || SubContraptionStalled();
        && !ticking && contraption.stalled == stalled && stalledData == stalled
        && sent == (if !stalledPreviously && stalled then [StallPacket] else [])
      ensures StopCount(events) == StopCount(old(events)) + if removed then 1 else 0
    {
      if removed {
        sent := [ContraptionStopped];
        StopCountAppend(events, sent);
        events := events + sent;
        return;
      }
      sent := FinishTick(stalledPreviously);
    }

    /** The end of `tickActors` when the entity survived its actors' callbacks. */
    method FinishTick(stalledPreviously: bool) returns (ghost sent: seq<Event>)
      requires contraption != null && this !in riders
      requires contraption !in RiderContraptions()
      modifies this`ticking, this`events, this`stalledData, contraption`stalled
      ensures events == old(events) + sent && !ticking
      ensures isRemote ==>
        contraption.stalled == old(stalledData) && stalledData == old(stalledData) && sent == []
      ensures !isRemote ==>
        var stalled := old(contraption.stalled) || SubContraptionStalled();
        && contraption.stalled == stalled && stalledData == stalled
        && sent == (if !stalledPreviously && stalled then [StallPacket] else [])
      ensures StopCount(events) == StopCount(old(events))
    {
      var riderStalled := StabilizedRiderStalled();
      if isRemote {
        contraption.stalled := stalledData;
        ticking := false;
        sent := [];
      } else {
        var stalled := contraption.stalled || riderStalled;
        sent := if !stalledPreviously && stalled then [StallPacket] else [];
        StopCountAppend(events, sent);
        contraption.stalled := stalled;
        ticking := false;
        events := events + sent;
        stalledData := stalled;
      }
      assert RiderSet() == old(RiderSet()) && RiderContraptions() == old(RiderContraptions());
    }

    /** The steps of `tickActors`: the actors are ticked in order while the entity is alive
        (`Run`, starting from the published flag on a client and from a cleared flag on the
        server), then the tick ends as `EndTick` describes. */
    method ActorsTick(inputs: seq<ActorInput>, reverseRotation: Vec3 -> Vec3)
      requires contraption != null && |inputs| == |contraption.actors|
      requires this !in riders && contraption !in RiderContraptions()
      modifies this`removed, this`ticking, this`events, this`stalledData, contraption`actors,
               contraption`stalled
      ensures var st := Run(old(contraption.actors), inputs, reverseRotation, !old(removed),
                            if isRemote then old(contraption.stalled) else false, |inputs|);
        && contraption.actors == st.actors && removed == !st.alive
        && (removed ==>
              && ticking && contraption.stalled == st.stalled && stalledData == old(stalledData)
              && events == old(events) + st.calls + [ContraptionStopped])
        && (!removed && isRemote ==>
              && !ticking && contraption.stalled == old(stalledData) && stalledData == old(stalledData)
              && events == old(events) + st.calls)
        && (!removed && !isRemote ==>
              var stalled := st.stalled
                || SubContraptionStalled();
              && !ticking && contraption.stalled == stalled && stalledData == stalled
              && events == old(events) + st.calls
                   + (if !old(contraption.stalled) && stalled then [StallPacket] else []))
      ensures !old(removed) && old(StopsAtMostOnce()) ==> StopsAtMostOnce()
    {
      ghost var st := Run(contraption.actors, inputs, reverseRotation, !removed,
                          if isRemote then contraption.stalled else false, |inputs|);
      RunNeverStops(contraption.actors, inputs, reverseRotation, !removed,
                    if isRemote then contraption.stalled else false);
      var stalledPreviously := BeginTick();
      RunActors(inputs, reverseRotation);
      StopCountAppend(old(events), st.calls);
      ghost var sent := EndTick(stalledPreviously);
      AppendAssoc(old(events), st.calls, sent);
    }

    /** The start of `tickActors`: the server clears the stall flag before the actors report,
        and the entity is marked as ticking. */
    method BeginTick() returns (stalledPreviously: bool)
      requires contraption != null
      modifies this`ticking, contraption`stalled
      ensures ticking && stalledPreviously == old(contraption.stalled)
      ensures contraption.stalled == if isRemote then old(contraption.stalled) else false
    {
      stalledPreviously := contraption.stalled;
      if !isRemote {
        contraption.stalled := false;
      }
      ticking := true;
    }

    /** `tickActors`, on an entity that keeps its invariant: the tick leaves the contraption
        reference, the passengers and the riders alone. */
    method TickActors(inputs: seq<ActorInput>, reverseRotation: Vec3 -> Vec3)
      requires Valid() && contraption != null && |inputs| == |contraption.actors|
      modifies this`removed, this`ticking, this`events, this`stalledData, contraption`actors,
               contraption`stalled
      ensures Valid()
      ensures var st := Run(old(contraption.actors), inputs, reverseRotation, !old(removed),
                            if isRemote then old(contraption.stalled) else false, |inputs|);
        && contraption.actors == st.actors && removed == !st.alive
        && (removed ==>
              && ticking && contraption.stalled == st.stalled && stalledData == old(stalledData)
              && events == old(events) + st.calls + [ContraptionStopped])
        && (!removed && isRemote ==>
              && !ticking && contraption.stalled == old(stalledData) && stalledData == old(stalledData)
              && events == old(events) + st.calls)
        && (!removed && !isRemote ==>
              var stalled := st.stalled
                || SubContraptionStalled();
              && !ticking && contraption.stalled == stalled && stalledData == stalled
              && events == old(events) + st.calls
                   + (if !old(contraption.stalled) && stalled then [StallPacket] else []))
      ensures !old(removed) && old(StopsAtMostOnce()) ==> StopsAtMostOnce()
    {
      RiderContraptionsApart();
      ActorsTick(inputs, reverseRotation);
      OwnershipKept();
    }

    /** `disassemble`: a live entity with a contraption removes itself first, so that a second
        call does nothing; it then places the contraption's blocks and passengers in the world,
        disassembles every stabilized sub-contraption riding it, dismounts its passengers and
        moves the entities it collided with. */
    method Disassemble()
      requires Valid()
      modifies this`removed, this`events, this`passengers, this`riders, ContraptionSet()`seatMapping,
               Others()
      ensures Valid()
      ensures removed <==> old(removed) || contraption != null
      ensures old(removed) || contraption == null ==> unchanged(Repr)
      ensures !old(removed) && contraption != null ==>
        && passengers == [] && riders == []
        && events == old(events) + DisassemblyLog(isRemote, old(riders), contraption.stabilized,
                                                  old(contraption.seatMapping), old(passengers),
                                                  collidingEntities.Keys)
        && contraption.seatMapping
           == (if isRemote then old(contraption.seatMapping)
               else old(contraption.seatMapping) - Ids(old(passengers)))
        && forall k :: 0 <= k < |old(riders)| ==> RiderDisassembled(old(riders)[k], contraption.stabilized)
      ensures old(StopsAtMostOnce()) ==> StopsAtMostOnce()
      decreases Repr, 5
    {
      if removed {
        return;
      }
      if contraption == null {
        return;
      }
      DisassembleLive();
    }

    /** The body of `disassemble` past its guard, on a live entity with a contraption: the
        entity is removed, the disassembly is announced and the blocks and passengers are
        placed, then the entity is taken apart. */
    method DisassembleLive()
      requires Valid() && !removed && contraption != null
      modifies this`removed, this`events, this`passengers, this`riders, contraption`seatMapping,
               Others()
      ensures Valid() && removed && passengers == [] && riders == []
      ensures events == old(events) + DisassemblyLog(isRemote, old(riders), contraption.stabilized,
                                                     old(contraption.seatMapping), old(passengers),
                                                     collidingEntities.Keys)
      ensures contraption.seatMapping
              == (if isRemote then old(contraption.seatMapping)
                  else old(contraption.seatMapping) - Ids(old(passengers)))
      ensures forall k :: 0 <= k < |old(riders)| ==> RiderDisassembled(old(riders)[k], contraption.stabilized)
      ensures old(StopsAtMostOnce()) ==> StopsAtMostOnce()
      decreases Repr, 4
    {
      ghost var head := Withdraw();
      ghost var rest := Dismantle();
      AppendAssoc(old(events), head, rest);
      DisassemblyLogParts(isRemote, old(riders), contraption.stabilized, old(contraption.seatMapping),
                          old(passengers), collidingEntities.Keys, head, rest);
      StopCountAppend(old(events), head + rest);
    }

    /** The start of `disassemble` past its guard: the entity removes itself, which stops the
        contraption on the server, then announces the disassembly and places the contraption's
        blocks and passengers in the world. */
    method Withdraw() returns (ghost head: seq<Event>)
      requires Valid() && !removed && contraption != null
      modifies this`removed, this`events
      ensures Valid() && removed
      ensures head == (if isRemote then [] else [ContraptionStopped])
                      + [DisassemblyPacket, BlocksPlaced, PassengersPlaced]
      ensures events == old(events) + head
      ensures forall k :: 0 <= k < |riders| ==> RiderUntouched(riders[k])
    {
      Remove();
      events := events + [DisassemblyPacket, BlocksPlaced, PassengersPlaced];
      head := (if isRemote then [] else [ContraptionStopped])
              + [DisassemblyPacket, BlocksPlaced, PassengersPlaced];
      AppendAssoc(old(events), if isRemote then [] else [ContraptionStopped],
                  [DisassemblyPacket, BlocksPlaced, PassengersPlaced]);
      OwnershipKept();
    }

    /** The end of `disassemble`: the stabilized sub-contraptions are disassembled, the
        passengers dismounted and the colliding entities moved. */
    method Dismantle() returns (ghost rest: seq<Event>)
      requires Valid() && removed && contraption != null
      modifies this`events, this`passengers, this`riders, contraption`seatMapping, Others()
      ensures Valid() && passengers == [] && riders == []
      ensures rest == SubContraptionMoves(old(riders), contraption.stabilized)
        + (if isRemote then [] else DetachLog(old(contraption.seatMapping), old(passengers)))
        + [CollidedEntitiesMoved(collidingEntities.Keys)]
      ensures events == old(events) + rest
      ensures contraption.seatMapping
              == (if isRemote then old(contraption.seatMapping)
                  else old(contraption.seatMapping) - Ids(old(passengers)))
      ensures forall k :: 0 <= k < |old(riders)| ==> RiderDisassembled(old(riders)[k], contraption.stabilized)
      decreases Repr, 3
    {
      ghost var moves := SubContraptionMoves(riders, contraption.stabilized);
      ghost var detach := if isRemote then [] else DetachLog(contraption.seatMapping, passengers);
      DisassembleRiders();
      label mid:
      ghost var tail := Release();
      forall k | 0 <= k < |old(riders)|
        ensures RiderDisassembled(old(riders)[k], contraption.stabilized)
      {
        assert RiderUntouched@mid(old(riders)[k]);
      }
      rest := moves + tail;
      AppendAssoc(old(events), moves, tail);
      AppendAssoc(moves, detach, [CollidedEntitiesMoved(collidingEntities.Keys)]);
    }

    /** The end of `disassemble` after the sub-contraptions: the passengers are dismounted and
        the colliding entities moved; no rider's own fields change. */
    method Release() returns (ghost tail: seq<Event>)
      requires Owned() && removed && contraption != null
      modifies this`events, this`passengers, this`riders, contraption`seatMapping
      ensures Valid() && passengers == [] && riders == []
      ensures tail == (if isRemote then [] else DetachLog(old(contraption.seatMapping), old(passengers)))
                      + [CollidedEntitiesMoved(collidingEntities.Keys)]
      ensures events == old(events) + tail
      ensures contraption.seatMapping
              == (if isRemote then old(contraption.seatMapping)
                  else old(contraption.seatMapping) - Ids(old(passengers)))
      ensures forall k :: 0 <= k < |old(riders)| ==> RiderUntouched(old(riders)[k])
    {
      ghost var detach := if isRemote then [] else DetachLog(contraption.seatMapping, passengers);
      RiderContraptionsApart();
      RemovePassengers();
      MoveCollidedEntities();
      forall k | 0 <= k < |old(riders)|
        ensures RiderUntouched(old(riders)[k])
      {
        assert old(riders)[k] != this;
      }
      tail := detach + [CollidedEntitiesMoved(collidingEntities.Keys)];
      AppendAssoc(old(events), detach, [CollidedEntitiesMoved(collidingEntities.Keys)]);
    }

    /** `moveCollidedEntitiesOnDisassembly`: the entities that recently collided with the
        contraption are moved along with its blocks. */
    method MoveCollidedEntities()
      modifies this`events
      ensures events == old(events) + [CollidedEntitiesMoved(collidingEntities.Keys)]
    {
      events := events + [CollidedEntitiesMoved(collidingEntities.Keys)];
    }

    /** The loop of `disassemble` over the passengers: every rider whose id is stabilized on
        the contraption is moved and disassembled in turn. */
    method DisassembleRiders()
      requires Owned() && contraption != null
      modifies this`events, Others()
      ensures Owned()
      ensures events == old(events) + SubContraptionMoves(riders, contraption.stabilized)
      ensures forall k :: 0 <= k < |riders| ==> RiderDisassembled(riders[k], contraption.stabilized)
      decreases Repr, 2
    {
      var j := 0;
      while j < |riders|
        invariant 0 <= j <= |riders| && Owned()
        invariant events == old(events) + SubContraptionMoves(riders[..j], contraption.stabilized)
        invariant forall k :: 0 <= k < j ==> RiderDisassembled(riders[k], contraption.stabilized)
        invariant forall k :: j <= k < |riders| ==> RiderUntouched(riders[k])
      {
        assert riders[..j + 1][..j] == riders[..j];
        AppendAssoc(old(events), SubContraptionMoves(riders[..j], contraption.stabilized),
                    if riders[j].id in contraption.stabilized then [SubContraptionMoved(riders[j].id)] else []);
        label before:
        DisassembleRider(j);
        forall k | 0 <= k < j
          ensures RiderDisassembled(riders[k], contraption.stabilized)
        {
          assert RiderUntouched@before(riders[k]);
        }
        forall k | j < k < |riders|
          ensures RiderUntouched(riders[k])
        {
          assert RiderUntouched@before(riders[k]);
        }
        j := j + 1;
      }
      assert riders[..j] == riders;
    }

    /** One iteration of the loop of `disassemble` over the passengers: rider `j`, if it is a
        stabilized sub-contraption, is moved and disassembled, and otherwise skipped with all it
        owns unchanged; no other rider changes. */
    method DisassembleRider(j: nat)
      requires Owned() && contraption != null && j < |riders|
      modifies this`events, riders[j].Repr
      ensures Owned()
      ensures events == old(events)
        + (if riders[j].id in contraption.stabilized then [SubContraptionMoved(riders[j].id)] else [])
      ensures RiderDisassembled(riders[j], contraption.stabilized)
      ensures riders[j].id in contraption.stabilized && !old(riders[j].removed)
              && riders[j].contraption != null ==>
        && riders[j].events == old(riders[j].events)
             + DisassemblyLog(riders[j].isRemote, old(riders[j].riders), riders[j].contraption.stabilized,
                              old(riders[j].contraption.seatMapping), old(riders[j].passengers),
                              riders[j].collidingEntities.Keys)
        && riders[j].contraption.seatMapping
           == (if riders[j].isRemote then old(riders[j].contraption.seatMapping)
               else old(riders[j].contraption.seatMapping) - Ids(old(riders[j].passengers)))
      ensures riders[j].id !in contraption.stabilized ==> unchanged(old(riders[j].Repr))
      ensures forall k :: 0 <= k < |riders| && k != j ==> RiderUntouched(riders[k])
      decreases Repr, 1
    {
      if riders[j].id in contraption.stabilized {
        DisassembleStabilized(j);
      }
    }

    /** The body of that iteration for a stabilized rider `j`: it is disassembled and then
        moved along with the contraption. */
    method DisassembleStabilized(j: nat)
      requires Owned() && contraption != null && j < |riders| && riders[j].id in contraption.stabilized
      modifies this`events, riders[j].Repr
      ensures Owned()
      ensures events == old(events) + [SubContraptionMoved(riders[j].id)]
      ensures RiderDisassembled(riders[j], contraption.stabilized)
      ensures !old(riders[j].removed) && riders[j].contraption != null ==>
        && riders[j].events == old(riders[j].events)
             + DisassemblyLog(riders[j].isRemote, old(riders[j].riders), riders[j].contraption.stabilized,
                              old(riders[j].contraption.seatMapping), old(riders[j].passengers),
                              riders[j].collidingEntities.Keys)
        && riders[j].contraption.seatMapping
           == (if riders[j].isRemote then old(riders[j].contraption.seatMapping)
               else old(riders[j].contraption.seatMapping) - Ids(old(riders[j].passengers)))
      ensures forall k :: 0 <= k < |riders| && k != j ==> RiderUntouched(riders[k])
      decreases Repr, 0
    {
      var r := riders[j];
      assert r.Valid() && r.Owned();
      label before:
      r.Disassemble();
      events := events + [SubContraptionMoved(r.id)];
      OthersKept@before(j);
      if !old(r.removed) && r.contraption != null {
        LoggedDisassembly(old(r.events), r.events, r.isRemote, old(r.riders), r.contraption.stabilized,
                          old(r.contraption.seatMapping), old(r.passengers), r.collidingEntities.Keys);
      }
    }

    /** A step that changes only what rider `j` owns, and leaves it valid, keeps the footprint
        invariant and leaves every other rider as it was. */
    twostate lemma OthersKept(j: nat)
      requires old(Owned()) && j < |riders|
      requires unchanged(this`contraption, this`Repr, this`passengers, this`riders)
      requires riders[j].Valid() && riders[j].Repr == old(riders[j].Repr)
      requires forall k :: 0 <= k < |riders| && k != j ==> unchanged(old(riders[k].Repr))
      ensures Owned()
      ensures forall k :: 0 <= k < |riders| && k != j ==> RiderUntouched(riders[k])
    {
      forall k | 0 <= k < |riders|
        ensures riders[k].Valid() && riders[k].Repr == old(riders[k].Repr)
        ensures k != j ==> RiderUntouched(riders[k])
      {
        if k != j {
          ValidUntouched(riders[k]);
        }
      }
      RidersStillOwned();
    }

    /** A rider none of whose objects changed keeps its invariant. */
    twostate lemma ValidUntouched(r: ContraptionEntity)
      requires old(r.Valid())
      requires unchanged(old(r.Repr))
      ensures r.Valid() && r.Repr == old(r.Repr) && unchanged(r)
    {
      assert r.Others() == old(r.Others());
    }

    /** A step that leaves the contraption reference, the footprint, the passengers and the
        rider list alone and keeps every rider valid within its footprint keeps the footprint
        invariant. */
    twostate lemma RidersStillOwned()
      requires old(Owned())
      requires unchanged(this`contraption, this`Repr, this`passengers, this`riders)
      requires forall r :: r in riders ==> r.Valid() && r.Repr == old(r.Repr)
      ensures Owned()
    {
    }

    /** `getPrevPositionVec`: the position of the previous tick, or the current position while
        the previous one is not valid. */
    function PrevPositionVec(): (v: Vec3)
      reads this
      ensures prevPosInvalid ==> v == pos
    {
      if prevPosInvalid then pos else prevPos
    }
  }
}
