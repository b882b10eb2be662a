/** The seat table of a contraption and the passenger list of its entity, as values. */
module Seats {
  import opened Geometry
  import opened Entities

  /** The ids of a list of entities. */
  function Ids(ps: seq<Entity>): set<Uuid>
  {
    set p | p in ps :: p.id
  }

  /** No two entities of the list share an id. */
  predicate DistinctIds(ps: seq<Entity>)
  {
    ps == [] || (ps[0].id !in Ids(ps[1..]) && DistinctIds(ps[1..]))
  }

  /** The list without the entity whose id is `id`. */
  function Without(ps: seq<Entity>, id: Uuid): (rest: seq<Entity>)
    ensures forall p :: p in rest <==> p in ps && p.id != id
    ensures Ids(rest) == Ids(ps) - {id}
    ensures DistinctIds(ps) ==> DistinctIds(rest)
  {
    if ps == [] then []
    else
      var tail := Without(ps[1..], id);
      assert ps == [ps[0]] + ps[1..];
      if ps[0].id == id then tail else [ps[0]] + tail
  }

  /** `addPassenger`: a passenger joins the list, at the front when `atFront` (a player boarding
      on the server) and at the end otherwise. */
  function Boarded(ps: seq<Entity>, p: Entity, atFront: bool): (after: seq<Entity>)
    ensures Ids(after) == Ids(ps) + {p.id}
    ensures forall q :: q in after <==> q in ps || q == p
    ensures p.id !in Ids(ps) && DistinctIds(ps) ==> DistinctIds(after)
  {
    if atFront then
      assert ([p] + ps)[1..] == ps;
      [p] + ps
    else
      DistinctAppend(ps, p);
      ps + [p]
  }

  /** A passenger that was not aboard and leaves again after boarding leaves the list as it
      was. */
  lemma BoardedThenWithout(ps: seq<Entity>, p: Entity, atFront: bool)
    requires p.id !in Ids(ps)
    ensures Without(Boarded(ps, p, atFront), p.id) == ps
  {
    WithoutAbsent(ps, p.id);
    if atFront {
      assert ([p] + ps)[1..] == ps;
    } else {
      WithoutAppend(ps, [p], p.id);
      assert [p][1..] == [];
    }
  }

  /** Removing an id nobody has changes nothing. */
  lemma {:induction false} WithoutAbsent(ps: seq<Entity>, id: Uuid)
    requires id !in Ids(ps)
    ensures Without(ps, id) == ps
  {
    if ps != [] {
      assert ps[0] in ps;
      WithoutAbsent(ps[1..], id);
      assert ps == [ps[0]] + ps[1..];
    }
  }

  /** Removing an id from two lists joined is removing it from each. */
  lemma {:induction false} WithoutAppend(a: seq<Entity>, b: seq<Entity>, id: Uuid)
    ensures Without(a + b, id) == Without(a, id) + Without(b, id)
  {
    if a == [] {
      assert a + b == b;
    } else {
      assert (a + b)[0] == a[0] && (a + b)[1..] == a[1..] + b;
      WithoutAppend(a[1..], b, id);
    }
  }

  lemma {:induction false} DistinctAppend(ps: seq<Entity>, p: Entity)
    ensures p.id !in Ids(ps) && DistinctIds(ps) ==> DistinctIds(ps + [p])
  {
    if ps != [] && p.id !in Ids(ps) {
      assert (ps + [p])[1..] == ps[1..] + [p];
      assert Ids(ps[1..] + [p]) == Ids(ps[1..]) + {p.id};
      assert ps[0] in ps;
      DistinctAppend(ps[1..], p);
    }
  }

  /** Removing the last passenger of a list with distinct ids leaves the others in order. */
  lemma {:induction false} WithoutLast(ps: seq<Entity>)
    requires ps != [] && DistinctIds(ps)
    ensures Without(ps, ps[|ps| - 1].id) == ps[..|ps| - 1]
  {
    if |ps| > 1 {
      var last := ps[|ps| - 1];
      assert last in ps[1..];
      assert last.id in Ids(ps[1..]);
      WithoutLast(ps[1..]);
      assert ps[1..][|ps| - 2] == last;
      assert ps[1..][..|ps| - 2] == ps[1..|ps| - 1];
    }
  }

  /** The ids of the sub-contraption entities among a list of passengers, in riding order. */
  function OrientedIds(ps: seq<Entity>): (ids: seq<Uuid>)
    ensures |ids| <= |ps|
  {
    if ps == [] then []
    else
      (if ps[0].kind == OrientedContraption then [ps[0].id] else []) + OrientedIds(ps[1..])
  }

  /** Every sub-contraption id is the id of a passenger. */
  lemma {:induction false} OrientedIdsAreIds(ps: seq<Entity>)
    ensures forall x :: x in OrientedIds(ps) ==> x in Ids(ps)
  {
    if ps != [] {
      OrientedIdsAreIds(ps[1..]);
      assert ps[0] in ps;
      assert forall q :: q in ps[1..] ==> q in ps;
    }
  }

  /** The sequence of ids without any occurrence of `id`. */
  function RemoveId(ids: seq<Uuid>, id: Uuid): (rest: seq<Uuid>)
    ensures forall x :: x in rest <==> x in ids && x != id
  {
    if ids == [] then []
    else (if ids[0] == id then [] else [ids[0]]) + RemoveId(ids[1..], id)
  }

  /** Boarding a sub-contraption entity adds its id at the end of the sub-contraption ids; any
      other boarding, at either end, leaves them alone. */
  lemma OrientedIdsBoarded(ps: seq<Entity>, p: Entity, atFront: bool)
    requires atFront ==> p.kind != OrientedContraption
    ensures OrientedIds(Boarded(ps, p, atFront))
            == OrientedIds(ps) + (if p.kind == OrientedContraption then [p.id] else [])
  {
    if atFront {
      assert ([p] + ps)[1..] == ps;
    } else {
      OrientedIdsAppend(ps, p);
    }
  }

  /** Appending an entity to a list appends its id to the sub-contraption ids when it is a
      sub-contraption entity. */
  lemma {:induction false} OrientedIdsAppend(ps: seq<Entity>, p: Entity)
    ensures OrientedIds(ps + [p])
            == OrientedIds(ps) + (if p.kind == OrientedContraption then [p.id] else [])
  {
    if ps == [] {
      assert ps + [p] == [p];
      assert [p][1..] == [];
    } else {
      assert (ps + [p])[1..] == ps[1..] + [p];
      OrientedIdsAppend(ps[1..], p);
    }
  }

  /** Leaving removes the passenger's id from the sub-contraption ids and keeps the others in
      order. */
  lemma {:induction false} OrientedIdsWithout(ps: seq<Entity>, id: Uuid)
    ensures OrientedIds(Without(ps, id)) == RemoveId(OrientedIds(ps), id)
  {
    if ps != [] {
      OrientedIdsWithout(ps[1..], id);
      var head: seq<Uuid> := if ps[0].kind == OrientedContraption then [ps[0].id] else [];
      var tail := OrientedIds(ps[1..]);
      if head != [] {
        assert (head + tail)[0] == ps[0].id && (head + tail)[1..] == tail;
      } else {
        assert head + tail == tail;
      }
      if ps[0].id != id {
        var w := Without(ps[1..], id);
        assert ([ps[0]] + w)[0] == ps[0] && ([ps[0]] + w)[1..] == w;
      }
    }
  }

  /** `List.indexOf`: the first place of `pos` among the seats, or -1 when it is not a seat. */
  function IndexOf(seats: seq<GridPos>, pos: GridPos): (index: int)
    ensures index == -1 <==> pos !in seats
    ensures index != -1 ==> 0 <= index < |seats| && seats[index] == pos && pos !in seats[..index]
  {
    if seats == [] then -1
    else if seats[0] == pos then 0
    else
      var rest := IndexOf(seats[1..], pos);
      assert seats == [seats[0]] + seats[1..];
      if rest == -1 then -1
      else
        assert seats[..rest + 1] == [seats[0]] + seats[1..][..rest];
        rest + 1
  }

  /** The seat mapping puts entity `o` on seat `index`. */
  predicate SeatedAt(seatMapping: map<Uuid, int>, o: Entity, index: int)
  {
    o.id in seatMapping && seatMapping[o.id] == index
  }

  /** A player among the passengers is mapped to seat `index`. */
  predicate PlayerSeatedAt(seatMapping: map<Uuid, int>, ps: seq<Entity>, index: int)
  {
    exists o :: o in ps && SeatedAt(seatMapping, o, index) && o.kind == Player
  }

  /** A passenger that is not a player is mapped to seat `index`. */
  predicate OtherSeatedAt(seatMapping: map<Uuid, int>, ps: seq<Entity>, index: int)
  {
    exists o :: o in ps && SeatedAt(seatMapping, o, index) && o.kind != Player
  }

  /** The seat-mapping packets sent while the passengers `ps` are dismounted last-first, each
      carrying the whole mapping after one removal. */
  function DetachLog(seatMapping: map<Uuid, int>, ps: seq<Entity>): (log: seq<Event>)
    ensures |log| == |ps|
    ensures forall e :: e in log ==> e.SeatMappingPacket?
    decreases |ps|
  {
    if ps == [] then []
    else
      var after := seatMapping - {ps[|ps| - 1].id};
      [SeatMappingPacket(after)] + DetachLog(after, ps[..|ps| - 1])
  }

  /** Dismounting the last passenger sends the mapping without it, and what remains to be
      sent is the dismount sequence of the others from that mapping; the ids still to be freed
      shrink by the last one. */
  lemma DetachLogStep(seatMapping: map<Uuid, int>, ps: seq<Entity>)
    requires ps != []
    ensures var last := ps[|ps| - 1]; var front := ps[..|ps| - 1];
      && DetachLog(seatMapping, ps)
           == [SeatMappingPacket(seatMapping - {last.id})] + DetachLog(seatMapping - {last.id}, front)
      && seatMapping - {last.id} - Ids(front) == seatMapping - Ids(ps)
  {
    var last := ps[|ps| - 1];
    var front := ps[..|ps| - 1];
    assert ps == front + [last];
    assert Ids(ps) == Ids(front) + {last.id};
  }

  /** Proof helper: moving the first packet still to be sent over to the packets already
      sent. */
  lemma SentOneMore(sent: seq<Event>, packet: Event, rest: seq<Event>, whole: seq<Event>)
    requires sent + ([packet] + rest) == whole
    ensures (sent + [packet]) + rest == whole
  {
    assert (sent + [packet]) + rest == sent + ([packet] + rest);
  }

  /** The last packet of a dismount sequence carries the mapping without every dismounted id. */
  lemma {:induction false} DetachLogEndsWithFinalMapping(seatMapping: map<Uuid, int>,
                                                         ps: seq<Entity>)
    requires ps != []
    ensures var log := DetachLog(seatMapping, ps);
      log[|log| - 1] == SeatMappingPacket(seatMapping - Ids(ps))
    decreases |ps|
  {
    var last := ps[|ps| - 1];
    var after := seatMapping - {last.id};
    var front := ps[..|ps| - 1];
    assert ps == front + [last];
    assert Ids(ps) == Ids(front) + {last.id};
    if front != [] {
      DetachLogEndsWithFinalMapping(after, front);
      assert after - Ids(front) == seatMapping - Ids(ps);
    } else {
      assert Ids(ps) == {last.id};
    }
  }
}
