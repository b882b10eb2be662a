/** The collision filter of a contraption entity: which other entities it may push. */
module Collision {
  import opened Entities

  /** Whether `e` is found while walking this contraption entity's riding chain from its own
      vehicle upwards; `vehicles` lists that chain, nearest vehicle first. */
  predicate OnRidingChain(vehicles: seq<Uuid>, e: Uuid)
    ensures OnRidingChain(vehicles, e) <==> e in vehicles
  {
    vehicles != [] && (vehicles[0] == e || OnRidingChain(vehicles[1..], e))
  }

  /** `canCollideWith(e)`: the tests in the order the entity applies them. `mounted` says the
      contraption is a minecart-mounted one. */
  predicate CanCollideWith(e: Entity, vehicles: seq<Uuid>, mounted: bool)
    ensures CanCollideWith(e, vehicles, mounted) ==>
      !e.noClip && e.kind !in {Hanging, SuperGlue, Seat, Projectile}
      && (if e.kind == Minecart then !mounted
          else e.pushReaction == Normal && e.ridingId.None? && e.id !in vehicles)
  {
    if e.kind == Player && e.spectator then false
    else if e.noClip then false
    else if e.kind == Hanging then false
    else if e.kind == Minecart then !mounted
    else if e.kind == SuperGlue then false
    else if e.kind == Seat then false
    else if e.kind == Projectile then false
    else if e.ridingId.Some? then false
    else if OnRidingChain(vehicles, e.id) then false
    else e.pushReaction == Normal
  }

  /** The entities that are never pushed, whatever the contraption. */
  predicate Excluded(e: Entity, vehicles: seq<Uuid>)
  {
    || (e.kind == Player && e.spectator)
    || e.noClip
    || e.kind in {Hanging, SuperGlue, Seat, Projectile}
    || e.ridingId.Some?
    || e.id in vehicles
  }

  /** The filter stated without its order: a minecart that clips collides exactly when the
      contraption is not minecart-mounted, even if it rides something or is on the riding chain;
      every other entity collides exactly when it is not excluded and reacts normally to pushes. */
  lemma CanCollideWithCharacterized(e: Entity, vehicles: seq<Uuid>, mounted: bool)
    ensures e.kind == Minecart && !e.noClip ==> (CanCollideWith(e, vehicles, mounted) <==> !mounted)
    ensures e.kind != Minecart ==>
      (CanCollideWith(e, vehicles, mounted) <==> !Excluded(e, vehicles) && e.pushReaction == Normal)
    ensures e.noClip ==> !CanCollideWith(e, vehicles, mounted)
  {
  }

  /** One test of the filter: it either decides the outcome or passes to the next test. */
  function Rules(e: Entity, vehicles: seq<Uuid>, mounted: bool): (rules: seq<Option<bool>>)
    ensures |rules| == 9
  {
    [ if e.kind == Player && e.spectator then Some(false) else None,
      if e.noClip then Some(false) else None,
      if e.kind == Hanging then Some(false) else None,
      if e.kind == Minecart then Some(!mounted) else None,
      if e.kind == SuperGlue then Some(false) else None,
      if e.kind == Seat then Some(false) else None,
      if e.kind == Projectile then Some(false) else None,
      if e.ridingId.Some? then Some(false) else None,
      if e.id in vehicles then Some(false) else None ]
  }

  /** The verdict of the first test from the `i`-th on that decides, or `otherwise` when none
      does. */
  function FirstVerdict(rules: seq<Option<bool>>, i: nat, otherwise: bool): bool
    requires i <= |rules|
    decreases |rules| - i
  {
    if i == |rules| then otherwise
    else if rules[i].Some? then rules[i].value
    else FirstVerdict(rules, i + 1, otherwise)
  }

  /** The filter is a first-match rule list whose fall-through verdict is the push reaction. */
  lemma CanCollideWithIsFirstMatch(e: Entity, vehicles: seq<Uuid>, mounted: bool)
    ensures CanCollideWith(e, vehicles, mounted)
            == FirstVerdict(Rules(e, vehicles, mounted), 0, e.pushReaction == Normal)
  {
    var rules, otherwise := Rules(e, vehicles, mounted), e.pushReaction == Normal;
    assert FirstVerdict(rules, 8, otherwise) == (if e.id in vehicles then false else otherwise);
    assert FirstVerdict(rules, 7, otherwise)
      == (if e.ridingId.Some? then false else FirstVerdict(rules, 8, otherwise));
    assert FirstVerdict(rules, 6, otherwise)
      == (if e.kind == Projectile then false else FirstVerdict(rules, 7, otherwise));
    assert FirstVerdict(rules, 5, otherwise)
      == (if e.kind == Seat then false else FirstVerdict(rules, 6, otherwise));
    assert FirstVerdict(rules, 4, otherwise)
      == (if e.kind == SuperGlue then false else FirstVerdict(rules, 5, otherwise));
    assert FirstVerdict(rules, 3, otherwise)
      == (if e.kind == Minecart then !mounted else FirstVerdict(rules, 4, otherwise));
    assert FirstVerdict(rules, 2, otherwise)
      == (if e.kind == Hanging then false else FirstVerdict(rules, 3, otherwise));
    assert FirstVerdict(rules, 1, otherwise)
      == (if e.noClip then false else FirstVerdict(rules, 2, otherwise));
  }
}
