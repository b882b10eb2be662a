/** The table of entities that recently collided with a contraption, each with the number of
    ticks since the collision was last recorded. */
module Aging {
  import opened Entities

  /** Oldest age an entry may keep. */
  const MaxAge := 3

  /** One tick of the table: every age goes up by one and an entry whose new age passes
      `MaxAge` is dropped. */
  function Aged(table: map<Uuid, int>): (aged: map<Uuid, int>)
    ensures aged.Keys <= table.Keys
    ensures forall e :: e in aged ==> aged[e] == table[e] + 1 && aged[e] <= MaxAge
    ensures forall e :: e in table && table[e] < MaxAge ==> e in aged
  {
    map e | e in table && table[e] + 1 <= MaxAge :: table[e] + 1
  }

  /** `n` ticks of the table. */
  function AgedTimes(table: map<Uuid, int>, n: nat): (aged: map<Uuid, int>)
    ensures aged.Keys <= table.Keys
    ensures forall e :: e in aged ==> aged[e] == table[e] + n
    ensures n >= 1 ==> forall e :: e in aged ==> aged[e] <= MaxAge
  {
    if n == 0 then table else Aged(AgedTimes(table, n - 1))
  }

  /** After `n` ticks without new collisions, exactly the entries whose age was at most
      `MaxAge - n` remain, each `n` older. */
  lemma {:induction false} AgedTimesSurvivors(table: map<Uuid, int>, n: nat)
    requires n >= 1
    ensures AgedTimes(table, n) == map e | e in table && table[e] + n <= MaxAge :: table[e] + n
  {
    if n > 1 {
      AgedTimesSurvivors(table, n - 1);
      var after := AgedTimes(table, n);
      var expected := map e | e in table && table[e] + n <= MaxAge :: table[e] + n;
      forall e | e in after
        ensures e in expected && after[e] == expected[e]
      {
      }
      forall e | e in expected
        ensures e in after
      {
      }
    }
  }

  /** Counters start at zero or more, so an entity that stops colliding is forgotten after four
      ticks, and every age kept in the table stays within `MaxAge`. */
  lemma AgeOut(table: map<Uuid, int>)
    requires forall e :: e in table ==> table[e] >= 0
    ensures AgedTimes(table, MaxAge + 1) == map[]
  {
    AgedTimesSurvivors(table, MaxAge + 1);
    var left := AgedTimes(table, MaxAge + 1);
    forall e | e in left.Keys
      ensures false
    {
    }
    assert left.Keys == {};
  }
}
