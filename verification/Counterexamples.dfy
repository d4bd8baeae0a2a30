/** Concrete tables of four slots, keys hashed to themselves, on which rhhm_get and rhhm_remove do not
    do what their names say. The general conditions are RobinHood.GetExact and Removal.RemoveExact. */
module Counterexamples {
  import opened Values
  import opened RobinHood
  import opened Removal

  function Self(k: nat): nat { k }

  function Hole(): Entry<nat> { Entry(None, 0) }

  function Full(k: nat): Entry<nat> { Entry(Plain(k), k) }

  ghost predicate Sound(t: seq<Entry<nat>>)
  {
    |t| == 4 && Good(t, Self) && HasRoom(t)
  }

  /** Key 2 sits at home right behind key 1: removing 1 copies 2 back and leaves it in both slots. */
  lemma NeighbourDuplicated()
    ensures var t := [Hole(), Full(1), Full(2), Hole()];
            Sound(t) && Remove(t, Self, 1) == [Hole(), Full(2), Full(2), Hole()] &&
            !Unique(Remove(t, Self, 1)) && !Removable(t, Self, 1)
  {
    var t := [Hole(), Full(1), Full(2), Hole()];
    assert Vacant(t[0]);
    assert Hunt(t, Self, 1, 0) == 1;
    assert Moved(t, Self, 1, 0) == 0;
    var r := Remove(t, Self, 1);
    assert r[1] == r[2] == Full(2);
    assert r == [Hole(), Full(2), Full(2), Hole()];
    assert Absent(r, 1);
    assert !Vacant(t[RunEnd(t, Self, 1)]);
  }

  /** Key 5, displaced from home 1, stands before key 2: the search for 2 gives up there although 2
      is present, and nothing is removed. */
  lemma SearchGivesUp()
    ensures var t := [Hole(), Full(1), Full(5), Full(2)];
            Sound(t) && Get(t, Self, 2) == Plain(2) && Remove(t, Self, 2) == t && !Removable(t, Self, 2)
  {
    var t := [Hole(), Full(1), Full(5), Full(2)];
    assert Vacant(t[0]);
    assert Hunt(t, Self, 2, 0) == 4;
    assert GetFrom(t, Self, 2, 1) == Plain(2);
    assert !PathClear(t, Self, 2, 3) by {
      assert Step(4, Home(4, Self, 2), 0) == 2;
      assert Home(4, Self, t[2].key) == 1;
    }
  }

  /** Key 1 was given the value nil: key 5, one slot behind its home, can no longer be read. */
  lemma NilHidesAnotherKey()
    ensures var t := [Hole(), Entry(Nil, 1), Full(5), Hole()];
            Sound(t) && Lookup(t, 5) == Plain(5) && Get(t, Self, 5) == Nil && NilBlocked(t, Self, 5)
  {
    var t := [Hole(), Entry(Nil, 1), Full(5), Hole()];
    assert Vacant(t[0]);
    assert !Vacant(t[2]) && t[2].key == 5;
    assert GetFrom(t, Self, 5, 0) == Nil;
    assert Step(4, Home(4, Self, 5), 0) == 1 && Off(t, Self, 2) == 1;
  }
}
