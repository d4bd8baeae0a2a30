/** rhhm_remove: backward-shift deletion, with its home-index exit and copy-before-test loop, and
    exactly when it deletes. */
module Removal {
  import opened Values
  import opened RobinHood

  /** The search of rhhm_remove, o steps from home: the slot of k, or |t| when it gives up. It gives
      up at the first entry whose home index is below the key's, not on distance. */
  function Hunt<K(==)>(t: seq<Entry<K>>, h: K -> nat, k: K, o: nat): (r: nat)
    requires o < |t|
    ensures r <= |t|
    decreases |t| - o
  {
    var hm := Home(|t|, h, k);
    var i := Step(|t|, hm, o);
    if Vacant(t[i]) then |t|
    else if t[i].key == k then i
    else if Home(|t|, h, t[i].key) < hm then |t|
    else if o + 1 < |t| then Hunt(t, h, k, o + 1)
    else |t|
  }

  /** How many entries behind slot p are copied back one slot by the shifting loop before the one
      that ends it: those that are present and away from home. */
  function Moved<K>(t: seq<Entry<K>>, h: K -> nat, p: nat, o: nat): (m: nat)
    requires p < |t| && o < |t|
    ensures o <= m < |t|
    decreases |t| - o
  {
    if o + 1 < |t| && !Vacant(t[Step(|t|, p, o + 1)]) && Off(t, h, Step(|t|, p, o + 1)) != 0
    then Moved(t, h, p, o + 1)
    else o
  }

  /** Slots p .. p+m overwritten by their successors. */
  function Shifted<K>(t: seq<Entry<K>>, p: nat, m: nat): (r: seq<Entry<K>>)
    requires p < |t|
    ensures |r| == |t|
    ensures forall x | 0 <= x < |t| :: r[x] == if Dist(|t|, x, p) <= m then t[Next(|t|, x)] else t[x]
  {
    seq(|t|, x requires 0 <= x < |t| => if Dist(|t|, x, p) <= m then t[Next(|t|, x)] else t[x])
  }

  /** The first m slots from p overwritten by their successors. */
  function Copied<K>(t: seq<Entry<K>>, p: nat, m: nat): seq<Entry<K>>
    requires p < |t|
  {
    if m == 0 then t else Shifted(t, p, m - 1)
  }

  lemma CopiedStep<K>(t: seq<Entry<K>>, p: nat, m: nat)
    requires p < |t| && m + 1 < |t|
    ensures Copied(t, p, m)[Step(|t|, p, m + 1)] == t[Step(|t|, p, m + 1)]
    ensures Copied(t, p, m)[Step(|t|, p, m) := t[Step(|t|, p, m + 1)]] == Shifted(t, p, m) == Copied(t, p, m + 1)
  {
    var i := Step(|t|, p, m);
    var r := Copied(t, p, m)[i := t[Step(|t|, p, m + 1)]];
    forall x | 0 <= x < |t|
      ensures r[x] == Shifted(t, p, m)[x]
    {
      assert x == Step(|t|, p, Dist(|t|, x, p));
    }
  }

  /** rhhm_remove on an initialised table. */
  function Remove<K(==)>(t: seq<Entry<K>>, h: K -> nat, k: K): seq<Entry<K>>
    requires |t| > 0
  {
    var p := Hunt(t, h, k, 0);
    if p == |t| then t else Shifted(t, p, Moved(t, h, p, 0))
  }

  /** No entry met on the way from k's home to slot p has a home index below k's. */
  ghost predicate PathClear<K>(t: seq<Entry<K>>, h: K -> nat, k: K, p: nat)
    requires p < |t|
  {
    forall j | 0 <= j < Dist(|t|, p, Home(|t|, h, k)) ::
      Home(|t|, h, t[Step(|t|, Home(|t|, h, k), j)].key) >= Home(|t|, h, k)
  }

  /** The first slot behind p that does not move. */
  function RunEnd<K>(t: seq<Entry<K>>, h: K -> nat, p: nat): (r: nat)
    requires p < |t|
    ensures r < |t|
  {
    Next(|t|, Step(|t|, p, Moved(t, h, p, 0)))
  }

  /** What a caller can check before removing k: its path is clear and its run ends in a hole. */
  ghost predicate Removable<K>(t: seq<Entry<K>>, h: K -> nat, k: K)
  {
    exists p :: 0 <= p < |t| && !Vacant(t[p]) && t[p].key == k && PathClear(t, h, k, p) && Vacant(t[RunEnd(t, h, p)])
  }

  lemma {:induction false} HuntFinds<K>(t: seq<Entry<K>>, h: K -> nat, k: K, p: nat, o: nat)
    requires Good(t, h) && HasRoom(t) && p < |t| && !Vacant(t[p]) && t[p].key == k && o <= Off(t, h, p)
    requires forall j | 0 <= j < o :: Home(|t|, h, t[Step(|t|, Home(|t|, h, k), j)].key) >= Home(|t|, h, k)
    ensures Hunt(t, h, k, o) == if PathClear(t, h, k, p) then p else |t|
    decreases Off(t, h, p) - o
  {
    PresentIsReached(t, h, k, p);
    if o < Off(t, h, p) {
      var i := Step(|t|, Home(|t|, h, k), o);
      assert Passes(t, h, Home(|t|, h, k), i);
      if Home(|t|, h, t[i].key) >= Home(|t|, h, k) {
        HuntFinds(t, h, k, p, o + 1);
      }
    }
  }

  lemma {:induction false} HuntMisses<K>(t: seq<Entry<K>>, h: K -> nat, k: K, o: nat)
    requires Absent(t, k) && o < |t|
    ensures Hunt(t, h, k, o) == |t|
    decreases |t| - o
  {
    if o + 1 < |t| {
      HuntMisses(t, h, k, o + 1);
    }
  }

  /** The moved entries are present and away from home; a hole further on stops the run. */
  lemma {:induction false} MovedRun<K>(t: seq<Entry<K>>, h: K -> nat, p: nat, o: nat)
    requires p < |t| && !Vacant(t[p]) && HasRoom(t) && o < |t|
    requires forall j | 0 < j <= o :: !Vacant(t[Step(|t|, p, j)]) && Off(t, h, Step(|t|, p, j)) > 0
    ensures var m := Moved(t, h, p, o);
            m + 1 < |t| && (Vacant(t[Step(|t|, p, m + 1)]) || Off(t, h, Step(|t|, p, m + 1)) == 0)
    ensures forall j | 0 < j <= Moved(t, h, p, o) :: !Vacant(t[Step(|t|, p, j)]) && Off(t, h, Step(|t|, p, j)) > 0
    decreases |t| - o
  {
    var z := VacantSlot(t);
    assert Step(|t|, p, Dist(|t|, z, p)) == z;
    assert Step(|t|, p, 0) == p;
    if Moved(t, h, p, o) > o {
      MovedRun(t, h, p, o + 1);
    }
  }

  /** The m entries behind the occupied slot p are away from home and a hole follows them. */
  ghost predicate RunToHole<K>(t: seq<Entry<K>>, h: K -> nat, p: nat, m: nat)
  {
    && p < |t| && m + 1 < |t| && !Vacant(t[p]) && Vacant(t[Step(|t|, p, m + 1)])
    && forall j | 0 < j <= m :: !Vacant(t[Step(|t|, p, j)]) && Off(t, h, Step(|t|, p, j)) > 0
  }

  /** r is t with slots p .. p+m overwritten by their successors. */
  ghost predicate IsShift<K>(t: seq<Entry<K>>, r: seq<Entry<K>>, p: nat, m: nat)
    requires p < |t| && m + 1 < |t|
  {
    && |r| == |t|
    && (forall d | 0 <= d <= m :: r[Step(|t|, p, d)] == t[Step(|t|, p, d + 1)])
    && (forall d | m < d < |t| :: r[Step(|t|, p, d)] == t[Step(|t|, p, d)])
  }

  lemma RunsToHole<K>(t: seq<Entry<K>>, h: K -> nat, p: nat)
    requires HasRoom(t) && p < |t| && !Vacant(t[p])
    ensures var m := Moved(t, h, p, 0);
            m + 1 < |t| && RunEnd(t, h, p) == Step(|t|, p, m + 1) && IsShift(t, Shifted(t, p, m), p, m) &&
            (Vacant(t[RunEnd(t, h, p)]) ==> RunToHole(t, h, p, m))
  {
    MovedRun(t, h, p, 0);
    var m := Moved(t, h, p, 0);
    forall d | 0 <= d < |t|
      ensures Dist(|t|, Step(|t|, p, d), p) == d
    {
    }
    forall d | 0 <= d <= m
      ensures Next(|t|, Step(|t|, p, d)) == Step(|t|, p, d + 1)
    {
      NextOfStep(|t|, p, d);
    }
  }

  lemma ShiftOrderedAt<K>(t: seq<Entry<K>>, r: seq<Entry<K>>, h: K -> nat, p: nat, m: nat, d: nat)
    requires Ordered(t, h) && RunToHole(t, h, p, m) && IsShift(t, r, p, m) && d < |t|
    ensures OrderedAt(r, h, Step(|t|, p, d))
  {
    var n := |t|;
    var x := Step(n, p, d);
    assert OrderedAt(t, h, x);
    if d == 0 {
      assert x == p && Prev(n, p) == Step(n, p, n - 1);
      assert OrderedAt(t, h, Step(n, p, 1));
      assert Prev(n, Step(n, p, 1)) == p;
    } else {
      assert Prev(n, x) == Step(n, p, d - 1);
      if d <= m {
        assert OrderedAt(t, h, Step(n, p, d + 1));
        assert Prev(n, Step(n, p, d + 1)) == x;
      }
    }
  }

  /** A run that ends in a hole: every moved entry gets exactly one step nearer to its home, round
      the end of the array included, and the table stays ordered. */
  lemma ShiftKeepsOrdered<K>(t: seq<Entry<K>>, r: seq<Entry<K>>, h: K -> nat, p: nat, m: nat)
    requires Ordered(t, h) && RunToHole(t, h, p, m) && IsShift(t, r, p, m)
    ensures Ordered(r, h)
    ensures Vacant(r[Step(|t|, p, m)])
    ensures forall j | 0 < j <= m ::
              r[Step(|t|, p, j - 1)] == t[Step(|t|, p, j)] &&
                  Off(r, h, Step(|t|, p, j - 1)) == Off(t, h, Step(|t|, p, j)) - 1
  {
    var n := |t|;
    forall j | 0 < j <= m
      ensures r[Step(n, p, j - 1)] == t[Step(n, p, j)] && Off(r, h, Step(n, p, j - 1)) == Off(t, h, Step(n, p, j)) - 1
    {
      assert r[Step(n, p, j - 1)] == t[Step(n, p, (j - 1) + 1)];
    }
    forall x | 0 <= x < n
      ensures OrderedAt(r, h, x)
    {
      assert x == Step(n, p, Dist(n, x, p));
      ShiftOrderedAt(t, r, h, p, m, Dist(n, x, p));
    }
  }

  /** The offset from p of the slot that entry d of the shifted table came from. */
  function Source(m: nat, d: nat): nat { if d <= m then d + 1 else d }

  lemma ShiftUnique<K>(t: seq<Entry<K>>, r: seq<Entry<K>>, h: K -> nat, p: nat, m: nat)
    requires Unique(t) && RunToHole(t, h, p, m) && IsShift(t, r, p, m)
    ensures Unique(r)
  {
    var n := |t|;
    forall x, y | 0 <= x < y < n && !Vacant(r[x]) && !Vacant(r[y])
      ensures r[x].key != r[y].key
    {
      var dx, dy := Dist(n, x, p), Dist(n, y, p);
      assert x == Step(n, p, dx) && y == Step(n, p, dy);
      var sx, sy := Step(n, p, Source(m, dx)), Step(n, p, Source(m, dy));
      assert r[x] == t[sx] && r[y] == t[sy];
      assert sx != sy;
    }
  }

  lemma ShiftDeletes<K>(t: seq<Entry<K>>, r: seq<Entry<K>>, h: K -> nat, p: nat, m: nat)
    requires Unique(t) && RunToHole(t, h, p, m) && IsShift(t, r, p, m)
    ensures Unique(r) && Contents(r) == Contents(t) - {t[p].key}
  {
    ShiftUnique(t, r, h, p, m);
    forall k, v
      ensures Pairs(r, k, v) <==> Pairs(t, k, v) && k != t[p].key
    {
      ShiftPair(t, r, h, p, m, k, v);
    }
    ContentsPairs(t);
    PairsDecide(r, Contents(t) - {t[p].key});
  }

  lemma ShiftPair<K>(t: seq<Entry<K>>, r: seq<Entry<K>>, h: K -> nat, p: nat, m: nat, k: K, v: Value)
    requires Unique(t) && RunToHole(t, h, p, m) && IsShift(t, r, p, m)
    ensures Pairs(r, k, v) <==> Pairs(t, k, v) && k != t[p].key
  {
    var n := |t|;
    if Pairs(r, k, v) {
      var x :| 0 <= x < n && r[x] == Entry(v, k);
      var d := Dist(n, x, p);
      assert x == Step(n, p, d);
      var s := Step(n, p, Source(m, d));
      assert t[s] == Entry(v, k) && s != p;
    }
    if Pairs(t, k, v) && k != t[p].key {
      var y :| 0 <= y < n && t[y] == Entry(v, k);
      var d := Dist(n, y, p);
      assert y == Step(n, p, d) && d > 0;
      var x := Step(n, p, if d <= m then d - 1 else d);
      assert r[x] == Entry(v, k);
    }
  }

  /** A run that ends at an entry already home leaves that entry in the table twice. */
  lemma ShiftDuplicates<K>(t: seq<Entry<K>>, r: seq<Entry<K>>, p: nat, m: nat)
    requires p < |t| && m + 1 < |t| && IsShift(t, r, p, m) && !Vacant(t[Step(|t|, p, m + 1)])
    ensures !Unique(r)
  {
    var a, e := Step(|t|, p, m), Step(|t|, p, m + 1);
    assert r[a] == t[e] == r[e];
    assert a < e || e < a;
  }

  /** rhhm_remove deletes its key and keeps the invariant if and only if the key is absent or
      removable. */
  lemma RemoveExact<K>(t: seq<Entry<K>>, h: K -> nat, k: K)
    requires Good(t, h) && HasRoom(t)
    ensures var r := Remove(t, h, k);
            (Good(r, h) && Contents(r) == Contents(t) - {k}) <==> (Absent(t, k) || Removable(t, h, k))
  {
    var r := Remove(t, h, k);
    if p :| 0 <= p < |t| && !Vacant(t[p]) && t[p].key == k {
      RemovePresent(t, h, k, p);
      assert k in Contents(t);
      assert Removable(t, h, k) <==> PathClear(t, h, k, p) && Vacant(t[RunEnd(t, h, p)]);
    } else {
      HuntMisses(t, h, k, 0);
      assert Contents(t) - {k} == Contents(t);
    }
  }

  lemma RemovePresent<K>(t: seq<Entry<K>>, h: K -> nat, k: K, p: nat)
    requires Good(t, h) && HasRoom(t) && p < |t| && !Vacant(t[p]) && t[p].key == k
    ensures var r := Remove(t, h, k);
            if !PathClear(t, h, k, p) then r == t
            else if Vacant(t[RunEnd(t, h, p)]) then Good(r, h) && Contents(r) == Contents(t) - {k}
            else !Unique(r)
  {
    HuntFinds(t, h, k, p, 0);
    var m := Moved(t, h, p, 0);
    RunsToHole(t, h, p);
    var r := Shifted(t, p, m);
    if Vacant(t[RunEnd(t, h, p)]) {
      ShiftKeepsOrdered(t, r, h, p, m);
      ShiftDeletes(t, r, h, p, m);
    } else {
      ShiftDuplicates(t, r, p, m);
    }
  }
}
