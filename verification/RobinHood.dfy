/** The Robin Hood table of rhhm.c as a theory of slot sequences: what probing, insertion with
    eviction, lookup and backward-shift removal compute, and when they agree with a finite map. */
module RobinHood {
  import opened Values

  /** rhhm_value: a slot is vacant when its value is `None`, whatever its key says. */
  datatype Entry<K> = Entry(value: Value, key: K)

  predicate Vacant<K>(e: Entry<K>) { e.value == None }

  // --- cyclic positions ---------------------------------------------------------------------

  /** The DISTANCE macro: how far slot p lies after slot h. */
  function Dist(n: nat, p: nat, h: nat): nat
    requires p < n && h < n
  {
    if p >= h then p - h else p + (n - h)
  }

  function Next(n: nat, i: nat): nat
    requires i < n
  {
    if i + 1 == n then 0 else i + 1
  }

  function Prev(n: nat, i: nat): nat
    requires i < n
  {
    if i == 0 then n - 1 else i - 1
  }

  /** The slot `o` steps after slot `i`. */
  function Step(n: nat, i: nat, o: nat): nat
    requires i < n && o < n
  {
    if i + o < n then i + o else i + o - n
  }

  lemma NextOfStep(n: nat, i: nat, o: nat)
    requires i < n && o + 1 < n
    ensures Next(n, Step(n, i, o)) == Step(n, i, o + 1)
  {
  }

  /** The ENTRY_HASH macro; `HomeIsMasked` relates it to the mask of the source. */
  function Home<K>(n: nat, h: K -> nat, k: K): (r: nat)
    requires n > 0
    ensures r < n
  {
    h(k) % n
  }

  ghost predicate PowerOfTwo(n: nat)
  {
    exists k: nat :: n == Pow2(k)
  }

  /** For the power-of-two capacities of rhhm_init, `hfn(key) & (cap-1)` is the home slot and
      `(i+1) & (cap-1)` the next slot, going round at the end. */
  lemma HomeIsMasked<K>(n: nat, h: K -> nat, k: K, i: nat)
    requires PowerOfTwo(n) && i < n
    ensures BitAnd(h(k), n - 1) == Home(n, h, k)
    ensures BitAnd(i + 1, n - 1) == Next(n, i)
  {
    var e: nat :| n == Pow2(e);
    MaskIsMod(h(k), e);
    MaskIsMod(i + 1, e);
    ModUnique(i + 1, n, if i + 1 == n then 1 else 0, Next(n, i));
  }

  /** How far the entry in slot i sits from its home. */
  function Off<K>(t: seq<Entry<K>>, h: K -> nat, i: nat): nat
    requires i < |t|
  {
    Dist(|t|, i, Home(|t|, h, t[i].key))
  }

  // --- the invariant ------------------------------------------------------------------------

  /** An entry away from home follows an entry that is at most one step closer to its own home. */
  predicate OrderedAt<K>(t: seq<Entry<K>>, h: K -> nat, i: nat)
    requires i < |t|
  {
    !Vacant(t[i]) && Off(t, h, i) > 0 ==>
      !Vacant(t[Prev(|t|, i)]) && Off(t, h, Prev(|t|, i)) + 1 >= Off(t, h, i)
  }

  ghost predicate Ordered<K>(t: seq<Entry<K>>, h: K -> nat)
  {
    forall i | 0 <= i < |t| :: OrderedAt(t, h, i)
  }

  ghost predicate Unique<K>(t: seq<Entry<K>>)
  {
    forall i, j | 0 <= i < j < |t| && !Vacant(t[i]) && !Vacant(t[j]) :: t[i].key != t[j].key
  }

  ghost predicate Good<K>(t: seq<Entry<K>>, h: K -> nat)
  {
    Ordered(t, h) && Unique(t)
  }

  ghost predicate HasRoom<K>(t: seq<Entry<K>>)
  {
    exists i :: 0 <= i < |t| && Vacant(t[i])
  }

  ghost predicate Absent<K>(t: seq<Entry<K>>, k: K)
  {
    forall i | 0 <= i < |t| && !Vacant(t[i]) :: t[i].key != k
  }

  /** The search for k ends: there is a hole, or k is there. */
  ghost predicate Searchable<K>(t: seq<Entry<K>>, k: K)
  {
    HasRoom(t) || !Absent(t, k)
  }

  /** The finite map a table stands for. */
  ghost function Contents<K>(t: seq<Entry<K>>): map<K, Value>
    requires Unique(t)
  {
    map i | 0 <= i < |t| && !Vacant(t[i]) :: t[i].key := t[i].value
  }

  // --- probing ------------------------------------------------------------------------------

  /** The loop condition of rhhm_set's probes: slot i holds an entry that a key with home `hm` may
      not displace. */
  predicate Passes<K>(t: seq<Entry<K>>, h: K -> nat, hm: nat, i: nat)
    requires i < |t| && hm < |t|
  {
    !Vacant(t[i]) && Dist(|t|, i, hm) <= Off(t, h, i)
  }

  /** Offset from home at which rhhm_set stops probing for k, starting o steps from home. */
  function Probe<K(==)>(t: seq<Entry<K>>, h: K -> nat, k: K, o: nat): (r: nat)
    requires o < |t|
    ensures o <= r < |t|
    decreases |t| - o
  {
    var hm := Home(|t|, h, k);
    var i := Step(|t|, hm, o);
    if Passes(t, h, hm, i) && t[i].key != k && o + 1 < |t| then Probe(t, h, k, o + 1) else o
  }

  /** Every slot that k's probe looks at before offset o makes it go on. */
  ghost predicate PassesBelow<K>(t: seq<Entry<K>>, h: K -> nat, k: K, o: nat)
    requires 0 < |t| && o <= |t|
  {
    var hm := Home(|t|, h, k);
    forall j | 0 <= j < o :: Passes(t, h, hm, Step(|t|, hm, j)) && t[Step(|t|, hm, j)].key != k
  }

  lemma {:induction false} ProbeStops<K>(t: seq<Entry<K>>, h: K -> nat, k: K, o: nat)
    requires o < |t| && HasRoom(t) && PassesBelow(t, h, k, o)
    ensures PassesBelow(t, h, k, Probe(t, h, k, o))
    ensures var s := Step(|t|, Home(|t|, h, k), Probe(t, h, k, o));
            !Passes(t, h, Home(|t|, h, k), s) || t[s].key == k
    decreases |t| - o
  {
    var hm := Home(|t|, h, k);
    var i := Step(|t|, hm, o);
    if Passes(t, h, hm, i) && t[i].key != k {
      var z :| 0 <= z < |t| && Vacant(t[z]);
      assert z == Step(|t|, hm, Dist(|t|, z, hm));
      assert o != Dist(|t|, z, hm) && Dist(|t|, z, hm) >= o;
      ProbeStops(t, h, k, o + 1);
    }
  }

  /** Walking back from an entry to its home meets only entries at least as far displaced. */
  lemma {:induction false} RunBack<K>(t: seq<Entry<K>>, h: K -> nat, p: nat, j: nat)
    requires Ordered(t, h) && p < |t| && !Vacant(t[p]) && j <= Off(t, h, p)
    ensures var q := Step(|t|, Home(|t|, h, t[p].key), j);
            !Vacant(t[q]) && Off(t, h, q) >= j
    decreases Off(t, h, p) - j
  {
    var hm := Home(|t|, h, t[p].key);
    if j < Off(t, h, p) {
      RunBack(t, h, p, j + 1);
      assert OrderedAt(t, h, Step(|t|, hm, j + 1));
      assert Prev(|t|, Step(|t|, hm, j + 1)) == Step(|t|, hm, j);
    } else {
      assert Step(|t|, hm, j) == p;
    }
  }

  lemma {:induction false} ProbeEnds<K>(t: seq<Entry<K>>, h: K -> nat, k: K, o: nat, r: nat)
    requires o <= r < |t| && PassesBelow(t, h, k, r)
    requires var s := Step(|t|, Home(|t|, h, k), r); !Passes(t, h, Home(|t|, h, k), s) || t[s].key == k
    ensures Probe(t, h, k, o) == r
    decreases r - o
  {
    if o < r { ProbeEnds(t, h, k, o + 1, r); }
  }

  /** A present key is never missed, not even in a full table: its probe passes every slot before it and stops
      on it. */
  lemma PresentIsReached<K>(t: seq<Entry<K>>, h: K -> nat, k: K, p: nat)
    requires Good(t, h) && p < |t| && !Vacant(t[p]) && t[p].key == k
    ensures PassesBelow(t, h, k, Off(t, h, p))
    ensures Probe(t, h, k, 0) == Off(t, h, p)
    ensures Step(|t|, Home(|t|, h, k), Off(t, h, p)) == p
  {
    var hm := Home(|t|, h, k);
    assert Step(|t|, hm, Off(t, h, p)) == p;
    forall j | 0 <= j < Off(t, h, p)
      ensures Passes(t, h, hm, Step(|t|, hm, j)) && t[Step(|t|, hm, j)].key != k
    {
      RunBack(t, h, p, j);
      assert Step(|t|, hm, j) != p;
    }
    ProbeEnds(t, h, k, 0, Off(t, h, p));
  }

  /** A probe that goes on has a slot to go on to. */
  lemma ProbeAhead<K>(t: seq<Entry<K>>, h: K -> nat, k: K, o: nat)
    requires o < |t| && Good(t, h) && Searchable(t, k) && PassesBelow(t, h, k, o)
    requires var s := Step(|t|, Home(|t|, h, k), o); Passes(t, h, Home(|t|, h, k), s) && t[s].key != k
    ensures o + 1 < |t| && PassesBelow(t, h, k, o + 1) && Probe(t, h, k, o) == Probe(t, h, k, o + 1)
  {
    if HasRoom(t) {
      ProbeStops(t, h, k, o);
    } else {
      var p :| 0 <= p < |t| && !Vacant(t[p]) && t[p].key == k;
      PresentIsReached(t, h, k, p);
      assert Off(t, h, p) != o && Off(t, h, p) >= o;
    }
  }

  // --- insertion ----------------------------------------------------------------------------

  /** e was displaced from slot p: its own probe passes every slot up to and including p. */
  ghost predicate Displaced<K>(t: seq<Entry<K>>, h: K -> nat, e: Entry<K>, p: nat)
    requires p < |t|
  {
    !Vacant(e) ==>
      Absent(t, e.key) && PassesBelow(t, h, e.key, Dist(|t|, p, Home(|t|, h, e.key)) + 1)
  }

  /** One swap of rhhm_set: put e in the slot where its probe stops. The table stays ordered and
      unique, and what it evicts is displaced from that slot. */
  lemma SwapKeepsGood<K>(t: seq<Entry<K>>, h: K -> nat, e: Entry<K>)
    requires Good(t, h) && HasRoom(t) && !Vacant(e) && Absent(t, e.key)
    ensures var s := Step(|t|, Home(|t|, h, e.key), Probe(t, h, e.key, 0));
            Good(t[s := e], h) && Displaced(t[s := e], h, t[s], s)
  {
    var n := |t|;
    var hm := Home(n, h, e.key);
    var w := Probe(t, h, e.key, 0);
    var s := Step(n, hm, w);
    ProbeStops(t, h, e.key, 0);
    assert !Passes(t, h, hm, s);
    var t' := t[s := e];
    assert Off(t', h, s) == w;
    forall i | 0 <= i < n
      ensures OrderedAt(t', h, i)
    {
      assert OrderedAt(t, h, i);
      if i == s && w > 0 {
        assert Prev(n, s) == Step(n, hm, w - 1);
        assert Passes(t, h, hm, Step(n, hm, w - 1));
      }
    }
    var x := t[s];
    if !Vacant(x) {
      var hx := Home(n, h, x.key);
      forall j | 0 <= j < Dist(n, s, hx) + 1
        ensures Passes(t', h, hx, Step(n, hx, j)) && t'[Step(n, hx, j)].key != x.key
      {
        RunBack(t, h, s, j);
      }
    }
  }

  /** Each swap lands strictly nearer, going round, to any vacant slot than the one before it. */
  lemma SwapApproaches<K>(t: seq<Entry<K>>, h: K -> nat, e: Entry<K>, p: nat, z: nat)
    requires HasRoom(t) && p < |t| && !Vacant(e) && Displaced(t, h, e, p)
    requires z < |t| && Vacant(t[z])
    ensures var s := Step(|t|, Home(|t|, h, e.key), Probe(t, h, e.key, 0));
            Dist(|t|, z, s) < Dist(|t|, z, p)
  {
    var hm := Home(|t|, h, e.key);
    var d := Dist(|t|, p, hm);
    var w := Probe(t, h, e.key, 0);
    ProbeStops(t, h, e.key, 0);
    var y := Dist(|t|, z, hm);
    assert Step(|t|, hm, y) == z && Step(|t|, hm, d) == p;
  }

  /** The second loop of rhhm_set: carry e, just displaced from slot p, until a vacant slot takes
      it; every displaced entry probes again from its own home. */
  function Settle<K(==)>(t: seq<Entry<K>>, h: K -> nat, e: Entry<K>, ghost p: nat, ghost z: nat): seq<Entry<K>>
    requires Good(t, h) && p < |t| && Displaced(t, h, e, p)
    requires !Vacant(e) ==> z < |t| && Vacant(t[z])
    decreases if Vacant(e) then 0 else 1 + Dist(|t|, z, p)
  {
    if Vacant(e) then t else
    var s := Step(|t|, Home(|t|, h, e.key), Probe(t, h, e.key, 0));
    SwapKeepsGood(t, h, e);
    SwapApproaches(t, h, e, p, z);
    assert !Vacant(t[s]) ==> s != z;
    Settle(t[s := e], h, t[s], s, z)
  }

  ghost function VacantSlot<K>(t: seq<Entry<K>>): (z: nat)
    requires HasRoom(t)
    ensures z < |t| && Vacant(t[z])
  {
    var z :| 0 <= z < |t| && Vacant(t[z]);
    z
  }

  /** rhhm_set on an initialised table. */
  function Set<K(==)>(t: seq<Entry<K>>, h: K -> nat, k: K, v: Value): seq<Entry<K>>
    requires Good(t, h) && Searchable(t, k) && v != None
  {
    var hm := Home(|t|, h, k);
    var s := Step(|t|, hm, Probe(t, h, k, 0));
    if Passes(t, h, hm, s) && t[s].key == k then
      t[s := t[s].(value := v)]
    else
      ProbeMisses(t, h, k);
      SwapKeepsGood(t, h, Entry(v, k));
      ghost var z := VacantSlot(t);
      Settle(t[s := Entry(v, k)], h, t[s], s, z)
  }

  lemma ProbeMisses<K>(t: seq<Entry<K>>, h: K -> nat, k: K)
    requires Good(t, h) && Searchable(t, k)
    ensures var s := Step(|t|, Home(|t|, h, k), Probe(t, h, k, 0));
            if Passes(t, h, Home(|t|, h, k), s) && t[s].key == k
            then !Absent(t, k) else Absent(t, k)
  {
    if p :| 0 <= p < |t| && !Vacant(t[p]) && t[p].key == k {
      PresentIsReached(t, h, k, p);
    } else {
      ProbeStops(t, h, k, 0);
    }
  }

  /** Eviction loses nothing and invents nothing: table plus carried entry is conserved. */
  lemma {:induction false} SettleConserves<K>(t: seq<Entry<K>>, h: K -> nat, e: Entry<K>, p: nat, z: nat)
    requires Good(t, h) && p < |t| && Displaced(t, h, e, p)
    requires !Vacant(e) ==> z < |t| && Vacant(t[z])
    ensures var r := Settle(t, h, e, p, z);
            |r| == |t| && Good(r, h) &&
            forall x | !Vacant(x) :: multiset(r)[x] == multiset(t)[x] + (if x == e then 1 else 0)
    decreases if Vacant(e) then 0 else 1 + Dist(|t|, z, p)
  {
    if !Vacant(e) {
      var s := Step(|t|, Home(|t|, h, e.key), Probe(t, h, e.key, 0));
      SwapKeepsGood(t, h, e);
      SwapApproaches(t, h, e, p, z);
      SettleConserves(t[s := e], h, t[s], s, z);
    }
  }

  /** rhhm_set keeps the invariant and is map update, also of a key that is in a full table. */
  lemma SetIsUpdate<K>(t: seq<Entry<K>>, h: K -> nat, k: K, v: Value)
    requires Good(t, h) && Searchable(t, k) && v != None
    ensures var r := Set(t, h, k, v);
            |r| == |t| && Good(r, h) && Contents(r) == Contents(t)[k := v]
  {
    hide Contents, Ordered, Unique, Displaced, PassesBelow;
    var hm := Home(|t|, h, k);
    var s := Step(|t|, hm, Probe(t, h, k, 0));
    var r := Set(t, h, k, v);
    ProbeMisses(t, h, k);
    if Passes(t, h, hm, s) && t[s].key == k {
      ReplaceKeepsGood(t, h, s, v);
    } else {
      var e := Entry(v, k);
      SwapKeepsGood(t, h, e);
      SettleConserves(t[s := e], h, t[s], s, VacantSlot(t));
      SameEntriesSameContents(t, r, e);
    }
  }

  lemma ReplaceKeepsGood<K>(t: seq<Entry<K>>, h: K -> nat, s: nat, v: Value)
    requires Good(t, h) && s < |t| && !Vacant(t[s]) && v != None
    ensures var r := t[s := t[s].(value := v)];
            Good(r, h) && Contents(r) == Contents(t)[t[s].key := v]
  {
    var r := t[s := t[s].(value := v)];
    forall i | 0 <= i < |t|
      ensures OrderedAt(r, h, i)
    {
      assert OrderedAt(t, h, i);
    }
    assert r[s].key == t[s].key;
    assert forall i | 0 <= i < |t| && i != s :: r[i] == t[i];
  }

  lemma SameEntriesSameContents<K>(t: seq<Entry<K>>, r: seq<Entry<K>>, e: Entry<K>)
    requires Unique(t) && Unique(r) && !Vacant(e) && Absent(t, e.key)
    requires forall x | !Vacant(x) :: multiset(r)[x] == multiset(t)[x] + (if x == e then 1 else 0)
    ensures Contents(r) == Contents(t)[e.key := e.value]
  {
    assert forall x | !Vacant(x) :: x in r <==> x in multiset(r);
    assert forall x | !Vacant(x) :: x in t <==> x in multiset(t);
    assert forall x | !Vacant(x) :: x in r <==> x in t || x == e;
    forall i | 0 <= i < |r| && !Vacant(r[i])
      ensures r[i].key in Contents(t)[e.key := e.value] && Contents(t)[e.key := e.value][r[i].key] == r[i].value
    {
      assert r[i] in r;
    }
    assert e in r;
    forall i | 0 <= i < |t| && !Vacant(t[i])
      ensures t[i].key in Contents(r)
    {
      assert t[i] in r;
    }
  }

  // --- lookup -------------------------------------------------------------------------------

  /** rhhm_get, o steps from home. A nil-valued slot ends the search whatever its key. */
  function GetFrom<K(==)>(t: seq<Entry<K>>, h: K -> nat, k: K, o: nat): Value
    requires o < |t|
    decreases |t| - o
  {
    var i := Step(|t|, Home(|t|, h, k), o);
    if Vacant(t[i]) then Nil
    else if t[i].value == Nil then Nil
    else if Off(t, h, i) < Dist(|t|, i, Home(|t|, h, k)) then Nil
    else if t[i].key == k then t[i].value
    else if o + 1 < |t| then GetFrom(t, h, k, o + 1)
    else Nil
  }

  function Get<K(==)>(t: seq<Entry<K>>, h: K -> nat, k: K): Value
    requires |t| > 0
  {
    GetFrom(t, h, k, 0)
  }

  ghost function Lookup<K>(t: seq<Entry<K>>, k: K): Value
    requires Unique(t)
  {
    if k in Contents(t) then Contents(t)[k] else Nil
  }

  /** k is present, but a nil-valued entry of some other key lies on its probe path. */
  ghost predicate NilBlocked<K>(t: seq<Entry<K>>, h: K -> nat, k: K)
  {
    exists p, j :: 0 <= p < |t| && 0 <= j < Off(t, h, p) && !Vacant(t[p]) && t[p].key == k && t[p].value != Nil
      && t[Step(|t|, Home(|t|, h, k), j)].value == Nil
  }

  lemma {:induction false} GetFromFinds<K>(t: seq<Entry<K>>, h: K -> nat, k: K, p: nat, o: nat)
    requires Good(t, h) && p < |t| && !Vacant(t[p]) && t[p].key == k && o <= Off(t, h, p)
    ensures GetFrom(t, h, k, o) ==
            if exists j :: o <= j < Off(t, h, p) && t[Step(|t|, Home(|t|, h, k), j)].value == Nil then Nil
                else t[p].value
    decreases Off(t, h, p) - o
  {
    PresentIsReached(t, h, k, p);
    var i := Step(|t|, Home(|t|, h, k), o);
    if o < Off(t, h, p) {
      assert Passes(t, h, Home(|t|, h, k), i);
      if t[i].value != Nil {
        GetFromFinds(t, h, k, p, o + 1);
      }
    }
  }

  lemma {:induction false} GetFromMisses<K>(t: seq<Entry<K>>, h: K -> nat, k: K, o: nat)
    requires Absent(t, k) && o < |t|
    ensures GetFrom(t, h, k, o) == Nil
    decreases |t| - o
  {
    if o + 1 < |t| {
      GetFromMisses(t, h, k, o + 1);
    }
  }

  /** Lookup agrees with the map exactly when no foreign nil-valued entry lies in front of the key;
      in that case it answers nil. The early exit on distance never costs an answer. */
  lemma GetExact<K>(t: seq<Entry<K>>, h: K -> nat, k: K)
    requires Good(t, h) && Searchable(t, k)
    ensures Get(t, h, k) == Lookup(t, k) <==> !NilBlocked(t, h, k)
    ensures NilBlocked(t, h, k) ==> Get(t, h, k) == Nil
  {
    if p :| 0 <= p < |t| && !Vacant(t[p]) && t[p].key == k {
      GetFromFinds(t, h, k, p, 0);
      assert k in Contents(t) && Contents(t)[k] == t[p].value;
    } else {
      GetFromMisses(t, h, k, 0);
    }
  }

  // --- histories ----------------------------------------------------------------------------

  function Count<K>(t: seq<Entry<K>>): (c: nat)
    ensures c <= |t|
  {
    if t == [] then 0 else Count(t[..|t| - 1]) + (if Vacant(t[|t| - 1]) then 0 else 1)
  }

  lemma {:induction false} CountIsSize<K>(t: seq<Entry<K>>)
    requires Unique(t)
    ensures Count(t) == |Contents(t)|
    ensures Count(t) < |t| <==> HasRoom(t)
  {
    if t == [] {
    } else {
      CountIsSize(t[..|t| - 1]);
      RoomSplits(t);
      ContentsSplit(t);
    }
  }

  lemma RoomSplits<K>(t: seq<Entry<K>>)
    requires t != []
    ensures HasRoom(t) <==> HasRoom(t[..|t| - 1]) || Vacant(t[|t| - 1])
  {
    var s := t[..|t| - 1];
    assert forall z | 0 <= z < |s| :: s[z] == t[z];
    if z :| 0 <= z < |s| && Vacant(s[z]) {
      assert Vacant(t[z]);
    }
  }

  lemma ContentsSplit<K>(t: seq<Entry<K>>)
    requires t != [] && Unique(t)
    ensures var s, last := t[..|t| - 1], t[|t| - 1];
            if Vacant(last) then Contents(t) == Contents(s)
            else last.key !in Contents(s) && Contents(t) == Contents(s)[last.key := last.value]
  {
    var s, last := t[..|t| - 1], t[|t| - 1];
    ContentsPairs(s);
    forall i | 0 <= i < |s| && !Vacant(s[i]) && !Vacant(last)
      ensures s[i].key != last.key
    {
      assert s[i] == t[i];
    }
    var m := if Vacant(last) then Contents(s) else Contents(s)[last.key := last.value];
    forall k, v
      ensures Pairs(t, k, v) <==> k in m && m[k] == v
    {
      PairsSplit(t, k, v);
    }
    PairsDecide(t, m);
  }

  /** A table stands for the map that has its pairs. */
  lemma PairsDecide<K>(t: seq<Entry<K>>, m: map<K, Value>)
    requires Unique(t)
    requires forall k, v :: Pairs(t, k, v) <==> k in m && m[k] == v
    ensures Contents(t) == m
  {
    ContentsPairs(t);
    forall k | k in m
      ensures k in Contents(t) && Contents(t)[k] == m[k]
    {
      assert Pairs(t, k, m[k]);
    }
    forall k | k in Contents(t)
      ensures k in m
    {
      assert Pairs(t, k, Contents(t)[k]);
    }
  }

  lemma PairsSplit<K>(t: seq<Entry<K>>, k: K, v: Value)
    requires t != []
    ensures var s, last := t[..|t| - 1], t[|t| - 1];
            Pairs(t, k, v) <==> Pairs(s, k, v) || (!Vacant(last) && k == last.key && v == last.value)
  {
    var s, last := t[..|t| - 1], t[|t| - 1];
    if Pairs(t, k, v) {
      var i :| 0 <= i < |t| && t[i] == Entry(v, k);
      assert i < |s| ==> s[i] == t[i];
    }
    if Pairs(s, k, v) {
      var i :| 0 <= i < |s| && s[i] == Entry(v, k);
      assert t[i] == s[i];
    }
    if !Vacant(last) && k == last.key && v == last.value {
      assert t[|t| - 1] == Entry(v, k);
    }
  }

  /** Some slot holds key k with value v. */
  ghost predicate Pairs<K>(t: seq<Entry<K>>, k: K, v: Value)
  {
    v != None && exists i :: 0 <= i < |t| && t[i] == Entry(v, k)
  }

  lemma ContentsPairs<K>(t: seq<Entry<K>>)
    requires Unique(t)
    ensures forall k, v :: Pairs(t, k, v) <==> k in Contents(t) && Contents(t)[k] == v
  {
  }

  /** A freshly initialised block: every slot vacant, keys left as they were. */
  ghost predicate Fresh<K>(t: seq<Entry<K>>)
  {
    forall i | 0 <= i < |t| :: Vacant(t[i])
  }

  function Updates<K>(m: map<K, Value>, ops: seq<(K, Value)>): map<K, Value>
  {
    if ops == [] then m
    else Updates(m, ops[..|ops| - 1])[ops[|ops| - 1].0 := ops[|ops| - 1].1]
  }

  lemma {:induction false} UpdatesGrow<K>(m: map<K, Value>, ops: seq<(K, Value)>)
    requires ops != []
    ensures |Updates(m, ops[..|ops| - 1])| <= |Updates(m, ops)|
  {
    var m' := Updates(m, ops[..|ops| - 1]);
    assert Updates(m, ops).Keys == m'.Keys + {ops[|ops| - 1].0};
  }

  /** A history of rhhm_set calls that never fills the table. */
  ghost function Run<K>(t: seq<Entry<K>>, h: K -> nat, ops: seq<(K, Value)>): (r: seq<Entry<K>>)
    requires Good(t, h) && |Updates(Contents(t), ops)| < |t|
    requires forall op | op in ops :: op.1 != None
    ensures |r| == |t| && Good(r, h) && Contents(r) == Updates(Contents(t), ops)
  {
    if ops == [] then t else
    var m := |ops| - 1;
    UpdatesGrow(Contents(t), ops);
    var s := Run(t, h, ops[..m]);
    CountIsSize(s);
    SetIsUpdate(s, h, ops[m].0, ops[m].1);
    Set(s, h, ops[m].0, ops[m].1)
  }

  /** The value of the last write to k, nil if there was none. */
  function LastSet<K(==)>(ops: seq<(K, Value)>, k: K): Value
  {
    if ops == [] then Nil
    else if ops[|ops| - 1].0 == k then ops[|ops| - 1].1
    else LastSet(ops[..|ops| - 1], k)
  }

  lemma {:induction false} UpdatesLast<K>(ops: seq<(K, Value)>, k: K)
    ensures (if k in Updates(map[], ops) then Updates(map[], ops)[k] else Nil) == LastSet(ops, k)
    ensures (forall op | op in ops :: op.1 != Nil) ==> forall x | x in Updates(map[], ops) ::
        Updates(map[], ops)[x] != Nil
  {
    if ops != [] {
      UpdatesLast(ops[..|ops| - 1], k);
    }
  }

  /** From an empty table, over every history of writes of values that are neither nil nor none and
      that leaves a slot empty, a lookup answers the last value written, nil for any other key. */
  lemma HistoryLookup<K>(t: seq<Entry<K>>, h: K -> nat, ops: seq<(K, Value)>, k: K)
    requires Good(t, h) && Contents(t) == map[] && |Updates(map[], ops)| < |t|
    requires forall op | op in ops :: op.1 != None && op.1 != Nil
    ensures Get(Run(t, h, ops), h, k) == LastSet(ops, k)
  {
    var r := Run(t, h, ops);
    CountIsSize(r);
    GetExact(r, h, k);
    UpdatesLast(ops, k);
    NoNilNoBlock(r, h, k);
  }

  lemma NoNilNoBlock<K>(t: seq<Entry<K>>, h: K -> nat, k: K)
    requires Good(t, h) && forall x | x in Contents(t) :: Contents(t)[x] != Nil
    ensures !NilBlocked(t, h, k)
  {
    forall i | 0 <= i < |t|
      ensures t[i].value != Nil
    {
      if !Vacant(t[i]) {
        assert t[i].key in Contents(t);
      }
    }
  }

  lemma FreshIsGood<K>(t: seq<Entry<K>>, h: K -> nat)
    requires Fresh(t)
    ensures Good(t, h) && Contents(t) == map[]
  {
  }
}
