/** What a collection leaves unchanged: hashes, the Robin Hood invariant, every lookup, and every
    value a program can reach by following fields. */
module Survival {
  import opened Values
  import opened RobinHood
  import opened Heaps

  lemma TrInjective(fwd: map<nat, nat>, v: Value, w: Value)
    requires Injective(fwd) && Covered(fwd, v) && Covered(fwd, w)
    ensures Tr(fwd, v) == Tr(fwd, w) <==> v == w
  {
  }

  // --- one table ----------------------------------------------------------------------------

  /** t1 is t with references forwarded, and forwarding a key does not change its hash. */
  ghost predicate Renamed(fwd: map<nat, nat>, t: seq<Entry<Value>>, h: Value -> nat, t1: seq<Entry<Value>>,
                          h1: Value -> nat)
  {
    && Injective(fwd) && |t1| == |t|
    && (forall i | 0 <= i < |t| :: EntryCovered(fwd, t[i]) && t1[i] == TrEntry(fwd, t[i]))
    && (forall v | Covered(fwd, v) :: h1(Tr(fwd, v)) == h(v))
  }

  lemma RenamedOff(fwd: map<nat, nat>, t: seq<Entry<Value>>, h: Value -> nat, t1: seq<Entry<Value>>, h1: Value -> nat,
                   i: nat)
    requires Renamed(fwd, t, h, t1, h1) && i < |t|
    ensures Vacant(t1[i]) <==> Vacant(t[i])
    ensures !Vacant(t[i]) ==> Off(t1, h1, i) == Off(t, h, i)
  {
    assert t1[i] == TrEntry(fwd, t[i]);
  }

  /** Rewriting keys in place keeps every entry where a fresh insertion of its new key may look. */
  lemma RenamedGood(fwd: map<nat, nat>, t: seq<Entry<Value>>, h: Value -> nat, t1: seq<Entry<Value>>, h1: Value -> nat)
    requires Renamed(fwd, t, h, t1, h1) && Good(t, h)
    ensures Good(t1, h1) && (HasRoom(t) ==> HasRoom(t1))
  {
    forall i | 0 <= i < |t|
      ensures OrderedAt(t1, h1, i)
    {
      assert OrderedAt(t, h, i);
      RenamedOff(fwd, t, h, t1, h1, i);
      RenamedOff(fwd, t, h, t1, h1, Prev(|t|, i));
    }
    forall i, j | 0 <= i < j < |t| && !Vacant(t1[i]) && !Vacant(t1[j])
      ensures t1[i].key != t1[j].key
    {
      TrInjective(fwd, t[i].key, t[j].key);
    }
    if HasRoom(t) {
      assert Vacant(t1[VacantSlot(t)]);
    }
  }

  lemma {:induction false} RenamedGet(fwd: map<nat, nat>, t: seq<Entry<Value>>, h: Value -> nat,
                                      t1: seq<Entry<Value>>, h1: Value -> nat,
                                      k: Value, o: nat)
    requires Renamed(fwd, t, h, t1, h1) && Covered(fwd, k) && o < |t|
    ensures GetFrom(t1, h1, Tr(fwd, k), o) == Tr(fwd, GetFrom(t, h, k, o))
    ensures Covered(fwd, GetFrom(t, h, k, o))
    decreases |t| - o
  {
    var i := Step(|t|, Home(|t|, h, k), o);
    assert Home(|t|, h1, Tr(fwd, k)) == Home(|t|, h, k);
    RenamedOff(fwd, t, h, t1, h1, i);
    assert t1[i] == TrEntry(fwd, t[i]);
    if !Vacant(t[i]) {
      TrInjective(fwd, t[i].key, k);
    }
    if o + 1 < |t| {
      RenamedGet(fwd, t, h, t1, h1, k, o + 1);
    }
  }

  // --- one heap -----------------------------------------------------------------------------

  /** rhhm_get on table x of the heap. */
  function Field(h: Heap, x: nat, k: Value): Value
  {
    if Table(h, x) == [] then Nil else Get(Table(h, x), Hasher(h), k)
  }

  /** A read is the lookup in the map of the table, unless a nil-valued slot of another key is in the way. */
  lemma FieldIsLookup(h: Heap, x: nat, k: Value)
    requires WellFormed(h) && TablesOrdered(h) && In(h, x) && TableSearchable(h, x, k)
    ensures Unique(Table(h, x))
    ensures Field(h, x, k) ==
            if h.words[x].Data? && !NilBlocked(Table(h, x), Hasher(h), k) then Lookup(Table(h, x), k) else Nil
  {
    if h.words[x].Data? {
      assert Owns(h, x, h.words[x].block);
      GetExact(Table(h, x), Hasher(h), k);
    }
  }

  lemma MovedTable(h0: Heap, h1: Heap, fwd: map<nat, nat>, x: nat)
    requires WellFormed(h0) && Collected(h0, h1, fwd) && x in fwd
    ensures TableHash(h1, fwd[x]) == TableHash(h0, x)
    ensures |Table(h1, fwd[x])| == |Table(h0, x)|
    ensures forall i | 0 <= i < |Table(h0, x)| ::
              EntryCovered(fwd, Table(h0, x)[i]) && Table(h1, fwd[x])[i] == TrEntry(fwd, Table(h0, x)[i])
  {
    if h0.words[x].Data? {
      var b := h0.words[x].block;
      assert Owns(h0, x, b);
      assert !Garbage(h0, fwd, b);
    }
  }

  /** A table's hash as a key survives its move. */
  lemma HashSurvives(h0: Heap, h1: Heap, fwd: map<nat, nat>, v: Value)
    requires WellFormed(h0) && Collected(h0, h1, fwd) && Covered(fwd, v)
    ensures HashOf(h1, Tr(fwd, v)) == HashOf(h0, v)
  {
    if v.Tbl? {
      MovedTable(h0, h1, fwd, v.ref);
    }
  }

  lemma MovedRenamed(h0: Heap, h1: Heap, fwd: map<nat, nat>, x: nat)
    requires WellFormed(h0) && Collected(h0, h1, fwd) && x in fwd
    ensures Renamed(fwd, Table(h0, x), Hasher(h0), Table(h1, fwd[x]), Hasher(h1))
  {
    MovedTable(h0, h1, fwd, x);
    forall v | Covered(fwd, v)
      ensures Hasher(h1)(Tr(fwd, v)) == Hasher(h0)(v)
    {
      HashSurvives(h0, h1, fwd, v);
    }
  }

  /** Every surviving table answers the forwarded key with the forwarded value. */
  lemma LookupSurvives(h0: Heap, h1: Heap, fwd: map<nat, nat>, x: nat, k: Value)
    requires WellFormed(h0) && Collected(h0, h1, fwd) && x in fwd && Covered(fwd, k)
    ensures Field(h1, fwd[x], Tr(fwd, k)) == Tr(fwd, Field(h0, x, k))
    ensures Covered(fwd, Field(h0, x, k))
  {
    MovedRenamed(h0, h1, fwd, x);
    if Table(h0, x) != [] {
      RenamedGet(fwd, Table(h0, x), Hasher(h0), Table(h1, fwd[x]), Hasher(h1), k, 0);
    }
  }

  /** In-place key rewriting needs no rehashing: every surviving table is still a Robin Hood table, and if every
      table had a hole, it has one. */
  lemma TablesSurvive(h0: Heap, h1: Heap, fwd: map<nat, nat>)
    requires WellFormed(h0) && Collected(h0, h1, fwd)
    ensures TablesKept(h0, h1)
  {
    forall y, b | Owns(h1, y, b) && TablesOrdered(h0)
      ensures Good(Table(h1, y), Hasher(h1))
      ensures TablesGood(h0) ==> HasRoom(Table(h1, y))
    {
      var x :| x in fwd && fwd[x] == y;
      assert Owns(h0, x, b);
      MovedRenamed(h0, h1, fwd, x);
      RenamedGood(fwd, Table(h0, x), Hasher(h0), Table(h1, y), Hasher(h1));
    }
  }

  lemma WellFormedSurvives(h0: Heap, h1: Heap, fwd: map<nat, nat>)
    requires WellFormed(h0) && Collected(h0, h1, fwd)
    ensures WellFormed(h1)
  {
    forall y | In(h1, y)
      ensures !h1.words[y].Broken?
    {
      var x :| x in fwd && fwd[x] == y;
    }
    forall y, b | Owns(h1, y, b)
      ensures b in h1.blocks
    {
      var x :| x in fwd && fwd[x] == y;
      assert Owns(h0, x, b);
      assert !Garbage(h0, fwd, b);
    }
    forall y, z, b | Owns(h1, y, b) && Owns(h1, z, b)
      ensures y == z
    {
      var x :| x in fwd && fwd[x] == y;
      var w :| w in fwd && fwd[w] == z;
      assert Owns(h0, x, b) && Owns(h0, w, b);
    }
    forall y, i | In(h1, y) && 0 <= i < |Table(h1, y)| && !Vacant(Table(h1, y)[i])
      ensures RefIn(h1, Table(h1, y)[i].key) && RefIn(h1, Table(h1, y)[i].value)
    {
      var x :| x in fwd && fwd[x] == y;
      MovedTable(h0, h1, fwd, x);
      assert EntryCovered(fwd, Table(h0, x)[i]);
    }
  }

  /** Follow fields from a value: what a program reads by v[k0][k1]... */
  function Walk(h: Heap, v: Value, keys: seq<Value>): Value
    decreases |keys|
  {
    if keys == [] then v
    else if v.Tbl? then Walk(h, Field(h, v.ref, keys[0]), keys[1..])
    else Nil
  }

  function TrAll(fwd: map<nat, nat>, vs: seq<Value>): (r: seq<Value>)
    ensures |r| == |vs| && forall i | 0 <= i < |vs| :: r[i] == Tr(fwd, vs[i])
  {
    seq(|vs|, i requires 0 <= i < |vs| => Tr(fwd, vs[i]))
  }

  /** No access path from a surviving value can tell the two heaps apart. */
  lemma {:induction false} WalkSurvives(h0: Heap, h1: Heap, fwd: map<nat, nat>, v: Value, keys: seq<Value>)
    requires WellFormed(h0) && Collected(h0, h1, fwd) && Covered(fwd, v)
    requires forall k | k in keys :: Covered(fwd, k)
    ensures Walk(h1, Tr(fwd, v), TrAll(fwd, keys)) == Tr(fwd, Walk(h0, v, keys))
    decreases |keys|
  {
    if keys != [] && v.Tbl? {
      LookupSurvives(h0, h1, fwd, v.ref, keys[0]);
      assert TrAll(fwd, keys)[1..] == TrAll(fwd, keys[1..]);
      WalkSurvives(h0, h1, fwd, Field(h0, v.ref, keys[0]), keys[1..]);
    }
  }

  /** Edges between surviving tables are the images of the edges before. */
  lemma EdgesSurvive(h0: Heap, h1: Heap, fwd: map<nat, nat>, x: nat, y: nat)
    requires WellFormed(h0) && Collected(h0, h1, fwd) && x in fwd
    ensures Edge(h0, x, y) ==> y in fwd && Edge(h1, fwd[x], fwd[y])
    ensures y in fwd && Edge(h1, fwd[x], fwd[y]) ==> Edge(h0, x, y)
  {
    MovedTable(h0, h1, fwd, x);
    var t0, t1 := Table(h0, x), Table(h1, fwd[x]);
    if i :| 0 <= i < |t0| && Mentions(t0[i], y) {
      assert EntryCovered(fwd, t0[i]);
      assert Mentions(t1[i], fwd[y]);
    }
    if y in fwd && Edge(h1, fwd[x], fwd[y]) {
      var i :| 0 <= i < |t1| && Mentions(t1[i], fwd[y]);
      assert EntryCovered(fwd, t0[i]);
      assert Mentions(t0[i], y);
    }
  }

  lemma {:induction false} PathSurvives(h0: Heap, h1: Heap, fwd: map<nat, nat>, roots: set<nat>, roots': set<nat>,
                                        p: seq<nat>)
    requires WellFormed(h0) && Collected(h0, h1, fwd) && Path(h0, roots, p)
    requires forall r | r in roots :: r in fwd && fwd[r] in roots'
    ensures p[|p| - 1] in fwd && Reach(h1, roots', fwd[p[|p| - 1]])
  {
    var n := |p| - 1;
    if n == 0 {
      ReachRoot(h1, roots', fwd[p[0]]);
    } else {
      var q := p[..n];
      assert forall i | 0 <= i < |q| - 1 :: Edge(h0, p[i], p[i + 1]);
      PathSurvives(h0, h1, fwd, roots, roots', q);
      assert Edge(h0, p[n - 1], p[n - 1 + 1]);
      EdgesSurvive(h0, h1, fwd, p[n - 1], p[n]);
      ReachEdge(h1, roots', fwd[p[n - 1]], fwd[p[n]]);
    }
  }

  lemma IsCopy(h0: Heap, h1: Heap, fwd: map<nat, nat>, y: nat)
    requires Collected(h0, h1, fwd) && In(h1, y)
    ensures exists x :: x in fwd && fwd[x] == y
  {
  }

  /** After a collection that copied what was reachable, every table left is reachable. */
  lemma OnlyReachableLeft(h0: Heap, h1: Heap, fwd: map<nat, nat>, roots: set<nat>, roots': set<nat>)
    requires WellFormed(h0) && Collected(h0, h1, fwd)
    requires forall x :: x in fwd ==> Reach(h0, roots, x)
    requires forall r | r in roots :: r in fwd && fwd[r] in roots'
    ensures forall y | In(h1, y) :: Reach(h1, roots', y)
  {
    hide WellFormed, Collected, Edge;
    forall y | In(h1, y)
      ensures Reach(h1, roots', y)
    {
      IsCopy(h0, h1, fwd, y);
      var x :| x in fwd && fwd[x] == y;
      var p :| Path(h0, roots, p) && p[|p| - 1] == x;
      PathSurvives(h0, h1, fwd, roots, roots', p);
    }
  }

  // --- allocation and writes ----------------------------------------------------------------

  /** rhhm_init of the next slot. */
  function Allocated(h: Heap, cap: nat, hash: nat): (r: Heap)
    requires h.hi < |h.words|
  {
    h.(words := h.words[h.hi := Packed(hash, cap)], hi := h.hi + 1)
  }

  /** Forwarding that moves nothing. */
  ghost function Stay(h: Heap): (fwd: map<nat, nat>)
    requires h.lo <= h.hi
    ensures forall x :: x in fwd <==> In(h, x)
    ensures forall x | x in fwd :: fwd[x] == x
    ensures forall v | RefIn(h, v) :: Tr(fwd, v) == v && Covered(fwd, v)
    ensures Injective(fwd)
  {
    map x: nat | h.lo <= x < h.hi && In(h, x) :: x
  }

  /** A fresh table disturbs no other: words, hashes and slots of the rest are as before. */
  lemma AllocatedKeeps(h: Heap, cap: nat, hash: nat)
    requires WellFormed(h) && h.hi < |h.words|
    ensures var r := Allocated(h, cap, hash);
            WellFormed(r) && TablesKept(h, r) && Table(r, h.hi) == [] &&
            forall x | In(h, x) :: Table(r, x) == Table(h, x) && r.words[x] == h.words[x] &&
                TableHash(r, x) == TableHash(h, x)
  {
    var r := Allocated(h, cap, hash);
    assert forall x | In(h, x) :: r.words[x] == h.words[x] && Table(r, x) == Table(h, x);
    assert forall x, b :: Owns(r, x, b) <==> Owns(h, x, b);
    SameHashesKept(h, r);
  }

  /** Tables that keep their slots stay good while the hashes of their keys stay the same. */
  lemma SameHashesKept(h: Heap, r: Heap)
    requires WellFormed(h)
    requires forall v | RefIn(h, v) :: HashOf(r, v) == HashOf(h, v)
    requires forall x, b | Owns(r, x, b) ::
               (Fresh(Table(r, x)) && Table(r, x) != []) || (Owns(h, x, b) && Table(r, x) == Table(h, x))
    ensures TablesKept(h, r)
  {
    forall x, b | Owns(r, x, b) && TablesOrdered(h)
      ensures Good(Table(r, x), Hasher(r))
      ensures TablesGood(h) ==> HasRoom(Table(r, x))
    {
      if Owns(h, x, b) && Table(r, x) == Table(h, x) {
        SlotsStay(h, x);
        RenamedGood(Stay(h), Table(h, x), Hasher(h), Table(r, x), Hasher(r));
      } else {
        FreshIsGood(Table(r, x), Hasher(r));
        assert Vacant(Table(r, x)[0]);
      }
    }
  }

  lemma SlotsStay(h: Heap, x: nat)
    requires WellFormed(h) && In(h, x)
    ensures forall i | 0 <= i < |Table(h, x)| ::
              EntryCovered(Stay(h), Table(h, x)[i]) && TrEntry(Stay(h), Table(h, x)[i]) == Table(h, x)[i]
  {
  }

  /** rhhm_maybe_initialize of table x, with the block malloc returned at `addr`. */
  function Initialised(h: Heap, x: nat, addr: nat): Heap
    requires In(h, x) && x < |h.words|
  {
    match h.words[x]
    case Packed(hash, cap) =>
      h.(words := h.words[x := Data(addr)], blocks := h.blocks[addr := Block(hash, seq(cap, _ => Entry(None, Nil)))])
    case _ => h
  }

  /** Lazy initialisation changes no hash and no answer. */
  lemma InitialisedKeeps(h: Heap, x: nat, addr: nat)
    requires WellFormed(h) && In(h, x) && addr !in h.blocks
    requires h.words[x].Packed? ==> h.words[x].cap > 0
    ensures var r := Initialised(h, x, addr);
            WellFormed(r) && TablesKept(h, r) &&
            r.words[x].Data? && (forall v | RefIn(h, v) :: HashOf(r, v) == HashOf(h, v)) &&
            (forall y | In(h, y) && y != x :: Table(r, y) == Table(h, y)) &&
            (h.words[x].Data? ==> r == h) &&
                (h.words[x].Packed? ==> Fresh(Table(r, x)) && |Table(r, x)| == h.words[x].cap)
  {
    var r := Initialised(h, x, addr);
    if h.words[x].Packed? {
      assert forall y, b :: Owns(r, y, b) <==> if y == x then b == addr else Owns(h, y, b);
      forall y | In(h, y) && y != x
        ensures Table(r, y) == Table(h, y)
      {
        if h.words[y].Data? { assert Owns(h, y, h.words[y].block); }
      }
      SameHashesKept(h, r);
    }
  }

  /** Every slot of the written table holds an old entry or the new one. */
  lemma WrittenEntries(t: seq<Entry<Value>>, h: Value -> nat, k: Value, v: Value, i: nat)
    requires Good(t, h) && Searchable(t, k) && v != None && i < |Set(t, h, k, v)|
    requires !Vacant(Set(t, h, k, v)[i])
    ensures var e := Set(t, h, k, v)[i];
            (e.key == k && e.value == v) || exists j :: 0 <= j < |t| && t[j] == e
  {
    var r := Set(t, h, k, v);
    SetIsUpdate(t, h, k, v);
    ContentsPairs(t);
    ContentsPairs(r);
    assert Pairs(r, r[i].key, r[i].value);
    if r[i].key != k {
      assert Pairs(t, r[i].key, r[i].value);
    }
  }

  /** h with the slots of block b replaced. */
  function WithTable(h: Heap, b: nat, t: seq<Entry<Value>>): Heap
    requires b in h.blocks
  {
    h.(blocks := h.blocks[b := h.blocks[b].(table := t)])
  }

  /** Replacing the slots of one table changes no hash, not even its own, and no other table. */
  lemma WithTableKeeps(h: Heap, x: nat, b: nat, t: seq<Entry<Value>>)
    requires WellFormed(h) && Owns(h, x, b) && b in h.blocks
    ensures var r := WithTable(h, b, t);
            r.words == h.words && Owns(r, x, b) && Table(r, x) == t &&
            (forall y | In(h, y) && y != x :: Table(r, y) == Table(h, y)) &&
            (forall w :: HashOf(r, w) == HashOf(h, w))
  {
    var r := WithTable(h, b, t);
    forall y | In(h, y) && y != x
      ensures Table(r, y) == Table(h, y)
    {
      if h.words[y].Data? { assert Owns(h, y, h.words[y].block); }
    }
  }

  lemma WithTableGood(h: Heap, x: nat, b: nat, t: seq<Entry<Value>>)
    requires WellFormed(h) && TablesOrdered(h) && Owns(h, x, b) && b in h.blocks && Good(t, Hasher(h))
    requires forall i | 0 <= i < |t| && !Vacant(t[i]) :: RefIn(h, t[i].key) && RefIn(h, t[i].value)
    ensures WellFormed(WithTable(h, b, t)) && TablesOrdered(WithTable(h, b, t))
    ensures TablesGood(h) && HasRoom(t) ==> TablesGood(WithTable(h, b, t))
  {
    var r := WithTable(h, b, t);
    WithTableKeeps(h, x, b, t);
    assert forall y, c :: Owns(r, y, c) <==> Owns(h, y, c);
    forall y, c | Owns(r, y, c)
      ensures Good(Table(r, y), Hasher(r))
      ensures TablesGood(h) && HasRoom(t) ==> HasRoom(Table(r, y))
    {
      SameHashFunction(h, r, Table(r, y));
    }
  }

  lemma SameHashFunction(h: Heap, r: Heap, t: seq<Entry<Value>>)
    requires forall w :: HashOf(r, w) == HashOf(h, w)
    requires Good(t, Hasher(h))
    ensures Good(t, Hasher(r))
  {
    forall i | 0 <= i < |t|
      ensures OrderedAt(t, Hasher(r), i)
    {
      assert OrderedAt(t, Hasher(h), i);
    }
  }

  /** rhhm_set on initialised table x: the table is updated as a map, the heap stays well formed, and if
      every table had a hole, it still has one unless this write took the last. */
  lemma WriteKeeps(h: Heap, x: nat, b: nat, k: Value, v: Value)
    requires WellFormed(h) && TablesOrdered(h) && Owns(h, x, b) && b in h.blocks && v != None
    requires RefIn(h, k) && RefIn(h, v) && Good(Table(h, x), Hasher(h)) && Searchable(Table(h, x), k)
    ensures var t := Set(Table(h, x), Hasher(h), k, v);
            Good(t, Hasher(h)) && Contents(t) == Contents(Table(h, x))[k := v] && WellFormed(WithTable(h, b, t)) &&
            TablesOrdered(WithTable(h, b, t)) &&
            (TablesGood(h) && |Contents(Table(h, x))[k := v]| < |Table(h, x)| ==> TablesGood(WithTable(h, b, t)))
  {
    var t := Set(Table(h, x), Hasher(h), k, v);
    SetIsUpdate(Table(h, x), Hasher(h), k, v);
    CountIsSize(t);
    forall i | 0 <= i < |t| && !Vacant(t[i])
      ensures RefIn(h, t[i].key) && RefIn(h, t[i].value)
    {
      WrittenEntries(Table(h, x), Hasher(h), k, v, i);
    }
    WithTableGood(h, x, b, t);
  }

  /** A write of v under k leaves table x a hole. */
  ghost predicate CanWrite(h: Heap, x: nat, k: Value, v: Value)
  {
    x < |h.words| &&
    match h.words[x]
    case Packed(_, cap) => cap > 1
    case Data(b) => b in h.blocks && Unique(Table(h, x)) && |Contents(Table(h, x))[k := v]| < |Table(h, x)|
    case Broken(_) => false
  }

  /** r is h after x[k] := v: table x has a data block and is updated as a map, every other table and
      every hash is as before. */
  ghost predicate Written(h: Heap, r: Heap, x: nat, k: Value, v: Value)
  {
    && r.lo == h.lo && r.hi == h.hi && |r.words| == |h.words| && x < |h.words| && r.words[x].Data?
    && Unique(Table(h, x)) && Unique(Table(r, x)) && Contents(Table(r, x)) == Contents(Table(h, x))[k := v]
    && |Table(r, x)| == (if h.words[x].Packed? then h.words[x].cap else |Table(h, x)|)
    && (forall y | In(h, y) && y != x && y < |h.words| :: Table(r, y) == Table(h, y) && r.words[y] == h.words[y])
    && (forall w | RefIn(h, w) :: HashOf(r, w) == HashOf(h, w))
  }

  /** Heap r is h after the lazy initialisation of x, and rhhm_set can run on its block b. */
  ghost predicate Writable(h: Heap, r: Heap, x: nat, b: nat, k: Value, v: Value)
  {
    && WellFormed(r) && TablesOrdered(r) && TablesKept(h, r)
    && Owns(r, x, b) && b in r.blocks && Table(r, x) == r.blocks[b].table
    && Good(Table(r, x), Hasher(r)) && Searchable(Table(r, x), k) && Unique(Table(h, x))
    && Contents(Table(r, x)) == Contents(Table(h, x))
    && (CanWrite(h, x, k, v) ==> |Contents(Table(r, x))[k := v]| < |Table(r, x)|)
  }

  lemma InitialisedWritable(h: Heap, x: nat, addr: nat, k: Value, v: Value)
    requires WellFormed(h) && TablesOrdered(h) && In(h, x) && addr !in h.blocks &&
        (h.words[x].Packed? ==> h.words[x].cap > 0) && TableSearchable(h, x, k)
    ensures var r := Initialised(h, x, addr);
            r.words[x].Data? && r.words[x].block in r.blocks && Writable(h, r, x, r.words[x].block, k, v) &&
            Good(r.blocks[r.words[x].block].table, Hasher(r)) && Searchable(r.blocks[r.words[x].block].table, k)
  {
    var r := Initialised(h, x, addr);
    InitialisedKeeps(h, x, addr);
    assert Owns(r, x, r.words[x].block);
    if h.words[x].Packed? {
      FreshIsGood(Table(r, x), Hasher(r));
      assert Contents(Table(h, x)) == map[] && Vacant(Table(r, x)[0]);
    }
  }

  lemma WriteDone(h: Heap, x: nat, addr: nat, b: nat, k: Value, v: Value)
    requires WellFormed(h) && In(h, x) && x < |h.words| && addr !in h.blocks &&
        (h.words[x].Packed? ==> h.words[x].cap > 0)
    requires RefIn(h, k) && RefIn(h, v) && v != None && Writable(h, Initialised(h, x, addr), x, b, k, v)
    ensures var h1 := Initialised(h, x, addr);
            var r := WithTable(h1, b, Set(h1.blocks[b].table, Hasher(h1), k, v));
            WellFormed(r) && Written(h, r, x, k, v) && TablesOrdered(r) &&
            (TablesGood(h) && CanWrite(h, x, k, v) ==> TablesGood(r))
  {
    hide WellFormed, TablesGood, TablesOrdered, HasRoom, Searchable, Contents, Hasher, HashOf, Set, CanWrite;
    var h1 := Initialised(h, x, addr);
    InitialisedKeeps(h, x, addr);
    var t := Set(Table(h1, x), Hasher(h1), k, v);
    WriteKeeps(h1, x, b, k, v);
    SetIsUpdate(Table(h1, x), Hasher(h1), k, v);
    WithTableKeeps(h1, x, b, t);
  }
}
