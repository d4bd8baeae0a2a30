/** Programs on an ideal heap whose tables never move and are never freed, and what it means for the
    collected heap to mirror it. */
module Ideal {
  import opened Values
  import opened RobinHood
  import opened Counting
  import opened Heaps
  import opened Survival

  /** A table as a finite map with the capacity it was created with. */
  datatype Dict = Dict(cap: nat, m: map<Value, Value>)

  /** Tables by number, the number of G, and the words on the stack. */
  datatype Machine = Machine(tables: seq<Dict>, g: nat, stack: seq<Value>)

  /** What a program does through the runtime interface; operands are stack indices. */
  datatype Op =
    | Const(d: nat, c: Value)
    | Move(d: nat, s: nat)
    | Globals(d: nat)
    | New(d: nat)
    | Put(t: nat, k: nat, v: nat)
    | GetField(d: nat, t: nat, k: nat)
    | Collect

  const TABLE_SIZE: nat := 16

  predicate IsTable(m: Machine, i: nat)
  {
    i < |m.stack| && m.stack[i].Tbl? && m.stack[i].ref < |m.tables|
  }

  /** Operands exist, tables are where tables are needed, stored values are neither nil nor none,
      and a write leaves its table a hole. */
  predicate Safe(m: Machine, op: Op)
  {
    m.g < |m.tables| &&
    match op
    case Const(d, c) => d < |m.stack| && !c.Tbl?
    case Move(d, s) => d < |m.stack| && s < |m.stack|
    case Globals(d) => d < |m.stack|
    case New(d) => d < |m.stack|
    case Put(t, k, v) =>
      && IsTable(m, t) && k < |m.stack| && v < |m.stack| && m.stack[v] != Nil && m.stack[v] != None
      && var table := m.tables[m.stack[t].ref];
         table.cap > 1 && |table.m[m.stack[k] := m.stack[v]]| < table.cap
    case GetField(d, t, k) => d < |m.stack| && IsTable(m, t) && k < |m.stack|
    case Collect => true
  }

  function Apply(m: Machine, op: Op): Machine
    requires Safe(m, op)
  {
    match op
    case Const(d, c) => m.(stack := m.stack[d := c])
    case Move(d, s) => m.(stack := m.stack[d := m.stack[s]])
    case Globals(d) => m.(stack := m.stack[d := Tbl(m.g)])
    case New(d) => m.(tables := m.tables + [Dict(TABLE_SIZE, map[])], stack := m.stack[d := Tbl(|m.tables|)])
    case Put(t, k, v) =>
      var x := m.stack[t].ref;
      m.(tables := m.tables[x := m.tables[x].(m := m.tables[x].m[m.stack[k] := m.stack[v]])])
    case GetField(d, t, k) =>
      var table := m.tables[m.stack[t].ref];
      m.(stack := m.stack[d := if m.stack[k] in table.m then table.m[m.stack[k]] else Nil])
    case Collect => m
  }

  /** The machine after a program, none if the program leaves the safe operations. */
  datatype Outcome = Unsafe | After(m: Machine)

  function ApplyAll(m: Machine, program: seq<Op>): Outcome
  {
    if program == [] then After(m)
    else
      var r := ApplyAll(m, program[..|program| - 1]);
      if r.After? && Safe(r.m, program[|program| - 1]) then After(Apply(r.m, program[|program| - 1])) else Unsafe
  }

  lemma {:induction false} ApplyPrefix(m: Machine, program: seq<Op>, n: nat)
    requires n <= |program| && ApplyAll(m, program).After?
    ensures ApplyAll(m, program[..n]).After?
    ensures n < |program| ==> Safe(ApplyAll(m, program[..n]).m, program[n]) &&
                              ApplyAll(m, program[..n + 1]) == After(Apply(ApplyAll(m, program[..n]).m, program[n]))
    decreases |program| - n
  {
    assert program[..|program|] == program;
    if n < |program| {
      ApplyPrefix(m, program, n + 1);
      assert program[..n + 1][..n] == program[..n];
    }
  }

  // --- mirroring ----------------------------------------------------------------------------

  /** Under the numbering `name` of the allocated slots, an occupied slot agrees with m. */
  predicate SlotMirrors(name: map<nat, nat>, e: Entry<Value>, m: map<Value, Value>)
  {
    !Vacant(e) ==>
      && EntryCovered(name, e) && e.value != Nil
      && Tr(name, e.key) in m && m[Tr(name, e.key)] == Tr(name, e.value)
  }

  ghost predicate HasKey(name: map<nat, nat>, t: seq<Entry<Value>>, k: Value)
  {
    exists i :: 0 <= i < |t| && !Vacant(t[i]) && Tr(name, t[i].key) == k
  }

  ghost predicate Mirrors(name: map<nat, nat>, t: seq<Entry<Value>>, m: map<Value, Value>)
  {
    && (forall i | 0 <= i < |t| :: SlotMirrors(name, t[i], m))
    && (forall k | k in m :: HasKey(name, t, k))
  }

  /** Slot x of the heap is ideal table i. */
  ghost predicate TableMirrors(h: Heap, name: map<nat, nat>, x: nat, i: Dict)
  {
    && x < |h.words| && Mirrors(name, Table(h, x), i.m)
    && match h.words[x]
       case Packed(_, cap) => cap == i.cap
       case Data(_) => |Table(h, x)| == i.cap
       case Broken(_) => false
  }

  /** Every allocated slot has its own ideal table, G and the stack words correspond. */
  ghost predicate Same(h: Heap, g: nat, stack: seq<Value>, name: map<nat, nat>, m: Machine)
  {
    && (forall x :: x in name <==> In(h, x))
    && Injective(name)
    && (forall x | x in name :: name[x] < |m.tables| && TableMirrors(h, name, x, m.tables[name[x]]))
    && g in name && name[g] == m.g
    && |stack| == |m.stack|
    && (forall i | 0 <= i < |stack| :: Covered(name, stack[i]) && Tr(name, stack[i]) == m.stack[i])
  }

  /** r is t with v stored under k. */
  ghost predicate Update(name: map<nat, nat>, t: seq<Entry<Value>>, k: Value, v: Value, r: seq<Entry<Value>>)
  {
    && Injective(name) && Unique(t) && Unique(r) && Covered(name, k) && Covered(name, v) && v != None && v != Nil
    && Contents(r) == Contents(t)[k := v]
  }

  lemma MirrorWriteSlot(name: map<nat, nat>, t: seq<Entry<Value>>, m: map<Value, Value>, k: Value, v: Value,
                        r: seq<Entry<Value>>, i: nat)
    requires Update(name, t, k, v, r) && Mirrors(name, t, m) && i < |r|
    ensures SlotMirrors(name, r[i], m[Tr(name, k) := Tr(name, v)])
  {
    if !Vacant(r[i]) {
      ContentsPairs(t);
      ContentsPairs(r);
      assert Pairs(r, r[i].key, r[i].value);
      if r[i].key != k {
        assert Pairs(t, r[i].key, r[i].value);
        var j :| 0 <= j < |t| && t[j] == r[i];
        assert SlotMirrors(name, t[j], m);
        TrInjective(name, r[i].key, k);
      }
    }
  }

  lemma MirrorWrite(name: map<nat, nat>, t: seq<Entry<Value>>, m: map<Value, Value>, k: Value, v: Value,
                    r: seq<Entry<Value>>)
    requires Update(name, t, k, v, r) && Mirrors(name, t, m)
    ensures Mirrors(name, r, m[Tr(name, k) := Tr(name, v)])
  {
    var m' := m[Tr(name, k) := Tr(name, v)];
    forall i | 0 <= i < |r|
      ensures SlotMirrors(name, r[i], m')
    {
      MirrorWriteSlot(name, t, m, k, v, r, i);
    }
    forall k' | k' in m'
      ensures HasKey(name, r, k')
    {
      MirrorWriteKey(name, t, m, k, v, r, k');
    }
  }

  lemma MirrorWriteKey(name: map<nat, nat>, t: seq<Entry<Value>>, m: map<Value, Value>, k: Value, v: Value,
                       r: seq<Entry<Value>>, k': Value)
    requires Update(name, t, k, v, r) && Mirrors(name, t, m) && (k' == Tr(name, k) || k' in m)
    ensures HasKey(name, r, k')
  {
    if k' == Tr(name, k) {
      UpdatedKey(name, t, k, v, r, k);
    } else {
      assert HasKey(name, t, k');
      hide Update;
      var j :| 0 <= j < |t| && !Vacant(t[j]) && Tr(name, t[j].key) == k';
      assert Pairs(t, t[j].key, t[j].value);
      UpdatedKey(name, t, k, v, r, t[j].key);
    }
  }

  lemma UpdatedKey(name: map<nat, nat>, t: seq<Entry<Value>>, k: Value, v: Value, r: seq<Entry<Value>>, k0: Value)
    requires Update(name, t, k, v, r) && (k0 == k || exists w :: Pairs(t, k0, w))
    ensures HasKey(name, r, Tr(name, k0))
  {
    ContentsPairs(t);
    ContentsPairs(r);
    assert Pairs(r, k0, Contents(r)[k0]);
    PairHasKey(name, r, k0, Contents(r)[k0]);
  }

  lemma PairHasKey(name: map<nat, nat>, r: seq<Entry<Value>>, k: Value, v: Value)
    requires Pairs(r, k, v)
    ensures HasKey(name, r, Tr(name, k))
  {
    var i :| 0 <= i < |r| && r[i] == Entry(v, k);
    assert !Vacant(r[i]);
  }

  lemma MirrorRead(name: map<nat, nat>, t: seq<Entry<Value>>, h: Value -> nat, m: map<Value, Value>, k: Value)
    requires Injective(name) && Mirrors(name, t, m) && Good(t, h) && HasRoom(t) && Covered(name, k)
    ensures Covered(name, Get(t, h, k))
    ensures Tr(name, Get(t, h, k)) == if Tr(name, k) in m then m[Tr(name, k)] else Nil
  {
    forall x | x in Contents(t)
      ensures Contents(t)[x] != Nil
    {
      var i :| 0 <= i < |t| && !Vacant(t[i]) && t[i].key == x;
      assert SlotMirrors(name, t[i], m);
    }
    NoNilNoBlock(t, h, k);
    GetExact(t, h, k);
    if k in Contents(t) {
      var i :| 0 <= i < |t| && !Vacant(t[i]) && t[i].key == k;
      assert SlotMirrors(name, t[i], m);
    } else {
      MirrorAbsent(name, t, m, k);
    }
  }

  lemma MirrorAbsent(name: map<nat, nat>, t: seq<Entry<Value>>, m: map<Value, Value>, k: Value)
    requires Injective(name) && Mirrors(name, t, m) && Unique(t) && Covered(name, k) && k !in Contents(t)
    ensures Tr(name, k) !in m
  {
    forall i | 0 <= i < |t| && !Vacant(t[i])
      ensures Tr(name, t[i].key) != Tr(name, k)
    {
      assert SlotMirrors(name, t[i], m);
      assert t[i].key in Contents(t);
      TrInjective(name, t[i].key, k);
    }
  }

  /** A table holds no more keys than its ideal. */
  lemma MirrorSize(name: map<nat, nat>, t: seq<Entry<Value>>, m: map<Value, Value>)
    requires Injective(name) && Mirrors(name, t, m) && Unique(t)
    ensures |Contents(t)| <= |m|
  {
    var f := (k: Value) => Tr(name, k);
    forall k | k in Contents(t).Keys
      ensures Covered(name, k) && f(k) in m.Keys
    {
      var i :| 0 <= i < |t| && !Vacant(t[i]) && t[i].key == k;
      assert SlotMirrors(name, t[i], m);
    }
    forall k, l | k in Contents(t).Keys && l in Contents(t).Keys && f(k) == f(l)
      ensures k == l
    {
      TrInjective(name, k, l);
    }
    InjectsInto(Contents(t).Keys, f, m.Keys);
  }

  /** The numbering after slots have moved. */
  ghost predicate Renumbered(fwd: map<nat, nat>, name: map<nat, nat>, name': map<nat, nat>)
  {
    forall x | x in fwd :: x in name && fwd[x] in name' && name'[fwd[x]] == name[x]
  }

  lemma MirrorMoved(fwd: map<nat, nat>, name: map<nat, nat>, name': map<nat, nat>, t: seq<Entry<Value>>,
                    t': seq<Entry<Value>>,
                    m: map<Value, Value>)
    requires Renumbered(fwd, name, name') && Mirrors(name, t, m) && |t'| == |t|
    requires forall i | 0 <= i < |t| :: EntryCovered(fwd, t[i]) && t'[i] == TrEntry(fwd, t[i])
    ensures Mirrors(name', t', m)
  {
    forall i | 0 <= i < |t|
      ensures SlotMirrors(name', t'[i], m) &&
          (!Vacant(t[i]) ==> !Vacant(t'[i]) && Tr(name', t'[i].key) == Tr(name, t[i].key))
    {
      assert SlotMirrors(name, t[i], m);
    }
    forall k | k in m
      ensures HasKey(name', t', k)
    {
      assert HasKey(name, t, k);
      var i :| 0 <= i < |t| && !Vacant(t[i]) && Tr(name, t[i].key) == k;
      assert Tr(name', t'[i].key) == k;
    }
  }

  ghost function Inverse(fwd: map<nat, nat>, y: nat): (x: nat)
    requires exists x :: x in fwd && fwd[x] == y
    ensures x in fwd && fwd[x] == y
  {
    var x :| x in fwd && fwd[x] == y;
    x
  }

  /** Slots keep their numbers when they move. */
  ghost function Renumber(h0: Heap, h1: Heap, fwd: map<nat, nat>, name: map<nat, nat>): (r: map<nat, nat>)
    requires Collected(h0, h1, fwd) && forall x :: x in name <==> In(h0, x)
    ensures forall y :: y in r <==> In(h1, y)
    ensures Renumbered(fwd, name, r)
    ensures forall y | y in r :: exists x :: x in fwd && fwd[x] == y && r[y] == name[x]
  {
    map y: nat | h1.lo <= y < h1.hi && In(h1, y) :: name[Inverse(fwd, y)]
  }

  lemma MirrorSurvives(h0: Heap, h1: Heap, fwd: map<nat, nat>, name: map<nat, nat>, name': map<nat, nat>, x: nat,
                       i: Dict)
    requires WellFormed(h0) && Collected(h0, h1, fwd) && x in fwd && TableMirrors(h0, name, x, i) &&
        Renumbered(fwd, name, name')
    ensures TableMirrors(h1, name', fwd[x], i)
  {
    MovedTable(h0, h1, fwd, x);
    MirrorMoved(fwd, name, name', Table(h0, x), Table(h1, fwd[x]), i.m);
  }

  /** A collection does not show. */
  lemma CollectionKeeps(h0: Heap, h1: Heap, fwd: map<nat, nat>, g: nat, stack: seq<Value>, g': nat, stack': seq<Value>,
                        name: map<nat, nat>, m: Machine)
    requires WellFormed(h0) && Collected(h0, h1, fwd) && Same(h0, g, stack, name, m)
    requires g in fwd && g' == fwd[g] && |stack'| == |stack|
    requires forall i | 0 <= i < |stack| :: Covered(fwd, stack[i]) && stack'[i] == Tr(fwd, stack[i])
    ensures Same(h1, g', stack', Renumber(h0, h1, fwd, name), m)
  {
    hide WellFormed, Collected, TableMirrors;
    var name' := Renumber(h0, h1, fwd, name);
    forall y | y in name'
      ensures name'[y] < |m.tables| && TableMirrors(h1, name', y, m.tables[name'[y]])
    {
      var x :| x in fwd && fwd[x] == y && name'[y] == name[x];
      MirrorSurvives(h0, h1, fwd, name, name', x, m.tables[name[x]]);
    }
    forall y, z | y in name' && z in name' && y != z
      ensures name'[y] != name'[z]
    {
      var x :| x in fwd && fwd[x] == y && name'[y] == name[x];
      var w :| w in fwd && fwd[w] == z && name'[z] == name[w];
    }
    forall i | 0 <= i < |stack'|
      ensures Covered(name', stack'[i]) && Tr(name', stack'[i]) == m.stack[i]
    {
      assert Covered(name, stack[i]) && Tr(name, stack[i]) == m.stack[i];
    }
  }

  /** A table whose word and slots stay, under a larger numbering. */
  lemma MirrorStays(h: Heap, r: Heap, name: map<nat, nat>, name': map<nat, nat>, x: nat, i: Dict)
    requires WellFormed(h) && In(h, x) && TableMirrors(h, name, x, i)
    requires forall y :: y in name <==> In(h, y)
    requires forall y | y in name :: y in name' && name'[y] == name[y]
    requires x < |r.words| && r.words[x] == h.words[x] && Table(r, x) == Table(h, x)
    ensures TableMirrors(r, name', x, i)
  {
    SlotsStay(h, x);
    MirrorMoved(Stay(h), name, name', Table(h, x), Table(r, x), i.m);
  }

  lemma MirrorFresh(h: Heap, hash: nat, name: map<nat, nat>)
    requires h.hi < |h.words|
    ensures TableMirrors(Allocated(h, TABLE_SIZE, hash), name, h.hi, Dict(TABLE_SIZE, map[]))
  {
  }

  /** A new table gets the next number. */
  lemma AllocationKeeps(h: Heap, hash: nat, g: nat, stack: seq<Value>, d: nat, name: map<nat, nat>, m: Machine)
    requires WellFormed(h) && h.hi < |h.words| && Same(h, g, stack, name, m) && Safe(m, New(d))
    ensures Same(Allocated(h, TABLE_SIZE, hash), g, stack[d := Tbl(h.hi)], name[h.hi := |m.tables|], Apply(m, New(d)))
  {
    hide WellFormed, TablesGood, TableHash, TableMirrors, Table;
    var r, name', m' := Allocated(h, TABLE_SIZE, hash), name[h.hi := |m.tables|], Apply(m, New(d));
    AllocatedKeeps(h, TABLE_SIZE, hash);
    MirrorFresh(h, hash, name');
    forall x | x in name'
      ensures name'[x] < |m'.tables| && TableMirrors(r, name', x, m'.tables[name'[x]])
    {
      if x != h.hi { MirrorStays(h, r, name, name', x, m.tables[name[x]]); }
    }
    StackStays(h, g, stack, name, m, h.hi, |m.tables|);
  }

  /** Words keep their meaning when a number is given to one more slot. */
  lemma StackStays(h: Heap, g: nat, stack: seq<Value>, name: map<nat, nat>, m: Machine, x: nat, n: nat)
    requires Same(h, g, stack, name, m) && x !in name
    ensures |stack| == |m.stack|
    ensures forall i | 0 <= i < |stack| :: Covered(name[x := n], stack[i]) && Tr(name[x := n], stack[i]) == m.stack[i]
  {
    forall i | 0 <= i < |stack|
      ensures Covered(name[x := n], stack[i]) && Tr(name[x := n], stack[i]) == m.stack[i]
    {
      assert Covered(name, stack[i]) && Tr(name, stack[i]) == m.stack[i];
    }
  }

  /** A write to table x is a write to its ideal. */
  lemma WriteMirrors(h: Heap, r: Heap, x: nat, g: nat, stack: seq<Value>, t: nat, k: nat, v: nat, name: map<nat, nat>,
                     m: Machine)
    requires WellFormed(h) && Same(h, g, stack, name, m) && Safe(m, Put(t, k, v)) && stack[t] == Tbl(x)
    requires r.lo == h.lo && r.hi == h.hi && |r.words| == |h.words| && r.words[x].Data?
    requires Unique(Table(h, x)) && Unique(Table(r, x)) && |Table(r, x)| == m.tables[name[x]].cap
    requires Contents(Table(r, x)) == Contents(Table(h, x))[stack[k] := stack[v]]
    requires forall y | In(h, y) && y != x :: Table(r, y) == Table(h, y) && r.words[y] == h.words[y]
    ensures Same(r, g, stack, name, Apply(m, Put(t, k, v)))
  {
    var m' := Apply(m, Put(t, k, v));
    assert Covered(name, stack[t]) && Covered(name, stack[k]) && Covered(name, stack[v]);
    assert TableMirrors(h, name, x, m.tables[name[x]]);
    MirrorWrite(name, Table(h, x), m.tables[name[x]].m, stack[k], stack[v], Table(r, x));
    forall y | y in name
      ensures name[y] < |m'.tables| && TableMirrors(r, name, y, m'.tables[name[y]])
    {
      assert TableMirrors(h, name, y, m.tables[name[y]]);
    }
  }

  /** Putting corresponding words on the stack. */
  lemma StackKeeps(h: Heap, g: nat, stack: seq<Value>, d: nat, v: Value, name: map<nat, nat>, m: Machine, w: Value)
    requires Same(h, g, stack, name, m) && d < |stack| && Covered(name, v) && Tr(name, v) == w
    ensures Same(h, g, stack[d := v], name, m.(stack := m.stack[d := w]))
  {
  }
}
