/** Programs on the real collector: whatever they do and whenever it collects, they see what they
    would see on an ideal heap. */
module Mutator {
  import opened Values
  import opened RobinHood
  import opened Heaps
  import opened Survival
  import opened Ideal
  import opened Gc

  /** The slot that a table was created in, and the hash it got then. */
  datatype Birth = Birth(slot: nat, hash: nat)

  /** The hashes that lua_newtable hands out, each from the one before and the address of the new table. */
  ghost predicate Seeded(base: nat, births: seq<Birth>)
  {
    forall i | 0 <= i < |births| :: SeededAt(base, births, i)
  }

  predicate SeededAt(base: nat, births: seq<Birth>, i: nat)
    requires i < |births|
  {
    births[i].hash ==
    (33 * (if i == 0 then SEED else births[i - 1].hash) + FoldHash(base + 8 * births[i].slot)) % TWO_32
  }

  /** Every table, wherever it is by now, has the hash it was created with. */
  ghost predicate Hashed(h: Heap, name: map<nat, nat>, births: seq<Birth>)
  {
    forall x | x in name :: name[x] < |births| && HashOf(h, Tbl(x)) == births[name[x]].hash
  }

  /** State and stack of the real machine correspond to the ideal machine m, whose tables were born so. */
  ghost predicate Tracks(s: State, stack: array<Value>, name: map<nat, nat>, m: Machine, births: seq<Birth>)
    reads s, s.mem, stack
  {
    && s.Idle() && TablesGood(s.Snapshot()) && Same(s.Snapshot(), s.G, stack[..], name, m)
    && Born(s.Snapshot(), s.base, s.seed, name, m, births)
  }

  ghost predicate Born(h: Heap, base: nat, seed: nat, name: map<nat, nat>, m: Machine, births: seq<Birth>)
  {
    && 0 < |births| == |m.tables| && Seeded(base, births) && seed == births[|births| - 1].hash
    && Hashed(h, name, births)
  }

  lemma BornMoved(h: Heap, r: Heap, fwd: map<nat, nat>, base: nat, seed: nat, name: map<nat, nat>, m: Machine,
                  births: seq<Birth>)
    requires WellFormed(h) && Collected(h, r, fwd) && Born(h, base, seed, name, m, births)
    requires forall x :: x in name <==> In(h, x)
    ensures Born(r, base, seed, Renumber(h, r, fwd, name), m, births)
  {
    hide Collected, WellFormed, HashOf, Seeded, In;
    var name' := Renumber(h, r, fwd, name);
    forall y | y in name'
      ensures name'[y] < |births| && HashOf(r, Tbl(y)) == births[name'[y]].hash
    {
      var x :| x in fwd && fwd[x] == y && name'[y] == name[x];
      HashSurvives(h, r, fwd, Tbl(x));
    }
  }

  lemma BornNext(h: Heap, base: nat, was: nat, name: map<nat, nat>, m: Machine, births: seq<Birth>, hash: nat, d: nat)
    requires WellFormed(h) && h.hi < |h.words| && Born(h, base, was, name, m, births) && Safe(m, New(d))
    requires forall x :: x in name <==> In(h, x)
    requires hash == (33 * was + FoldHash(base + 8 * h.hi)) % TWO_32
    ensures Born(Allocated(h, TABLE_SIZE, hash), base, hash, name[h.hi := |m.tables|], Apply(m, New(d)),
                 births + [Birth(h.hi, hash)])
  {
    hide FoldHash, WellFormed, Allocated, Seeded, HashOf, TableHash, Table;
    AllocatedKeeps(h, TABLE_SIZE, hash);
    var r, name', next := Allocated(h, TABLE_SIZE, hash), name[h.hi := |m.tables|], births + [Birth(h.hi, hash)];
    FreshHash(h, hash);
    forall x | x in name'
      ensures name'[x] < |next| && HashOf(r, Tbl(x)) == next[name'[x]].hash
    {
      if x != h.hi { TableHashes(h, r, x); }
    }
    SeededNext(base, was, births, Birth(h.hi, hash));
  }

  lemma TableHashes(h: Heap, r: Heap, x: nat)
    requires TableHash(r, x) == TableHash(h, x)
    ensures HashOf(r, Tbl(x)) == HashOf(h, Tbl(x))
  {
  }

  lemma FreshHash(h: Heap, hash: nat)
    requires h.hi < |h.words|
    ensures HashOf(Allocated(h, TABLE_SIZE, hash), Tbl(h.hi)) == hash
  {
  }

  lemma SeededNext(base: nat, was: nat, births: seq<Birth>, b: Birth)
    requires births != [] && Seeded(base, births) && was == births[|births| - 1].hash
    requires b.hash == (33 * was + FoldHash(base + 8 * b.slot)) % TWO_32
    ensures Seeded(base, births + [b])
  {
    hide FoldHash;
    forall i | 0 <= i < |births| + 1
      ensures SeededAt(base, births + [b], i)
    {
      if i < |births| { assert SeededAt(base, births, i); }
    }
  }

  lemma BornWritten(h: Heap, r: Heap, base: nat, seed: nat, name: map<nat, nat>, m: Machine, births: seq<Birth>,
                    x: nat, t: nat, k: nat, v: nat, key: Value, value: Value)
    requires Born(h, base, seed, name, m, births) && Written(h, r, x, key, value) && Safe(m, Put(t, k, v))
    requires forall y :: y in name <==> In(h, y)
    ensures Born(r, base, seed, name, Apply(m, Put(t, k, v)), births)
  {
    hide HashOf, Seeded;
    forall y | y in name
      ensures HashOf(r, Tbl(y)) == HashOf(h, Tbl(y))
    {
      assert RefIn(h, Tbl(y));
    }
  }

  lemma StackRefs(h: Heap, g: nat, stack: seq<Value>, name: map<nat, nat>, m: Machine)
    requires Same(h, g, stack, name, m)
    ensures forall i | 0 <= i < |stack| ::
              RefIn(h, stack[i]) && (m.stack[i] == Nil <==> stack[i] == Nil) &&
              (m.stack[i] == None <==> stack[i] == None)
  {
    forall i | 0 <= i < |stack|
      ensures RefIn(h, stack[i]) && (m.stack[i] == Nil <==> stack[i] == Nil) &&
          (m.stack[i] == None <==> stack[i] == None)
    {
      assert Covered(name, stack[i]) && Tr(name, stack[i]) == m.stack[i];
    }
  }

  lemma TableAt(h: Heap, g: nat, stack: seq<Value>, name: map<nat, nat>, m: Machine, i: nat)
    requires Same(h, g, stack, name, m) && IsTable(m, i)
    ensures stack[i].Tbl? && In(h, stack[i].ref) && stack[i].ref in name && name[stack[i].ref] == m.stack[i].ref
    ensures TableMirrors(h, name, stack[i].ref, m.tables[m.stack[i].ref])
  {
    assert Covered(name, stack[i]) && Tr(name, stack[i]) == m.stack[i];
  }

  /** The sys_gc builtin. */
  method PerformCollect(s: State, stack: array<Value>, ghost name: map<nat, nat>, ghost m: Machine,
                        ghost births: seq<Birth>) returns (ghost name': map<nat, nat>)
    requires Tracks(s, stack, name, m, births)
    modifies s, s.mem, stack
    ensures Tracks(s, stack, name', m, births)
  {
    hide Same, Collected, TablesGood, TablesOrdered, Reach, Garbage, WellFormed, Born, Renumber, Roots, In, RefIn;
    ghost var h, g, words := s.Snapshot(), s.G, stack[..];
    StackRefs(h, g, words, name, m);
    Numbered(h, g, words, name, m);
    s.LuaGc(stack);
    CollectTracks(h, s.Snapshot(), s.fwd, g, words, s.G, stack[..], name, m, s.base, s.seed, births);
    name' := Renumber(h, s.Snapshot(), s.fwd, name);
  }

  lemma CollectTracks(h: Heap, r: Heap, fwd: map<nat, nat>, g: nat, stack: seq<Value>, g': nat, stack': seq<Value>,
                      name: map<nat, nat>, m: Machine, base: nat, seed: nat, births: seq<Birth>)
    requires WellFormed(h) && Collected(h, r, fwd) && Same(h, g, stack, name, m) && Born(h, base, seed, name, m, births)
    requires g in fwd && g' == fwd[g] && |stack'| == |stack|
    requires forall i | 0 <= i < |stack| :: Covered(fwd, stack[i]) && stack'[i] == Tr(fwd, stack[i])
    ensures forall x :: x in name <==> In(h, x)
    ensures var name' := Renumber(h, r, fwd, name);
            Same(r, g', stack', name', m) && Born(r, base, seed, name', m, births)
  {
    hide Same, Collected, WellFormed, Born, Renumber;
    Numbered(h, g, stack, name, m);
    CollectionKeeps(h, r, fwd, g, stack, g', stack', name, m);
    BornMoved(h, r, fwd, base, seed, name, m, births);
  }

  lemma Numbered(h: Heap, g: nat, stack: seq<Value>, name: map<nat, nat>, m: Machine)
    requires Same(h, g, stack, name, m)
    ensures forall x :: x in name <==> In(h, x)
    ensures |stack| == |m.stack|
  {
  }

  /** The current space is full of tables that G and the stack words still reach. */
  ghost predicate Exhausted(s: State, stack: array<Value>)
    requires s.Idle()
    reads s, s.mem, stack
  {
    s.cur == s.from + s.cap && forall x | In(s.Snapshot(), x) :: Reach(s.Snapshot(), Roots(s.G, stack[..]), x)
  }

  /** lua_newtable: `before`, the heap that got the new table, corresponds to m as the heap did. */
  method Obtain(s: State, stack: array<Value>, ghost name: map<nat, nat>, ghost m: Machine, ghost births: seq<Birth>)
      returns (r: Value, ghost before: Heap, ghost name': map<nat, nat>)
    requires Tracks(s, stack, name, m, births)
    modifies s, s.mem, stack
    ensures s.Idle() && TablesGood(s.Snapshot()) && WellFormed(before) && Same(before, s.G, stack[..], name', m)
    ensures Born(before, s.base, old(s.seed), name', m, births)
    ensures if r == Nil then s.Snapshot() == before && Exhausted(s, stack)
            else
              && before.hi < |before.words| && r == Tbl(before.hi)
              && s.Snapshot() == Allocated(before, TABLE_SIZE, s.seed)
              && s.seed == (33 * old(s.seed) + FoldHash(s.base + 8 * before.hi)) % TWO_32
    ensures r == Nil ==> s.seed == old(s.seed)
  {
    hide Same, Collected, TablesGood, TablesOrdered, Reach, Garbage, WellFormed, Allocated, Born, FoldHash, HashOf;
    ghost var h, g, words := s.Snapshot(), s.G, stack[..];
    StackRefs(h, g, words, name, m);
    r, before := s.NewTable(stack);
    name' := name;
    if old(s.cur) >= s.cap + old(s.from) {
      CollectionKeeps(h, before, s.fwd, g, words, s.G, stack[..], name, m);
      Numbered(h, g, words, name, m);
      BornMoved(h, before, s.fwd, s.base, old(s.seed), name, m, births);
      name' := Renumber(h, before, s.fwd, name);
    }
  }

  /** The new table goes to the stack; without room, nothing has happened but a collection. */
  method PerformNew(s: State, stack: array<Value>, d: nat, ghost name: map<nat, nat>, ghost m: Machine,
                    ghost births: seq<Birth>)
      returns (ok: bool, ghost name': map<nat, nat>, ghost born: seq<Birth>)
    requires Tracks(s, stack, name, m, births) && Safe(m, New(d))
    modifies s, s.mem, stack
    ensures Tracks(s, stack, name', if ok then Apply(m, New(d)) else m, born) && (!ok ==> Exhausted(s, stack))
    ensures if ok then d < stack.Length && stack[d].Tbl? && born == births + [Birth(stack[d].ref, s.seed)]
            else born == births
  {
    hide Same, TablesGood, TablesOrdered, WellFormed, Allocated, Apply, Born, FoldHash;
    born := births;
    var r; ghost var before;
    r, before, name' := Obtain(s, stack, name, m, births);
    ok := r != Nil;
    if ok {
      AllocationKeeps(before, s.seed, s.G, stack[..], d, name', m);
      Numbered(before, s.G, stack[..], name', m);
      BornNext(before, s.base, old(s.seed), name', m, births, s.seed, d);
      born := births + [Birth(before.hi, s.seed)];
      stack[d] := r;
      name' := name'[before.hi := |m.tables|];
    }
  }

  /** lua_setfield; `malloc` yields an address not in use. */
  method PerformPut(s: State, stack: array<Value>, t: nat, k: nat, v: nat, malloc: map<nat, Block> -> nat,
                    ghost name: map<nat, nat>, ghost m: Machine, ghost births: seq<Birth>)
    requires Tracks(s, stack, name, m, births) && Safe(m, Put(t, k, v))
    requires forall b :: malloc(b) !in b
    modifies s, s.mem
    ensures Tracks(s, stack, name, Apply(m, Put(t, k, v)), births)
  {
    hide Same, TablesGood, TablesOrdered, TableSearchable, WellFormed, Written, CanWrite, Apply, Table, TableMirrors;
    hide Safe, IsTable, RefIn, In, Born;
    ghost var h := s.Snapshot();
    Numbered(h, s.G, stack[..], name, m);
    PutReady(h, s.G, stack[..], name, m, t, k, v);
    GoodSearchable(s.Snapshot(), stack[t].ref, stack[k]);
    s.SetField(stack[t].ref, stack[k], stack[v], malloc(s.blocks));
    PutMirrors(h, s.Snapshot(), s.G, stack[..], t, k, v, name, m);
    BornWritten(h, s.Snapshot(), s.base, s.seed, name, m, births, stack[t].ref, t, k, v, stack[k], stack[v]);
  }

  lemma BornStill(h: Heap, base: nat, seed: nat, name: map<nat, nat>, m: Machine, births: seq<Birth>, op: Op)
    requires Born(h, base, seed, name, m, births) && Safe(m, op) && !op.New? && !op.Put?
    ensures Born(h, base, seed, name, Apply(m, op), births)
  {
  }

  /** What lua_setfield needs, of the real stack. */
  lemma PutReady(h: Heap, g: nat, stack: seq<Value>, name: map<nat, nat>, m: Machine, t: nat, k: nat, v: nat)
    requires WellFormed(h) && TablesGood(h) && Same(h, g, stack, name, m) && Safe(m, Put(t, k, v))
    ensures t < |stack| && k < |stack| && v < |stack| && stack[t].Tbl? && In(h, stack[t].ref) &&
        stack[t].ref < |h.words|
    ensures RefIn(h, stack[k]) && RefIn(h, stack[v]) && stack[v] != None
    ensures CanWrite(h, stack[t].ref, stack[k], stack[v]) &&
        (h.words[stack[t].ref].Packed? ==> h.words[stack[t].ref].cap > 0)
  {
    PutOperands(m, t, k, v);
    hide Safe;
    StackRefs(h, g, stack, name, m);
    TableAt(h, g, stack, name, m, t);
    Numbered(h, g, stack, name, m);
    WriteFits(h, g, stack, name, m, t, k, v);
  }

  lemma PutOperands(m: Machine, t: nat, k: nat, v: nat)
    requires Safe(m, Put(t, k, v))
    ensures IsTable(m, t) && k < |m.stack| && v < |m.stack| && m.stack[v] != None
  {
  }

  lemma WriteFits(h: Heap, g: nat, stack: seq<Value>, name: map<nat, nat>, m: Machine, t: nat, k: nat, v: nat)
    requires WellFormed(h) && TablesGood(h) && Same(h, g, stack, name, m) && Safe(m, Put(t, k, v))
    ensures stack[t].Tbl? && CanWrite(h, stack[t].ref, stack[k], stack[v])
    ensures h.words[stack[t].ref].Packed? ==> h.words[stack[t].ref].cap > 0
  {
    TableAt(h, g, stack, name, m, t);
    var x, i := stack[t].ref, m.tables[m.stack[t].ref];
    if h.words[x].Data? {
      assert Owns(h, x, h.words[x].block);
      var u := Table(h, x);
      assert Covered(name, stack[k]) && Tr(name, stack[k]) == m.stack[k];
      KeysFit(name, u, i.m, stack[k], stack[v], m.stack[v]);
    }
  }

  /** Corresponding updates leave corresponding sizes. */
  lemma KeysFit(name: map<nat, nat>, t: seq<Entry<Value>>, m: map<Value, Value>, k: Value, v: Value, w: Value)
    requires Injective(name) && Mirrors(name, t, m) && Unique(t) && Covered(name, k)
    ensures |Contents(t)[k := v]| <= |m[Tr(name, k) := w]|
  {
    MirrorSize(name, t, m);
    UpdateSize(Contents(t), k, v);
    UpdateSize(m, Tr(name, k), w);
    if k in Contents(t) {
      var i :| 0 <= i < |t| && !Vacant(t[i]) && t[i].key == k;
      assert SlotMirrors(name, t[i], m);
    } else {
      MirrorAbsent(name, t, m, k);
    }
  }

  lemma UpdateSize(m: map<Value, Value>, k: Value, v: Value)
    ensures |m[k := v]| == |m| + (if k in m then 0 else 1)
  {
    assert m[k := v].Keys == m.Keys + {k};
  }

  lemma PutMirrors(h: Heap, r: Heap, g: nat, stack: seq<Value>, t: nat, k: nat, v: nat, name: map<nat, nat>, m: Machine)
    requires WellFormed(h) && Same(h, g, stack, name, m) && Safe(m, Put(t, k, v))
    requires stack[t].Tbl? && Written(h, r, stack[t].ref, stack[k], stack[v])
    ensures Same(r, g, stack, name, Apply(m, Put(t, k, v)))
  {
    TableAt(h, g, stack, name, m, t);
    WriteMirrors(h, r, stack[t].ref, g, stack, t, k, v, name, m);
  }

  /** lua_getfield */
  method PerformField(s: State, stack: array<Value>, d: nat, t: nat, k: nat, ghost name: map<nat, nat>,
                      ghost m: Machine, ghost births: seq<Birth>)
    requires Tracks(s, stack, name, m, births) && Safe(m, GetField(d, t, k))
    modifies stack
    ensures Tracks(s, stack, name, Apply(m, GetField(d, t, k)), births)
  {
    hide Same, TablesGood, TablesOrdered, TableSearchable, WellFormed, Field, Apply, TableMirrors;
    hide NilBlocked, Lookup, Unique, Born;
    BornStill(s.Snapshot(), s.base, s.seed, name, m, births, GetField(d, t, k));
    ghost var h, words := s.Snapshot(), stack[..];
    TableAt(h, s.G, words, name, m, t);
    Numbered(h, s.G, words, name, m);
    GoodSearchable(h, stack[t].ref, stack[k]);
    var v := s.GetField(stack[t].ref, stack[k]);
    FieldMirrors(h, s.G, words, d, t, k, name, m);
    stack[d] := v;
  }

  lemma FieldMirrors(h: Heap, g: nat, stack: seq<Value>, d: nat, t: nat, k: nat, name: map<nat, nat>, m: Machine)
    requires WellFormed(h) && TablesGood(h) && Same(h, g, stack, name, m) && Safe(m, GetField(d, t, k))
    ensures stack[t].Tbl? && Same(h, g, stack[d := Field(h, stack[t].ref, stack[k])], name, Apply(m, GetField(d, t, k)))
  {
    FieldSeen(h, g, stack, t, k, name, m);
    var i := m.tables[m.stack[t].ref];
    var w := if m.stack[k] in i.m then i.m[m.stack[k]] else Nil;
    StackKeeps(h, g, stack, d, Field(h, stack[t].ref, stack[k]), name, m, w);
  }

  lemma SameLength(h: Heap, g: nat, stack: seq<Value>, name: map<nat, nat>, m: Machine)
    requires Same(h, g, stack, name, m)
    ensures |stack| == |m.stack| && g in name && name[g] == m.g
    ensures forall i | 0 <= i < |stack| :: Covered(name, stack[i]) && Tr(name, stack[i]) == m.stack[i]
  {
  }

  /** Constants, moves and the globals table. */
  method PerformMove(s: State, stack: array<Value>, op: Op, ghost name: map<nat, nat>, ghost m: Machine,
                     ghost births: seq<Birth>)
    requires Tracks(s, stack, name, m, births) && Safe(m, op) && (op.Const? || op.Move? || op.Globals?)
    modifies stack
    ensures Tracks(s, stack, name, Apply(m, op), births)
  {
    ghost var h, words := s.Snapshot(), stack[..];
    SameLength(h, s.G, words, name, m);
    BornStill(h, s.base, s.seed, name, m, births, op);
    hide Same, TablesGood, TablesOrdered, WellFormed, Born;
    match op
    case Const(d, c) =>
      StackKeeps(h, s.G, words, d, c, name, m, c);
      stack[d] := c;
    case Move(d, i) =>
      StackKeeps(h, s.G, words, d, words[i], name, m, m.stack[i]);
      stack[d] := stack[i];
    case Globals(d) =>
      StackKeeps(h, s.G, words, d, Tbl(s.G), name, m, Tbl(m.g));
      stack[d] := Tbl(s.G);
  }

  /** One operation of a program. */
  method Perform(s: State, stack: array<Value>, op: Op, malloc: map<nat, Block> -> nat, ghost name: map<nat, nat>,
                 ghost m: Machine, ghost births: seq<Birth>)
      returns (ok: bool, ghost name': map<nat, nat>, ghost born: seq<Birth>)
    requires Tracks(s, stack, name, m, births) && Safe(m, op) && forall b :: malloc(b) !in b
    modifies s, s.mem, stack
    ensures Tracks(s, stack, name', if ok then Apply(m, op) else m, born)
    ensures !ok ==> op.New? && Exhausted(s, stack)
    ensures if op.New? && ok
            then op.d < stack.Length && stack[op.d].Tbl? && born == births + [Birth(stack[op.d].ref, s.seed)]
            else born == births
  {
    hide Safe, Apply, Same, WellFormed, TablesGood, TablesOrdered, Born;
    ok, name', born := true, name, births;
    match op
    case New(d) => ok, name', born := PerformNew(s, stack, d, name, m, births);
    case Put(t, k, v) => PerformPut(s, stack, t, k, v, malloc, name, m, births);
    case GetField(d, t, k) => PerformField(s, stack, d, t, k, name, m, births);
    case Collect => name' := PerformCollect(s, stack, name, m, births); ApplyCollect(m);
    case _ => PerformMove(s, stack, op, name, m, births);
  }

  lemma ApplyCollect(m: Machine)
    requires Safe(m, Collect)
    ensures Apply(m, Collect) == m
  {
  }

  /** Where a program starts: a globals table and n nil words. */
  function Start(n: nat): Machine
  {
    Machine([Dict(G_SIZE, map[])], 0, seq(n, _ => Nil))
  }

  /** Every program that is safe on the ideal machine, on a new state of any capacity: after the
      `done` operations performed, all of them unless `cap` tables are live and one more is asked for,
      the stack is the ideal stack up to the numbering of tables, and every table, moved and written or not, has the
      hash it was created with. */
  method Execute(cap: nat, base: nat, n: nat, program: seq<Op>, malloc: map<nat, Block> -> nat)
      returns (s: State, stack: array<Value>, done: nat, ghost name: map<nat, nat>, ghost births: seq<Birth>)
    requires cap > 0 && ApplyAll(Start(n), program).After? && forall b :: malloc(b) !in b
    ensures done <= |program| && s.cap == cap && s.base == base
    ensures ApplyAll(Start(n), program[..done]).After?
    ensures Tracks(s, stack, name, ApplyAll(Start(n), program[..done]).m, births)
    ensures done < |program| ==> program[done].New? && Exhausted(s, stack)
  {
    hide Same, TablesGood, TablesOrdered, WellFormed, Safe, Apply, Born, ApplyAll;
    s, stack, name, births := Boot(cap, base, n);
    done := 0;
    ApplyNone(Start(n), program[..0]);
    var ok := true;
    while ok && done < |program|
      invariant 0 <= done <= |program| && fresh(s) && fresh(s.mem) && fresh(stack)
      invariant ApplyAll(Start(n), program[..done]).After? &&
          Tracks(s, stack, name, ApplyAll(Start(n), program[..done]).m, births)
      invariant !ok ==> done < |program| && program[done].New? && Exhausted(s, stack)
      decreases |program| - done, ok
    {
      ApplyPrefix(Start(n), program, done);
      ok, name, births := Perform(s, stack, program[done], malloc, name, ApplyAll(Start(n), program[..done]).m, births);
      if ok { done := done + 1; }
    }
  }

  lemma ApplyNone(m: Machine, program: seq<Op>)
    requires program == []
    ensures ApplyAll(m, program) == After(m)
  {
  }

  /** A new state with its globals table, and n nil words. */
  method Boot(cap: nat, base: nat, n: nat)
      returns (s: State, stack: array<Value>, ghost name: map<nat, nat>, ghost births: seq<Birth>)
    requires cap > 0
    ensures s.cap == cap && s.base == base && fresh(s) && fresh(s.mem) && fresh(stack)
    ensures Tracks(s, stack, name, Start(n), births)
  {
    hide FoldHash, HashOf, Born, Same;
    s := new State(cap, base);
    s.InitG();
    stack := new Value[n](_ => Nil);
    name, births := map[s.G := 0], [Birth(s.G, s.seed)];
    StartSame(s.Snapshot(), s.G, stack[..], n);
    StartBorn(s.Snapshot(), s.base, s.seed, s.G, n);
  }

  /** What a program can see of it: words that are no tables are the ideal ones, the same words are the same tables,
      and whatever a table answers the ideal one answers. */
  lemma SeenAlike(s: State, stack: array<Value>, name: map<nat, nat>, m: Machine, births: seq<Birth>, i: nat, j: nat)
    requires Tracks(s, stack, name, m, births) && i < stack.Length && j < stack.Length
    ensures |m.stack| == stack.Length && (stack[i].Tbl? <==> m.stack[i].Tbl?)
    ensures !m.stack[i].Tbl? ==> stack[i] == m.stack[i]
    ensures stack[i] == stack[j] <==> m.stack[i] == m.stack[j]
    ensures IsTable(m, i) ==>
              var dict := m.tables[m.stack[i].ref].m;
              var v := Field(s.Snapshot(), stack[i].ref, stack[j]);
              Covered(name, v) && Tr(name, v) == if m.stack[j] in dict then dict[m.stack[j]] else Nil
  {
    var h := s.Snapshot();
    SameLength(h, s.G, stack[..], name, m);
    assert Covered(name, stack[..][i]) && Covered(name, stack[..][j]) && Injective(name);
    if IsTable(m, i) { FieldSeen(h, s.G, stack[..], i, j, name, m); }
  }

  lemma FieldSeen(h: Heap, g: nat, stack: seq<Value>, t: nat, k: nat, name: map<nat, nat>, m: Machine)
    requires WellFormed(h) && TablesGood(h) && Same(h, g, stack, name, m) && IsTable(m, t) && k < |stack|
    ensures stack[t].Tbl?
    ensures var dict, v := m.tables[m.stack[t].ref].m, Field(h, stack[t].ref, stack[k]);
            Covered(name, v) && Tr(name, v) == if m.stack[k] in dict then dict[m.stack[k]] else Nil
  {
    TableAt(h, g, stack, name, m, t);
    var x, i := stack[t].ref, m.tables[m.stack[t].ref];
    var u := Table(h, x);
    assert Covered(name, stack[k]) && Tr(name, stack[k]) == m.stack[k];
    if h.words[x].Data? {
      assert Owns(h, x, h.words[x].block);
      if u != [] { MirrorRead(name, u, Hasher(h), i.m, stack[k]); }
    }
  }

  lemma StartBorn(h: Heap, base: nat, seed: nat, g: nat, n: nat)
    requires HashOf(h, Tbl(g)) == seed == (33 * SEED + FoldHash(base + 8 * g)) % TWO_32
    ensures Born(h, base, seed, map[g := 0], Start(n), [Birth(g, seed)])
  {
  }

  lemma StartSame(h: Heap, g: nat, stack: seq<Value>, n: nat)
    requires h.lo == g && h.hi == g + 1 <= |h.words| && h.words[g].Packed? && h.words[g].cap == G_SIZE
    requires |stack| == n && forall i | 0 <= i < n :: stack[i] == Nil
    ensures Same(h, g, stack, map[g := 0], Start(n))
  {
  }
}
