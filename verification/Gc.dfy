/** The semispace collector of lapi.c: evacuation with broken hearts, the scan loop over copies, root
    repair, the flip, and table allocation that collects when the space is full. */
module Gc {
  import opened Values
  import opened RobinHood
  import opened Heaps
  import opened Cheney
  import opened Survival
  import Rhhm

  const G_SIZE: nat := 256

  /** What lua_init sets the seed of table hashes to. */
  const SEED: nat := 5381

  /** Keys are compared as words. */
  function SameKey(x: Value, y: Value): bool { x == y }

  function Itself(x: Value): Value { x }

  lemma SlotsToSearch(t: seq<Entry<Value>>, k: Value)
    requires Searchable(t, k)
    ensures |t| > 0
  {
  }

  lemma SlotsAsKeyed(t: seq<Entry<Value>>, h: Value -> nat, k: Value)
    ensures Rhhm.View(t, Itself) == t && Rhhm.Callbacks(t, h, SameKey, k, Itself, h)
  {
  }

  /** The tables that G and the stack words refer to. */
  function Roots(g: nat, stack: seq<Value>): (r: set<nat>)
    ensures forall x :: x in r <==> x == g || Tbl(x) in stack
  {
    if stack == [] then {g}
    else Roots(g, stack[..|stack| - 1]) + (if stack[|stack| - 1].Tbl? then {stack[|stack| - 1].ref} else {})
  }

  /** The `gc` part of struct state with G. `mem` is both semispaces; `blocks` is malloc'ed memory by
      address; `freed` lists the blocks handed back to free. */
  class State {
    const cap: nat
    const base: nat
    const mem: array<Word>
    var from: nat
    var to: nat
    var cur: int
    var writer: nat
    var reader: nat
    var blocks: map<nat, Block>
    var freed: seq<nat>
    var G: nat
    var seed: nat

    // the collection in progress: its start, the roots, what went where, in order of evacuation
    ghost var start: Heap
    ghost var roots: set<nat>
    ghost var fwd: map<nat, nat>
    ghost var src: seq<nat>

    ghost predicate Layout()
      reads this
    {
      && mem.Length == 2 * cap
      && ((from == 0 && to == cap) || (from == cap && to == 0))
      && to <= reader <= writer <= to + cap
    }

    ghost function Snapshot(): Heap
      requires 0 <= cur
      reads this, mem
    {
      Heap(mem[..], blocks, from, cur)
    }

    /** Between collections. */
    ghost predicate Idle()
      reads this, mem
    {
      && Layout() && reader == writer == to
      && from <= cur <= from + cap
      && WellFormed(Snapshot()) && In(Snapshot(), G)
    }

    /** During a collection, before the flip. */
    ghost predicate Copying()
      reads this, mem
    {
      && Layout() && cur == start.hi && from == start.lo && start.hi - start.lo <= cap
      && |start.words| == 2 * cap && WellFormed(start) && Apart(start, to)
      && writer == to + |src|
      && Forwarding(start, mem[..], fwd, src, to)
      && (forall x | x in fwd :: Reach(start, roots, x))
    }

    /** gc_init */
    constructor (cap: nat, base: nat)
      ensures Layout() && from == cur == 0 && reader == writer == to && blocks == map[] && freed == []
      ensures this.cap == cap && this.base == base && seed == SEED && fresh(mem)
    {
      this.cap, this.base := cap, base;
      mem := new Word[2 * cap];
      from, to, cur, writer, reader := 0, cap, 0, cap, cap;
      blocks, freed, G, seed := map[], [], 0, SEED;
      start, roots, fwd, src := Heap([], map[], 0, 0), {}, map[], [];
    }

    /** lua_init_G: the first table is the one that holds the globals. */
    method InitG()
      requires Layout() && reader == writer == to && cur == from && cap > 0 && blocks == map[]
      modifies `cur, `G, `seed, mem
      ensures Idle() && TablesGood(Snapshot()) && G == from && cur == from + 1 && mem[G] == Packed(seed, G_SIZE)
      ensures seed == (33 * old(seed) + FoldHash(base + 8 * G)) % TWO_32 && HashOf(Snapshot(), Tbl(G)) == seed
    {
      var ok, t := NewSlot();
      seed := (33 * seed + FoldHash(base + 8 * t)) % TWO_32;
      mem[t] := Packed(seed, G_SIZE);
      G := t;
    }

    /** gc_evacuate: the new address of obj, copying its word and leaving a broken heart the first time;
        an address outside the current space stays as it is. */
    method Evacuate(obj: nat) returns (r: nat)
      requires Copying() && (from <= obj < from + cap ==> In(start, obj) && Reach(start, roots, obj))
      modifies `writer, `fwd, `src, mem
      ensures Copying() && Extends(old(fwd), fwd) && old(src) <= src
      ensures from <= obj < from + cap ==> obj in fwd && r == fwd[obj]
      ensures !(from <= obj < from + cap) ==> r == obj && fwd == old(fwd) && src == old(src) && mem[..] == old(mem[..])
    {
      assert WordAt(start, mem[..], fwd, src, to, obj);
      if from <= obj < from + cap {
        if mem[obj].Broken? { return mem[obj].fwd; }
        EvacuateKeeps(start, mem[..], fwd, src, to, obj);
        r := writer;
        mem[writer] := mem[obj];
        mem[obj] := Broken(writer);
        fwd, src := fwd[obj := writer], src + [obj];
        writer := writer + 1;
        return;
      }
      r := obj;
    }

    /** gc_scavenge of slot i of block b: forward the key, then the value, in place. */
    method Scavenge(b: nat, i: nat)
      requires Copying() && b in blocks && i < |blocks[b].table| && !Vacant(blocks[b].table[i])
      requires forall y: nat | Mentions(blocks[b].table[i], y) :: In(start, y) && Reach(start, roots, y)
      modifies `writer, `fwd, `src, `blocks, mem
      ensures Copying() && Extends(old(fwd), fwd) && old(src) <= src
      ensures var e := old(blocks[b].table[i]);
              EntryCovered(fwd, e) && blocks == PutSlot(old(blocks), b, i, TrEntry(fwd, e))
    {
      hide Forwarding, WellFormed, Apart, Reach;
      var e := blocks[b].table[i];
      PutSlotTwice(blocks, b, i, e);
      if e.key.Tbl? {
        assert Mentions(e, e.key.ref);
        var k := Evacuate(e.key.ref);
        blocks := PutSlot(blocks, b, i, e.(key := Tbl(k)));
      }
      var half := blocks[b].table[i];
      assert half == Entry(e.value, Tr(fwd, e.key));
      if e.value.Tbl? {
        assert Mentions(e, e.value.ref);
        var v := Evacuate(e.value.ref);
        blocks := PutSlot(blocks, b, i, half.(value := Tbl(v)));
      }
    }

    /** rhhm_visit with gc_scavenge over the k-th copy. */
    method Visit(ghost k: nat, h: nat)
      requires Copying() && k < |src| && h == to + k
      requires Scanned(start, blocks, fwd, src, k)
      modifies `writer, `fwd, `src, `blocks, mem
      ensures Copying() && Extends(old(fwd), fwd) && old(src) <= src
      ensures Scanned(start, blocks, fwd, src, k + 1)
    {
      assert CopyAt(start, mem[..], fwd, src, to, k);
      if !mem[h].Data? {
        return;
      }
      var b := mem[h].block;
      assert Owns(start, src[k], b);
      Unscanned(start, mem[..], blocks, fwd, src, to, k, b);
      VisitSlots(b, src[k]);
      ScannedExtends(start, old(blocks), old(fwd), old(src), fwd, src, k);
      ScannedStep(start, old(blocks), blocks, fwd, src, k, b);
    }

    /** The loop of rhhm_visit over the slots of block b, owned by table x. */
    method VisitSlots(b: nat, ghost x: nat)
      requires Copying() && Owns(start, x, b) && Reach(start, roots, x)
      requires b in blocks && blocks[b] == start.blocks[b]
      modifies `writer, `fwd, `src, `blocks, mem
      ensures Copying() && Extends(old(fwd), fwd) && old(src) <= src
      ensures b in blocks && blocks == old(blocks)[b := blocks[b]] && Rewritten(fwd, start.blocks[b], blocks[b])
    {
      var n := |blocks[b].table|;
      var i := 0;
      while i < n
        invariant 0 <= i <= n == |start.blocks[b].table|
        invariant Copying() && Extends(old(fwd), fwd) && old(src) <= src
        invariant b in blocks && blocks == old(blocks)[b := blocks[b]]
        invariant Partial(fwd, start.blocks[b], blocks[b], i)
        modifies `writer, `fwd, `src, `blocks, mem
      {
        if !Vacant(blocks[b].table[i]) {
          ghost var f, was := fwd, blocks[b];
          ChildrenReached(start, roots, x, i);
          Scavenge(b, i);
          PartialStep(f, fwd, start.blocks[b], was, blocks[b], i);
        }
        i := i + 1;
      }
    }

    /** gc_collect: evacuate obj, then scan copies until the reader meets the writer. */
    method Collect(obj: nat)
      requires Copying() && In(start, obj) && Reach(start, roots, obj)
      requires Scanned(start, blocks, fwd, src, reader - to)
      modifies `writer, `reader, `fwd, `src, `blocks, mem
      ensures Copying() && Extends(old(fwd), fwd) && old(src) <= src
      ensures obj in fwd && reader == writer
      ensures Scanned(start, blocks, fwd, src, reader - to)
    {
      hide Forwarding, WellFormed, Apart, Scanned, Reach;
      var _ := Evacuate(obj);
      ScannedExtends(start, blocks, old(fwd), old(src), fwd, src, reader - to);
      while reader < writer
        invariant Copying() && Extends(old(fwd), fwd) && old(src) <= src && obj in fwd
        invariant Scanned(start, blocks, fwd, src, reader - to)
        decreases cap + to - reader
      {
        var h := reader;
        ghost var k := reader - to;
        reader := reader + 1;
        Visit(k, h);
      }
    }

    /** gc_maybe_collect */
    method MaybeCollect(root: Value)
      requires Copying() && (root.Tbl? ==> In(start, root.ref) && Reach(start, roots, root.ref))
      requires Scanned(start, blocks, fwd, src, reader - to)
      modifies `writer, `reader, `fwd, `src, `blocks, mem
      ensures Copying() && to <= reader && Extends(old(fwd), fwd) && old(src) <= src
      ensures Covered(fwd, root) && (old(reader == writer) ==> reader == writer)
      ensures Scanned(start, blocks, fwd, src, reader - to)
    {
      if root.Tbl? {
        Collect(root.ref);
      }
    }

    /** gc_fix_ptr on stack word p. */
    method FixPtr(stack: array<Value>, p: nat)
      requires Copying() && p < stack.Length && Covered(fwd, stack[p])
      modifies stack
      ensures stack[..] == old(stack[..])[p := Tr(fwd, old(stack[p]))]
    {
      if stack[p].Tbl? {
        var obj := stack[p].ref;
        assert WordAt(start, mem[..], fwd, src, to, obj);
        if from <= obj < from + cap {
          if mem[obj].Broken? {
            stack[p] := Tbl(mem[obj].fwd);
          }
        }
      }
    }

    /** rhhm_destroy of table x. */
    method Destroy(x: nat)
      requires x < mem.Length && (mem[x].Data? ==> mem[x].block in blocks)
      modifies `blocks, `freed
      ensures mem[x].Data? ==> blocks == old(blocks) - {mem[x].block} && freed == old(freed) + [mem[x].block]
      ensures !mem[x].Data? ==> blocks == old(blocks) && freed == old(freed)
    {
      if mem[x].Data? {
        freed := freed + [mem[x].block];
        blocks := blocks - {mem[x].block};
      }
    }

    /** One round of the loop of gc_flip, at slot x. */
    method DropSlot(x: nat, ghost blocks0: map<nat, Block>, ghost freed0: seq<nat>)
      requires WellFormed(start) && Forwarding(start, mem[..], fwd, src, to) && In(start, x)
      requires blocks0.Keys == start.blocks.Keys && blocks == blocks0 - Dropped(start, fwd, x + 1).1
      requires freed == freed0 + Dropped(start, fwd, x + 1).0
      modifies `blocks, `freed
      ensures blocks == blocks0 - Dropped(start, fwd, x).1 && freed == freed0 + Dropped(start, fwd, x).0
    {
      assert x < mem.Length && start.hi <= |start.words|;
      hide WellFormed, Forwarding, Dropped, Owns;
      Uncopied(start, mem[..], fwd, src, to, x);
      DroppedStep(start, fwd, x);
      if !mem[x].Broken? {
        if mem[x].Data? {
          NotDroppedYet(start, fwd, x, mem[x].block);
        }
        Destroy(x);
      }
    }

    /** gc_flip: hand back the blocks of tables without a broken heart, then swap the spaces. */
    method Flip()
      requires Copying() && reader == writer && Scanned(start, blocks, fwd, src, |src|)
      modifies `from, `to, `cur, `writer, `reader, `blocks, `freed
      ensures Layout() && reader == writer == to
      ensures from == old(to) && cur == old(writer) && to == old(from)
      ensures blocks == old(blocks) - Dropped(start, fwd, start.lo).1
      ensures freed == old(freed) + Dropped(start, fwd, start.lo).0
    {
      assert from <= cur && start.hi <= |start.words|;
      hide WellFormed, Apart, Forwarding, Scanned, Dropped;
      DroppedNone(start, fwd);
      SameBlocks(start, blocks, fwd, src, |src|);
      cur := cur - 1;
      while cur >= from
        invariant from - 1 <= cur < start.hi
        invariant blocks == old(blocks) - Dropped(start, fwd, cur + 1).1
        invariant freed == old(freed) + Dropped(start, fwd, cur + 1).0
        modifies `cur, `blocks, `freed
        decreases cur
      {
        DropSlot(cur, old(blocks), old(freed));
        cur := cur - 1;
      }
      var diff := writer - to;
      from, to := to, from;
      cur := from + diff;
      reader := to;
      writer := to;
    }

    /** lua_gc_impl over G and the stack words. */
    method LuaGc(stack: array<Value>)
      requires Idle() && forall i | 0 <= i < stack.Length :: RefIn(Snapshot(), stack[i])
      modifies `from, `to, `cur, `writer, `reader, `blocks, `freed, `G, `start, `roots, `fwd, `src, mem, stack
      ensures Idle() && TablesKept(old(Snapshot()), Snapshot())
      ensures Collected(old(Snapshot()), Snapshot(), fwd)
      ensures forall x :: x in fwd <==> Reach(old(Snapshot()), Roots(old(G), old(stack[..])), x)
      ensures old(G) in fwd && G == fwd[old(G)]
      ensures forall i | 0 <= i < stack.Length :: Covered(fwd, old(stack[i])) && stack[i] == Tr(fwd, old(stack[i]))
      ensures forall b ::
                multiset(freed)[b] == multiset(old(freed))[b] + (if Garbage(old(Snapshot()), fwd, b) then 1 else 0)
      ensures from == old(to) && cur - from == |fwd|
    {
      hide Reach, Rewritten, Scanned, Collected, TablesGood, TablesOrdered, Garbage, Dropped, Forwarding, WellFormed;
      hide Apart;
      Trace(stack[..]);
      FixStack(stack);
      ghost var words, scanned, copies := mem[..], blocks, to;
      HeartAt(start, words, fwd, src, to, G);
      G := mem[G].fwd;
      Flip();
      assert Snapshot() == Heap(words, scanned - Dropped(start, fwd, start.lo).1, copies, copies + |src|);
      Complete(start, words, scanned, fwd, src, copies, Snapshot());
    }

    /** gc_new: the next slot, or failure when the space is full. */
    method NewSlot() returns (ok: bool, t: nat)
      requires Layout() && from <= cur <= from + cap
      modifies `cur
      ensures ok <==> old(cur) < from + cap
      ensures ok ==> t == old(cur) && cur == old(cur) + 1
      ensures !ok ==> cur == old(cur)
    {
      if cur == from + cap { return false, 0; }
      ok, t := true, cur;
      cur := cur + 1;
    }

    /** lua_newtable. `before` is the heap that received the new table: the one at the call, or its
        collected copy when the space was full. */
    method NewTable(stack: array<Value>) returns (r: Value, ghost before: Heap)
      requires Idle()
      requires forall i | 0 <= i < stack.Length :: RefIn(Snapshot(), stack[i])
      modifies this, mem, stack
      ensures Idle() && TablesKept(old(Snapshot()), Snapshot())
      ensures r == Nil <==> old(cur) == old(from) + cap &&
                            forall x | In(old(Snapshot()), x) ::
                                Reach(old(Snapshot()), Roots(old(G), old(stack[..])), x)
      ensures WellFormed(before) && (r == Nil ==> Snapshot() == before)
      ensures r == Nil ==> cur == from + cap && forall x | In(Snapshot(), x) ::
          Reach(Snapshot(), Roots(G, stack[..]), x)
      ensures r != Nil ==>
                before.hi < |before.words| && r == Tbl(before.hi) && Snapshot() == Allocated(before, 16, seed)
      ensures r != Nil ==>
                seed == (33 * old(seed) + FoldHash(base + 8 * r.ref)) % TWO_32 && HashOf(Snapshot(), r) == seed
      ensures r == Nil ==> seed == old(seed)
      ensures if old(cur) < old(from) + cap
              then before == old(Snapshot()) && G == old(G) && stack[..] == old(stack[..]) && freed == old(freed)
              else Collected(old(Snapshot()), before, fwd) && old(G) in fwd && G == fwd[old(G)] &&
                   forall i | 0 <= i < stack.Length :: Covered(fwd, old(stack[i])) && stack[i] == Tr(fwd, old(stack[i]))
    {
      hide Reach, Collected, TablesGood, TablesOrdered, Garbage, FoldHash, WellFormed, Roots;
      ghost var h0 := Snapshot();
      before := h0;
      ghost var words, g := stack[..], G;
      var ok, t := NewSlot();
      if !ok {
        LuaGc(stack);
        before := Snapshot();
        AllCopiedAfter(h0, before, fwd);
        LeftReachable(h0, before, fwd, g, words, G, stack[..]);
        ok, t := NewSlot();
        if !ok {
          return Nil, before;
        }
      }
      seed := (33 * seed + FoldHash(base + 8 * t)) % TWO_32;
      mem[t] := Packed(seed, 16);
      r := Tbl(t);
      assert Snapshot() == Allocated(before, 16, seed);
      AllocatedKeeps(before, 16, seed);
    }

    /** rhhm_get on initialised block b: the loop of `Rhhm` on its slots. */
    method Load(b: nat, k: Value) returns (v: Value)
      requires 0 <= cur && b in blocks
      requires Good(blocks[b].table, Hasher(Snapshot())) && Searchable(blocks[b].table, k)
      ensures |blocks[b].table| > 0 && v == Get(blocks[b].table, Hasher(Snapshot()), k)
    {
      hide Good, Searchable, Get, Hasher, HasRoom;
      var hfn, t := Hasher(Heap(mem[..], blocks, from, cur)), blocks[b].table;
      SlotsToSearch(t, k);
      var table := new Entry<Value>[|t|](i requires 0 <= i < |t| => t[i]);
      assert table[..] == t;
      SlotsAsKeyed(t, hfn, k);
      v := Rhhm.Rhhm.GetSlots(table, hfn, SameKey, k, Itself, hfn);
    }

    /** lua_getfield: what the table holds under k, nil when it holds nothing, and nil as well when a
        nil-valued slot of another key lies before k. */
    method GetField(x: nat, k: Value) returns (v: Value)
      requires Idle() && TablesOrdered(Snapshot()) && In(Snapshot(), x) && TableSearchable(Snapshot(), x, k)
      ensures v == Field(Snapshot(), x, k)
      ensures Unique(Table(Snapshot(), x))
      ensures v == if mem[x].Data? && !NilBlocked(Table(Snapshot(), x), Hasher(Snapshot()), k)
          then Lookup(Table(Snapshot(), x), k) else Nil
    {
      FieldIsLookup(Snapshot(), x, k);
      if !mem[x].Data? { return Nil; }
      ghost var h := Snapshot();
      assert Owns(h, x, mem[x].block);
      v := Load(mem[x].block, k);
    }

    /** rhhm_maybe_initialize of table x; `addr` is what malloc would return for a new block. */
    method Initialise(x: nat, addr: nat)
      requires Layout() && 0 <= cur && In(Snapshot(), x) && x < mem.Length
      modifies `blocks, mem
      ensures Snapshot() == Initialised(old(Snapshot()), x, addr)
    {
      if mem[x].Packed? {
        blocks := blocks[addr := Block(mem[x].hash, seq(mem[x].cap, _ => Entry(None, Nil)))];
        mem[x] := Data(addr);
      }
    }

    /** rhhm_set on initialised block b: the loops of `Rhhm` on its slots. */
    method Store(b: nat, k: Value, v: Value)
      requires 0 <= cur && b in blocks && v != None
      requires Good(blocks[b].table, Hasher(Snapshot())) && Searchable(blocks[b].table, k)
      modifies `blocks
      ensures b in old(blocks)
      ensures Snapshot() == WithTable(old(Snapshot()), b, Set(old(blocks)[b].table, Hasher(old(Snapshot())), k, v))
    {
      hide Good, Searchable, Set, Hasher, HasRoom;
      var hfn, t := Hasher(Heap(mem[..], blocks, from, cur)), blocks[b].table;
      SlotsToSearch(t, k);
      var table := new Entry<Value>[|t|](i requires 0 <= i < |t| => t[i]);
      assert table[..] == t;
      SlotsAsKeyed(t, hfn, k);
      Rhhm.Rhhm.SetSlots(table, hfn, SameKey, k, v, Itself, hfn);
      SlotsAsKeyed(table[..], hfn, k);
      blocks := blocks[b := blocks[b].(table := table[..])];
    }

    /** lua_setfield: the table is updated as a map. A write that takes the last hole is carried out as well, and
        so is one of a key that a full table holds; what the table then lacks is the hole that ends a search for
        any other key. */
    method SetField(x: nat, k: Value, v: Value, addr: nat)
      requires Idle() && TablesOrdered(Snapshot()) && In(Snapshot(), x) && TableSearchable(Snapshot(), x, k)
      requires RefIn(Snapshot(), k) && RefIn(Snapshot(), v) && v != None && addr !in blocks
      requires mem[x].Packed? ==> mem[x].cap > 0
      modifies `blocks, mem
      ensures Idle() && Written(old(Snapshot()), Snapshot(), x, k, v)
      ensures TablesOrdered(Snapshot())
      ensures old(TablesGood(Snapshot())) && CanWrite(old(Snapshot()), x, k, v) ==> TablesGood(Snapshot())
    {
      hide WellFormed, TablesGood, TablesOrdered, Written, CanWrite, Table, Initialised, Writable, Good, HasRoom;
      hide Unique, Contents, TableSearchable, Searchable, Set, WithTable, Hasher, HashOf, RefIn;
      ghost var h := Snapshot();
      Initialise(x, addr);
      InitialisedWritable(h, x, addr, k, v);
      var b := mem[x].block;
      WriteDone(h, x, addr, b, k, v);
      Store(b, k, v);
    }

    /** Fix the ghost record of a collection that starts now. */
    ghost method Begin(words: seq<Value>)
      requires Idle()
      modifies `start, `roots, `fwd, `src
      ensures Copying() && Scanned(start, blocks, fwd, src, 0) && src == []
      ensures start == old(Snapshot()) && roots == Roots(G, words) && Reach(start, roots, G)
    {
      start, roots, fwd, src := Snapshot(), Roots(G, words), map[], [];
      ReachRoot(start, roots, G);
    }

    /** The first loop of lua_gc_impl: copy what G and the stack words reach. */
    method Trace(stack: seq<Value>)
      requires Idle() && forall i | 0 <= i < |stack| :: RefIn(Snapshot(), stack[i])
      modifies `start, `roots, `writer, `reader, `fwd, `src, `blocks, mem
      ensures Copying() && reader == writer && Scanned(start, blocks, fwd, src, |src|)
      ensures start == old(Snapshot()) && roots == Roots(G, stack)
      ensures forall x :: x in fwd <==> Reach(start, roots, x)
      ensures G in fwd && forall i | 0 <= i < |stack| :: Covered(fwd, stack[i])
    {
      Begin(stack);
      Collect(G);
      TraceStack(stack);
      RootsCopied(G, stack, fwd);
      ReachedExactly(start, mem[..], blocks, fwd, src, to, roots);
    }

    method TraceStack(stack: seq<Value>)
      requires Copying() && reader == writer && Scanned(start, blocks, fwd, src, reader - to)
      requires roots == Roots(G, stack) && forall i | 0 <= i < |stack| :: RefIn(start, stack[i])
      modifies `writer, `reader, `fwd, `src, `blocks, mem
      ensures Copying() && reader == writer && Scanned(start, blocks, fwd, src, reader - to)
      ensures Extends(old(fwd), fwd) && forall i | 0 <= i < |stack| :: Covered(fwd, stack[i])
    {
      assert to <= reader && Extends(fwd, fwd);
      hide Copying, Scanned, Reach, Roots, Extends, Covered;
      ghost var f0 := fwd;
      var p := 0;
      while p < |stack|
        invariant 0 <= p <= |stack|
        invariant Copying() && to <= reader == writer && Scanned(start, blocks, fwd, src, reader - to)
        invariant Extends(f0, fwd) && forall i | 0 <= i < p :: Covered(fwd, stack[i])
        modifies `writer, `reader, `fwd, `src, `blocks, mem
      {
        ghost var f := fwd;
        StackRoot(start, G, stack, p);
        MaybeCollect(stack[p]);
        ExtendsAgain(f0, f, fwd);
        CoveredExtends(f, fwd, stack, p);
        p := p + 1;
      }
    }

    /** The second loop of lua_gc_impl: repair the stack words. */
    method FixStack(stack: array<Value>)
      requires Copying() && forall i | 0 <= i < stack.Length :: Covered(fwd, stack[i])
      modifies stack
      ensures forall i | 0 <= i < stack.Length :: stack[i] == Tr(fwd, old(stack[i]))
    {
      var p := 0;
      while p < stack.Length
        invariant 0 <= p <= stack.Length
        invariant forall i | 0 <= i < stack.Length :: stack[i] == if i < p then Tr(fwd, old(stack[i]))
            else old(stack[i])
        modifies stack
      {
        FixPtr(stack, p);
        p := p + 1;
      }
    }
  }

  lemma StackRoot(h: Heap, g: nat, stack: seq<Value>, p: nat)
    requires p < |stack| && RefIn(h, stack[p])
    ensures stack[p].Tbl? ==> In(h, stack[p].ref) && Reach(h, Roots(g, stack), stack[p].ref)
  {
    assert stack[p] in stack;
    if stack[p].Tbl? { ReachRoot(h, Roots(g, stack), stack[p].ref); }
  }

  /** A copied table's slot holds a broken heart that points at the copy. */
  lemma HeartAt(h0: Heap, words: seq<Word>, fwd: map<nat, nat>, src: seq<nat>, to: nat, x: nat)
    requires Forwarding(h0, words, fwd, src, to) && h0.hi <= |h0.words| && x in fwd
    ensures In(h0, x) && words[x] == Broken(fwd[x]) && to <= fwd[x] < to + |src|
  {
    assert WordAt(h0, words, fwd, src, to, x);
  }

  lemma SameBlocks(h0: Heap, blocks: map<nat, Block>, fwd: map<nat, nat>, src: seq<nat>, done: nat)
    requires Scanned(h0, blocks, fwd, src, done)
    ensures blocks.Keys == h0.blocks.Keys
  {
  }

  /** A slot without a broken heart still has the word it had. */
  lemma Uncopied(h0: Heap, words: seq<Word>, fwd: map<nat, nat>, src: seq<nat>, to: nat, x: nat)
    requires WellFormed(h0) && Forwarding(h0, words, fwd, src, to) && In(h0, x)
    ensures words[x].Broken? <==> x in fwd
    ensures x !in fwd ==> words[x] == h0.words[x]
    ensures words[x].Data? ==> Owns(h0, x, words[x].block) && words[x].block in h0.blocks
  {
    assert WordAt(h0, words, fwd, src, to, x);
    assert words[x].Data? ==> Owns(h0, x, words[x].block);
  }

  /** What a finished collection amounts to, once the flip has dropped the garbage blocks. */
  lemma Complete(h0: Heap, words: seq<Word>, blocks: map<nat, Block>, fwd: map<nat, nat>, src: seq<nat>, to: nat,
                 h1: Heap)
    requires WellFormed(h0) && Apart(h0, to)
    requires Forwarding(h0, words, fwd, src, to) && Scanned(h0, blocks, fwd, src, |src|)
    requires h1 == Heap(words, blocks - Dropped(h0, fwd, h0.lo).1, to, to + |src|)
    ensures Collected(h0, h1, fwd) && WellFormed(h1) && TablesKept(h0, h1)
    ensures |fwd| == |src|
    ensures forall b :: multiset(Dropped(h0, fwd, h0.lo).0)[b] == if Garbage(h0, fwd, b) then 1 else 0
  {
    DroppedExactly(h0, fwd);
    CopyCount(h0, words, fwd, src, to);
    Finished(h0, words, blocks, fwd, src, to, h1);
    WellFormedSurvives(h0, h1, fwd);
    TablesSurvive(h0, h1, fwd);
  }

  lemma LeftReachable(h0: Heap, h1: Heap, fwd: map<nat, nat>, g: nat, stack: seq<Value>, g': nat, stack': seq<Value>)
    requires WellFormed(h0) && Collected(h0, h1, fwd) && forall x :: x in fwd ==> Reach(h0, Roots(g, stack), x)
    requires g in fwd && g' == fwd[g] && |stack'| == |stack|
    requires forall i | 0 <= i < |stack| :: Covered(fwd, stack[i]) && stack'[i] == Tr(fwd, stack[i])
    ensures forall y | In(h1, y) :: Reach(h1, Roots(g', stack'), y)
  {
    hide Collected, WellFormed, Reach;
    RootsMoved(fwd, g, stack, g', stack');
    OnlyReachableLeft(h0, h1, fwd, Roots(g, stack), Roots(g', stack'));
  }

  lemma RootsMoved(fwd: map<nat, nat>, g: nat, stack: seq<Value>, g': nat, stack': seq<Value>)
    requires g in fwd && g' == fwd[g] && |stack'| == |stack|
    requires forall i | 0 <= i < |stack| :: Covered(fwd, stack[i]) && stack'[i] == Tr(fwd, stack[i])
    ensures forall r | r in Roots(g, stack) :: r in fwd && fwd[r] in Roots(g', stack')
  {
    hide Roots;
    forall r | r in Roots(g, stack)
      ensures r in fwd && fwd[r] in Roots(g', stack')
    {
      if r != g {
        var i :| 0 <= i < |stack| && stack[i] == Tbl(r);
        assert Covered(fwd, stack[i]) && stack'[i] == Tbl(fwd[r]);
      }
    }
  }

  lemma AllCopiedAfter(h0: Heap, h1: Heap, fwd: map<nat, nat>)
    requires Collected(h0, h1, fwd)
    ensures |fwd| == h0.hi - h0.lo <==> forall x | In(h0, x) :: x in fwd
    ensures |fwd| <= h0.hi - h0.lo
  {
    AllCopied(h0, fwd);
  }

  lemma RootsCopied(g: nat, stack: seq<Value>, fwd: map<nat, nat>)
    requires g in fwd && forall i | 0 <= i < |stack| :: Covered(fwd, stack[i])
    ensures Roots(g, stack) <= fwd.Keys
  {
    forall x | x in Roots(g, stack)
      ensures x in fwd
    {
      if x != g {
        var i :| 0 <= i < |stack| && stack[i] == Tbl(x);
        assert Covered(fwd, stack[i]);
      }
    }
  }
}
