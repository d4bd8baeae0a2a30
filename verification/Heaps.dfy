/** Snapshots of the collector's memory: table words, the data blocks they own, reachability, and
    what it means for one heap to be a collected copy of another. */
module Heaps {
  import opened Values
  import opened RobinHood

  /** The single word of a table object: packed (hash, capacity) before its first write, then a
      pointer to its data block; `Broken` is the forwarding word the collector leaves behind. */
  datatype Word = Packed(hash: nat, cap: nat) | Data(block: nat) | Broken(fwd: nat)

  datatype Block = Block(hash: nat, table: seq<Entry<Value>>)

  /** Table words, the malloc'ed blocks by address, and the allocated slots [lo, hi). */
  datatype Heap = Heap(words: seq<Word>, blocks: map<nat, Block>, lo: nat, hi: nat)

  /** The bits of a word; table objects are 8 bytes each from address `base`. */
  function WordBits(base: nat, w: Word): nat
  {
    match w
    case Packed(hash, cap) => hash * TWO_32 + cap + 2
    case Data(block) => block
    case Broken(fwd) => base + 8 * fwd + 1
  }

  /** The tag bits tell the three forms apart and every field can be read back, given aligned
      objects and blocks and a capacity that is a multiple of four. */
  lemma WordBitsDecode(base: nat, w: Word)
    requires base % 8 == 0
    requires w.Packed? ==> w.cap % 4 == 0 && w.cap + 2 < TWO_32 && w.hash < TWO_32
    requires w.Data? ==> w.block % 8 == 0
    ensures var u := WordBits(base, w);
            (u % 2 == 1 <==> w.Broken?) &&
            (w.Broken? ==> u - u % 2 == base + 8 * w.fwd) &&
            (!w.Broken? ==> ((u / 2) % 2 == 1 <==> w.Packed?)) &&
            (w.Packed? ==> u / TWO_32 == w.hash && u % TWO_32 - u % 4 == w.cap)
  {
    match w {
      case Packed(hash, cap) => PackedBits(hash, cap);
      case Data(block) => AlignedBits(block / 8);
      case Broken(fwd) => AlignedBits(base / 8 + fwd);
    }
  }

  lemma AlignedBits(q: nat)
    ensures (8 * q) % 2 == 0 && ((8 * q) / 2) % 2 == 0 && (8 * q + 1) % 2 == 1
  {
    assert 8 * q == 2 * (4 * q) && 4 * q == 2 * (2 * q);
  }

  lemma PackedBits(hash: nat, cap: nat)
    requires cap % 4 == 0 && cap + 2 < 0x1_0000_0000
    ensures var u := hash * TWO_32 + cap + 2;
            u % 2 == 0 && (u / 2) % 2 == 1 && u / TWO_32 == hash && u % TWO_32 - u % 4 == cap
  {
    var c := cap / 4;
    var u := hash * 0x1_0000_0000 + (4 * c + 2);
    QuotientUnique(u, 0x1_0000_0000, hash, 4 * c + 2);
    QuotientUnique(u, 4, hash * 0x4000_0000 + c, 2);
  }

  predicate In(h: Heap, x: int) { h.lo <= x < h.hi }

  /** Allocated slot x is a table that owns data block b. */
  predicate Owns(h: Heap, x: int, b: nat)
  {
    In(h, x) && x < |h.words| && h.words[x] == Data(b)
  }

  /** The slots of table x, none before its first write. */
  function Table(h: Heap, x: nat): seq<Entry<Value>>
  {
    if x < |h.words| && h.words[x].Data? && h.words[x].block in h.blocks then h.blocks[h.words[x].block].table else []
  }

  /** rhhm_hash: from the word or the block, never from the address of the table. */
  function TableHash(h: Heap, x: nat): nat
  {
    if x >= |h.words| then 0 else
    match h.words[x]
    case Packed(hash, _) => hash
    case Data(b) => if b in h.blocks then h.blocks[b].hash else 0
    case Broken(_) => 0
  }

  /** rhhm_bb_hash */
  function HashOf(h: Heap, v: Value): nat
  {
    if v.Tbl? then TableHash(h, v.ref) else FoldHash(Encode(0, v))
  }

  /** The hash of a key that is no table, bit by bit: the lower half of its word against the upper one. */
  lemma WordHashBits(h: Heap, v: Value, k: nat)
    requires !v.Tbl? && k < 32
    ensures Bit(HashOf(h, v), k) == if Bit(Encode(0, v), k) == Bit(Encode(0, v), k + 32) then 0 else 1
  {
    FoldHashBits(Encode(0, v), k);
  }

  function Hasher(h: Heap): Value -> nat
  {
    v => HashOf(h, v)
  }

  predicate RefIn(h: Heap, v: Value)
  {
    v.Tbl? ==> In(h, v.ref)
  }

  /** Allocated slots hold live words, no two tables own one block, and every table reference in an
      occupied slot points at an allocated slot. */
  ghost predicate WellFormed(h: Heap)
  {
    && h.lo <= h.hi <= |h.words|
    && (forall x | In(h, x) :: !h.words[x].Broken?)
    && (forall x, b | Owns(h, x, b) :: b in h.blocks)
    && (forall x, y, b | Owns(h, x, b) && Owns(h, y, b) :: x == y)
    && (forall x, i | In(h, x) && 0 <= i < |Table(h, x)| && !Vacant(Table(h, x)[i]) ::
          RefIn(h, Table(h, x)[i].key) && RefIn(h, Table(h, x)[i].value))
  }

  /** Every initialised table is a proper Robin Hood table. */
  ghost predicate TablesOrdered(h: Heap)
  {
    forall x, b | Owns(h, x, b) :: Good(Table(h, x), Hasher(h))
  }

  /** Every search in table x for k ends. */
  ghost predicate TableSearchable(h: Heap, x: nat, k: Value)
  {
    x < |h.words| && h.words[x].Data? ==> Searchable(Table(h, x), k)
  }

  /** Every initialised table is a proper Robin Hood table with a hole. */
  ghost predicate TablesGood(h: Heap)
  {
    forall x, b | Owns(h, x, b) ::
      Good(Table(h, x), Hasher(h)) && HasRoom(Table(h, x))
  }

  lemma GoodSearchable(h: Heap, x: nat, k: Value)
    requires TablesGood(h) && In(h, x)
    ensures TablesOrdered(h) && TableSearchable(h, x, k)
  {
    if x < |h.words| && h.words[x].Data? { assert Owns(h, x, h.words[x].block); }
  }

  ghost predicate TablesKept(h: Heap, r: Heap)
  {
    (TablesOrdered(h) ==> TablesOrdered(r)) && (TablesGood(h) ==> TablesGood(r))
  }

  // --- reachability -------------------------------------------------------------------------

  predicate Mentions(e: Entry<Value>, y: nat)
  {
    !Vacant(e) && (e.key == Tbl(y) || e.value == Tbl(y))
  }

  ghost predicate Edge(h: Heap, x: nat, y: nat)
  {
    exists i :: 0 <= i < |Table(h, x)| && Mentions(Table(h, x)[i], y)
  }

  ghost predicate Path(h: Heap, roots: set<nat>, p: seq<nat>)
  {
    && p != [] && p[0] in roots
    && forall i | 0 <= i < |p| - 1 :: Edge(h, p[i], p[i + 1])
  }

  ghost predicate Reach(h: Heap, roots: set<nat>, x: nat)
  {
    exists p :: Path(h, roots, p) && p[|p| - 1] == x
  }

  lemma ReachRoot(h: Heap, roots: set<nat>, x: nat)
    requires x in roots
    ensures Reach(h, roots, x)
  {
    assert Path(h, roots, [x]);
  }

  lemma ReachEdge(h: Heap, roots: set<nat>, x: nat, y: nat)
    requires Reach(h, roots, x) && Edge(h, x, y)
    ensures Reach(h, roots, y)
  {
    var p :| Path(h, roots, p) && p[|p| - 1] == x;
    var q := p + [y];
    assert forall i | 0 <= i < |q| - 1 :: Edge(h, q[i], q[i + 1]);
    assert Path(h, roots, q);
  }

  /** A set that holds the roots and is closed under edges holds everything reachable. */
  lemma ReachClosed(h: Heap, roots: set<nat>, s: set<nat>, x: nat)
    requires roots <= s && forall a, b | a in s && Edge(h, a, b) :: b in s
    requires Reach(h, roots, x)
    ensures x in s
  {
    var p :| Path(h, roots, p) && p[|p| - 1] == x;
    PathClosed(h, roots, s, p, |p| - 1);
  }

  lemma {:induction false} PathClosed(h: Heap, roots: set<nat>, s: set<nat>, p: seq<nat>, i: nat)
    requires roots <= s && forall a, b | a in s && Edge(h, a, b) :: b in s
    requires Path(h, roots, p) && i < |p|
    ensures p[i] in s
  {
    if i > 0 {
      PathClosed(h, roots, s, p, i - 1);
      assert Edge(h, p[i - 1], p[i - 1 + 1]);
    }
  }

  // --- forwarding ---------------------------------------------------------------------------

  /** A value after its table has moved. */
  function Tr(fwd: map<nat, nat>, v: Value): Value
  {
    if v.Tbl? && v.ref in fwd then Tbl(fwd[v.ref]) else v
  }

  function TrEntry(fwd: map<nat, nat>, e: Entry<Value>): Entry<Value>
  {
    if Vacant(e) then e else Entry(Tr(fwd, e.value), Tr(fwd, e.key))
  }

  predicate Covered(fwd: map<nat, nat>, v: Value)
  {
    v.Tbl? ==> v.ref in fwd
  }

  predicate EntryCovered(fwd: map<nat, nat>, e: Entry<Value>)
  {
    Vacant(e) || (Covered(fwd, e.key) && Covered(fwd, e.value))
  }

  /** b1 is b0 with every table reference in an occupied slot forwarded. */
  ghost predicate Rewritten(fwd: map<nat, nat>, b0: Block, b1: Block)
  {
    && b1.hash == b0.hash && |b1.table| == |b0.table|
    && forall i | 0 <= i < |b0.table| :: EntryCovered(fwd, b0.table[i]) && b1.table[i] == TrEntry(fwd, b0.table[i])
  }

  ghost predicate Injective(fwd: map<nat, nat>)
  {
    forall x, y | x in fwd && y in fwd && x != y :: fwd[x] != fwd[y]
  }

  /** Block b belongs to a table that was not forwarded. */
  ghost predicate Garbage(h: Heap, fwd: map<nat, nat>, b: nat)
  {
    exists x :: Owns(h, x, b) && x !in fwd
  }

  /** h1 holds exactly the tables of h0 that fwd forwards: same words, same block addresses, same
      slots with references forwarded; blocks of the others are gone, all further blocks untouched. */
  ghost predicate Collected(h0: Heap, h1: Heap, fwd: map<nat, nat>)
  {
    && h0.lo <= h0.hi <= |h0.words| && h1.lo <= h1.hi <= |h1.words|
    && Injective(fwd)
    && (forall x | x in fwd :: In(h0, x) && In(h1, fwd[x]) && h1.words[fwd[x]] == h0.words[x])
    && (forall y | In(h1, y) :: exists x :: x in fwd && fwd[x] == y)
    && (forall b :: b in h1.blocks <==> b in h0.blocks && !Garbage(h0, fwd, b))
    && (forall x, b | x in fwd && Owns(h0, x, b) && b in h0.blocks && b in h1.blocks ::
        Rewritten(fwd, h0.blocks[b], h1.blocks[b]))
    && (forall b | b in h1.blocks && (forall x :: !Owns(h0, x, b)) :: h1.blocks[b] == h0.blocks[b])
  }
}
