/** The invariant of a collection in progress, over snapshots: which tables have been copied where,
    and which copies have been scanned. */
module Cheney {
  import opened Values
  import opened RobinHood
  import opened Counting
  import opened Heaps

  /** Room for a copy of every allocated table at `to`, apart from the tables themselves. */
  ghost predicate Apart(h0: Heap, to: nat)
  {
    && h0.lo <= h0.hi <= |h0.words|
    && to + (h0.hi - h0.lo) <= |h0.words|
    && (h0.hi <= to || to + (h0.hi - h0.lo) <= h0.lo)
  }

  /** fwd sends the k-th evacuated table src[k] to slot to+k, which holds its word. */
  ghost predicate CopyAt(h0: Heap, words: seq<Word>, fwd: map<nat, nat>, src: seq<nat>, to: nat, k: int)
  {
    0 <= k < |src| ==>
      && In(h0, src[k]) && src[k] in fwd && fwd[src[k]] == to + k
      && src[k] < |h0.words| && to + k < |words| && words[to + k] == h0.words[src[k]]
  }

  /** A forwarded slot x holds a broken heart that points at its copy, any other its old word. */
  ghost predicate WordAt(h0: Heap, words: seq<Word>, fwd: map<nat, nat>, src: seq<nat>, to: nat, x: int)
  {
    && (x in fwd ==> In(h0, x) && to <= fwd[x] < to + |src| && src[fwd[x] - to] == x)
    && (In(h0, x) && x < |words| && x < |h0.words| ==> words[x] == if x in fwd then Broken(fwd[x]) else h0.words[x])
  }

  ghost predicate Forwarding(h0: Heap, words: seq<Word>, fwd: map<nat, nat>, src: seq<nat>, to: nat)
  {
    && |words| == |h0.words| && |src| <= h0.hi - h0.lo
    && (forall k :: CopyAt(h0, words, fwd, src, to, k))
    && (forall x :: WordAt(h0, words, fwd, src, to, x))
  }

  ghost predicate Extends(f: map<nat, nat>, g: map<nat, nat>)
  {
    forall x | x in f :: x in g && g[x] == f[x]
  }

  /** b1 is b0 with the first i slots forwarded. */
  ghost predicate Partial(fwd: map<nat, nat>, b0: Block, b1: Block, i: nat)
  {
    && b1.hash == b0.hash && |b1.table| == |b0.table|
    && (forall j | 0 <= j < |b0.table| && j < i ::
          EntryCovered(fwd, b0.table[j]) && b1.table[j] == TrEntry(fwd, b0.table[j]))
    && (forall j | i <= j < |b0.table| :: b1.table[j] == b0.table[j])
  }

  /** The blocks of the first `done` copies are forwarded, all others untouched. */
  ghost predicate Scanned(h0: Heap, blocks: map<nat, Block>, fwd: map<nat, nat>, src: seq<nat>, done: nat)
  {
    && done <= |src| && blocks.Keys == h0.blocks.Keys
    && (forall k, b | 0 <= k < done && Owns(h0, src[k], b) && b in blocks :: Rewritten(fwd, h0.blocks[b], blocks[b]))
    && (forall b | b in blocks :: blocks[b] == h0.blocks[b] || exists k :: 0 <= k < done && Owns(h0, src[k], b))
  }

  /** As long as some table is not copied, to-space has a free slot. */
  lemma CopyRoom(h0: Heap, words: seq<Word>, fwd: map<nat, nat>, src: seq<nat>, to: nat, obj: nat)
    requires Apart(h0, to) && Forwarding(h0, words, fwd, src, to) && In(h0, obj) && obj !in fwd
    ensures |src| < h0.hi - h0.lo
  {
    var s := src + [obj];
    forall i, j | 0 <= i < j < |s|
      ensures s[i] != s[j]
    {
      assert CopyAt(h0, words, fwd, src, to, i) && CopyAt(h0, words, fwd, src, to, j);
    }
    forall x | x in Elements(s)
      ensures x in Interval(h0.lo, h0.hi)
    {
      var k :| 0 <= k < |s| && s[k] == x;
      assert CopyAt(h0, words, fwd, src, to, k);
    }
    DistinctSize(s);
    SubsetSize(Elements(s), Interval(h0.lo, h0.hi));
  }

  /** gc_evacuate of a table not yet copied. */
  lemma EvacuateKeeps(h0: Heap, words: seq<Word>, fwd: map<nat, nat>, src: seq<nat>, to: nat, obj: nat)
    requires Apart(h0, to) && Forwarding(h0, words, fwd, src, to) && In(h0, obj) && obj !in fwd
    ensures |src| < h0.hi - h0.lo
    ensures var w := to + |src|;
            Forwarding(h0, words[w := words[obj]][obj := Broken(w)], fwd[obj := w], src + [obj], to) &&
                Extends(fwd, fwd[obj := w])
  {
    CopyRoom(h0, words, fwd, src, to, obj);
    var w := to + |src|;
    var s, g := src + [obj], fwd[obj := w];
    var words' := words[w := words[obj]][obj := Broken(w)];
    forall k
      ensures CopyAt(h0, words', g, s, to, k)
    {
      assert CopyAt(h0, words, fwd, src, to, k);
      assert WordAt(h0, words, fwd, src, to, obj);
    }
    forall x
      ensures WordAt(h0, words', g, s, to, x)
    {
      assert WordAt(h0, words, fwd, src, to, x);
    }
  }

  lemma PartialExtends(f: map<nat, nat>, g: map<nat, nat>, b0: Block, b1: Block, i: nat)
    requires Extends(f, g) && Partial(f, b0, b1, i)
    ensures Partial(g, b0, b1, i)
  {
  }

  lemma ScannedExtends(h0: Heap, blocks: map<nat, Block>, f: map<nat, nat>, s: seq<nat>, g: map<nat, nat>,
                       s': seq<nat>, done: nat)
    requires Extends(f, g) && s <= s' && Scanned(h0, blocks, f, s, done)
    ensures Scanned(h0, blocks, g, s', done)
  {
    forall k, b | 0 <= k < done && Owns(h0, s'[k], b) && b in blocks
      ensures Rewritten(g, h0.blocks[b], blocks[b])
    {
      assert s'[k] == s[k];
      PartialExtends(f, g, h0.blocks[b], blocks[b], |h0.blocks[b].table|);
    }
    forall b | b in blocks && blocks[b] != h0.blocks[b]
      ensures exists k :: 0 <= k < done && Owns(h0, s'[k], b)
    {
      var k :| 0 <= k < done && Owns(h0, s[k], b);
      assert s'[k] == s[k];
    }
  }

  /** When every copy is scanned, the copied tables are closed under edges. */
  lemma ScannedClosed(h0: Heap, words: seq<Word>, blocks: map<nat, Block>, fwd: map<nat, nat>, src: seq<nat>, to: nat,
                      x: nat, y: nat)
    requires WellFormed(h0) && Forwarding(h0, words, fwd, src, to) && Scanned(h0, blocks, fwd, src, |src|)
    requires x in fwd && Edge(h0, x, y)
    ensures y in fwd
  {
    var i :| 0 <= i < |Table(h0, x)| && Mentions(Table(h0, x)[i], y);
    var b := h0.words[x].block;
    assert WordAt(h0, words, fwd, src, to, x);
    assert Owns(h0, src[fwd[x] - to], b);
    assert EntryCovered(fwd, h0.blocks[b].table[i]);
  }

  /** Some table in (c, hi) that was not copied owns b. */
  ghost predicate GarbageAbove(h0: Heap, fwd: map<nat, nat>, b: nat, c: int)
  {
    exists x :: x > c && Owns(h0, x, b) && x !in fwd
  }

  /** A finished collection, garbage blocks dropped, is a collected copy. */
  lemma Finished(h0: Heap, words: seq<Word>, blocks: map<nat, Block>, fwd: map<nat, nat>, src: seq<nat>, to: nat,
                 h1: Heap)
    requires WellFormed(h0) && Apart(h0, to)
    requires Forwarding(h0, words, fwd, src, to) && Scanned(h0, blocks, fwd, src, |src|)
    requires h1.words == words && h1.lo == to && h1.hi == to + |src|
    requires forall b :: b in h1.blocks <==> b in blocks && !Garbage(h0, fwd, b)
    requires forall b | b in h1.blocks :: h1.blocks[b] == blocks[b]
    ensures Collected(h0, h1, fwd)
  {
    forall y | In(h1, y)
      ensures exists x :: x in fwd && fwd[x] == y
    {
      assert CopyAt(h0, words, fwd, src, to, y - to);
    }
    forall x | x in fwd
      ensures In(h0, x) && In(h1, fwd[x]) && h1.words[fwd[x]] == h0.words[x]
    {
      assert WordAt(h0, words, fwd, src, to, x);
      assert CopyAt(h0, words, fwd, src, to, fwd[x] - to);
    }
    forall x, y | x in fwd && y in fwd && fwd[x] == fwd[y]
      ensures x == y
    {
      assert WordAt(h0, words, fwd, src, to, x) && WordAt(h0, words, fwd, src, to, y);
    }
    forall x, b | x in fwd && Owns(h0, x, b) && b in h0.blocks && b in h1.blocks
      ensures Rewritten(fwd, h0.blocks[b], h1.blocks[b])
    {
      assert WordAt(h0, words, fwd, src, to, x);
      assert Owns(h0, src[fwd[x] - to], b);
    }
    forall b | b in h1.blocks && forall x :: !Owns(h0, x, b)
      ensures h1.blocks[b] == h0.blocks[b]
    {
    }
  }

  /** Overwrite slot i of block b. */
  function PutSlot(blocks: map<nat, Block>, b: nat, i: nat, e: Entry<Value>): map<nat, Block>
    requires b in blocks && i < |blocks[b].table|
  {
    blocks[b := blocks[b].(table := blocks[b].table[i := e])]
  }

  lemma PutSlotTwice(blocks: map<nat, Block>, b: nat, i: nat, e: Entry<Value>)
    requires b in blocks && i < |blocks[b].table| && e == blocks[b].table[i]
    ensures PutSlot(blocks, b, i, e) == blocks
    ensures forall x, y :: PutSlot(PutSlot(blocks, b, i, x), b, i, y) == PutSlot(blocks, b, i, y)
  {
    assert blocks[b].table[i := e] == blocks[b].table;
    forall x, y
      ensures PutSlot(PutSlot(blocks, b, i, x), b, i, y) == PutSlot(blocks, b, i, y)
    {
      assert blocks[b].table[i := x][i := y] == blocks[b].table[i := y];
    }
  }

  /** Forwarding slot i extends the forwarded prefix by one. */
  lemma PartialStep(f: map<nat, nat>, g: map<nat, nat>, b0: Block, was: Block, now: Block, i: nat)
    requires Extends(f, g) && Partial(f, b0, was, i) && i < |b0.table|
    requires EntryCovered(g, b0.table[i]) && now == was.(table := was.table[i := TrEntry(g, b0.table[i])])
    ensures Partial(g, b0, now, i + 1)
  {
  }

  /** What an occupied slot of a reachable table mentions is reachable. */
  lemma ChildrenReached(h0: Heap, roots: set<nat>, x: nat, i: nat)
    requires WellFormed(h0) && In(h0, x) && Reach(h0, roots, x) && i < |Table(h0, x)|
    ensures forall y: nat | Mentions(Table(h0, x)[i], y) :: In(h0, y) && Reach(h0, roots, y)
  {
    forall y: nat | Mentions(Table(h0, x)[i], y)
      ensures In(h0, y) && Reach(h0, roots, y)
    {
      ReachEdge(h0, roots, x, y);
    }
  }

  /** The block of the next copy to scan is still as it was. */
  lemma Unscanned(h0: Heap, words: seq<Word>, blocks: map<nat, Block>, fwd: map<nat, nat>, src: seq<nat>, to: nat,
                  k: nat, b: nat)
    requires WellFormed(h0) && Forwarding(h0, words, fwd, src, to) && Scanned(h0, blocks, fwd, src, k)
    requires k < |src| && Owns(h0, src[k], b)
    ensures b in blocks && blocks[b] == h0.blocks[b]
  {
    forall j | 0 <= j < k
      ensures !Owns(h0, src[j], b)
    {
      assert CopyAt(h0, words, fwd, src, to, j) && CopyAt(h0, words, fwd, src, to, k);
    }
  }

  /** Scanning block b of the k-th copy to its end extends the scanned prefix by one. */
  lemma ScannedStep(h0: Heap, before: map<nat, Block>, blocks: map<nat, Block>, fwd: map<nat, nat>, src: seq<nat>,
                    k: nat, b: nat)
    requires WellFormed(h0) && k < |src| && Scanned(h0, before, fwd, src, k) && Owns(h0, src[k], b)
    requires b in blocks && blocks == before[b := blocks[b]] && Rewritten(fwd, h0.blocks[b], blocks[b])
    ensures Scanned(h0, blocks, fwd, src, k + 1)
  {
  }

  lemma ExtendsAgain(f: map<nat, nat>, g: map<nat, nat>, h: map<nat, nat>)
    requires Extends(f, g) && Extends(g, h)
    ensures Extends(f, h)
  {
  }

  lemma CoveredExtends(f: map<nat, nat>, g: map<nat, nat>, stack: seq<Value>, p: nat)
    requires Extends(f, g) && p <= |stack| && forall i | 0 <= i < p :: Covered(f, stack[i])
    ensures forall i | 0 <= i < p :: Covered(g, stack[i])
  {
  }

  /** Once all copies are scanned, a table has been copied if and only if it is reachable. */
  lemma ReachedExactly(h0: Heap, words: seq<Word>, blocks: map<nat, Block>, fwd: map<nat, nat>, src: seq<nat>,
                       to: nat, roots: set<nat>)
    requires WellFormed(h0) && Forwarding(h0, words, fwd, src, to) && Scanned(h0, blocks, fwd, src, |src|)
    requires roots <= fwd.Keys && forall x | x in fwd :: Reach(h0, roots, x)
    ensures forall x :: x in fwd <==> Reach(h0, roots, x)
  {
    forall x, y | x in fwd.Keys && Edge(h0, x, y)
      ensures y in fwd.Keys
    {
      ScannedClosed(h0, words, blocks, fwd, src, to, x, y);
    }
    forall x | Reach(h0, roots, x)
      ensures x in fwd
    {
      ReachClosed(h0, roots, fwd.Keys, x);
    }
  }

  /** The blocks of uncopied tables in [c, hi), in the order the flip meets them, and as a set. */
  ghost function Dropped(h0: Heap, fwd: map<nat, nat>, c: nat): (r: (seq<nat>, set<nat>))
    requires h0.hi <= |h0.words|
    decreases h0.hi - c
  {
    if c >= h0.hi then ([], {})
    else
      var (s, bs) := Dropped(h0, fwd, c + 1);
      if h0.words[c].Data? && c !in fwd then (s + [h0.words[c].block], bs + {h0.words[c].block}) else (s, bs)
  }

  lemma DroppedNone(h0: Heap, fwd: map<nat, nat>)
    requires h0.hi <= |h0.words|
    ensures Dropped(h0, fwd, h0.hi) == ([], {})
  {
  }

  lemma DroppedStep(h0: Heap, fwd: map<nat, nat>, c: nat)
    requires c < h0.hi <= |h0.words|
    ensures var (s, bs) := Dropped(h0, fwd, c + 1);
            Dropped(h0, fwd, c) ==
              if h0.words[c].Data? && c !in fwd then (s + [h0.words[c].block], bs + {h0.words[c].block}) else (s, bs)
  {
  }

  lemma {:induction false} DroppedAbove(h0: Heap, fwd: map<nat, nat>, c: nat, b: nat)
    requires WellFormed(h0) && h0.lo <= c
    ensures b in Dropped(h0, fwd, c).1 <==> GarbageAbove(h0, fwd, b, c - 1)
    ensures multiset(Dropped(h0, fwd, c).0)[b] == if GarbageAbove(h0, fwd, b, c - 1) then 1 else 0
    decreases h0.hi - c
  {
    if c < h0.hi {
      DroppedAbove(h0, fwd, c + 1, b);
      var s := Dropped(h0, fwd, c + 1).0;
      if h0.words[c].Data? {
        assert multiset(s + [h0.words[c].block]) == multiset(s) + multiset{h0.words[c].block};
      }
      assert Owns(h0, c, b) ==> !GarbageAbove(h0, fwd, b, c);
      assert GarbageAbove(h0, fwd, b, c - 1) <==> GarbageAbove(h0, fwd, b, c) || (Owns(h0, c, b) && c !in fwd);
    }
  }

  lemma NotDroppedYet(h0: Heap, fwd: map<nat, nat>, c: nat, b: nat)
    requires WellFormed(h0) && Owns(h0, c, b)
    ensures b !in Dropped(h0, fwd, c + 1).1
  {
    DroppedAbove(h0, fwd, c + 1, b);
  }

  /** The flip frees the block of each uncopied table once, and no other block. */
  lemma DroppedExactly(h0: Heap, fwd: map<nat, nat>)
    requires WellFormed(h0)
    ensures forall b :: b in Dropped(h0, fwd, h0.lo).1 <==> Garbage(h0, fwd, b)
    ensures forall b :: multiset(Dropped(h0, fwd, h0.lo).0)[b] == if Garbage(h0, fwd, b) then 1 else 0
  {
    forall b
      ensures b in Dropped(h0, fwd, h0.lo).1 <==> Garbage(h0, fwd, b)
      ensures multiset(Dropped(h0, fwd, h0.lo).0)[b] == if Garbage(h0, fwd, b) then 1 else 0
    {
      if b >= 0 {
        DroppedAbove(h0, fwd, h0.lo, b);
        assert GarbageAbove(h0, fwd, b, h0.lo - 1) <==> Garbage(h0, fwd, b);
      }
    }
  }

  lemma CopyCount(h0: Heap, words: seq<Word>, fwd: map<nat, nat>, src: seq<nat>, to: nat)
    requires Forwarding(h0, words, fwd, src, to)
    ensures |fwd| == |src|
  {
    forall i, j | 0 <= i < j < |src|
      ensures src[i] != src[j]
    {
      assert CopyAt(h0, words, fwd, src, to, i) && CopyAt(h0, words, fwd, src, to, j);
    }
    DistinctSize(src);
    forall x
      ensures x in Elements(src) <==> x in fwd.Keys
    {
      if x in Elements(src) {
        var k :| 0 <= k < |src| && src[k] == x;
        assert CopyAt(h0, words, fwd, src, to, k);
      }
      assert WordAt(h0, words, fwd, src, to, x);
    }
    assert Elements(src) == fwd.Keys;
  }

  /** As many copies as tables means that every table was copied. */
  lemma AllCopied(h0: Heap, fwd: map<nat, nat>)
    requires h0.lo <= h0.hi && forall x | x in fwd :: In(h0, x)
    ensures |fwd| == h0.hi - h0.lo <==> forall x | In(h0, x) :: x in fwd
    ensures |fwd| <= h0.hi - h0.lo
  {
    var all := Interval(h0.lo, h0.hi);
    assert fwd.Keys <= all;
    SubsetSize(fwd.Keys, all);
    assert |fwd| == |fwd.Keys|;
    if forall x | In(h0, x) :: x in fwd {
      assert fwd.Keys == all;
    }
  }
}
