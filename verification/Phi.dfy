/** The phi stack of ir.c, kept at the top of the op array, and the commit of a frame: merging it into
    the outer frame in place, and rotating a loop block behind its phis. */
module Phi {
  import opened Ir

  /** A pending phi: its two operands and the variable it stands for. */
  datatype Entry = Entry(a: int, b: int, target: int)

  function AsTac(e: Entry): Tac { Tac(Op.Phi, e.a, e.b, e.target) }

  // --- the stack as a list of frames --------------------------------------------------------

  /** r holds the frames, innermost first: the entries of each, latest first, then its marker. */
  ghost predicate Rep(r: seq<Tac>, frames: seq<seq<Entry>>)
    decreases |frames|
  {
    if frames == [] then r == []
    else
      && |r| > |frames[0]|
      && (forall i | 0 <= i < |frames[0]| :: r[i] == AsTac(frames[0][i]))
      && r[|frames[0]|].op == Noop
      && Rep(r[|frames[0]| + 1..], frames[1..])
  }

  lemma RepHead(r: seq<Tac>, frames: seq<seq<Entry>>)
    requires Rep(r, frames) && frames != []
    ensures |r| > |frames[0]| && r[|frames[0]|].op == Noop
    ensures forall i | 0 <= i < |frames[0]| :: r[i] == AsTac(frames[0][i])
    ensures Rep(r[|frames[0]| + 1..], frames[1..])
  {
  }

  lemma RepCons(r: seq<Tac>, f: seq<Entry>, rest: seq<seq<Entry>>)
    requires |r| > |f| && r[|f|].op == Noop && Rep(r[|f| + 1..], rest)
    requires forall i | 0 <= i < |f| :: r[i] == AsTac(f[i])
    ensures Rep(r, [f] + rest)
  {
    assert ([f] + rest)[1..] == rest;
  }

  lemma RepReplace(r: seq<Tac>, frames: seq<seq<Entry>>, i: nat, val: int)
    requires Rep(r, frames) && frames != [] && i < |frames[0]|
    ensures Rep(r[i := r[i].(a := val)], [frames[0][i := frames[0][i].(a := val)]] + frames[1..])
  {
    hide Rep;
    RepHead(r, frames);
    var n := |frames[0]|;
    assert r[i := r[i].(a := val)][n + 1..] == r[n + 1..];
    RepCons(r[i := r[i].(a := val)], frames[0][i := frames[0][i].(a := val)], frames[1..]);
  }

  lemma RepRewrite(r: seq<Tac>, r': seq<Tac>, frames: seq<seq<Entry>>, g: seq<Entry>)
    requires Rep(r, frames) && frames != [] && |r'| == |r| && |g| == |frames[0]|
    requires forall i | 0 <= i < |g| :: r'[i] == AsTac(g[i])
    requires forall i | |g| <= i < |r| :: r'[i] == r[i]
    ensures Rep(r', [g] + frames[1..])
  {
    hide Rep;
    RepHead(r, frames);
    assert r'[|g| + 1..] == r[|g| + 1..];
    RepCons(r', g, frames[1..]);
  }

  lemma RepGrow(r: seq<Tac>, frames: seq<seq<Entry>>, e: Entry)
    requires Rep(r, frames) && frames != []
    ensures Rep([AsTac(e)] + r, [[e] + frames[0]] + frames[1..])
  {
    hide Rep;
    RepHead(r, frames);
    var n := |frames[0]|;
    assert ([AsTac(e)] + r)[n + 2..] == r[n + 1..];
    RepCons([AsTac(e)] + r, [e] + frames[0], frames[1..]);
  }

  /** The position ir_phi_ins stops at: the first entry that mentions old, or the marker. */
  function Find(f: seq<Entry>, was: int): (i: nat)
    ensures i <= |f|
    ensures forall j | 0 <= j < i :: f[j].a != was && f[j].b != was
    ensures i < |f| ==> f[i].a == was || f[i].b == was
  {
    if f == [] then 0
    else if f[0].a == was || f[0].b == was then 0
    else 1 + Find(f[1..], was)
  }

  /** ir_phi_ins on one frame. */
  function Insert(f: seq<Entry>, val: int, was: int): seq<Entry>
  {
    var i := Find(f, was);
    if i < |f| then f[i := f[i].(a := val)] else [Entry(val, was, was)] + f
  }

  /** Merge the first n entries of f, last one first, into the outermost remaining frame; the k-th of
      them is committed under variable iv + (|f| - 1 - k). */
  function Merge(rest: seq<seq<Entry>>, f: seq<Entry>, iv: int, k: nat): (r: seq<seq<Entry>>)
    requires k <= |f|
    ensures |r| == |rest|
    ensures rest != [] ==> |r[0]| <= |rest[0]| + (|f| - k) && r[1..] == rest[1..]
    decreases |f| - k
  {
    if k == |f| || rest == [] then rest
    else
      var r := Merge(rest, f, iv, k + 1);
      [Insert(r[0], iv + (|f| - 1 - k), f[k].target)] + r[1..]
  }

  /** The phis of frame f in the order they are committed, from entry |f|-1 down to entry k. */
  function Committed(f: seq<Entry>, iv: int, k: nat): (r: seq<Tac>)
    requires k <= |f|
    ensures |r| == |f| - k
    decreases |f| - k
  {
    if k == |f| then []
    else Committed(f, iv, k + 1) + [Tac(Op.Phi, f[k].a, f[k].b, iv + (|f| - 1 - k))]
  }

  // --- the parser's table -------------------------------------------------------------------

  function Cell(cells: seq<int>, v: int): int
  {
    if 0 <= v < |cells| then cells[v] else 0
  }

  function Put(cells: seq<int>, v: int, x: int): (r: seq<int>)
    ensures |r| == |cells|
    ensures forall u :: Cell(r, u) == if u == v && 0 <= v < |cells| then x else Cell(cells, u)
  {
    if 0 <= v < |cells| then cells[v := x] else cells
  }

  /** What ir_phi_commit writes to the table `assignment` for an entry committed under nv. */
  function Renumbered(cells: seq<int>, e: Entry, nv: int): (r: seq<int>)
    ensures |r| == |cells|
  {
    Put(Put(Put(Put(cells, nv, Cell(cells, e.target)), e.target, nv), e.a, nv), e.b, nv)
  }

  /** The table once the entries from k on are committed, the last one under variable iv. */
  function CellsAfter(cells: seq<int>, f: seq<Entry>, iv: int, k: nat): (r: seq<int>)
    requires k <= |f|
    ensures |r| == |cells|
    decreases |f| - k
  {
    if k == |f| then cells else Renumbered(CellsAfter(cells, f, iv, k + 1), f[k], iv + (|f| - 1 - k))
  }

  predicate InTable(n: nat, e: Entry)
  {
    0 <= e.a < n && 0 <= e.b < n && 0 <= e.target < n
  }

  // --- the loop block -----------------------------------------------------------------------

  /** Operands of one op after a phi replaced was by nv; the b field of a call is a count. */
  function Rename(t: Tac, was: int, nv: int): Tac
  {
    if t.op == Noop then t
    else t.(a := if t.a == was then nv else t.a, b := if t.b == was && t.op != Call then nv else t.b)
  }

  /** All renamings of a loop commit, in order. */
  function RenameAll(t: Tac, f: seq<Entry>, iv: int, k: nat): (r: Tac)
    requires k <= |f|
    ensures r.op == t.op && r.target == t.target
    decreases |f| - k
  {
    if k == |f| then t else Rename(RenameAll(t, f, iv, k + 1), f[k].target, iv + (|f| - 1 - k))
  }

  /** A jump past the join moves with the block. */
  function Relocate(t: Tac, join: int, shift: int): Tac
  {
    if IsJmp(t.op) && t.target > join then t.(target := t.target + shift) else t
  }

  function Block(code: seq<Tac>, join: nat, f: seq<Entry>, iv: int, k: nat): (r: seq<Tac>)
    requires join <= |code| && k <= |f|
    ensures |r| == |code| - join
    ensures forall x | 0 <= x < |r| :: r[x] == RenameAll(code[join + x], f, iv, k)
  {
    seq(|code| - join, x requires 0 <= x < |code| - join => RenameAll(code[join + x], f, iv, k))
  }

  function Moved(block: seq<Tac>, join: int, shift: int): (r: seq<Tac>)
    ensures |r| == |block|
    ensures forall x | 0 <= x < |r| :: r[x] == Relocate(block[x], join, shift)
  {
    seq(|block|, x requires 0 <= x < |block| => Relocate(block[x], join, shift))
  }

  /** The code after ir_phi_commit of frame f. */
  function After(code: seq<Tac>, loop: bool, join: nat, f: seq<Entry>, iv: int): seq<Tac>
    requires join <= |code|
  {
    if !loop then code + Committed(f, iv, 0)
    else code[..join] + Committed(f, iv, 0) + Moved(Block(code, join, f, iv, 0), join, |f|)
  }

  /** The last entry that stands for x, or -1. */
  function LastFor(f: seq<Entry>, x: int): (k: int)
    ensures -1 <= k < |f| && (k >= 0 ==> f[k].target == x)
    ensures forall j | k < j < |f| :: f[j].target != x
  {
    if f == [] then -1
    else if f[|f| - 1].target == x then |f| - 1
    else LastFor(f[..|f| - 1], x)
  }

  /** A read of x inside the loop: of its phi, if it has one. */
  function Substitute(f: seq<Entry>, iv: int, x: int): int
  {
    var k := LastFor(f, x);
    if k < 0 then x else iv + (|f| - 1 - k)
  }

  /** Operation y is operation x with each operand replaced by its phi, all at once, and its jump
      relocated; the b field of a call is a count and a no-op has no operands. */
  predicate SameOp(x: Tac, y: Tac, f: seq<Entry>, iv: int, join: int)
  {
    && y.op == x.op && y.target == (if IsJmp(x.op) && x.target > join then x.target + |f| else x.target)
    && (if x.op == Noop then y.a == x.a && y.b == x.b
        else y.a == Substitute(f, iv, x.a) && y.b == if x.op == Call then x.b else Substitute(f, iv, x.b))
  }

  /** One renaming after the other comes to the same as all at once, because the phis are fresh. */
  lemma {:induction false} RenamedAtOnce(t: Tac, f: seq<Entry>, iv: int, k: nat)
    requires k <= |f| && t.op != Noop && forall e | e in f :: e.target < iv
    ensures var r, l := RenameAll(t, f, iv, k), LastFor(f, t.a);
            r.a == if l >= k then iv + (|f| - 1 - l) else t.a
    ensures var r, l := RenameAll(t, f, iv, k), LastFor(f, t.b);
            r.b == if l >= k && t.op != Call then iv + (|f| - 1 - l) else t.b
    decreases |f| - k
  {
    if k < |f| {
      RenamedAtOnce(t, f, iv, k + 1);
      assert f[k] in f;
    }
  }

  lemma {:induction false} NoopKept(t: Tac, f: seq<Entry>, iv: int, k: nat)
    requires k <= |f| && t.op == Noop
    ensures RenameAll(t, f, iv, k) == t
    decreases |f| - k
  {
    if k < |f| { NoopKept(t, f, iv, k + 1); }
  }

  lemma RelocatedSame(t: Tac, f: seq<Entry>, iv: int, join: nat)
    requires forall e | e in f :: e.target < iv
    ensures SameOp(t, Relocate(RenameAll(t, f, iv, 0), join, |f|), f, iv, join)
  {
    if t.op == Noop { NoopKept(t, f, iv, 0); } else { RenamedAtOnce(t, f, iv, 0); }
  }

  /** A committed loop under fresh variables: the old block follows the phis in order; the operation
      at the old position p is at p + |f| and reads, for each variable with a phi, that phi; a jump
      to a position after the join still reaches the operation it reached, and a jump to the join
      now reaches the first phi. */
  lemma LoopBlockMoved(code: seq<Tac>, join: nat, f: seq<Entry>, iv: int, p: nat)
    requires join <= p < |code| && forall e | e in f :: e.target < iv
    ensures var r := After(code, true, join, f, iv);
            |r| == |code| + |f| && r[..join] == code[..join] &&
            r[join..join + |f|] == Committed(f, iv, 0) &&
            SameOp(code[p], r[p + |f|], f, iv, join) &&
            (IsJmp(code[p].op) && join < code[p].target < |code| ==>
               SameOp(code[code[p].target], r[r[p + |f|].target], f, iv, join)) &&
            (IsJmp(code[p].op) && code[p].target == join ==> r[p + |f|].target == join)
  {
    hide After, Committed, Block, Moved, RenameAll;
    BlockAt(code, join, f, iv, p);
    RelocatedSame(code[p], f, iv, join);
    if IsJmp(code[p].op) && join < code[p].target < |code| {
      BlockAt(code, join, f, iv, code[p].target);
      RelocatedSame(code[code[p].target], f, iv, join);
    }
  }

  lemma BlockAt(code: seq<Tac>, join: nat, f: seq<Entry>, iv: int, p: nat)
    requires join <= p < |code|
    ensures var r := After(code, true, join, f, iv);
            |r| == |code| + |f| && r[..join] == code[..join] && r[join..join + |f|] == Committed(f, iv, 0) &&
            r[p + |f|] == Relocate(RenameAll(code[p], f, iv, 0), join, |f|)
  {
    var r := After(code, true, join, f, iv);
    var m := Moved(Block(code, join, f, iv, 0), join, |f|);
    assert r[p + |f|] == m[p - join];
  }

  // --- in place -----------------------------------------------------------------------------

  /** The op array of struct ir: code grows up from 0, the phi stack down from the end. */
  class PhiIr {
    const ops: array<Tac>
    const joinPos: array<nat>
    const joinLoop: array<bool>
    var size: nat
    var iphi: nat
    var phidepth: nat
    var iv: int
    ghost var frames: seq<seq<Entry>>

    ghost predicate Valid()
      reads this, ops
    {
      && size <= iphi <= ops.Length && Rep(ops[iphi..], frames)
      && phidepth == |frames| < joinPos.Length == joinLoop.Length
    }

    ghost function Code(): seq<Tac>
      requires size <= ops.Length
      reads this, ops
    {
      ops[..size]
    }

    /** ir_init, for the fields used here */
    constructor (cap: nat, depth: nat, blank: Tac)
      requires depth > 0
      ensures Valid() && frames == [] && Code() == [] && ops.Length == cap && joinPos.Length == depth
      ensures fresh(ops) && fresh(joinPos) && fresh(joinLoop)
    {
      ops := new Tac[cap](_ => blank);
      joinPos := new nat[depth];
      joinLoop := new bool[depth];
      size, iphi, phidepth, iv, frames := 0, cap, 0, 0, [];
    }

    /** ir_op */
    method Emit(t: Tac)
      requires Valid() && size < iphi
      modifies `size, ops
      ensures Valid() && Code() == old(Code()) + [t]
    {
      ghost var r := ops[iphi..];
      ops[size] := t;
      size := size + 1;
      assert ops[iphi..] == r;
    }

    /** ir_phi_begin */
    method Begin(loop: bool)
      requires Valid() && size < iphi && phidepth + 1 < joinPos.Length
      modifies `iphi, `phidepth, `frames, ops, joinPos, joinLoop
      ensures Valid() && frames == [[]] + old(frames) && Code() == old(Code()) && iphi == old(iphi) - 1
      ensures joinPos[phidepth] == size && joinLoop[phidepth] == loop
      ensures forall d | 0 <= d < phidepth :: joinPos[d] == old(joinPos[d]) && joinLoop[d] == old(joinLoop[d])
    {
      ghost var r := ops[iphi..];
      iphi := iphi - 1;
      ops[iphi] := ops[iphi].(op := Noop);
      phidepth := phidepth + 1;
      joinPos[phidepth] := size;
      joinLoop[phidepth] := loop;
      frames := [[]] + frames;
      assert ops[iphi..] == [ops[iphi]] + r;
      assert ops[iphi..][1..] == r && frames[1..] == old(frames);
    }

    /** The search of ir_phi_ins. */
    method Search(was: int) returns (i: nat)
      requires Valid() && phidepth > 0
      ensures i == iphi + Find(frames[0], was) < ops.Length
      ensures ops[i].op == Noop <==> i == iphi + |frames[0]|
    {
      ghost var r, f := ops[iphi..], frames[0];
      RepHead(r, frames);
      hide Rep;
      i := iphi;
      assert r[0] == ops[i];
      while ops[i].op != Noop && !(ops[i].a == was || ops[i].b == was)
        invariant iphi <= i <= iphi + Find(f, was) && r[i - iphi] == ops[i]
        decreases iphi + |f| - i
      {
        i := i + 1;
        assert r[i - iphi] == ops[i];
      }
    }

    /** The write at label `found`, for entry k of the innermost frame. */
    method Replace(i: nat, val: int, ghost k: nat)
      requires Valid() && phidepth > 0 && k < |frames[0]| && i == iphi + k
      modifies `frames, ops
      ensures Valid() && Code() == old(Code()) && forall x | 0 <= x < iphi :: ops[x] == old(ops[x])
      ensures frames == [old(frames)[0][k := old(frames)[0][k].(a := val)]] + old(frames)[1..]
    {
      hide Rep;
      ghost var c, f := ops[..], frames[0];
      RepHead(ops[iphi..], frames);
      RepReplace(ops[iphi..], frames, k, val);
      assert c[iphi..] == ops[iphi..];
      WriteAbove(c, size, iphi, i, c[i].(a := val));
      ops[i] := ops[i].(a := val);
      frames := [f[k := f[k].(a := val)]] + frames[1..];
      assert ops[..] == c[i := c[i].(a := val)];
      assert ops[iphi..] == ops[..][iphi..] && Code() == ops[..][..size];
    }

    /** The writes of ir_phi_ins for an entry not found. */
    method Grow(val: int, was: int)
      requires Valid() && phidepth > 0 && size < iphi
      modifies `iphi, `frames, ops
      ensures Valid() && Code() == old(Code()) && iphi == old(iphi) - 1 && forall x | 0 <= x < iphi ::
          ops[x] == old(ops[x])
      ensures frames == [[Entry(val, was, was)] + old(frames)[0]] + old(frames)[1..]
    {
      hide Rep;
      ghost var c, f := ops[..], frames[0];
      RepGrow(ops[iphi..], frames, Entry(val, was, was));
      assert c[iphi..] == ops[iphi..];
      WriteBelow(c, size, iphi, Tac(Op.Phi, val, was, was));
      iphi := iphi - 1;
      ops[iphi] := Tac(Op.Phi, val, was, was);
      frames := [[Entry(val, was, was)] + f] + frames[1..];
      assert ops[..] == c[iphi := Tac(Op.Phi, val, was, was)];
      assert ops[iphi..] == ops[..][iphi..] && Code() == ops[..][..size];
    }

    /** ir_phi_ins: 1 without an open frame; otherwise the innermost frame is updated in place, or
        grows by one entry below it. */
    method Ins(val: int, was: int) returns (failed: bool)
      requires Valid() && (phidepth > 0 ==> size < iphi)
      modifies `iphi, `frames, ops
      ensures Valid() && failed == (phidepth == 0) && Code() == old(Code())
      ensures phidepth == 0 ==> frames == old(frames)
      ensures phidepth > 0 ==> frames == [Insert(old(frames)[0], val, was)] + old(frames)[1..]
      ensures old(iphi) - 1 <= iphi <= old(iphi) && forall x | 0 <= x < old(iphi) - 1 :: ops[x] == old(ops[x])
    {
      hide Rep, Find;
      if phidepth == 0 { return true; }
      failed := false;
      var i := Search(was);
      if ops[i].op != Noop {
        Replace(i, val, i - iphi);
      } else {
        Grow(val, was);
      }
    }

    /** The renaming loop of a loop commit, over code positions [join, until). */
    method RenameBlock(join: nat, until: nat, was: int, nv: int)
      requires join <= until <= ops.Length
      modifies ops
      ensures ops[..] == RenameRange(old(ops[..]), true, join, until, was, nv)
    {
      var k := join;
      while k < until
        invariant join <= k <= until
        invariant forall x | join <= x < k :: ops[x] == Rename(old(ops[x]), was, nv)
        invariant forall x | 0 <= x < ops.Length && !(join <= x < k) :: ops[x] == old(ops[x])
      {
        if ops[k].op != Noop {
          var t := ops[k];
          if t.a == was { ops[k] := ops[k].(a := nv); }
          if t.b == was && t.op != Call { ops[k] := ops[k].(b := nv); }
        }
        k := k + 1;
      }
    }

    /** The jump loop of a loop commit. */
    method RelocateBlock(join: nat, until: nat, shift: nat)
      requires join <= until <= ops.Length
      modifies ops
      ensures ops[..] == Relocated(old(ops[..]), join, until, shift)
    {
      var k := join;
      while k < until
        invariant join <= k <= until
        invariant forall x | join <= x < k :: ops[x] == Relocate(old(ops[x]), join, shift)
        invariant forall x | 0 <= x < ops.Length && !(join <= x < k) :: ops[x] == old(ops[x])
      {
        if IsJmp(ops[k].op) && ops[k].target > join {
          ops[k] := ops[k].(target := ops[k].target + shift);
        }
        k := k + 1;
      }
    }

    /** memmove of n operations from `from` to `to`. */
    method Copy(to: nat, from: nat, n: nat)
      requires to + n <= ops.Length && from + n <= ops.Length
      modifies ops
      ensures ops[..] == Copied(old(ops[..]), to, from, n)
    {
      forall x | to <= x < to + n { ops[x] := ops[x - to + from]; }
    }

    /** memmove and memcpy of a loop commit: the phis at [until, until+shift) go in front of the
        block at [join, until); the words above serve as scratch space. */
    method Rotate(join: nat, until: nat, shift: nat)
      requires join <= until && until + 2 * shift <= ops.Length
      modifies ops
      ensures ops[..] == Rotated(old(ops[..]), join, until, shift)
    {
      hide Copied, Rotated;
      ghost var c := ops[..];
      Copy(join + shift, join, until - join + shift);
      Copy(join, join + shift + (until - join), shift);
      RotatedIs(c, join, until, shift);
    }

    /** The head of ir_phi_commit: walk to the marker and leave the frame. */
    method PopFrame() returns (i: nat, marker: nat)
      requires Valid() && phidepth > 0
      modifies `iphi, `phidepth, `frames
      ensures Valid() && frames == old(frames)[1..] && i == old(iphi) && marker == i + |old(frames)[0]| &&
          iphi == marker + 1
      ensures forall x | 0 <= x < |old(frames)[0]| :: ops[i + x] == AsTac(old(frames)[0][x])
    {
      hide Rep;
      ghost var r, f := ops[iphi..], frames[0];
      RepHead(r, frames);
      i := iphi;
      marker := i;
      assert r[|f| + 1..] == ops[i + |f| + 1..];
      while ops[marker].op != Noop
        invariant i <= marker <= i + |f|
        decreases i + |f| - marker
      {
        assert r[marker - i] == ops[marker];
        marker := marker + 1;
      }
      assert r[marker - i] == ops[marker];
      iphi := marker + 1;
      phidepth := phidepth - 1;
      frames := frames[1..];
    }

    /** One round of the commit loop, for the entry at position j. */
    method CommitEntry(j: nat, loop: bool, join: nat, until: nat, assignment: array<int>, ghost e: Entry)
      requires Valid() && join <= until <= size < j && j + 2 <= iphi && ops[j] == AsTac(e)
      requires InTable(assignment.Length, e) && 0 <= iv < assignment.Length
      modifies `size, `iphi, `iv, `frames, ops, assignment
      ensures assignment[..] == Renumbered(old(assignment[..]), e, old(iv))
      ensures Valid() && iv == old(iv) + 1 && size == old(size) + 1 && old(iphi) - 1 <= iphi
      ensures frames == if old(frames) == [] then [] else [Insert(old(frames)[0], old(iv), e.target)] + old(frames)[1..]
      ensures Code() == RenameRange(old(Code()), loop, join, until, e.target, old(iv)) +
          [Tac(Op.Phi, e.a, e.b, old(iv))]
      ensures forall x | size <= x < j :: ops[x] == old(ops[x])
    {
      hide Rep, RenameRange;
      ghost var c, p, n := ops[..], iphi, size;
      var was, olda, oldb := ops[j].target, ops[j].a, ops[j].b;
      var nv := iv;
      iv := iv + 1;
      assignment[nv] := assignment[was];
      assignment[was] := nv;
      assignment[olda] := nv;
      assignment[oldb] := nv;
      ghost var cells := assignment[..];
      NoRename(c, join, until, was, nv);
      if loop {
        RenameBlock(join, until, was, nv);
      }
      ghost var r := ops[..];
      WriteEntry(c, r, loop, join, until, n, j, p, e, nv);
      ops[j] := ops[j].(target := nv);
      ops[size] := ops[j];
      size := size + 1;
      assert ops[..] == r[j := Tac(Op.Phi, e.a, e.b, nv)][n := Tac(Op.Phi, e.a, e.b, nv)];
      assert ops[iphi..] == ops[..][p..] && Code() == ops[..][..n + 1];
      assert assignment[..] == cells;
      if phidepth > 0 {
        var _ := Ins(nv, was);
      }
    }

    /** ir_phi_commit: pop the innermost frame, append its phis to the code under fresh variables,
        merge them into the outer frame in place, and for a loop put them in front of its block. */
    method Commit(assignment: array<int>) returns (shift: nat)
      requires Valid() && phidepth > 0 && joinPos[phidepth] <= size
      requires size + 2 * |frames[0]| <= iphi
      requires forall e | e in frames[0] :: InTable(assignment.Length, e)
      requires 0 <= iv && iv + |frames[0]| <= assignment.Length
      modifies `size, `iphi, `phidepth, `iv, `frames, ops, assignment
      ensures assignment[..] == CellsAfter(old(assignment[..]), old(frames)[0], old(iv), 0)
      ensures Valid() && shift == |old(frames)[0]| && iv == old(iv) + shift
      ensures frames == Merge(old(frames)[1..], old(frames)[0], old(iv), 0)
      ensures Code() == After(old(Code()), old(joinLoop[phidepth]), old(joinPos[phidepth]), old(frames)[0], old(iv))
    {
      ghost var f, rest, code, iv0 := frames[0], frames[1..], Code(), iv;
      var loop, join, until := joinLoop[phidepth], joinPos[phidepth], size;
      var i, marker := PopFrame();
      shift := marker - i;
      MergeStep(rest, f, iv0, |f|);
      EntriesStart(code, loop, join, f, iv0);
      CommitEntries(i, marker, loop, join, until, assignment, f, code);
      hide Rep, Merge, Entries, After, Unread;
      if loop && shift > 0 {
        RotateLoop(join, until, shift, f, code, iv0);
      } else {
        EntriesDone(code, loop, join, f, iv0);
      }
    }

    /** The entries of f from k on are committed, the first k still to come. */
    ghost predicate Midway(i: nat, loop: bool, join: nat, assignment: array<int>, f: seq<Entry>, code: seq<Tac>,
                           cells: seq<int>, rest: seq<seq<Entry>>, iv0: int, k: nat)
      reads this, ops, assignment
    {
      && Valid() && join <= |code| && k <= |f| && iphi >= i + k + 1
      && iv == iv0 + (|f| - k) && size == |code| + (|f| - k) && size + |f| + k <= i
      && Unread(ops[..], i, f, k)
      && frames == Merge(rest, f, iv0, k)
      && assignment[..] == CellsAfter(cells, f, iv0, k) && 0 <= iv0 && iv0 + |f| <= assignment.Length
      && (forall e | e in f :: InTable(assignment.Length, e))
      && Code() == Entries(code, loop, join, f, iv0, k)
    }

    method CommitNext(j: nat, loop: bool, join: nat, until: nat, assignment: array<int>, ghost i: nat,
                      ghost f: seq<Entry>,
                      ghost code: seq<Tac>, ghost cells: seq<int>, ghost rest: seq<seq<Entry>>, ghost iv0: int,
                          ghost k: nat)
      requires Midway(i, loop, join, assignment, f, code, cells, rest, iv0, k + 1) && j == i + k && until == |code|
      modifies `size, `iphi, `iv, `frames, ops, assignment
      ensures Midway(i, loop, join, assignment, f, code, cells, rest, iv0, k)
    {
      hide Rep, Merge, Insert, Entries, RenameRange, Unread, CellsAfter, Renumbered, InTable;
      ghost var was := ops[..];
      EntriesStep(code, loop, join, f, iv0, k);
      MergeStep(rest, f, iv0, k);
      CellsStep(cells, f, iv0, k);
      UnreadAt(was, i, f, k);
      CommitEntry(j, loop, join, until, assignment, f[k]);
      UnreadKept(was, ops[..], size, i, f, k);
    }

    /** The commit loop over the entries at [i, marker), last one first. */
    method CommitEntries(i: nat, marker: nat, loop: bool, join: nat, until: nat, assignment: array<int>,
                         ghost f: seq<Entry>, ghost code: seq<Tac>)
      requires Midway(i, loop, join, assignment, f, code, assignment[..], frames, iv, |f|) && marker == i + |f| &&
          until == |code|
      modifies `size, `iphi, `iv, `frames, ops, assignment
      ensures Midway(i, loop, join, assignment, f, code, old(assignment[..]), old(frames), old(iv), 0)
    {
      ghost var rest, iv0, cells := frames, iv, assignment[..];
      hide Midway;
      var j := marker;
      while j > i
        invariant i <= j <= marker && Midway(i, loop, join, assignment, f, code, cells, rest, iv0, j - i)
        modifies `size, `iphi, `iv, `frames, ops, assignment
      {
        j := j - 1;
        CommitNext(j, loop, join, until, assignment, i, f, code, cells, rest, iv0, j - i);
      }
    }

    method RotateLoop(join: nat, until: nat, shift: nat, ghost f: seq<Entry>, ghost code: seq<Tac>, ghost iv0: int)
      requires Valid() && join <= until == |code| && shift == |f| && size == until + shift && until + 2 * shift <= iphi
      requires Code() == Entries(code, true, join, f, iv0, 0)
      modifies ops
      ensures Valid() && Code() == After(code, true, join, f, iv0)
    {
      ghost var c, r := ops[..], ops[iphi..];
      assert r == c[iphi..] && Code() == c[..size];
      RelocateBlock(join, until, shift);
      Rotate(join, until, shift);
      hide Rep, Entries, After, Relocated, Rotated;
      AfterRotation(code, join, f, iv0, c, iphi);
      assert ops[iphi..] == ops[..][iphi..] && Code() == ops[..][..size];
    }
  }

  /** Writes to the array as the code and the stack see them. */
  lemma WriteAbove(c: seq<Tac>, size: nat, p: nat, i: nat, t: Tac)
    requires size <= p <= i < |c|
    ensures c[i := t][p..] == c[p..][i - p := t] && c[i := t][..size] == c[..size]
  {
  }

  lemma WriteBelow(c: seq<Tac>, size: nat, p: nat, t: Tac)
    requires size < p <= |c|
    ensures c[p - 1 := t][p - 1..] == [t] + c[p..] && c[p - 1 := t][..size] == c[..size]
  {
  }

  /** One entry of the stack becomes the next operation. */
  lemma WriteEntry(c: seq<Tac>, r: seq<Tac>, loop: bool, join: nat, until: nat, size: nat, j: nat, p: nat, e: Entry,
                   nv: int)
    requires join <= until <= size < j < p <= |c| && c[j] == AsTac(e)
    requires r == RenameRange(c, loop, join, until, e.target, nv)
    ensures var t := Tac(Op.Phi, e.a, e.b, nv);
            var w := r[j := t][size := t];
            r[j] == AsTac(e) && w[p..] == c[p..] && (forall x | size < x < j :: w[x] == c[x]) &&
            w[..size + 1] == RenameRange(c[..size], loop, join, until, e.target, nv) + [t]
  {
  }

  /** The first k entries of f, at position i of the array, have not been overwritten. */
  ghost predicate Unread(ops: seq<Tac>, i: nat, f: seq<Entry>, k: nat)
  {
    k <= |f| && i + k <= |ops| && forall x | 0 <= x < k :: ops[i + x] == AsTac(f[x])
  }

  lemma UnreadAt(ops: seq<Tac>, i: nat, f: seq<Entry>, k: nat)
    requires Unread(ops, i, f, k + 1)
    ensures k < |f| && i + k < |ops| && ops[i + k] == AsTac(f[k])
  {
  }

  /** Writes below `size` and from entry k upward leave the first k entries alone. */
  lemma UnreadKept(was: seq<Tac>, now: seq<Tac>, size: nat, i: nat, f: seq<Entry>, k: nat)
    requires Unread(was, i, f, k + 1) && |now| == |was| && size <= i
    requires forall x | size <= x < i + k :: now[x] == was[x]
    ensures Unread(now, i, f, k)
  {
  }

  lemma MergeStep(rest: seq<seq<Entry>>, f: seq<Entry>, iv: int, k: nat)
    requires k <= |f|
    ensures k == |f| ==> Merge(rest, f, iv, k) == rest
    ensures k < |f| ==>
              var r := Merge(rest, f, iv, k + 1);
              Merge(rest, f, iv, k) == if r == [] then [] else [Insert(r[0], iv + (|f| - 1 - k), f[k].target)] + r[1..]
  {
  }

  lemma CellsStep(cells: seq<int>, f: seq<Entry>, iv: int, k: nat)
    requires k <= |f|
    ensures k == |f| ==> CellsAfter(cells, f, iv, k) == cells
    ensures k < |f| ==> CellsAfter(cells, f, iv, k) == Renumbered(CellsAfter(cells, f, iv, k + 1), f[k], iv +
        (|f| - 1 - k))
  {
  }

  lemma EntriesStart(code: seq<Tac>, loop: bool, join: nat, f: seq<Entry>, iv: int)
    requires join <= |code|
    ensures Entries(code, loop, join, f, iv, |f|) == code
  {
    assert code == code[..join] + code[join..];
    assert loop ==> Block(code, join, f, iv, |f|) == code[join..];
  }

  function Relocated(c: seq<Tac>, join: nat, until: nat, shift: nat): (r: seq<Tac>)
    requires join <= until <= |c|
    ensures |r| == |c|
    ensures forall x | 0 <= x < |c| :: r[x] == if join <= x < until then Relocate(c[x], join, shift) else c[x]
  {
    seq(|c|, x requires 0 <= x < |c| => if join <= x < until then Relocate(c[x], join, shift) else c[x])
  }

  function Rotated(c: seq<Tac>, join: nat, until: nat, shift: nat): (r: seq<Tac>)
    requires join <= until && until + 2 * shift <= |c|
    ensures |r| == |c|
    ensures forall x | 0 <= x < |c| :: r[x] ==
              if join <= x < join + shift then c[x + (until - join)]
              else if join + shift <= x < until + 2 * shift then c[x - shift] else c[x]
  {
    seq(|c|, x requires 0 <= x < |c| =>
      if join <= x < join + shift then c[x + (until - join)]
      else if join + shift <= x < until + 2 * shift then c[x - shift] else c[x])
  }

  function Copied(c: seq<Tac>, to: nat, from: nat, n: nat): (r: seq<Tac>)
    requires to + n <= |c| && from + n <= |c|
    ensures |r| == |c|
  {
    c[..to] + c[from..from + n] + c[to + n..]
  }

  lemma RotatedIs(c: seq<Tac>, join: nat, until: nat, shift: nat)
    requires join <= until && until + 2 * shift <= |c|
    ensures var m := Copied(c, join + shift, join, until - join + shift);
            Copied(m, join, join + shift + (until - join), shift) == Rotated(c, join, until, shift)
  {
    var m := Copied(c, join + shift, join, until - join + shift);
    var r, q := Copied(m, join, join + shift + (until - join), shift), Rotated(c, join, until, shift);
    assert forall x | 0 <= x < |c| :: r[x] == q[x];
  }

  /** c with positions [join, until) renamed, when the frame belongs to a loop. */
  function RenameRange(c: seq<Tac>, loop: bool, join: nat, until: nat, was: int, nv: int): (r: seq<Tac>)
    requires join <= until <= |c|
    ensures |r| == |c|
    ensures forall x | 0 <= x < |c| :: r[x] == if loop && join <= x < until then Rename(c[x], was, nv) else c[x]
  {
    seq(|c|, x requires 0 <= x < |c| => if loop && join <= x < until then Rename(c[x], was, nv) else c[x])
  }

  lemma NoRename(c: seq<Tac>, join: nat, until: nat, was: int, nv: int)
    requires join <= until <= |c|
    ensures RenameRange(c, false, join, until, was, nv) == c
  {
  }

  /** The code once the entries from k on are committed, before the rotation. */
  function Entries(code: seq<Tac>, loop: bool, join: nat, f: seq<Entry>, iv: int, k: nat): (r: seq<Tac>)
    requires join <= |code| && k <= |f|
    ensures |r| == |code| + |f| - k
  {
    (if loop then code[..join] + Block(code, join, f, iv, k) else code) + Committed(f, iv, k)
  }

  lemma EntriesStep(code: seq<Tac>, loop: bool, join: nat, f: seq<Entry>, iv: int, k: nat)
    requires join <= |code| && k < |f|
    ensures Entries(code, loop, join, f, iv, k) ==
            RenameRange(Entries(code, loop, join, f, iv, k + 1), loop, join, |code|, f[k].target, iv + (|f| - 1 - k)) +
            [Tac(Op.Phi, f[k].a, f[k].b, iv + (|f| - 1 - k))]
  {
    var nv := iv + (|f| - 1 - k);
    var e := Entries(code, loop, join, f, iv, k + 1);
    var r := RenameRange(e, loop, join, |code|, f[k].target, nv) + [Tac(Op.Phi, f[k].a, f[k].b, nv)];
    var g := Entries(code, loop, join, f, iv, k);
    forall x | 0 <= x < |g|
      ensures g[x] == r[x]
    {
    }
  }

  lemma EntriesDone(code: seq<Tac>, loop: bool, join: nat, f: seq<Entry>, iv: int)
    requires join <= |code| && (loop ==> f == [])
    ensures Entries(code, loop, join, f, iv, 0) == After(code, loop, join, f, iv)
  {
    if loop {
      EntriesStart(code, loop, join, f, iv);
      assert code == code[..join] + code[join..];
    }
  }

  /** Relocated, moved up, and with the phis copied in front: the committed loop; the stack above
      position p is where it was. */
  lemma AfterRotation(code: seq<Tac>, join: nat, f: seq<Entry>, iv: int, c: seq<Tac>, p: nat)
    requires join <= |code| && |code| + 2 * |f| <= p <= |c|
    requires c[..|code| + |f|] == Entries(code, true, join, f, iv, 0)
    ensures var r := Rotated(Relocated(c, join, |code|, |f|), join, |code|, |f|);
            r[..|code| + |f|] == After(code, true, join, f, iv) && r[p..] == c[p..]
  {
    var r := Rotated(Relocated(c, join, |code|, |f|), join, |code|, |f|);
    var a, e := After(code, true, join, f, iv), Entries(code, true, join, f, iv, 0);
    assert forall x | 0 <= x < |e| :: c[x] == e[x];
    forall x | 0 <= x < |a|
      ensures r[x] == a[x]
    {
    }
  }
}
