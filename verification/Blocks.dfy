/** The code of a whole run of the parser: what a block's code becomes when the block is committed, and that phis
    apart it is the emitted operations in order. */
module Blocks {
  import opened Ir
  import opened Phi
  import opened Versions
  import opened Symbols
  import opened Parser

  // --- open blocks --------------------------------------------------------------------------

  /** Blocks nest: an inner one begins no earlier than the one around it, and all begin inside the code. */
  ghost predicate Nest(l: Listing)
  {
    && (forall i | 0 <= i < |l.opens| :: l.opens[i].pos <= |l.code|)
    && (forall i, j | 0 <= i < j < |l.opens| :: l.opens[j].pos <= l.opens[i].pos)
  }

  function Depth(p: Table, acts: seq<Act>): nat
  {
    var r := Play(p, Steps(acts));
    if r.At? then |r.p.frames| else 0
  }

  /** The grammar allows every act. */
  ghost predicate Allowed(p: Table, acts: seq<Act>)
  {
    Play(p, Steps(acts)).At?
  }

  lemma Prefix(p: Table, acts: seq<Act>)
    requires acts != [] && Allowed(p, acts)
    ensures var before, a := acts[..|acts| - 1], acts[|acts| - 1];
            && Allowed(p, before) && (a.Take? ==> Legal(Play(p, Steps(before)).p, a.s))
            && Play(p, Steps(acts)).p ==
               if a.Take? then Do(Play(p, Steps(before)).p, a.s) else Play(p, Steps(before)).p
  {
    var before, a := acts[..|acts| - 1], acts[|acts| - 1];
    if a.Take? { StepsSnoc(acts); } else { assert Steps(acts) == Steps(before); }
  }

  lemma DepthNext(p: Table, acts: seq<Act>)
    requires acts != [] && Allowed(p, acts)
    ensures var d, a := Depth(p, acts[..|acts| - 1]), acts[|acts| - 1];
            Depth(p, acts) == if a.Take? && a.s == Begin then d + 1
                              else if a.Take? && a.s == Symbols.Commit then d - 1 else d
  {
    Prefix(p, acts);
    hide Merge, Insert, CellsAfter, Restored;
  }

  lemma {:induction false} Nested(p: Table, l: Listing, acts: seq<Act>)
    requires Allowed(p, acts) && |l.opens| == |p.frames| && Nest(l)
    ensures var r := ListingAfter(p, l, acts);
            Nest(r) && |r.opens| == Depth(p, acts)
  {
    if acts != [] {
      Prefix(p, acts);
      DepthNext(p, acts);
      Nested(p, l, acts[..|acts| - 1]);
      NextNests(Play(p, Steps(acts[..|acts| - 1])).p, ListingAfter(p, l, acts[..|acts| - 1]), acts[|acts| - 1]);
    }
  }

  lemma NextNests(p: Table, l: Listing, a: Act)
    requires Nest(l) && |l.opens| == |p.frames| && (a.Take? ==> Legal(p, a.s))
    ensures var r := Next(p, l, a);
            && Nest(r)
            && |r.opens| == if a.Take? && a.s == Begin then |l.opens| + 1
                            else if a.Take? && a.s == Symbols.Commit then |l.opens| - 1 else |l.opens|
  {
    if a.Take? && a.s == Symbols.Commit { AfterSize(l.code, l.opens[0].loop, l.opens[0].pos, p.frames[0], p.iv); }
    hide After, Legal;
  }

  /** The block that act i begins is open after all of the acts. */
  ghost predicate StaysOpen(p: Table, acts: seq<Act>, i: nat)
  {
    && i < |acts| && acts[i].Take? && acts[i].s == Begin
    && forall j | i < j <= |acts| :: Depth(p, acts[..j]) > Depth(p, acts[..i])
  }

  lemma StaysOpenPrefix(p: Table, acts: seq<Act>, i: nat)
    requires StaysOpen(p, acts, i) && i + 1 < |acts|
    ensures StaysOpen(p, acts[..|acts| - 1], i)
    ensures acts[..|acts| - 1][..i] == acts[..i] && acts[..|acts|] == acts
    ensures Depth(p, acts) > Depth(p, acts[..i])
  {
    hide Depth;
    var before := acts[..|acts| - 1];
    assert before[..i] == acts[..i] && acts[..|acts|] == acts;
    forall j | i < j <= |before|
      ensures Depth(p, before[..j]) > Depth(p, before[..i])
    {
      assert before[..j] == acts[..j];
    }
  }

  /** It is there with its flag and its position, and the code in front of it is as it was. */
  lemma {:induction false} InsideBlock(p: Table, l: Listing, acts: seq<Act>, i: nat)
    requires Allowed(p, acts) && |l.opens| == |p.frames| && Nest(l) && StaysOpen(p, acts, i)
    ensures Allowed(p, acts[..i])
    ensures var was, now := ListingAfter(p, l, acts[..i]), ListingAfter(p, l, acts);
            OpenAt(now, |was.opens|, acts[i].loop, was.code)
  {
    var before := acts[..|acts| - 1];
    Prefix(p, acts);
    Nested(p, l, before);
    if |acts| == i + 1 {
      assert before == acts[..i];
    } else {
      StaysOpenPrefix(p, acts, i);
      InsideBlock(p, l, before, i);
      Nested(p, l, acts[..i]);
      DepthNext(p, acts);
      var q := Play(p, Steps(before)).p;
      OpenStays(q, ListingAfter(p, l, before), acts[|acts| - 1], Depth(p, acts[..i]), acts[i].loop,
                ListingAfter(p, l, acts[..i]).code);
    }
  }

  /** The block of depth d + 1 began with this flag, after this code. */
  ghost predicate OpenAt(l: Listing, d: nat, loop: bool, code: seq<Tac>)
  {
    d < |l.opens| && l.opens[|l.opens| - 1 - d] == Open(loop, |code|) && code <= l.code
  }

  lemma OpenStays(p: Table, l: Listing, a: Act, d: nat, loop: bool, code: seq<Tac>)
    requires Nest(l) && |l.opens| == |p.frames| && (a.Take? ==> Legal(p, a.s)) && OpenAt(l, d, loop, code)
    requires a.Take? && a.s == Symbols.Commit ==> d < |l.opens| - 1
    ensures OpenAt(Next(p, l, a), d, loop, code)
  {
    if a.Take? && a.s == Symbols.Commit {
      var o := l.opens[0];
      assert l.opens[|l.opens| - 1 - d].pos <= o.pos;
      AfterKeeps(l.code, o.loop, o.pos, p.frames[0], p.iv);
      assert After(l.code, o.loop, o.pos, p.frames[0], p.iv)[..|code|] ==
             After(l.code, o.loop, o.pos, p.frames[0], p.iv)[..o.pos][..|code|] == l.code[..o.pos][..|code|];
    }
    hide After;
  }

  lemma AfterKeeps(code: seq<Tac>, loop: bool, join: nat, f: seq<Entry>, iv: int)
    requires join <= |code|
    ensures |After(code, loop, join, f, iv)| == |code| + |f| && After(code, loop, join, f, iv)[..join] == code[..join]
  {
    AfterSize(code, loop, join, f, iv);
  }

  // --- a committed block --------------------------------------------------------------------

  /** The phis of frame f, the last entry's first, under the variables from iv on: each joins the latest version of a
      variable with the one the block began with, or with that of the other branch. */
  ghost predicate PhisAt(code: seq<Tac>, pos: nat, f: seq<Entry>, iv: int)
  {
    && pos + |f| <= |code|
    && forall k | 0 <= k < |f| :: code[pos + (|f| - 1 - k)] == Tac(Op.Phi, f[k].a, f[k].b, iv + (|f| - 1 - k))
  }

  lemma {:induction false} CommittedAre(f: seq<Entry>, iv: int, k: nat)
    requires k <= |f|
    ensures forall x | k <= x < |f| ::
              Committed(f, iv, k)[|f| - 1 - x] == Tac(Op.Phi, f[x].a, f[x].b, iv + (|f| - 1 - x))
    decreases |f| - k
  {
    if k < |f| { CommittedAre(f, iv, k + 1); }
  }

  /** A jump of the block still leads to the operation it led to, or, from the join, to the first phi. */
  ghost predicate SameJump(was: seq<Tac>, now: seq<Tac>, f: seq<Entry>, iv: int, join: nat, x: nat)
    requires x < |was| && x + |f| < |now|
  {
    IsJmp(was[x].op) ==>
      && (join < was[x].target < |was| ==>
            var to := now[x + |f|].target;
            0 <= to < |now| && SameOp(was[was[x].target], now[to], f, iv, join))
      && (was[x].target == join ==> now[x + |f|].target == join)
  }

  /** What committing frame f makes of the code of its block, which began at position join: a loop's phis come in
      front of it, and it reads them; a conditional's come behind it. */
  ghost predicate BlockDone(loop: bool, was: seq<Tac>, now: seq<Tac>, join: nat, f: seq<Entry>, iv: int)
  {
    && join <= |was| && |now| == |was| + |f| && now[..join] == was[..join]
    && (loop ==>
          && PhisAt(now, join, f, iv)
          && forall x | join <= x < |was| ::
               SameOp(was[x], now[x + |f|], f, iv, join) && SameJump(was, now, f, iv, join, x))
    && (!loop ==> was <= now && PhisAt(now, |was|, f, iv))
  }

  lemma AfterIsDone(code: seq<Tac>, loop: bool, join: nat, f: seq<Entry>, iv: int)
    requires join <= |code| && forall e | e in f :: e.target < iv
    ensures BlockDone(loop, code, After(code, loop, join, f, iv), join, f, iv)
  {
    var now := After(code, loop, join, f, iv);
    AfterKeeps(code, loop, join, f, iv);
    CommittedAre(f, iv, 0);
    if loop {
      assert now[join..join + |f|] == Committed(f, iv, 0);
      hide After, Committed, SameOp;
      forall x | join <= x < |code|
        ensures SameOp(code[x], now[x + |f|], f, iv, join) && SameJump(code, now, f, iv, join, x)
      {
        LoopBlockMoved(code, join, f, iv, x);
        JumpsSame(code, now, join, f, iv, x);
      }
    }
  }

  lemma JumpsSame(code: seq<Tac>, now: seq<Tac>, join: nat, f: seq<Entry>, iv: int, x: nat)
    requires join <= x < |code| && now == After(code, true, join, f, iv) && forall e | e in f :: e.target < iv
    ensures |now| == |code| + |f| && SameJump(code, now, f, iv, join, x)
  {
    LoopBlockMoved(code, join, f, iv, x);
    hide After, Committed;
  }

  /** Over a whole run: when the last act commits the block that act i began, the code in front of the block is as it
      was then, and the block's own code, with all blocks inside it committed, is done with as the flag of its
      begin says. */
  lemma BlockCommitted(p: Table, l: Listing, acts: seq<Act>, i: nat)
    requires Allowed(p, acts) && Shape(p) && |l.opens| == |p.frames| && Nest(l) && acts != []
    requires var before, a := acts[..|acts| - 1], acts[|acts| - 1];
             && StaysOpen(p, before, i) && a.Take? && a.s == Symbols.Commit
             && Depth(p, before) == Depth(p, before[..i]) + 1
    ensures var before := acts[..|acts| - 1];
            var q, was := Play(p, Steps(before)), ListingAfter(p, l, before).code;
            var begin := ListingAfter(p, l, before[..i]).code;
            && q.At? && q.p.frames != [] && begin <= was
            && BlockDone(acts[i].loop, was, ListingAfter(p, l, acts).code, |begin|, q.p.frames[0], q.p.iv)
  {
    hide After, BlockDone, Shape, Do, Legal, ListingAfter, Next, Play, Merge, Insert;
    var before := acts[..|acts| - 1];
    Prefix(p, acts);
    Nested(p, l, before);
    InsideBlock(p, l, before, i);
    Nested(p, l, before[..i]);
    var q, now := Play(p, Steps(before)).p, ListingAfter(p, l, before);
    RunShape(p, Steps(before));
    TargetsBelow(q);
    CommitIs(p, l, acts);
    AfterIsDone(now.code, now.opens[0].loop, now.opens[0].pos, q.frames[0], q.iv);
  }

  lemma CommitIs(p: Table, l: Listing, acts: seq<Act>)
    requires acts != [] && acts[|acts| - 1].Take? && acts[|acts| - 1].s == Symbols.Commit
    requires Allowed(p, acts[..|acts| - 1])
    ensures var q, now := Play(p, Steps(acts[..|acts| - 1])).p, ListingAfter(p, l, acts[..|acts| - 1]);
            q.frames != [] && now.opens != [] && now.opens[0].pos <= |now.code| ==>
              ListingAfter(p, l, acts).code ==
              After(now.code, now.opens[0].loop, now.opens[0].pos, q.frames[0], q.iv)
  {
    hide After;
  }

  lemma {:induction false} RunShape(p: Table, steps: seq<Step>)
    requires Shape(p) && Play(p, steps).At?
    ensures Shape(Play(p, steps).p)
  {
    if steps != [] {
      RunShape(p, steps[..|steps| - 1]);
      StepShape(Play(p, steps[..|steps| - 1]).p, steps[|steps| - 1]);
    }
  }

  lemma TargetsBelow(p: Table)
    requires Shape(p) && p.frames != []
    ensures forall e | e in p.frames[0] :: e.target < p.iv
  {
    forall e | e in p.frames[0]
      ensures e.target < p.iv
    {
      var i :| 0 <= i < |p.frames[0]| && p.frames[0][i] == e;
      assert EntryShape(p.modes[0], p.syms, p.iv, p.frames[0][i]);
    }
  }

  // --- the emitted operations ---------------------------------------------------------------

  function Emitted(acts: seq<Act>): seq<Tac>
  {
    if acts == [] then []
    else
      var a := acts[|acts| - 1];
      Emitted(acts[..|acts| - 1]) + if a.Emit? then [a.t] else []
  }

  /** The operations that are no phis. */
  function Proper(code: seq<Tac>): seq<Tac>
  {
    if code == [] then []
    else
      var t := code[|code| - 1];
      Proper(code[..|code| - 1]) + if t.op == Op.Phi then [] else [t]
  }

  /** The same operations with the same results; operands and the targets of jumps may differ. */
  predicate Alike(x: Tac, y: Tac)
  {
    x.op == y.op && (!IsJmp(x.op) ==> x.target == y.target)
  }

  ghost predicate AllAlike(a: seq<Tac>, b: seq<Tac>)
  {
    |a| == |b| && forall x | 0 <= x < |a| :: Alike(a[x], b[x])
  }

  lemma {:induction false} ProperAppend(a: seq<Tac>, b: seq<Tac>)
    ensures Proper(a + b) == Proper(a) + Proper(b)
  {
    if b == [] {
      assert a + b == a;
    } else {
      assert (a + b)[..|a + b| - 1] == a + b[..|b| - 1];
      ProperAppend(a, b[..|b| - 1]);
    }
  }

  lemma {:induction false} ProperAlike(a: seq<Tac>, b: seq<Tac>)
    requires AllAlike(a, b)
    ensures AllAlike(Proper(a), Proper(b))
  {
    if a != [] { ProperAlike(a[..|a| - 1], b[..|b| - 1]); }
  }

  lemma {:induction false} NoProper(a: seq<Tac>)
    requires forall x | 0 <= x < |a| :: a[x].op == Op.Phi
    ensures Proper(a) == []
  {
    if a != [] { NoProper(a[..|a| - 1]); }
  }

  lemma {:induction false} CommittedArePhis(f: seq<Entry>, iv: int, k: nat)
    requires k <= |f|
    ensures forall x | 0 <= x < |Committed(f, iv, k)| :: Committed(f, iv, k)[x].op == Op.Phi
    decreases |f| - k
  {
    if k < |f| { CommittedArePhis(f, iv, k + 1); }
  }

  lemma MovedAlike(code: seq<Tac>, join: nat, f: seq<Entry>, iv: int)
    requires join <= |code|
    ensures AllAlike(code[join..], Moved(Block(code, join, f, iv, 0), join, |f|))
  {
    hide RenameAll;
  }

  lemma ProperInsert(a: seq<Tac>, phis: seq<Tac>, b: seq<Tac>)
    requires forall x | 0 <= x < |phis| :: phis[x].op == Op.Phi
    ensures Proper(a + phis + b) == Proper(a) + Proper(b)
  {
    hide Proper;
    NoProper(phis);
    ProperAppend(a + phis, b);
    ProperAppend(a, phis);
  }

  /** A commit adds phis and nothing else. */
  lemma AfterProper(code: seq<Tac>, loop: bool, join: nat, f: seq<Entry>, iv: int)
    requires join <= |code|
    ensures AllAlike(Proper(code), Proper(After(code, loop, join, f, iv)))
  {
    hide Proper, Committed, Moved, Block, Alike;
    CommittedArePhis(f, iv, 0);
    if loop {
      var block := Moved(Block(code, join, f, iv, 0), join, |f|);
      ProperAppend(code[..join], code[join..]);
      assert code[..join] + code[join..] == code;
      ProperInsert(code[..join], Committed(f, iv, 0), block);
      MovedAlike(code, join, f, iv);
      ProperAlike(code[join..], block);
      AlikeSelf(Proper(code[..join]));
    } else {
      ProperInsert(code, Committed(f, iv, 0), []);
      assert code + Committed(f, iv, 0) + [] == code + Committed(f, iv, 0);
      NoProper([]);
      AlikeSelf(Proper(code));
    }
  }

  lemma AlikeSelf(a: seq<Tac>)
    ensures AllAlike(a, a)
  {
  }

  /** Over a whole run, without its phis the code is the emitted operations in order: none is lost or doubled and none
      changes places, whatever was moved. */
  lemma {:induction false} EmittedKept(p: Table, l: Listing, acts: seq<Act>)
    requires Allowed(p, acts) && |l.opens| == |p.frames| && Nest(l) && l.code == []
    requires forall a | a in acts && a.Emit? :: a.t.op != Op.Phi
    ensures AllAlike(Emitted(acts), Proper(ListingAfter(p, l, acts).code))
  {
    if acts != [] {
      var before, a := acts[..|acts| - 1], acts[|acts| - 1];
      Prefix(p, acts);
      Nested(p, l, before);
      EmittedKept(p, l, before);
      ActKept(Play(p, Steps(before)).p, ListingAfter(p, l, before), a, Emitted(before));
      hide Next, AllAlike;
    }
  }

  lemma ActKept(p: Table, l: Listing, a: Act, emitted: seq<Tac>)
    requires Nest(l) && |l.opens| == |p.frames| && AllAlike(emitted, Proper(l.code))
    requires (a.Take? ==> Legal(p, a.s)) && (a.Emit? ==> a.t.op != Op.Phi)
    ensures AllAlike(emitted + (if a.Emit? then [a.t] else []), Proper(Next(p, l, a).code))
  {
    hide After;
    if a.Emit? {
      assert (l.code + [a.t])[..|l.code|] == l.code;
    } else if a.s == Symbols.Commit {
      AfterProper(l.code, l.opens[0].loop, l.opens[0].pos, p.frames[0], p.iv);
    }
    assert emitted + [] == emitted;
  }
}
