/** Runs of the parser in which every commit and every else branch is about symbols under their own
    numbers, and what each step of them keeps: blocks with histories that the frames follow. And what happens
    in other runs. */
module Tracking {
  import opened Ir
  import opened Phi
  import opened Versions
  import opened Symbols

  // --- outside the condition ----------------------------------------------------------------

  function Zeros(n: nat): seq<int> { seq(n, _ => 0) }

  /** `local x = 0; while c do x = 1; if a then x = 2 end; x = 3 end`, up to the end of the body. */
  const NESTED: seq<Step> := [Declare, Begin, Fresh, Reassign(0), Begin, Fresh, Reassign(0), Commit, Reassign(0)]

  /** The inner commit makes phi 5 of versions 4 and 2, but the cell of x stays at 4; the next
      assignment supersedes 4, which the loop's frame does not know. One variable has two entries,
      and the one for its version on entry ends at 5 although the latest version is 6. */
  lemma StaleCell()
    ensures var r := Play(Start(8, Zeros(8)), NESTED[..8]);
            r.At? && r.p.frames == [[Entry(5, 0, 0)]] && Cell(r.p.cells, 0) == 4
    ensures var r := Play(Start(8, Zeros(8)), NESTED);
            r.At? && r.p.frames == [[Entry(6, 4, 4), Entry(5, 0, 0)]] && Cell(r.p.cells, 0) == 6
  {
    var p0 := Start(8, Zeros(8));
    var p3, p4, p6, p7 := NestedOuter(p0);
    NestedInner(p7);
    PlayNested(p0, p3, p4, p6, p7, Do(p7, Commit));
  }

  /** In the body of the inner conditional. */
  predicate InInner(p: Table)
  {
    && p.frames == [[Entry(4, 2, 2)], [Entry(2, 0, 0)]] && p.modes == [Straight, Straight] && |p.scopes| == 3 &&
        0 in p.syms
    && p.iv == 5 && |p.cells| == 8 && Cell(p.cells, 0) == 4 && Cell(p.levels, 4) == 0
  }

  lemma NestedOuter(p0: Table) returns (p3: Table, p4: Table, p6: Table, p7: Table)
    requires p0 == Start(8, Zeros(8))
    ensures Legal(p0, Declare) && Legal(Do(p0, Declare), Begin) && Legal(Do(Do(p0, Declare), Begin), Fresh)
    ensures p3 == Do(Do(Do(p0, Declare), Begin), Fresh) && Legal(p3, Reassign(0)) && p4 == Do(p3, Reassign(0))
    ensures Legal(p4, Begin) && Legal(Do(p4, Begin), Fresh) && p6 == Do(Do(p4, Begin), Fresh)
    ensures Legal(p6, Reassign(0)) && p7 == Do(p6, Reassign(0)) && InInner(p7)
  {
    p3 := Do(Do(Do(p0, Declare), Begin), Fresh);
    assert p3.frames == [[]] && p3.iv == 2 && p3.modes == [Straight];
    hide Insert;
    p4 := Do(p3, Reassign(0));
    InsertNew([], 2, 0);
    assert [Entry(2, 0, 0)] + [] == [Entry(2, 0, 0)] && p3.frames[0] == [] && p3.frames[1..] == [];
    assert Recorded(p3, 0) && p4.frames == [Insert([], 2, 0)] + [];
    assert p4.frames == [[Entry(2, 0, 0)]] && p4.iv == 3 && Cell(p4.cells, 0) == 2 && Cell(p4.levels, 2) == 0;
    p6 := Do(Do(p4, Begin), Fresh);
    assert p6.frames == [[], [Entry(2, 0, 0)]] && p6.iv == 4 && p6.modes == [Straight, Straight];
    p7 := Do(p6, Reassign(0));
    InsertNew([], 4, 2);
    assert [Entry(4, 2, 2)] + [] == [Entry(4, 2, 2)] && p6.frames[0] == [] && p6.frames[1..] == [[Entry(2, 0, 0)]];
    assert Recorded(p6, 2) && p7.frames == [Insert([], 4, 2)] + [[Entry(2, 0, 0)]];
  }

  lemma NestedInner(p7: Table)
    requires InInner(p7)
    ensures Legal(p7, Commit) && Legal(Do(p7, Commit), Reassign(0))
    ensures var p8 := Do(p7, Commit);
            p8.frames == [[Entry(5, 0, 0)]] && Cell(p8.cells, 0) == 4 &&
            var p9 := Do(p8, Reassign(0)); p9.frames == [[Entry(6, 4, 4), Entry(5, 0, 0)]] && Cell(p9.cells, 0) == 6
  {
    hide Insert, Merge, CellsAfter;
    var p8 := Do(p7, Commit);
    CommitOne(p7.frames[1..], Entry(4, 2, 2), 5, p7.cells);
    InsertFound(Entry(2, 0, 0), 5, 2);
    assert p7.frames[1..] == [[Entry(2, 0, 0)]] && p7.frames[1..][1..] == [];
    assert p8.frames == [[Entry(5, 0, 0)]] && Cell(p8.cells, 0) == 4 && p8.iv == 6;
    var p9 := Do(p8, Reassign(0));
    InsertNew([Entry(5, 0, 0)], 6, 4);
    assert [Entry(6, 4, 4)] + [Entry(5, 0, 0)] == [Entry(6, 4, 4), Entry(5, 0, 0)];
    assert Recorded(p8, 4) && p9.frames == [Insert([Entry(5, 0, 0)], 6, 4)] + [];
  }

  lemma InsertNew(f: seq<Entry>, val: int, was: int)
    requires forall i | 0 <= i < |f| :: f[i].a != was && f[i].b != was
    ensures Insert(f, val, was) == [Entry(val, was, was)] + f
  {
  }

  lemma InsertFound(e: Entry, val: int, was: int)
    requires e.a == was
    ensures Insert([e], val, was) == [e.(a := val)]
  {
  }

  lemma CommitOne(rest: seq<seq<Entry>>, e: Entry, iv: int, cells: seq<int>)
    ensures Merge(rest, [e], iv, 0) == if rest == [] then [] else [Insert(rest[0], iv, e.target)] + rest[1..]
    ensures CellsAfter(cells, [e], iv, 0) == Renumbered(cells, e, iv)
  {
    MergeStep(rest, [e], iv, 0);
    MergeStep(rest, [e], iv, 1);
    CellsStep(cells, [e], iv, 0);
    CellsStep(cells, [e], iv, 1);
  }

  lemma PlayNested(p0: Table, p3: Table, p4: Table, p6: Table, p7: Table, p8: Table)
    requires Legal(p0, Declare) && Legal(Do(p0, Declare), Begin) && Legal(Do(Do(p0, Declare), Begin), Fresh)
    requires p3 == Do(Do(Do(p0, Declare), Begin), Fresh) && Legal(p3, Reassign(0)) && p4 == Do(p3, Reassign(0))
    requires Legal(p4, Begin) && Legal(Do(p4, Begin), Fresh) && p6 == Do(Do(p4, Begin), Fresh)
    requires Legal(p6, Reassign(0)) && p7 == Do(p6, Reassign(0)) && Legal(p7, Commit) && p8 == Do(p7, Commit) &&
        Legal(p8, Reassign(0))
    ensures Play(p0, NESTED[..8]) == At(p8) && Play(p0, NESTED) == At(Do(p8, Reassign(0)))
  {
    hide Do, Legal;
    forall i | 0 <= i < 9
      ensures NESTED[..i + 1][..i] == NESTED[..i] && NESTED[..i + 1][i] == NESTED[i]
    {
    }
    assert Play(p0, NESTED[..0]) == At(p0);
    assert Play(p0, NESTED[..1]) == At(Do(p0, Declare));
    assert Play(p0, NESTED[..2]) == At(Do(Do(p0, Declare), Begin));
    assert Play(p0, NESTED[..3]) == At(p3);
    assert Play(p0, NESTED[..4]) == At(p4);
    assert Play(p0, NESTED[..5]) == At(Do(p4, Begin));
    assert Play(p0, NESTED[..6]) == At(p6);
    assert Play(p0, NESTED[..7]) == At(p7);
    assert Play(p0, NESTED[..8]) == At(p8);
    assert NESTED[..9] == NESTED;
  }

  lemma Extend(p: Table, steps: seq<Step>, s: Step, all: seq<Step>)
    requires all == steps + [s]
    ensures var r := Play(p, steps); Play(p, all) == if r.At? && Legal(r.p, s) then At(Do(r.p, s)) else Illegal
  {
    assert all[..|steps|] == steps;
  }

  /** `local x = 0; x = 1; if a then x = 2 else ... `: the symbol's own number is 0, the version on entry
      1, so the else branch starts with the cell at the first branch's version. */
  lemma ElseReadsOtherBranch()
    ensures var r := Play(Start(8, Zeros(8)), [Declare, Reassign(0), Begin, Reassign(0), Else]);
            r.At? && r.p.frames == [[Entry(1, 1, 2)]] && Cell(r.p.cells, 0) == 2
  {
    var p0 := Start(8, Zeros(8));
    assert Play(p0, []) == At(p0);
    Extend(p0, [], Declare, [Declare]);
    Extend(p0, [Declare], Reassign(0), [Declare, Reassign(0)]);
    Extend(p0, [Declare, Reassign(0)], Begin, [Declare, Reassign(0), Begin]);
    Extend(p0, [Declare, Reassign(0), Begin], Reassign(0), [Declare, Reassign(0), Begin, Reassign(0)]);
    Extend(p0, [Declare, Reassign(0), Begin, Reassign(0)], Else, [Declare, Reassign(0), Begin, Reassign(0), Else]);
    ElseTables(p0);
  }

  lemma ElseTables(p0: Table)
    requires p0 == Start(8, Zeros(8))
    ensures Legal(p0, Declare) && Legal(Do(p0, Declare), Reassign(0)) && Legal(Do(Do(p0, Declare), Reassign(0)), Begin)
    ensures var p3 := Do(Do(Do(p0, Declare), Reassign(0)), Begin);
            Legal(p3, Reassign(0)) && Legal(Do(p3, Reassign(0)), Else) &&
            var r := Do(Do(p3, Reassign(0)), Else); r.frames == [[Entry(1, 1, 2)]] && Cell(r.cells, 0) == 2
  {
    hide Insert, Restored;
    var p2 := Do(Do(p0, Declare), Reassign(0));
    assert p2.iv == 2 && Cell(p2.cells, 0) == 1 && Cell(p2.levels, 1) == 0;
    var p3 := Do(p2, Begin);
    assert p3.frames[0] == [] && p3.frames[1..] == [];
    var p4 := Do(p3, Reassign(0));
    InsertNew([], 2, 1);
    assert [Entry(2, 1, 1)] + [] == [Entry(2, 1, 1)];
    assert Recorded(p3, 1) && p4.frames == [Insert([], 2, 1)] + [];
    assert Turned([Entry(2, 1, 1)]) == [Entry(1, 1, 2)];
    RestoredCells(p4.cells, [Entry(2, 1, 1)], 0);
  }

  /** `sym_cdepth` of a phi is never written, and lua_loadstring leaves the parser's arrays as they
      happen to be. With a 1 there, the last assignment of
      `local x = 0; while true do if true then x = 2 end; x = 3 end` is not put into the loop's frame. */
  lemma LeftoverLevel()
    ensures var r := Play(Start(8, Zeros(8)[2 := 1]), [Declare, Begin, Begin, Reassign(0), Commit, Reassign(0)]);
            r.At? && r.p.frames == [[Entry(2, 0, 0)]] && Cell(r.p.cells, 0) == 3
  {
    var p0 := Start(8, Zeros(8)[2 := 1]);
    assert Play(p0, []) == At(p0);
    Extend(p0, [], Declare, [Declare]);
    Extend(p0, [Declare], Begin, [Declare, Begin]);
    Extend(p0, [Declare, Begin], Begin, [Declare, Begin, Begin]);
    Extend(p0, [Declare, Begin, Begin], Reassign(0), [Declare, Begin, Begin, Reassign(0)]);
    Extend(p0, [Declare, Begin, Begin, Reassign(0)], Commit, [Declare, Begin, Begin, Reassign(0), Commit]);
    Extend(p0, [Declare, Begin, Begin, Reassign(0), Commit], Reassign(0),
        [Declare, Begin, Begin, Reassign(0), Commit, Reassign(0)]);
    LeftoverTables(p0);
  }

  lemma LeftoverTables(p0: Table)
    requires p0 == Start(8, Zeros(8)[2 := 1])
    ensures Legal(p0, Declare) && Legal(Do(p0, Declare), Begin) && Legal(Do(Do(p0, Declare), Begin), Begin)
    ensures var p3 := Do(Do(Do(p0, Declare), Begin), Begin);
            Legal(p3, Reassign(0)) && Legal(Do(p3, Reassign(0)), Commit) &&
                Legal(Do(Do(p3, Reassign(0)), Commit), Reassign(0)) &&
            var r := Do(Do(Do(p3, Reassign(0)), Commit), Reassign(0));
            r.frames == [[Entry(2, 0, 0)]] && Cell(r.cells, 0) == 3
  {
    var p3 := Do(Do(Do(p0, Declare), Begin), Begin);
    assert p3.frames[0] == [] && p3.frames[1..] == [[]] && p3.iv == 1 && Cell(p3.cells, 0) == 0 &&
        Cell(p3.levels, 0) == 0;
    var p4 := Do(p3, Reassign(0));
    InsertNew([], 1, 0);
    assert [Entry(1, 0, 0)] + [] == [Entry(1, 0, 0)];
    assert Recorded(p3, 0) && p4.frames == [Insert([], 1, 0)] + [[]];
    assert p4.frames[0] == [Entry(1, 0, 0)] && p4.frames[1..] == [[]] && p4.iv == 2 && Cell(p4.levels, 2) == 1;
    hide Insert, Merge, CellsAfter;
    CommitOne([[]], Entry(1, 0, 0), 2, p4.cells);
    InsertNew([], 2, 0);
    assert [Entry(2, 0, 0)] + [] == [Entry(2, 0, 0)];
    var p5 := Do(p4, Commit);
    assert p5.frames == [[Entry(2, 0, 0)]] && Cell(p5.cells, 0) == 2 && p5.iv == 3;
    assert !Recorded(p5, 2);
  }

  // --- inside the condition -----------------------------------------------------------------

  /** What a block knows beside its frame: the version of each symbol on entry, and the histories of
      its two branches. */
  datatype Level = Level(start: map<int, int>, g: seq<Assign>, h: seq<Assign>)

  /** The versions a set of symbols has: distinct ones, and no symbol's own number but their own. */
  ghost predicate TableOk(cur: map<int, int>, iv: int)
  {
    && (forall r | r in cur :: 0 <= r < iv && 0 <= cur[r] < iv && (cur[r] == r || cur[r] !in cur))
    && (forall r, q | r in cur && q in cur && cur[r] == cur[q] :: r == q)
  }

  /** What the frame of a block says, according to where the parser is in it. */
  ghost predicate FrameMeans(mode: Mode, g: seq<Assign>, h: seq<Assign>, f: seq<Entry>)
  {
    match mode
    case Straight => g == [] && Tracks([], h, f)
    case InElse => Tracks(g, h, f)
    case Closed => Joins(g, h, f)
  }

  ghost predicate Histories(g: seq<Assign>, h: seq<Assign>, syms: set<int>, iv: int)
  {
    && Versioned(g) && Versioned(h) && Separate(g, h) && Below(g, iv) && Below(h, iv)
    && (forall i | 0 <= i < |g| :: g[i].val !in syms) && (forall i | 0 <= i < |h| :: h[i].val !in syms)
  }

  /** The current version of symbol r is the latest one in this block of its version on entry. */
  ghost predicate SymbolOk(l: Level, cur: map<int, int>, r: int)
  {
    r in l.start && r in cur && Original(l.g, l.start[r]) && Original(l.h, l.start[r]) &&
        cur[r] == Latest(l.h, l.start[r])
  }

  ghost predicate OnEntry(start: map<int, int>, x: int)
  {
    exists r :: r in start && start[r] == x
  }

  /** Every entry of the frame is about some symbol's version on entry. */
  ghost predicate RootsKnown(l: Level, mode: Mode, f: seq<Entry>)
  {
    forall i | 0 <= i < |f| :: OnEntry(l.start, Root(mode, f[i]))
  }

  ghost predicate LevelOk(l: Level, mode: Mode, f: seq<Entry>, cur: map<int, int>, iv: int)
  {
    && l.start.Keys == cur.Keys && Histories(l.g, l.h, cur.Keys, iv) && FrameMeans(mode, l.g, l.h, f)
    && (forall r | r in cur :: SymbolOk(l, cur, r)) && RootsKnown(l, mode, f)
  }

  /** The versions made in the block, and the versions on entry of the symbols that existed then, were
      made at a smaller depth, which is what makes `Recorded` true of their symbols. */
  ghost predicate DepthOk(l: Level, scope: set<int>, levels: seq<int>, d: nat)
  {
    && (forall i | 0 <= i < |l.g| :: Cell(levels, l.g[i].val) < d) &&
        (forall i | 0 <= i < |l.h| :: Cell(levels, l.h[i].val) < d)
    && (forall r | r in scope && r in l.start :: Cell(levels, l.start[r]) < d)
  }

  /** No block around has assigned r. */
  ghost predicate Untouched(ls: seq<Level>, r: int)
  {
    forall i | 0 <= i < |ls| :: r in ls[i].start && !Assigned(ls[i].g, ls[i].start[r]) &&
        !Assigned(ls[i].h, ls[i].start[r])
  }

  /** A symbol declared in the block has been assigned neither around it nor in a branch before. */
  ghost predicate ScopeOk(ls: seq<Level>, scope: set<int>, outer: set<int>)
    requires ls != []
  {
    outer <= scope && forall r | r in scope && r !in outer ::
      r in ls[0].start && !Assigned(ls[0].g, ls[0].start[r]) && Untouched(ls[1..], r)
  }

  /** All open blocks, innermost first; cur is the current version of each symbol, the version on entry
      of each block is the current one of the block around. */
  ghost predicate Chain(ls: seq<Level>, modes: seq<Mode>, frames: seq<seq<Entry>>, scopes: seq<set<int>>,
                        cur: map<int, int>,
                        levels: seq<int>, iv: int)
    decreases |ls|
  {
    && |modes| == |frames| == |ls| && |scopes| == |ls| + 1 && TableOk(cur, iv) && scopes[0] <= cur.Keys
    && (ls != [] ==>
          && LevelOk(ls[0], modes[0], frames[0], cur, iv) && DepthOk(ls[0], scopes[1], levels, |ls|)
          && ScopeOk(ls, scopes[0], scopes[1])
          && Chain(ls[1..], modes[1..], frames[1..], scopes[1..], ls[0].start, levels, iv))
  }

  ghost function CellMap(p: Table): map<int, int>
  {
    map r | r in p.syms :: Cell(p.cells, r)
  }

  /** Every cell holds the latest version of its symbol, every frame is what its block's histories say. */
  ghost predicate Consistent(p: Table, ls: seq<Level>)
  {
    && Shape(p) && Chain(ls, p.modes, p.frames, p.scopes, CellMap(p), p.levels, p.iv)
    && (forall v | p.iv <= v < |p.levels| :: p.levels[v] == 0)
    && (forall r | r in p.scopes[0] :: Cell(p.levels, Cell(p.cells, r)) <= |ls|)
  }

  /** The condition on a step: symbols are assigned in Lua's scope, and a commit or an else branch finds
      only entries about symbols under their own numbers. */
  predicate Own(p: Table, s: Step)
  {
    && Legal(p, s)
    && match s
       case Reassign(r) => r in p.scopes[0]
       case Else => forall i | 0 <= i < |p.frames[0]| :: p.frames[0][i].b in p.syms
       case Commit => forall i | 0 <= i < |p.frames[0]| :: p.frames[0][i].target in p.syms
       case _ => true
  }

  // --- more variables -----------------------------------------------------------------------

  ghost predicate SameBelow(levels: seq<int>, levels': seq<int>, iv: int)
  {
    forall v | v < iv :: Cell(levels', v) == Cell(levels, v)
  }

  lemma DepthSame(l: Level, scope: set<int>, levels: seq<int>, levels': seq<int>, iv: int, d: nat)
    requires DepthOk(l, scope, levels, d) && SameBelow(levels, levels', iv)
    requires Below(l.g, iv) && Below(l.h, iv) && forall r | r in l.start :: l.start[r] < iv
    ensures DepthOk(l, scope, levels', d)
  {
  }

  lemma MeansGrows(l: Level, mode: Mode, f: seq<Entry>, cur: map<int, int>, iv: int, iv': int)
    requires LevelOk(l, mode, f, cur, iv) && iv <= iv'
    ensures LevelOk(l, mode, f, cur, iv')
  {
  }

  lemma StartOk(ls: seq<Level>, modes: seq<Mode>, frames: seq<seq<Entry>>, scopes: seq<set<int>>, cur: map<int, int>,
                levels: seq<int>, iv: int)
    requires Chain(ls, modes, frames, scopes, cur, levels, iv) && ls != []
    ensures TableOk(ls[0].start, iv) && Below(ls[0].g, iv) && Below(ls[0].h, iv) && ls[0].start.Keys == cur.Keys
  {
    assert TableOk(ls[0].start, iv);
  }

  lemma {:induction false} ChainGrows(ls: seq<Level>, modes: seq<Mode>, frames: seq<seq<Entry>>, scopes: seq<set<int>>,
                                      cur: map<int, int>, levels: seq<int>, iv: int, levels': seq<int>, iv': int)
    requires Chain(ls, modes, frames, scopes, cur, levels, iv) && iv <= iv' && SameBelow(levels, levels', iv)
    ensures Chain(ls, modes, frames, scopes, cur, levels', iv')
    decreases |ls|
  {
    hide LevelOk, DepthOk, ScopeOk;
    if ls != [] {
      StartOk(ls, modes, frames, scopes, cur, levels, iv);
      MeansGrows(ls[0], modes[0], frames[0], cur, iv, iv');
      DepthSame(ls[0], scopes[1], levels, levels', iv, |ls|);
      ChainGrows(ls[1..], modes[1..], frames[1..], scopes[1..], ls[0].start, levels, iv, levels', iv');
    }
  }

  // --- a new version of a symbol no block has assigned ----------------------------------------

  /** Every block's version on entry of r becomes n: r is new, or was reassigned in the block that
      declares it. */
  function Rebased(ls: seq<Level>, r: int, n: int): (m: seq<Level>)
    ensures |m| == |ls| && forall i | 0 <= i < |ls| :: m[i] == ls[i].(start := ls[i].start[r := n])
  {
    seq(|ls|, i requires 0 <= i < |ls| => ls[i].(start := ls[i].start[r := n]))
  }

  /** r is not known yet, or no block has assigned it. */
  ghost predicate Free(ls: seq<Level>, cur: map<int, int>, r: int)
  {
    if r in cur then Untouched(ls, r) else forall i | 0 <= i < |ls| :: r !in ls[i].start
  }

  lemma RebaseTable(cur: map<int, int>, iv: int, r: int, n: int)
    requires TableOk(cur, iv) && n == iv >= 0 && (r in cur || r == n)
    ensures TableOk(cur[r := n], iv + 1)
  {
  }

  lemma RebaseSymbol(l: Level, cur: map<int, int>, r: int, n: int, q: int)
    requires q == r || SymbolOk(l, cur, q)
    requires Below(l.g, n) && Below(l.h, n)
    ensures SymbolOk(l.(start := l.start[r := n]), cur[r := n], q)
  {
    if q == r {
      assert !Assigned(l.h, n);
      LatestUnassigned(l.h, n);
    }
  }

  /** No entry is about a version that neither branch has assigned. */
  lemma NoEntry(g: seq<Assign>, h: seq<Assign>, mode: Mode, f: seq<Entry>, i: nat)
    requires FrameMeans(mode, g, h, f) && i < |f|
    ensures Assigned(g, Root(mode, f[i])) || Assigned(h, Root(mode, f[i]))
    ensures Original(g, Root(mode, f[i])) && Original(h, Root(mode, f[i]))
  {
    if mode == Closed { assert EntryTracks(g, h, Entry(f[i].a, f[i].target, f[i].b)); }
    else { assert EntryTracks(g, h, f[i]); }
  }

  lemma RebaseLevel(l: Level, mode: Mode, f: seq<Entry>, cur: map<int, int>, iv: int, r: int, n: int)
    requires LevelOk(l, mode, f, cur, iv) && n == iv && (r in cur || r == n)
    requires r in cur ==> !Assigned(l.g, l.start[r]) && !Assigned(l.h, l.start[r])
    ensures LevelOk(l.(start := l.start[r := n]), mode, f, cur[r := n], iv + 1)
  {
    var m, c := l.(start := l.start[r := n]), cur[r := n];
    forall q | q in c
      ensures SymbolOk(m, c, q)
    {
      if q != r { assert SymbolOk(l, cur, q); }
      RebaseSymbol(l, cur, r, n, q);
    }
    forall i | 0 <= i < |f|
      ensures OnEntry(m.start, Root(mode, f[i]))
    {
      NoEntry(l.g, l.h, mode, f, i);
      assert OnEntry(l.start, Root(mode, f[i]));
      var q :| q in l.start && l.start[q] == Root(mode, f[i]);
      assert m.start[q] == Root(mode, f[i]);
    }
    hide FrameMeans, SymbolOk;
    assert cur[r := n].Keys == cur.Keys + {r};
  }

  lemma RebaseScope(ls: seq<Level>, scope: set<int>, outer: set<int>, r: int, n: int)
    requires ls != [] && ScopeOk(ls, scope, outer)
    requires forall i | 0 <= i < |ls| :: Below(ls[i].g, n) && Below(ls[i].h, n)
    ensures ScopeOk(Rebased(ls, r, n), scope, outer)
  {
    var ms := Rebased(ls, r, n);
    forall q | q in scope && q !in outer
      ensures q in ms[0].start && !Assigned(ms[0].g, ms[0].start[q]) && Untouched(ms[1..], q)
    {
      forall i | 0 <= i < |ms[1..]|
        ensures q in ms[1..][i].start && !Assigned(ms[1..][i].g, ms[1..][i].start[q]) &&
            !Assigned(ms[1..][i].h, ms[1..][i].start[q])
      {
        assert ms[1..][i] == ms[i + 1] && ls[1..][i] == ls[i + 1];
      }
    }
  }

  lemma {:induction false} AllBelow(ls: seq<Level>, modes: seq<Mode>, frames: seq<seq<Entry>>, scopes: seq<set<int>>,
                                    cur: map<int, int>,
                                    levels: seq<int>, iv: int)
    requires Chain(ls, modes, frames, scopes, cur, levels, iv)
    ensures forall i | 0 <= i < |ls| :: Below(ls[i].g, iv) && Below(ls[i].h, iv) && ls[i].start.Keys == cur.Keys
    decreases |ls|
  {
    if ls != [] {
      AllBelow(ls[1..], modes[1..], frames[1..], scopes[1..], ls[0].start, levels, iv);
      assert forall i | 1 <= i < |ls| :: ls[i] == ls[1..][i - 1];
    }
  }

  lemma {:induction false} RebaseChain(ls: seq<Level>, modes: seq<Mode>, frames: seq<seq<Entry>>, scopes: seq<set<int>>,
                                       cur: map<int, int>, levels: seq<int>, iv: int, r: int, n: int)
    requires Chain(ls, modes, frames, scopes, cur, levels, iv) && n == iv >= 0 && (r in cur || r == n) &&
        Free(ls, cur, r)
    requires ls != [] ==> r !in scopes[1]
    ensures Chain(Rebased(ls, r, n), modes, frames, scopes, cur[r := n], levels, iv + 1)
    decreases |ls|
  {
    hide LevelOk, DepthOk, ScopeOk, TableOk, Below;
    RebaseTable(cur, iv, r, n);
    if ls != [] {
      AllBelow(ls, modes, frames, scopes, cur, levels, iv);
      StartOk(ls, modes, frames, scopes, cur, levels, iv);
      RebaseLevel(ls[0], modes[0], frames[0], cur, iv, r, n);
      RebaseScope(ls, scopes[0], scopes[1], r, n);
      RebaseDepth(ls[0], scopes[1], levels, |ls|, r, n);
      if |ls| > 1 { OuterScope(ls[1..], scopes[1], scopes[2]); }
      FreeTail(ls, cur, r);
      RebaseChain(ls[1..], modes[1..], frames[1..], scopes[1..], ls[0].start, levels, iv, r, n);
      assert Rebased(ls, r, n)[1..] == Rebased(ls[1..], r, n);
    }
  }

  lemma FreeTail(ls: seq<Level>, cur: map<int, int>, r: int)
    requires ls != [] && Free(ls, cur, r) && ls[0].start.Keys == cur.Keys
    ensures Free(ls[1..], ls[0].start, r)
  {
  }

  lemma OuterScope(ls: seq<Level>, scope: set<int>, outer: set<int>)
    requires ls != [] && ScopeOk(ls, scope, outer)
    ensures outer <= scope
  {
  }

  lemma RebaseDepth(l: Level, scope: set<int>, levels: seq<int>, d: nat, r: int, n: int)
    requires DepthOk(l, scope, levels, d) && r !in scope
    ensures DepthOk(l.(start := l.start[r := n]), scope, levels, d)
  {
  }

  // --- a new version that goes into the frame -----------------------------------------------

  function Noted(ls: seq<Level>, cur: map<int, int>, r: int, n: int): (m: seq<Level>)
    requires r in cur
    ensures |m| == |ls|
  {
    if ls == [] then [] else [ls[0].(h := ls[0].h + [Assign(n, cur[r])])] + ls[1..]
  }

  function Inserted(frames: seq<seq<Entry>>, n: int, was: int): (m: seq<seq<Entry>>)
    ensures |m| == |frames|
  {
    if frames == [] then [] else [Insert(frames[0], n, was)] + frames[1..]
  }

  lemma HistoryGrows(g: seq<Assign>, h: seq<Assign>, syms: set<int>, iv: int, n: int, w: int)
    requires Histories(g, h, syms, iv) && n == iv && w < iv && !Assigned(h, w) && Original(g, w)
    requires forall r | r in syms :: r < iv
    ensures Histories(g, h + [Assign(n, w)], syms, iv + 1)
  {
  }

  lemma NoteSymbol(l: Level, cur: map<int, int>, iv: int, r: int, n: int, q: int)
    requires r in cur && q in cur && SymbolOk(l, cur, q) && TableOk(cur, iv) && n == iv && l.start[q] < iv
    ensures SymbolOk(l.(h := l.h + [Assign(n, cur[r])]), cur[r := n], q)
  {
    var h' := l.h + [Assign(n, cur[r])];
    assert h'[..|l.h|] == l.h;
  }

  lemma NoteMeans(mode: Mode, g: seq<Assign>, h: seq<Assign>, f: seq<Entry>, n: int, w: int)
    requires FrameMeans(mode, g, h, f) && mode != Closed && Versioned(h + [Assign(n, w)]) &&
        Separate(g, h + [Assign(n, w)])
    ensures FrameMeans(mode, g, h + [Assign(n, w)], Insert(f, n, w))
  {
    var h' := h + [Assign(n, w)];
    assert h'[..|h'| - 1] == h;
    InsertTracks(g, h', f);
  }

  lemma NoteRoots(l: Level, mode: Mode, f: seq<Entry>, cur: map<int, int>, r: int, n: int)
    requires mode != Closed && FrameMeans(mode, l.g, l.h, f) && RootsKnown(l, mode, f) && r in cur &&
        SymbolOk(l, cur, r)
    ensures RootsKnown(l.(h := l.h + [Assign(n, cur[r])]), mode, Insert(f, n, cur[r]))
  {
    var x, w := l.start[r], cur[r];
    if Assigned(l.g, x) || Assigned(l.h, x) {
      assert HasEntry(f, x);
      var i :| 0 <= i < |f| && f[i].b == x;
      assert EntryTracks(l.g, l.h, f[i]);
    } else {
      LatestUnassigned(l.h, x);
    }
    var r' := Insert(f, n, w);
    var k := Find(f, w);
    forall i | 0 <= i < |r'|
      ensures OnEntry(l.start, Root(mode, r'[i]))
    {
      if k < |f| { assert Root(mode, r'[i]) == Root(mode, f[i]); }
      else if i > 0 { assert r'[i] == f[i - 1]; }
      else { assert l.start[r] == w; }
    }
  }

  lemma NoteLevel(l: Level, mode: Mode, f: seq<Entry>, cur: map<int, int>, iv: int, r: int, n: int)
    requires LevelOk(l, mode, f, cur, iv) && TableOk(cur, iv) && TableOk(l.start, iv) && mode != Closed && r in cur &&
        n == iv
    ensures LevelOk(l.(h := l.h + [Assign(n, cur[r])]), mode, Insert(f, n, cur[r]), cur[r := n], iv + 1)
  {
    hide FrameMeans, Insert, RootsKnown, Histories, SymbolOk;
    var m, c := l.(h := l.h + [Assign(n, cur[r])]), cur[r := n];
    assert SymbolOk(l, cur, r);
    Superseding(l, cur, iv, r);
    HistoryGrows(l.g, l.h, cur.Keys, iv, n, cur[r]);
    HistoriesAre(l.g, m.h, cur.Keys, iv + 1);
    NoteMeans(mode, l.g, l.h, f, n, cur[r]);
    NoteRoots(l, mode, f, cur, r, n);
    forall q | q in c
      ensures SymbolOk(m, c, q)
    {
      assert SymbolOk(l, cur, q);
      NoteSymbol(l, cur, iv, r, n, q);
    }
    assert c.Keys == cur.Keys;
  }

  lemma HistoriesAre(g: seq<Assign>, h: seq<Assign>, syms: set<int>, iv: int)
    requires Histories(g, h, syms, iv)
    ensures Versioned(h) && Separate(g, h)
  {
  }

  /** A current version is superseded by nothing, and made by no first branch. */
  lemma Superseding(l: Level, cur: map<int, int>, iv: int, r: int)
    requires Histories(l.g, l.h, cur.Keys, iv) && SymbolOk(l, cur, r)
    ensures !Assigned(l.h, cur[r]) && Original(l.g, cur[r])
  {
    LatestStands(l.h, l.start[r]);
    LatestIs(l.h, l.start[r]);
  }

  lemma NoteDepth(l: Level, scope: set<int>, levels: seq<int>, d: nat, a: Assign)
    requires DepthOk(l, scope, levels, d) && Cell(levels, a.val) < d
    ensures DepthOk(l.(h := l.h + [a]), scope, levels, d)
  {
  }

  lemma NoteChain(ls: seq<Level>, modes: seq<Mode>, frames: seq<seq<Entry>>, scopes: seq<set<int>>, cur: map<int, int>,
                  levels: seq<int>, iv: int, r: int, n: int)
    requires Chain(ls, modes, frames, scopes, cur, levels, iv) && n == iv >= 0 && r in cur
    requires ls != [] ==> modes[0] != Closed && Cell(levels, n) < |ls|
    ensures Chain(Noted(ls, cur, r, n), modes, Inserted(frames, n, cur[r]), scopes, cur[r := n], levels, iv + 1)
  {
    hide LevelOk, DepthOk, ScopeOk, TableOk, Below, Insert;
    RebaseTable(cur, iv, r, n);
    if ls != [] {
      StartOk(ls, modes, frames, scopes, cur, levels, iv);
      NoteLevel(ls[0], modes[0], frames[0], cur, iv, r, n);
      NoteDepth(ls[0], scopes[1], levels, |ls|, Assign(n, cur[r]));
      NoteScope(ls, scopes[0], scopes[1], cur, r, n);
      ChainGrows(ls[1..], modes[1..], frames[1..], scopes[1..], ls[0].start, levels, iv, levels, iv + 1);
      assert Noted(ls, cur, r, n)[1..] == ls[1..] && Inserted(frames, n, cur[r])[1..] == frames[1..];
    }
  }

  lemma NoteScope(ls: seq<Level>, scope: set<int>, outer: set<int>, cur: map<int, int>, r: int, n: int)
    requires ls != [] && ScopeOk(ls, scope, outer) && r in cur
    ensures ScopeOk(Noted(ls, cur, r, n), scope, outer)
  {
    assert Noted(ls, cur, r, n)[1..] == ls[1..];
  }

  // --- commits ------------------------------------------------------------------------------

  /** The versions of symbols once the entries from k on are committed. */
  function CurAfter(cur: map<int, int>, f: seq<Entry>, iv: int, k: nat): map<int, int>
    requires k <= |f|
    decreases |f| - k
  {
    if k == |f| then cur else CurAfter(cur, f, iv, k + 1)[f[k].target := iv + (|f| - 1 - k)]
  }

  function LevelsAfter(ls: seq<Level>, cur: map<int, int>, f: seq<Entry>, iv: int, k: nat): (r: seq<Level>)
    requires k <= |f|
    ensures |r| == |ls|
    decreases |f| - k
  {
    if k == |f| then ls
    else
      var c := CurAfter(cur, f, iv, k + 1);
      var m := LevelsAfter(ls, cur, f, iv, k + 1);
      if f[k].target in c then Noted(m, c, f[k].target, iv + (|f| - 1 - k)) else m
  }

  lemma {:induction false} CurAfterIs(cur: map<int, int>, f: seq<Entry>, iv: int, k: nat, r: int)
    requires k <= |f| && r in cur && forall i, j | 0 <= i < j < |f| :: f[i].target != f[j].target
    ensures var c := CurAfter(cur, f, iv, k);
            r in c && ((forall i | k <= i < |f| :: f[i].target != r) ==> c[r] == cur[r])
    ensures forall i | k <= i < |f| && f[i].target == r :: CurAfter(cur, f, iv, k)[r] == iv + (|f| - 1 - i)
    decreases |f| - k
  {
    if k < |f| { CurAfterIs(cur, f, iv, k + 1, r); }
  }

  lemma {:induction false} CurAfterKeys(cur: map<int, int>, f: seq<Entry>, iv: int, k: nat)
    requires k <= |f| && forall i | 0 <= i < |f| :: f[i].target in cur
    ensures CurAfter(cur, f, iv, k).Keys == cur.Keys
    decreases |f| - k
  {
    if k < |f| { CurAfterKeys(cur, f, iv, k + 1); }
  }

  lemma {:induction false} MergeChain(ls: seq<Level>, modes: seq<Mode>, rest: seq<seq<Entry>>, scopes: seq<set<int>>,
                                      cur: map<int, int>,
                                      levels: seq<int>, iv: int, f: seq<Entry>, k: nat)
    requires Chain(ls, modes, rest, scopes, cur, levels, iv) && iv >= 0 && k <= |f| && (ls != [] ==> modes[0] != Closed)
    requires forall v | v >= iv :: Cell(levels, v) == 0
    requires forall i | 0 <= i < |f| :: f[i].target in cur && cur[f[i].target] == f[i].target
    requires forall i, j | 0 <= i < j < |f| :: f[i].target != f[j].target
    ensures Chain(LevelsAfter(ls, cur, f, iv, k), modes, Merge(rest, f, iv, k), scopes, CurAfter(cur, f, iv, k),
        levels, iv + (|f| - k))
    decreases |f| - k
  {
    hide Chain, Merge, Insert;
    MergeStep(rest, f, iv, k);
    if k < |f| {
      MergeChain(ls, modes, rest, scopes, cur, levels, iv, f, k + 1);
      var c, n, t := CurAfter(cur, f, iv, k + 1), iv + (|f| - 1 - k), f[k].target;
      CurAfterIs(cur, f, iv, k + 1, t);
      assert Cell(levels, n) == 0;
      NoteChain(LevelsAfter(ls, cur, f, iv, k + 1), modes, Merge(rest, f, iv, k + 1), scopes, c, levels, n, t, n);
    }
  }

  // --- steps --------------------------------------------------------------------------------

  /** The next block's history is empty. */
  lemma BeginKeeps(p: Table, ls: seq<Level>)
    requires Consistent(p, ls) && Own(p, Begin)
    ensures Consistent(Do(p, Begin), [Level(CellMap(p), [], [])] + ls)
  {
    hide LevelOk, DepthOk, ScopeOk, Shape;
    StepShape(p, Begin);
    ShapeSizes(p);
    var q, c := Do(p, Begin), CellMap(p);
    var ms := [Level(c, [], [])] + ls;
    EmptyLevel(c, p.iv);
    assert ms[1..] == ls && q.modes[1..] == p.modes && q.frames[1..] == p.frames && q.scopes[1..] == p.scopes;
    assert CellMap(q) == c;
    EmptyDepth(c, p.scopes[0], p.levels, |ls| + 1);
    EmptyScope(ms, p.scopes[0]);
  }

  lemma ShapeSizes(p: Table)
    requires Shape(p)
    ensures |p.modes| == |p.frames| && |p.scopes| == |p.frames| + 1 && |p.levels| == |p.cells| && 0 <= p.iv <= |p.cells|
    ensures forall r | r in p.syms :: 0 <= r < p.iv && 0 <= Cell(p.cells, r) < p.iv
    ensures forall i | 1 <= i < |p.frames| :: p.modes[i] != Closed
  {
  }

  lemma EmptyLevel(c: map<int, int>, iv: int)
    requires TableOk(c, iv)
    ensures LevelOk(Level(c, [], []), Straight, [], c, iv)
  {
    forall r | r in c
      ensures SymbolOk(Level(c, [], []), c, r)
    {
    }
  }

  lemma EmptyDepth(c: map<int, int>, scope: set<int>, levels: seq<int>, d: nat)
    requires forall r | r in scope && r in c :: Cell(levels, c[r]) < d
    ensures DepthOk(Level(c, [], []), scope, levels, d)
  {
  }

  lemma EmptyScope(ms: seq<Level>, scope: set<int>)
    requires ms != []
    ensures ScopeOk(ms, scope, scope)
  {
  }

  /** The frame turns into that of the else branch, every symbol has its version on entry again. */
  lemma ElseKeeps(p: Table, ls: seq<Level>)
    requires Consistent(p, ls) && Own(p, Else)
    ensures ls != [] && Consistent(Do(p, Else), [Level(ls[0].start, ls[0].h, [])] + ls[1..])
  {
    hide Shape, Chain, LevelOk, DepthOk, ScopeOk, TableOk, Restored;
    StepShape(p, Else);
    ShapeSizes(p);
    ChainHead(ls, p.modes, p.frames, p.scopes, CellMap(p), p.levels, p.iv);
    var q, l := Do(p, Else), ls[0];
    var m := Level(l.start, l.h, []);
    var ms := [m] + ls[1..];
    ElseCells(p, l);
    assert CellMap(q) == l.start;
    ElseLevel(l, p.frames[0], CellMap(p), p.iv);
    ElseScope(ls, p.scopes[0], p.scopes[1], p.levels, |ls|);
    assert q.scopes[0] == q.scopes[1] == p.scopes[1];
    assert ms[1..] == ls[1..] && q.modes[1..] == p.modes[1..] && q.frames[1..] == p.frames[1..] &&
        q.scopes[1..] == p.scopes[1..];
    ChainCons(ms, q.modes, q.frames, q.scopes, l.start, q.levels, q.iv);
  }

  /** The else branch starts with the scope of the block's entry. */
  lemma ElseScope(ls: seq<Level>, scope: set<int>, outer: set<int>, levels: seq<int>, d: nat)
    requires ls != [] && ScopeOk(ls, scope, outer) && DepthOk(ls[0], outer, levels, d) && outer <= ls[0].start.Keys
    ensures var m := Level(ls[0].start, ls[0].h, []);
            ScopeOk([m] + ls[1..], outer, outer) && DepthOk(m, outer, levels, d)
    ensures forall r | r in outer :: Cell(levels, ls[0].start[r]) < d
  {
  }

  lemma ChainHead(ls: seq<Level>, modes: seq<Mode>, frames: seq<seq<Entry>>, scopes: seq<set<int>>, cur: map<int, int>,
                  levels: seq<int>, iv: int)
    requires Chain(ls, modes, frames, scopes, cur, levels, iv) && frames != []
    ensures |modes| == |frames| == |ls| && |scopes| == |ls| + 1 && TableOk(cur, iv) && scopes[0] <= cur.Keys
    ensures LevelOk(ls[0], modes[0], frames[0], cur, iv) && DepthOk(ls[0], scopes[1], levels, |ls|) &&
        ScopeOk(ls, scopes[0], scopes[1])
    ensures Chain(ls[1..], modes[1..], frames[1..], scopes[1..], ls[0].start, levels, iv) && TableOk(ls[0].start, iv)
    ensures scopes[1] <= ls[0].start.Keys
  {
  }

  lemma ChainCons(ls: seq<Level>, modes: seq<Mode>, frames: seq<seq<Entry>>, scopes: seq<set<int>>, cur: map<int, int>,
                  levels: seq<int>, iv: int)
    requires ls != [] && |modes| == |frames| == |ls| && |scopes| == |ls| + 1 && TableOk(cur, iv) &&
        scopes[0] <= cur.Keys
    requires LevelOk(ls[0], modes[0], frames[0], cur, iv) && DepthOk(ls[0], scopes[1], levels, |ls|) &&
        ScopeOk(ls, scopes[0], scopes[1])
    requires Chain(ls[1..], modes[1..], frames[1..], scopes[1..], ls[0].start, levels, iv)
    ensures Chain(ls, modes, frames, scopes, cur, levels, iv)
  {
  }

  lemma AssignedHasEntry(g: seq<Assign>, h: seq<Assign>, mode: Mode, f: seq<Entry>, x: int)
    requires FrameMeans(mode, g, h, f) && Original(g, x) && Original(h, x) && (Assigned(g, x) || Assigned(h, x))
    ensures exists i :: 0 <= i < |f| && Root(mode, f[i]) == x
  {
    if mode != Closed {
      assert HasEntry(f, x);
      var i :| 0 <= i < |f| && f[i].b == x;
      assert Root(mode, f[i]) == x;
    } else {
      var i :| 0 <= i < |f| && f[i].target == x;
      assert Root(mode, f[i]) == x;
    }
  }

  /** A symbol without an entry about its version on entry still has that version. */
  lemma StillOnEntry(l: Level, mode: Mode, f: seq<Entry>, cur: map<int, int>, iv: int, r: int)
    requires LevelOk(l, mode, f, cur, iv) && r in cur && forall i | 0 <= i < |f| :: Root(mode, f[i]) != l.start[r]
    ensures cur[r] == l.start[r]
  {
    assert SymbolOk(l, cur, r);
    if Assigned(l.h, l.start[r]) { AssignedHasEntry(l.g, l.h, mode, f, l.start[r]); }
    LatestUnassigned(l.h, l.start[r]);
  }

  lemma ElseCells(p: Table, l: Level)
    requires Shape(p) && Own(p, Else) && LevelOk(l, Straight, p.frames[0], CellMap(p), p.iv) && TableOk(l.start, p.iv)
    ensures forall r | r in p.syms :: r in l.start && Cell(Restored(p.cells, p.frames[0]), r) == l.start[r]
  {
    var f := p.frames[0];
    forall r | r in p.syms
      ensures r in l.start && Cell(Restored(p.cells, f), r) == l.start[r]
    {
      RestoredCells(p.cells, f, r);
      assert CellMap(p).Keys == p.syms && l.start.Keys == p.syms;
      if i :| 0 <= i < |f| && f[i].b == l.start[r] {
        assert l.start[r] in p.syms;
      } else {
        StillOnEntry(l, Straight, f, CellMap(p), p.iv, r);
        forall i | 0 <= i < |f|
          ensures f[i].b != r
        {
          assert OnEntry(l.start, Root(Straight, f[i]));
        }
      }
    }
  }

  lemma ElseLevel(l: Level, f: seq<Entry>, cur: map<int, int>, iv: int)
    requires LevelOk(l, Straight, f, cur, iv)
    ensures LevelOk(Level(l.start, l.h, []), InElse, Turned(f), l.start, iv)
  {
    var m := Level(l.start, l.h, []);
    TurnTracks(l.h, f);
    forall r | r in l.start
      ensures SymbolOk(m, l.start, r)
    {
      assert SymbolOk(l, cur, r);
    }
    forall i | 0 <= i < |f|
      ensures OnEntry(l.start, Root(InElse, Turned(f)[i]))
    {
      assert OnEntry(l.start, Root(Straight, f[i]));
    }
  }

  lemma EndElseLevel(l: Level, f: seq<Entry>, cur: map<int, int>, iv: int)
    requires LevelOk(l, InElse, f, cur, iv)
    ensures LevelOk(l, Closed, Joined(f), cur, iv)
  {
    TracksJoins(l.g, l.h, f);
    forall i | 0 <= i < |f|
      ensures OnEntry(l.start, Root(Closed, Joined(f)[i]))
    {
      assert OnEntry(l.start, Root(InElse, f[i]));
    }
  }

  lemma EndElseKeeps(p: Table, ls: seq<Level>)
    requires Consistent(p, ls) && Own(p, EndElse)
    ensures Consistent(Do(p, EndElse), ls)
  {
    hide Shape, Chain, LevelOk, DepthOk, ScopeOk, TableOk;
    StepShape(p, EndElse);
    ShapeSizes(p);
    ChainHead(ls, p.modes, p.frames, p.scopes, CellMap(p), p.levels, p.iv);
    var q, l, f := Do(p, EndElse), ls[0], p.frames[0];
    EndElseLevel(l, f, CellMap(p), p.iv);
    assert CellMap(q) == CellMap(p);
    assert q.modes[1..] == p.modes[1..] && q.frames[1..] == p.frames[1..];
    ChainCons(ls, q.modes, q.frames, q.scopes, CellMap(q), q.levels, q.iv);
  }

  lemma FreshKeeps(p: Table, ls: seq<Level>)
    requires Consistent(p, ls) && Own(p, Fresh)
    ensures Consistent(Do(p, Fresh), ls)
  {
    hide Shape, Chain;
    StepShape(p, Fresh);
    ShapeSizes(p);
    assert CellMap(Do(p, Fresh)) == CellMap(p);
    ChainGrows(ls, p.modes, p.frames, p.scopes, CellMap(p), p.levels, p.iv, p.levels, p.iv + 1);
  }

  /** A declaration gives every open block a symbol that it has not assigned. */
  lemma DeclareKeeps(p: Table, ls: seq<Level>)
    requires Consistent(p, ls) && Own(p, Declare)
    ensures Consistent(Do(p, Declare), Rebased(ls, p.iv, p.iv))
  {
    hide Shape, Chain;
    StepShape(p, Declare);
    ShapeSizes(p);
    var q, r := Do(p, Declare), p.iv;
    AllBelow(ls, p.modes, p.frames, p.scopes, CellMap(p), p.levels, p.iv);
    ScopesKnown(ls, p.modes, p.frames, p.scopes, CellMap(p), p.levels, p.iv);
    assert CellMap(p).Keys == p.syms;
    ChainGrows(ls, p.modes, p.frames, p.scopes, CellMap(p), p.levels, p.iv, q.levels, p.iv);
    RebaseChain(ls, p.modes, p.frames, p.scopes, CellMap(p), q.levels, p.iv, r, r);
    assert CellMap(q) == CellMap(p)[r := r];
    RebasedUntouched(ls, r, r);
    ScopeAdds(Rebased(ls, r, r), p.modes, p.frames, p.scopes, CellMap(q), q.levels, q.iv, r);
  }

  lemma RebasedUntouched(ls: seq<Level>, r: int, n: int)
    requires forall i | 0 <= i < |ls| :: Below(ls[i].g, n) && Below(ls[i].h, n)
    ensures Untouched(Rebased(ls, r, n), r)
  {
  }

  /** A symbol that no block has assigned comes into scope. */
  lemma ScopeAdds(ls: seq<Level>, modes: seq<Mode>, frames: seq<seq<Entry>>, scopes: seq<set<int>>, cur: map<int, int>,
                  levels: seq<int>, iv: int, r: int)
    requires Chain(ls, modes, frames, scopes, cur, levels, iv) && r in cur && Untouched(ls, r)
    ensures Chain(ls, modes, frames, [scopes[0] + {r}] + scopes[1..], cur, levels, iv)
  {
    hide LevelOk, DepthOk, TableOk;
    var ss := [scopes[0] + {r}] + scopes[1..];
    if ls != [] {
      assert ss[1..] == scopes[1..] && ss[1] == scopes[1];
      forall q | q in ss[0] && q !in ss[1]
        ensures q in ls[0].start && !Assigned(ls[0].g, ls[0].start[q]) && Untouched(ls[1..], q)
      {
        assert forall i | 0 <= i < |ls[1..]| :: ls[1..][i] == ls[i + 1];
      }
    }
  }

  lemma ScopesKnown(ls: seq<Level>, modes: seq<Mode>, frames: seq<seq<Entry>>, scopes: seq<set<int>>, cur: map<int,
                    int>,
                    levels: seq<int>, iv: int)
    requires Chain(ls, modes, frames, scopes, cur, levels, iv)
    ensures |modes| == |frames| == |ls| && |scopes| == |ls| + 1 && scopes[0] <= cur.Keys
    ensures ls != [] ==> scopes[1] <= cur.Keys
    ensures forall r | r in cur :: 0 <= r < iv
  {
  }

  /** A reassignment that goes into the frame. */
  lemma RecordedKeeps(p: Table, ls: seq<Level>, r: int)
    requires Consistent(p, ls) && Own(p, Reassign(r)) && (p.frames == [] || Recorded(p, Cell(p.cells, r)))
    ensures Consistent(Do(p, Reassign(r)), Noted(ls, CellMap(p), r, p.iv))
  {
    hide Shape, Chain;
    StepShape(p, Reassign(r));
    ShapeSizes(p);
    var q, c, n := Do(p, Reassign(r)), CellMap(p), p.iv;
    ScopesKnown(ls, p.modes, p.frames, p.scopes, c, p.levels, n);
    ChainGrows(ls, p.modes, p.frames, p.scopes, c, p.levels, n, q.levels, n);
    NoteChain(ls, p.modes, p.frames, p.scopes, c, q.levels, n, r, n);
    assert CellMap(q) == c[r := n];
    assert q.frames == Inserted(p.frames, n, c[r]);
  }

  /** A reassignment that does not go into the frame is of a symbol that the block itself declares and
      no block has assigned. */
  lemma UnrecordedIsFree(p: Table, ls: seq<Level>, r: int)
    requires Consistent(p, ls) && Own(p, Reassign(r)) && p.frames != [] && !Recorded(p, Cell(p.cells, r))
    ensures |p.scopes| > 1 && r !in p.scopes[1] && Untouched(ls, r)
  {
    hide Shape, Chain, LevelOk;
    ShapeSizes(p);
    ChainHead(ls, p.modes, p.frames, p.scopes, CellMap(p), p.levels, p.iv);
    var l := ls[0];
    LevelSymbol(l, p.modes[0], p.frames[0], CellMap(p), p.iv, r);
    LatestIs(l.h, l.start[r]);
    if Assigned(l.h, l.start[r]) { LatestMoves(l.h, l.start[r]); }
    assert forall i | 1 <= i < |ls| :: ls[i] == ls[1..][i - 1];
  }

  lemma LevelSymbol(l: Level, mode: Mode, f: seq<Entry>, cur: map<int, int>, iv: int, r: int)
    requires LevelOk(l, mode, f, cur, iv) && r in cur
    ensures r in l.start && Versioned(l.h) && Original(l.h, l.start[r]) && cur[r] == Latest(l.h, l.start[r])
  {
    assert SymbolOk(l, cur, r);
  }

  lemma UnrecordedKeeps(p: Table, ls: seq<Level>, r: int)
    requires Consistent(p, ls) && Own(p, Reassign(r)) && p.frames != [] && !Recorded(p, Cell(p.cells, r))
    ensures Consistent(Do(p, Reassign(r)), Rebased(ls, r, p.iv))
  {
    hide Shape, Chain, Untouched;
    UnrecordedIsFree(p, ls, r);
    StepShape(p, Reassign(r));
    ShapeSizes(p);
    var q, c, n := Do(p, Reassign(r)), CellMap(p), p.iv;
    ScopesKnown(ls, p.modes, p.frames, p.scopes, c, p.levels, n);
    ChainGrows(ls, p.modes, p.frames, p.scopes, c, p.levels, n, q.levels, n);
    RebaseChain(ls, p.modes, p.frames, p.scopes, c, q.levels, n, r, n);
    assert CellMap(q) == c[r := n];
  }

  /** Entries, one for each symbol, are about symbols that entered the block under their own number. */
  ghost predicate OwnTargets(start: map<int, int>, mode: Mode, f: seq<Entry>)
  {
    && (forall i | 0 <= i < |f| ::
          Root(mode, f[i]) == f[i].target && f[i].target in start && start[f[i].target] == f[i].target)
    && (forall i, j | 0 <= i < j < |f| :: f[i].target != f[j].target)
  }

  /** After the commit, a symbol the block assigned is at its phi, any other at its version on entry. */
  lemma CommitCell(p: Table, l: Level, r: int)
    requires Shape(p) && Own(p, Commit) && TableOk(l.start, p.iv) && r in p.syms
    requires LevelOk(l, p.modes[0], p.frames[0], CellMap(p), p.iv) && l.start.Keys == p.syms
    requires OwnTargets(l.start, p.modes[0], p.frames[0])
    ensures r in CurAfter(l.start, p.frames[0], p.iv, 0)
    ensures Cell(Do(p, Commit).cells, r) == CurAfter(l.start, p.frames[0], p.iv, 0)[r]
  {
    hide Shape, LevelOk, CurAfter, CellsAfter, Do;
    var f := p.frames[0];
    CurAfterIs(l.start, f, p.iv, 0, r);
    if j :| 0 <= j < |f| && f[j].target == r {
      CommitNames(p, r, j);
    } else {
      CommitCellKept(p, r);
      forall i | 0 <= i < |f|
        ensures f[i].target != l.start[r]
      {
        assert l.start[f[i].target] == f[i].target;
      }
      assert CellMap(p)[r] == Cell(p.cells, r);
      StillOnEntry(l, p.modes[0], f, CellMap(p), p.iv, r);
    }
  }

  lemma CommitCellKept(p: Table, r: int)
    requires Shape(p) && Legal(p, Commit) && r in p.syms && forall i | 0 <= i < |p.frames[0]| ::
        p.frames[0][i].target != r
    ensures Cell(Do(p, Commit).cells, r) == Cell(p.cells, r)
  {
    if p.frames[0] != [] { CommitNames(p, r, 0); }
  }

  lemma CommitCells(p: Table, l: Level)
    requires Shape(p) && Own(p, Commit) && TableOk(l.start, p.iv)
    requires LevelOk(l, p.modes[0], p.frames[0], CellMap(p), p.iv)
    ensures CellMap(Do(p, Commit)) == CurAfter(l.start, p.frames[0], p.iv, 0)
  {
    hide Shape, LevelOk, CurAfter, CellsAfter;
    TargetsOwn(p, l);
    CurAfterKeys(l.start, p.frames[0], p.iv, 0);
    var c := CurAfter(l.start, p.frames[0], p.iv, 0);
    hide OwnTargets;
    forall r | r in p.syms
      ensures r in c && Cell(Do(p, Commit).cells, r) == c[r]
    {
      CommitCell(p, l, r);
    }
  }

  lemma TargetsOwn(p: Table, l: Level)
    requires Shape(p) && Own(p, Commit) && TableOk(l.start, p.iv)
    requires LevelOk(l, p.modes[0], p.frames[0], CellMap(p), p.iv)
    ensures l.start.Keys == p.syms && OwnTargets(l.start, p.modes[0], p.frames[0])
  {
    var f := p.frames[0];
    assert CellMap(p).Keys == p.syms;
    forall i | 0 <= i < |f|
      ensures Root(p.modes[0], f[i]) == f[i].target && f[i].target in l.start && l.start[f[i].target] == f[i].target
    {
      assert EntryShape(p.modes[0], p.syms, p.iv, f[i]);
      assert OnEntry(l.start, Root(p.modes[0], f[i]));
    }
    assert FrameShape(p.modes[0], p.syms, p.iv, f);
  }

  lemma CommitKeeps(p: Table, ls: seq<Level>)
    requires Consistent(p, ls) && Own(p, Commit)
    ensures ls != [] && Consistent(Do(p, Commit), LevelsAfter(ls[1..], ls[0].start, p.frames[0], p.iv, 0))
  {
    hide Shape, Chain, LevelOk, DepthOk, ScopeOk, TableOk, Merge, CurAfter, LevelsAfter, CellsAfter;
    StepShape(p, Commit);
    ShapeSizes(p);
    ChainHead(ls, p.modes, p.frames, p.scopes, CellMap(p), p.levels, p.iv);
    var q, f, l := Do(p, Commit), p.frames[0], ls[0];
    TargetsOwn(p, l);
    CommitCells(p, l);
    MergeChain(ls[1..], p.modes[1..], p.frames[1..], p.scopes[1..], l.start, p.levels, p.iv, f, 0);
    CommitDepth(p, l, |ls|);
  }

  lemma CommitDepth(p: Table, l: Level, d: nat)
    requires Shape(p) && Own(p, Commit) && TableOk(l.start, p.iv) && l.start.Keys == p.syms && p.scopes[1] <= p.syms
    requires DepthOk(l, p.scopes[1], p.levels, d) && d > 0 && forall v | p.iv <= v < |p.levels| :: p.levels[v] == 0
    requires OwnTargets(l.start, p.modes[0], p.frames[0])
    requires CellMap(Do(p, Commit)) == CurAfter(l.start, p.frames[0], p.iv, 0)
    ensures forall r | r in p.scopes[1] :: Cell(p.levels, Cell(Do(p, Commit).cells, r)) <= d - 1
  {
    var f, q := p.frames[0], Do(p, Commit);
    forall r | r in p.scopes[1]
      ensures Cell(p.levels, Cell(q.cells, r)) <= d - 1
    {
      CurAfterIs(l.start, f, p.iv, 0, r);
      assert Cell(q.cells, r) == CellMap(q)[r];
      if j :| 0 <= j < |f| && f[j].target == r {
        assert Cell(q.cells, r) == p.iv + (|f| - 1 - j);
      }
    }
  }

  /** Every step of the run meets the condition. */
  predicate OwnRun(p: Table, steps: seq<Step>)
  {
    steps != [] ==>
      var before, s := steps[..|steps| - 1], steps[|steps| - 1];
      OwnRun(p, before) && Play(p, before).At? && Own(Play(p, before).p, s)
  }
}
