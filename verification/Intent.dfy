/** What the parser's table is meant to hold: the current version of every symbol in scope, told from the
    steps of a run without the cells; and exactly which runs keep the cells at it. */
module Intent {
  import opened Ir
  import opened Phi
  import opened Versions
  import opened Symbols
  import opened Tracking

  /** An open block: the version of each symbol when it began, and where its first branch ended if it is in
      an else branch or past one. */
  datatype Block = Block(begin: map<int, int>, first: map<int, int>)

  /** The current version of each symbol in scope, and the open blocks, innermost first. */
  datatype Intended = Intended(cur: map<int, int>, blocks: seq<Block>)

  /** After the commit of a frame, a symbol is at the phi of the entry about its version at the block's
      begin, or still at that version. */
  function Joint(f: seq<Entry>, iv: int, begin: map<int, int>): (r: map<int, int>)
    ensures r.Keys == begin.Keys && forall q | q in begin :: r[q] == Substitute(f, iv, begin[q])
  {
    map q | q in begin :: Substitute(f, iv, begin[q])
  }

  /** What a step means. Of the table it uses the numbers given out and the order of the entries, not the
      cells. */
  function Advance(p: Table, t: Intended, s: Step): Intended
  {
    match s
    case Declare => t.(cur := t.cur[p.iv := p.iv])
    case Fresh => t
    case Reassign(r) => t.(cur := t.cur[r := p.iv])
    case Begin => Intended(t.cur, [Block(t.cur, t.cur)] + t.blocks)
    case Else =>
      if t.blocks == [] then t
      else Intended(t.blocks[0].begin, [Block(t.blocks[0].begin, t.cur)] + t.blocks[1..])
    case EndElse => t
    case Commit =>
      if t.blocks == [] || p.frames == [] then t
      else Intended(Joint(p.frames[0], p.iv, t.blocks[0].begin), t.blocks[1..])
  }

  /** Steps that the grammar allows and that assign only what is in Lua's scope. */
  predicate InScope(p: Table, s: Step)
  {
    Legal(p, s) && (s.Reassign? ==> s.r in p.scopes[0])
  }

  predicate InScopeRun(p: Table, steps: seq<Step>)
  {
    steps != [] ==>
      var before, s := steps[..|steps| - 1], steps[|steps| - 1];
      InScopeRun(p, before) && Play(p, before).At? && InScope(Play(p, before).p, s)
  }

  function Meant(p: Table, steps: seq<Step>): Intended
    requires InScopeRun(p, steps)
  {
    if steps == [] then Intended(map[], [])
    else
      var before, s := steps[..|steps| - 1], steps[|steps| - 1];
      Advance(Play(p, before).p, Meant(p, before), s)
  }

  /** Every symbol in scope has its cell at its current version. */
  ghost predicate CellsRight(p: Table, t: Intended)
  {
    forall r | r in t.cur :: Cell(p.cells, r) == t.cur[r]
  }

  /** After every prefix of the run. */
  ghost predicate AlwaysRight(p: Table, steps: seq<Step>)
    requires InScopeRun(p, steps)
  {
    && Play(p, steps).At? && CellsRight(Play(p, steps).p, Meant(p, steps))
    && (steps != [] ==> AlwaysRight(p, steps[..|steps| - 1]))
  }

  // --- the histories of Tracking are those of the blocks ------------------------------------

  /** x is a version that a symbol had when the block began, or a symbol's own number. */
  ghost predicate KnownRoot(start: map<int, int>, outer: set<int>, x: int)
  {
    exists r :: r in start && start[r] == x && (r in outer || start[r] == r)
  }

  ghost predicate RootsOwn(start: map<int, int>, outer: set<int>, mode: Mode, f: seq<Entry>)
  {
    forall i | 0 <= i < |f| :: KnownRoot(start, outer, Root(mode, f[i]))
  }

  /** For the symbols around the block, start and g are its begin and its first branch. */
  ghost predicate SameBegin(l: Level, b: Block, outer: set<int>)
  {
    && b.begin.Keys == outer && outer <= b.first.Keys
    && forall r | r in outer :: r in l.start && l.start[r] == b.begin[r] && Latest(l.g, l.start[r]) == b.first[r]
  }

  /** Symbols of the block itself have versions of its depth on entry. */
  ghost predicate DeepEnough(start: map<int, int>, scope: set<int>, outer: set<int>, levels: seq<int>, d: int)
  {
    forall r | r in scope && r !in outer && r in start :: Cell(levels, start[r]) >= d
  }

  ghost predicate LevelMeant(l: Level, b: Block, mode: Mode, f: seq<Entry>, scope: set<int>, outer: set<int>,
                             levels: seq<int>, d: int)
  {
    SameBegin(l, b, outer) && RootsOwn(l.start, outer, mode, f) && DeepEnough(l.start, scope, outer, levels, d)
  }

  ghost predicate AllMeant(ls: seq<Level>, bs: seq<Block>, modes: seq<Mode>, frames: seq<seq<Entry>>,
                           scopes: seq<set<int>>, levels: seq<int>)
    decreases |ls|
  {
    && |bs| == |modes| == |frames| == |ls| && |scopes| == |ls| + 1
    && (ls != [] ==>
          && LevelMeant(ls[0], bs[0], modes[0], frames[0], scopes[0], scopes[1], levels, |ls|)
          && AllMeant(ls[1..], bs[1..], modes[1..], frames[1..], scopes[1..], levels))
  }

  /** Consistent, and consistent with what is meant. */
  ghost predicate Right(p: Table, t: Intended, ls: seq<Level>)
  {
    && Consistent(p, ls) && t.cur.Keys == p.scopes[0] && CellsRight(p, t)
    && AllMeant(ls, t.blocks, p.modes, p.frames, p.scopes, p.levels)
  }

  lemma MeantHead(ls: seq<Level>, bs: seq<Block>, modes: seq<Mode>, frames: seq<seq<Entry>>, scopes: seq<set<int>>,
                  levels: seq<int>)
    requires AllMeant(ls, bs, modes, frames, scopes, levels) && frames != []
    ensures |bs| == |modes| == |frames| == |ls| && |scopes| == |ls| + 1
    ensures LevelMeant(ls[0], bs[0], modes[0], frames[0], scopes[0], scopes[1], levels, |ls|)
    ensures AllMeant(ls[1..], bs[1..], modes[1..], frames[1..], scopes[1..], levels)
  {
  }

  lemma MeantCons(ls: seq<Level>, bs: seq<Block>, modes: seq<Mode>, frames: seq<seq<Entry>>, scopes: seq<set<int>>,
                  levels: seq<int>)
    requires ls != [] && |bs| == |modes| == |frames| == |ls| && |scopes| == |ls| + 1
    requires LevelMeant(ls[0], bs[0], modes[0], frames[0], scopes[0], scopes[1], levels, |ls|)
    requires AllMeant(ls[1..], bs[1..], modes[1..], frames[1..], scopes[1..], levels)
    ensures AllMeant(ls, bs, modes, frames, scopes, levels)
  {
  }

  /** Levels of versions not made yet do not matter. */
  lemma {:induction false} MeantGrows(ls: seq<Level>, bs: seq<Block>, modes: seq<Mode>, frames: seq<seq<Entry>>,
                                      scopes: seq<set<int>>, cur: map<int, int>, levels: seq<int>, iv: int,
                                      levels': seq<int>)
    requires AllMeant(ls, bs, modes, frames, scopes, levels) && Chain(ls, modes, frames, scopes, cur, levels, iv)
    requires SameBelow(levels, levels', iv)
    ensures AllMeant(ls, bs, modes, frames, scopes, levels')
    decreases |ls|
  {
    hide LevelOk, DepthOk, ScopeOk, SameBegin, RootsOwn;
    if ls != [] {
      StartOk(ls, modes, frames, scopes, cur, levels, iv);
      MeantGrows(ls[1..], bs[1..], modes[1..], frames[1..], scopes[1..], ls[0].start, levels, iv, levels');
    }
  }

  // --- steps --------------------------------------------------------------------------------

  lemma BeginRight(p: Table, t: Intended, ls: seq<Level>)
    requires Right(p, t, ls) && Own(p, Begin)
    ensures Right(Do(p, Begin), Advance(p, t, Begin), [Level(CellMap(p), [], [])] + ls)
  {
    hide Consistent, AllMeant;
    BeginKeeps(p, ls);
    var q, u, ms := Do(p, Begin), Advance(p, t, Begin), [Level(CellMap(p), [], [])] + ls;
    ScopeKnown(p, ls);
    MeantSizes(p, t, ls);
    assert ms[1..] == ls && u.blocks[1..] == t.blocks && q.modes[1..] == p.modes && q.frames[1..] == p.frames;
    assert q.scopes[1..] == p.scopes && q.scopes[1] == p.scopes[0];
    assert SameBegin(ms[0], u.blocks[0], p.scopes[0]);
    MeantCons(ms, u.blocks, q.modes, q.frames, q.scopes, q.levels);
  }

  lemma ScopeKnown(p: Table, ls: seq<Level>)
    requires Consistent(p, ls)
    ensures |p.modes| == |p.frames| == |ls| && |p.scopes| == |ls| + 1
    ensures |p.levels| == |p.cells| && 0 <= p.iv <= |p.cells|
    ensures p.scopes[0] <= p.syms && (ls != [] ==> p.scopes[1] <= p.syms)
    ensures forall r | r in p.syms :: 0 <= r < p.iv && 0 <= Cell(p.cells, r) < p.iv
  {
    ScopesKnown(ls, p.modes, p.frames, p.scopes, CellMap(p), p.levels, p.iv);
    assert CellMap(p).Keys == p.syms;
  }

  lemma MeantSizes(p: Table, t: Intended, ls: seq<Level>)
    requires AllMeant(ls, t.blocks, p.modes, p.frames, p.scopes, p.levels)
    ensures |t.blocks| == |p.modes| == |p.frames| == |ls| && |p.scopes| == |ls| + 1
  {
  }

  lemma FreshRight(p: Table, t: Intended, ls: seq<Level>)
    requires Right(p, t, ls) && Own(p, Fresh)
    ensures Right(Do(p, Fresh), Advance(p, t, Fresh), ls)
  {
    hide Consistent, AllMeant;
    FreshKeeps(p, ls);
  }

  lemma ConsistentHead(p: Table, ls: seq<Level>)
    requires Consistent(p, ls) && p.frames != []
    ensures |p.modes| == |p.frames| == |ls| && |p.scopes| == |ls| + 1 && p.scopes[1] <= p.scopes[0] <= p.syms
    ensures TableOk(CellMap(p), p.iv) && TableOk(ls[0].start, p.iv) && ls[0].start.Keys == p.syms
    ensures LevelOk(ls[0], p.modes[0], p.frames[0], CellMap(p), p.iv) && DepthOk(ls[0], p.scopes[1], p.levels, |ls|)
    ensures Shape(p)
  {
    hide LevelOk, DepthOk, TableOk;
    ChainHead(ls, p.modes, p.frames, p.scopes, CellMap(p), p.levels, p.iv);
    StartOk(ls, p.modes, p.frames, p.scopes, CellMap(p), p.levels, p.iv);
    assert CellMap(p).Keys == p.syms;
    OuterScope(ls, p.scopes[0], p.scopes[1]);
  }

  lemma ElseRight(p: Table, t: Intended, ls: seq<Level>)
    requires Right(p, t, ls) && Own(p, Else)
    ensures ls != [] && Right(Do(p, Else), Advance(p, t, Else), [Level(ls[0].start, ls[0].h, [])] + ls[1..])
  {
    hide Consistent, AllMeant, LevelOk, DepthOk, TableOk, Shape;
    ElseKeeps(p, ls);
    ConsistentHead(p, ls);
    MeantHead(ls, t.blocks, p.modes, p.frames, p.scopes, p.levels);
    var l, b := ls[0], t.blocks[0];
    var q, u, ms := Do(p, Else), Advance(p, t, Else), [Level(l.start, l.h, [])] + ls[1..];
    ElseCells(p, l);
    forall r | r in p.scopes[1]
      ensures Latest(l.h, l.start[r]) == t.cur[r]
    {
      LevelSymbol(l, p.modes[0], p.frames[0], CellMap(p), p.iv, r);
    }
    assert SameBegin(ms[0], u.blocks[0], p.scopes[1]);
    assert RootsOwn(l.start, p.scopes[1], InElse, Turned(p.frames[0])) by {
      forall i | 0 <= i < |p.frames[0]|
        ensures KnownRoot(l.start, p.scopes[1], Root(InElse, Turned(p.frames[0])[i]))
      {
        assert KnownRoot(l.start, p.scopes[1], Root(Straight, p.frames[0][i]));
      }
    }
    assert ms[1..] == ls[1..] && u.blocks[1..] == t.blocks[1..] && q.modes[1..] == p.modes[1..];
    assert q.frames[1..] == p.frames[1..] && q.scopes[1..] == p.scopes[1..] && q.scopes[0] == q.scopes[1];
    MeantCons(ms, u.blocks, q.modes, q.frames, q.scopes, q.levels);
  }

  lemma EndElseRight(p: Table, t: Intended, ls: seq<Level>)
    requires Right(p, t, ls) && Own(p, EndElse)
    ensures Right(Do(p, EndElse), Advance(p, t, EndElse), ls)
  {
    hide Consistent, AllMeant;
    EndElseKeeps(p, ls);
    MeantHead(ls, t.blocks, p.modes, p.frames, p.scopes, p.levels);
    var q, l, f := Do(p, EndElse), ls[0], p.frames[0];
    forall i | 0 <= i < |f|
      ensures KnownRoot(l.start, p.scopes[1], Root(Closed, Joined(f)[i]))
    {
      assert KnownRoot(l.start, p.scopes[1], Root(InElse, f[i]));
    }
    assert q.modes[1..] == p.modes[1..] && q.frames[1..] == p.frames[1..];
    MeantCons(ls, t.blocks, q.modes, q.frames, q.scopes, q.levels);
  }

  // --- a new version on entry ---------------------------------------------------------------

  lemma RebasedMeant(l: Level, b: Block, mode: Mode, f: seq<Entry>, scope: set<int>, outer: set<int>, levels: seq<int>,
                     d: int, cur: map<int, int>, iv: int, r: int, n: int)
    requires LevelMeant(l, b, mode, f, scope, outer, levels, d) && LevelOk(l, mode, f, cur, iv) && r !in outer
    requires r in l.start ==> !Assigned(l.g, l.start[r]) && !Assigned(l.h, l.start[r])
    requires r in scope ==> Cell(levels, n) >= d
    ensures LevelMeant(l.(start := l.start[r := n]), b, mode, f, scope, outer, levels, d)
  {
    var m := l.(start := l.start[r := n]);
    forall i | 0 <= i < |f|
      ensures KnownRoot(m.start, outer, Root(mode, f[i]))
    {
      NoEntry(l.g, l.h, mode, f, i);
      assert KnownRoot(l.start, outer, Root(mode, f[i]));
      var q :| q in l.start && l.start[q] == Root(mode, f[i]) && (q in outer || l.start[q] == q);
      assert q in m.start && m.start[q] == Root(mode, f[i]);
    }
  }

  lemma {:induction false} RebaseMeant(ls: seq<Level>, bs: seq<Block>, modes: seq<Mode>, frames: seq<seq<Entry>>,
                                       scopes: seq<set<int>>, cur: map<int, int>, levels: seq<int>, iv: int,
                                       r: int, n: int)
    requires AllMeant(ls, bs, modes, frames, scopes, levels) && Chain(ls, modes, frames, scopes, cur, levels, iv)
    requires Free(ls, cur, r) && (ls != [] ==> r !in scopes[1] && (r in scopes[0] ==> Cell(levels, n) >= |ls|))
    ensures AllMeant(Rebased(ls, r, n), bs, modes, frames, scopes, levels)
    decreases |ls|
  {
    hide LevelOk, LevelMeant, DepthOk, ScopeOk;
    if ls != [] {
      StartOk(ls, modes, frames, scopes, cur, levels, iv);
      FreeHead(ls, cur, r);
      RebasedMeant(ls[0], bs[0], modes[0], frames[0], scopes[0], scopes[1], levels, |ls|, cur, iv, r, n);
      if |ls| > 1 { OuterScope(ls[1..], scopes[1], scopes[2]); }
      FreeTail(ls, cur, r);
      RebaseMeant(ls[1..], bs[1..], modes[1..], frames[1..], scopes[1..], ls[0].start, levels, iv, r, n);
      assert Rebased(ls, r, n)[1..] == Rebased(ls[1..], r, n);
    }
  }

  lemma FreeHead(ls: seq<Level>, cur: map<int, int>, r: int)
    requires ls != [] && Free(ls, cur, r) && ls[0].start.Keys == cur.Keys
    ensures r in ls[0].start ==> !Assigned(ls[0].g, ls[0].start[r]) && !Assigned(ls[0].h, ls[0].start[r])
  {
  }

  /** A symbol comes into the innermost scope. */
  lemma MeantScope(ls: seq<Level>, bs: seq<Block>, modes: seq<Mode>, frames: seq<seq<Entry>>, scopes: seq<set<int>>,
                   levels: seq<int>, r: int)
    requires AllMeant(ls, bs, modes, frames, scopes, levels)
    requires ls != [] ==> r in ls[0].start && Cell(levels, ls[0].start[r]) >= |ls|
    ensures AllMeant(ls, bs, modes, frames, [scopes[0] + {r}] + scopes[1..], levels)
  {
    var ss := [scopes[0] + {r}] + scopes[1..];
    if ls != [] {
      assert ss[1..] == scopes[1..] && ss[1] == scopes[1];
    }
  }

  lemma DeclareRight(p: Table, t: Intended, ls: seq<Level>)
    requires Right(p, t, ls) && Own(p, Declare)
    ensures Right(Do(p, Declare), Advance(p, t, Declare), Rebased(ls, p.iv, p.iv))
  {
    hide AllMeant, Chain, Shape;
    DeclareKeeps(p, ls);
    ScopeKnown(p, ls);
    var q, n := Do(p, Declare), p.iv;
    AllBelow(ls, p.modes, p.frames, p.scopes, CellMap(p), p.levels, n);
    assert CellMap(p).Keys == p.syms;
    ChainGrows(ls, p.modes, p.frames, p.scopes, CellMap(p), p.levels, n, q.levels, n);
    MeantGrows(ls, t.blocks, p.modes, p.frames, p.scopes, CellMap(p), p.levels, n, q.levels);
    RebaseMeant(ls, t.blocks, p.modes, p.frames, p.scopes, CellMap(p), q.levels, n, n, n);
    MeantScope(Rebased(ls, n, n), t.blocks, p.modes, p.frames, p.scopes, q.levels, n);
  }

  lemma UnrecordedRight(p: Table, t: Intended, ls: seq<Level>, r: int)
    requires Right(p, t, ls) && Own(p, Reassign(r)) && p.frames != [] && !Recorded(p, Cell(p.cells, r))
    ensures Right(Do(p, Reassign(r)), Advance(p, t, Reassign(r)), Rebased(ls, r, p.iv))
  {
    hide AllMeant, Chain, Shape;
    UnrecordedKeeps(p, ls, r);
    UnrecordedIsFree(p, ls, r);
    ScopeKnown(p, ls);
    var q, n := Do(p, Reassign(r)), p.iv;
    ChainGrows(ls, p.modes, p.frames, p.scopes, CellMap(p), p.levels, n, q.levels, n);
    MeantGrows(ls, t.blocks, p.modes, p.frames, p.scopes, CellMap(p), p.levels, n, q.levels);
    assert r in CellMap(p);
    RebaseMeant(ls, t.blocks, p.modes, p.frames, p.scopes, CellMap(p), q.levels, n, r, n);
    ReassignedCells(p, t, r);
  }

  lemma ReassignedCells(p: Table, t: Intended, r: int)
    requires CellsRight(p, t) && Legal(p, Reassign(r)) && t.cur.Keys <= p.syms && Shape(p) && r in t.cur
    ensures CellsRight(Do(p, Reassign(r)), Advance(p, t, Reassign(r)))
    ensures Advance(p, t, Reassign(r)).cur.Keys == t.cur.Keys
  {
  }

  // --- a version that goes into the frame ---------------------------------------------------

  /** What a new entry is about: the version on entry of its symbol. */
  lemma NotedRoots(l: Level, mode: Mode, f: seq<Entry>, cur: map<int, int>, iv: int, outer: set<int>, r: int, n: int)
    requires LevelOk(l, mode, f, cur, iv) && mode != Closed && r in cur && RootsOwn(l.start, outer, mode, f)
    requires r in outer || l.start[r] == r || cur[r] != l.start[r]
    ensures RootsOwn(l.start, outer, mode, Insert(f, n, cur[r]))
  {
    LevelSymbol(l, mode, f, cur, iv, r);
    var x, w := l.start[r], cur[r];
    var g, k := Insert(f, n, w), Find(f, w);
    if Assigned(l.g, x) || Assigned(l.h, x) { FoundWhenAssigned(l, mode, f, cur, iv, r); }
    else { LatestUnassigned(l.h, x); }
    forall i | 0 <= i < |g|
      ensures KnownRoot(l.start, outer, Root(mode, g[i]))
    {
      if k < |f| {
        assert KnownRoot(l.start, outer, Root(mode, f[i]));
      } else if i > 0 {
        assert KnownRoot(l.start, outer, Root(mode, f[i - 1]));
      }
    }
  }

  lemma FoundWhenAssigned(l: Level, mode: Mode, f: seq<Entry>, cur: map<int, int>, iv: int, r: int)
    requires LevelOk(l, mode, f, cur, iv) && mode != Closed && r in cur && r in l.start
    requires Assigned(l.g, l.start[r]) || Assigned(l.h, l.start[r])
    ensures Find(f, cur[r]) < |f|
  {
    assert SymbolOk(l, cur, r);
    assert HasEntry(f, l.start[r]);
    var i :| 0 <= i < |f| && f[i].b == l.start[r];
    assert EntryTracks(l.g, l.h, f[i]);
  }

  lemma NoteMeant(ls: seq<Level>, bs: seq<Block>, modes: seq<Mode>, frames: seq<seq<Entry>>, scopes: seq<set<int>>,
                  cur: map<int, int>, levels: seq<int>, iv: int, r: int, n: int)
    requires AllMeant(ls, bs, modes, frames, scopes, levels) && Chain(ls, modes, frames, scopes, cur, levels, iv)
    requires r in cur && (ls != [] ==> modes[0] != Closed)
    requires ls != [] ==> r in ls[0].start && (r in scopes[1] || ls[0].start[r] == r || cur[r] != ls[0].start[r])
    ensures AllMeant(Noted(ls, cur, r, n), bs, modes, Inserted(frames, n, cur[r]), scopes, levels)
  {
    hide LevelOk, DepthOk, ScopeOk, RootsOwn, Insert;
    if ls != [] {
      var ms, fs := Noted(ls, cur, r, n), Inserted(frames, n, cur[r]);
      NotedRoots(ls[0], modes[0], frames[0], cur, iv, scopes[1], r, n);
      assert ms[1..] == ls[1..] && fs[1..] == frames[1..];
      assert SameBegin(ms[0], bs[0], scopes[1]);
    }
  }

  lemma RecordedRight(p: Table, t: Intended, ls: seq<Level>, r: int)
    requires Right(p, t, ls) && Own(p, Reassign(r)) && (p.frames == [] || Recorded(p, Cell(p.cells, r)))
    ensures r in CellMap(p) && Right(Do(p, Reassign(r)), Advance(p, t, Reassign(r)), Noted(ls, CellMap(p), r, p.iv))
  {
    hide AllMeant, Chain, Shape;
    RecordedKeeps(p, ls, r);
    ScopeKnown(p, ls);
    var q, n, c := Do(p, Reassign(r)), p.iv, CellMap(p);
    ChainGrows(ls, p.modes, p.frames, p.scopes, c, p.levels, n, q.levels, n);
    MeantGrows(ls, t.blocks, p.modes, p.frames, p.scopes, c, p.levels, n, q.levels);
    if ls != [] {
      ConsistentHead(p, ls);
      MeantHead(ls, t.blocks, p.modes, p.frames, p.scopes, p.levels);
    }
    NoteMeant(ls, t.blocks, p.modes, p.frames, p.scopes, c, q.levels, n, r, n);
    assert q.frames == Inserted(p.frames, n, c[r]);
    ReassignedCells(p, t, r);
  }

  // --- commits ------------------------------------------------------------------------------

  lemma {:induction false} MergeMeant(ls: seq<Level>, bs: seq<Block>, modes: seq<Mode>, rest: seq<seq<Entry>>,
                                      scopes: seq<set<int>>, cur: map<int, int>, levels: seq<int>, iv: int,
                                      f: seq<Entry>, k: nat)
    requires AllMeant(ls, bs, modes, rest, scopes, levels) && Chain(ls, modes, rest, scopes, cur, levels, iv)
    requires iv >= 0 && k <= |f| && (ls != [] ==> modes[0] != Closed) && forall v | v >= iv :: Cell(levels, v) == 0
    requires forall i | 0 <= i < |f| :: f[i].target in cur && cur[f[i].target] == f[i].target
    requires forall i, j | 0 <= i < j < |f| :: f[i].target != f[j].target
    ensures AllMeant(LevelsAfter(ls, cur, f, iv, k), bs, modes, Merge(rest, f, iv, k), scopes, levels)
    decreases |f| - k
  {
    hide Chain, AllMeant, Merge, Insert;
    MergeStep(rest, f, iv, k);
    if k < |f| {
      MergeMeant(ls, bs, modes, rest, scopes, cur, levels, iv, f, k + 1);
      MergeChain(ls, modes, rest, scopes, cur, levels, iv, f, k + 1);
      var c, m, n, x := CurAfter(cur, f, iv, k + 1), LevelsAfter(ls, cur, f, iv, k + 1),
          iv + (|f| - 1 - k), f[k].target;
      CurAfterIs(cur, f, iv, k + 1, x);
      StartKnows(m, modes, Merge(rest, f, iv, k + 1), scopes, c, levels, n, x);
      NoteMeant(m, bs, modes, Merge(rest, f, iv, k + 1), scopes, c, levels, n, x, n);
    }
  }

  lemma StartKnows(ls: seq<Level>, modes: seq<Mode>, frames: seq<seq<Entry>>, scopes: seq<set<int>>, cur: map<int, int>,
                   levels: seq<int>, iv: int, x: int)
    requires Chain(ls, modes, frames, scopes, cur, levels, iv) && x in cur
    ensures ls != [] ==> x in ls[0].start
  {
    if ls != [] { StartOk(ls, modes, frames, scopes, cur, levels, iv); }
  }

  lemma ConsistentTail(p: Table, ls: seq<Level>)
    requires Consistent(p, ls) && p.frames != []
    ensures |p.modes| == |p.frames| == |ls| && |p.scopes| == |ls| + 1 && p.iv >= 0
    ensures Chain(ls[1..], p.modes[1..], p.frames[1..], p.scopes[1..], ls[0].start, p.levels, p.iv)
    ensures |ls| > 1 ==> p.modes[1] != Closed
    ensures forall v | v >= p.iv :: Cell(p.levels, v) == 0
  {
    hide Chain;
    ChainHead(ls, p.modes, p.frames, p.scopes, CellMap(p), p.levels, p.iv);
    ShapeSizes(p);
  }

  /** Where a symbol of the outer scope ends up: the phi of the entry about its version at the block's begin. */
  lemma JointIs(start: map<int, int>, iv0: int, mode: Mode, f: seq<Entry>, iv: int, r: int)
    requires TableOk(start, iv0) && OwnTargets(start, mode, f) && r in start
    ensures r in CurAfter(start, f, iv, 0) && CurAfter(start, f, iv, 0)[r] == Substitute(f, iv, start[r])
  {
    CurAfterIs(start, f, iv, 0, r);
    var j := LastFor(f, start[r]);
    if j >= 0 {
      assert start[f[j].target] == f[j].target;
      assert f[j].target == r;
    } else {
      forall i | 0 <= i < |f|
        ensures f[i].target != r
      {
        assert start[f[i].target] == f[i].target;
      }
    }
  }

  lemma CommitRight(p: Table, t: Intended, ls: seq<Level>)
    requires Right(p, t, ls) && Own(p, Commit)
    ensures ls != [] &&
            Right(Do(p, Commit), Advance(p, t, Commit), LevelsAfter(ls[1..], ls[0].start, p.frames[0], p.iv, 0))
  {
    hide Consistent, AllMeant, Chain, LevelOk, DepthOk, TableOk, Shape, Merge, CellsAfter, CurAfter, LevelsAfter;
    hide OwnTargets, RootsOwn, DeepEnough;
    CommitKeeps(p, ls);
    ConsistentHead(p, ls);
    ConsistentTail(p, ls);
    MeantHead(ls, t.blocks, p.modes, p.frames, p.scopes, p.levels);
    var q, u, f, l := Do(p, Commit), Advance(p, t, Commit), p.frames[0], ls[0];
    TargetsOwn(p, l);
    CommitCells(p, l);
    OwnTargetsAre(l.start, p.modes[0], f);
    MergeMeant(ls[1..], t.blocks[1..], p.modes[1..], p.frames[1..], p.scopes[1..], l.start, p.levels, p.iv, f, 0);
    forall r | r in p.scopes[1]
      ensures Cell(q.cells, r) == u.cur[r]
    {
      JointIs(l.start, p.iv, p.modes[0], f, p.iv, r);
      assert CellMap(q)[r] == Cell(q.cells, r) && l.start[r] == t.blocks[0].begin[r];
    }
  }

  lemma OwnTargetsAre(start: map<int, int>, mode: Mode, f: seq<Entry>)
    requires OwnTargets(start, mode, f)
    ensures forall i | 0 <= i < |f| :: f[i].target in start && start[f[i].target] == f[i].target
    ensures forall i, j | 0 <= i < j < |f| :: f[i].target != f[j].target
  {
  }

  lemma StepRight(p: Table, t: Intended, ls: seq<Level>, s: Step) returns (ms: seq<Level>)
    requires Right(p, t, ls) && Own(p, s)
    ensures Right(Do(p, s), Advance(p, t, s), ms)
  {
    hide Right;
    match s
    case Declare => DeclareRight(p, t, ls); ms := Rebased(ls, p.iv, p.iv);
    case Fresh => FreshRight(p, t, ls); ms := ls;
    case Begin => BeginRight(p, t, ls); ms := [Level(CellMap(p), [], [])] + ls;
    case Else => ElseRight(p, t, ls); ms := [Level(ls[0].start, ls[0].h, [])] + ls[1..];
    case EndElse => EndElseRight(p, t, ls); ms := ls;
    case Commit => CommitRight(p, t, ls); ms := LevelsAfter(ls[1..], ls[0].start, p.frames[0], p.iv, 0);
    case Reassign(r) =>
      if p.frames == [] || Recorded(p, Cell(p.cells, r)) {
        RecordedRight(p, t, ls, r);
        ms := Noted(ls, CellMap(p), r, p.iv);
      } else {
        UnrecordedRight(p, t, ls, r);
        ms := Rebased(ls, r, p.iv);
      }
  }

  // --- outside the condition ----------------------------------------------------------------

  /** A commit that finds an entry under another number than a symbol's own leaves a cell of the outer scope
      behind its phi. */
  lemma CommitWrong(p: Table, t: Intended, ls: seq<Level>)
    requires Right(p, t, ls) && Legal(p, Commit) && !Own(p, Commit)
    ensures !CellsRight(Do(p, Commit), Advance(p, t, Commit))
  {
    hide Consistent, AllMeant, LevelOk, DepthOk, Shape, DeepEnough, CellsAfter, Merge;
    ConsistentHead(p, ls);
    MeantHead(ls, t.blocks, p.modes, p.frames, p.scopes, p.levels);
    var f, l := p.frames[0], ls[0];
    var i :| 0 <= i < |f| && f[i].target !in p.syms;
    CommitRoots(p);
    assert KnownRoot(l.start, p.scopes[1], Root(p.modes[0], f[i]));
    var r :| r in l.start && l.start[r] == f[i].target && (r in p.scopes[1] || l.start[r] == r);
    assert r in p.scopes[1];
    CommitNames(p, r, i);
    assert LastFor(f, f[i].target) == i;
    assert Advance(p, t, Commit).cur[r] == p.iv + (|f| - 1 - i);
  }

  lemma CommitRoots(p: Table)
    requires Shape(p) && Legal(p, Commit)
    ensures forall i | 0 <= i < |p.frames[0]| :: Root(p.modes[0], p.frames[0][i]) == p.frames[0][i].target
    ensures forall i, j | 0 <= i < j < |p.frames[0]| :: p.frames[0][i].target != p.frames[0][j].target
  {
    assert FrameShape(p.modes[0], p.syms, p.iv, p.frames[0]);
    forall i | 0 <= i < |p.frames[0]|
      ensures Root(p.modes[0], p.frames[0][i]) == p.frames[0][i].target
    {
      assert EntryShape(p.modes[0], p.syms, p.iv, p.frames[0][i]);
    }
  }

  /** An else branch that finds one starts with the first branch's version of a symbol. */
  lemma ElseWrong(p: Table, t: Intended, ls: seq<Level>)
    requires Right(p, t, ls) && Legal(p, Else) && !Own(p, Else)
    ensures !CellsRight(Do(p, Else), Advance(p, t, Else))
  {
    hide Consistent, AllMeant, DepthOk, Shape, DeepEnough, LevelOk, Restored, TableOk;
    ConsistentHead(p, ls);
    MeantHead(ls, t.blocks, p.modes, p.frames, p.scopes, p.levels);
    var f, l := p.frames[0], ls[0];
    var i :| 0 <= i < |f| && f[i].b !in p.syms;
    assert KnownRoot(l.start, p.scopes[1], Root(Straight, f[i]));
    var r :| r in l.start && l.start[r] == f[i].b && (r in p.scopes[1] || l.start[r] == r);
    assert r in p.scopes[1];
    NotRestored(p, l, i, r);
    assert Advance(p, t, Else).cur[r] == l.start[r];
  }

  /** The cell of a symbol that the first branch assigned is not reset by the entry about another number. */
  lemma NotRestored(p: Table, l: Level, i: nat, r: int)
    requires Shape(p) && Legal(p, Else) && i < |p.frames[0]| && r in p.syms && l.start.Keys == p.syms
    requires TableOk(l.start, p.iv) && r in l.start && l.start[r] == p.frames[0][i].b && l.start[r] !in p.syms
    requires LevelOk(l, Straight, p.frames[0], CellMap(p), p.iv)
    ensures Cell(Restored(p.cells, p.frames[0]), r) != l.start[r]
  {
    var f := p.frames[0];
    CellBounds(p, r);
    RestoredCells(p.cells, f, r);
    RootsAreVersions(l, f, CellMap(p), p.iv, r);
    FirstBranchMoved(l, f, CellMap(p), p.iv, i, r);
    assert CellMap(p)[r] == Cell(p.cells, r);
  }

  /** No entry is about the number of a symbol that entered the block under another one. */
  lemma RootsAreVersions(l: Level, f: seq<Entry>, cur: map<int, int>, iv: int, r: int)
    requires LevelOk(l, Straight, f, cur, iv) && TableOk(l.start, iv) && r in l.start && l.start[r] !in l.start
    ensures forall j | 0 <= j < |f| :: f[j].b != r
  {
    forall j | 0 <= j < |f|
      ensures f[j].b != r
    {
      assert OnEntry(l.start, Root(Straight, f[j]));
    }
  }

  lemma FirstBranchMoved(l: Level, f: seq<Entry>, cur: map<int, int>, iv: int, i: nat, r: int)
    requires LevelOk(l, Straight, f, cur, iv) && i < |f| && r in cur && r in l.start && l.start[r] == f[i].b
    ensures cur[r] != l.start[r]
  {
    NoEntry(l.g, l.h, Straight, f, i);
    LevelSymbol(l, Straight, f, cur, iv, r);
    assert !Assigned(l.g, l.start[r]);
    LatestMoves(l.h, l.start[r]);
  }

  lemma CellBounds(p: Table, r: int)
    requires Shape(p) && r in p.syms
    ensures 0 <= r < |p.cells|
  {
  }

  // --- runs ---------------------------------------------------------------------------------

  lemma OwnIsInScope(p: Table, s: Step)
    ensures Own(p, s) ==> InScope(p, s)
  {
  }

  /** Runs under the condition stay right. */
  lemma {:induction false} RunsStayRight(n: nat, steps: seq<Step>) returns (ls: seq<Level>)
    requires OwnRun(Start(n, Zeros(n)), steps)
    ensures InScopeRun(Start(n, Zeros(n)), steps) && Play(Start(n, Zeros(n)), steps).At?
    ensures Right(Play(Start(n, Zeros(n)), steps).p, Meant(Start(n, Zeros(n)), steps), ls)
  {
    var p0 := Start(n, Zeros(n));
    if steps == [] {
      ls := [];
      assert CellMap(p0) == map[];
    } else {
      var before, s := steps[..|steps| - 1], steps[|steps| - 1];
      ls := RunsStayRight(n, before);
      OwnIsInScope(Play(p0, before).p, s);
      ls := StepRight(Play(p0, before).p, Meant(p0, before), ls, s);
    }
  }

  /** For every run that assigns only what is in scope, however blocks, loops and conditionals nest: the cells
      hold the current versions after every step if and only if every commit and every else branch finds
      only entries about symbols under their own numbers. */
  lemma {:induction false} RightExactly(n: nat, steps: seq<Step>)
    requires InScopeRun(Start(n, Zeros(n)), steps)
    ensures AlwaysRight(Start(n, Zeros(n)), steps) <==> OwnRun(Start(n, Zeros(n)), steps)
  {
    var p0 := Start(n, Zeros(n));
    if steps == [] {
    } else {
      var before, s := steps[..|steps| - 1], steps[|steps| - 1];
      RightExactly(n, before);
      if OwnRun(p0, before) {
        var ls := RunsStayRight(n, before);
        var p, t := Play(p0, before).p, Meant(p0, before);
        if Own(p, s) {
          var ms := StepRight(p, t, ls, s);
        } else {
          StepWrong(p, t, ls, s);
        }
      }
    }
  }

  lemma StepWrong(p: Table, t: Intended, ls: seq<Level>, s: Step)
    requires Right(p, t, ls) && InScope(p, s) && !Own(p, s)
    ensures !CellsRight(Do(p, s), Advance(p, t, s))
  {
    hide Right, CellsRight;
    if s == Commit { CommitWrong(p, t, ls); }
    else if s == Else { ElseWrong(p, t, ls); }
  }

  // --- frames -------------------------------------------------------------------------------

  /** The entry of a symbol with version x at the block's begin, a at the end of its first branch, c now. */
  function Expected(mode: Mode, x: int, a: int, c: int): Entry
  {
    match mode
    case Straight => Entry(c, x, x)
    case InElse => Entry(c, x, a)
    case Closed => Entry(c, a, x)
  }

  /** The symbol has exactly that entry if the block has assigned it, and none if not. */
  ghost predicate SymbolEntry(f: seq<Entry>, mode: Mode, x: int, a: int, c: int)
  {
    if a == x && c == x then forall k | 0 <= k < |f| :: Root(mode, f[k]) != x
    else exists k :: 0 <= k < |f| && f[k] == Expected(mode, x, a, c) &&
                     forall j | 0 <= j < |f| && j != k :: Root(mode, f[j]) != x
  }

  /** x is a version that a symbol had when the block began, or the own number of a symbol of the block. */
  ghost predicate AboutSymbol(b: Block, syms: set<int>, x: int)
  {
    (exists r :: r in b.begin && b.begin[r] == x) || (x in syms && x !in b.begin)
  }

  /** A frame has exactly the entries that the assignments to symbols of the outer scope call for; what other
      entries it has are about symbols that the block itself declared. */
  ghost predicate FrameMeant(f: seq<Entry>, mode: Mode, b: Block, cur: map<int, int>, syms: set<int>)
  {
    && (forall r | r in b.begin ::
          r in cur && r in b.first && SymbolEntry(f, mode, b.begin[r], b.first[r], cur[r]))
    && (forall k | 0 <= k < |f| :: AboutSymbol(b, syms, Root(mode, f[k])))
  }

  /** Every open frame, the versions now of an outer one being those at the begin of the block inside it. */
  ghost predicate FramesMeant(frames: seq<seq<Entry>>, modes: seq<Mode>, bs: seq<Block>, cur: map<int, int>,
                              syms: set<int>)
    decreases |frames|
  {
    && |modes| == |bs| == |frames|
    && (frames != [] ==>
          && FrameMeant(frames[0], modes[0], bs[0], cur, syms)
          && FramesMeant(frames[1..], modes[1..], bs[1..], bs[0].begin, syms))
  }

  lemma EntryFollows(l: Level, mode: Mode, f: seq<Entry>, cur: map<int, int>, iv: int, r: int)
    requires LevelOk(l, mode, f, cur, iv) && r in cur && r in l.start
    ensures SymbolEntry(f, mode, l.start[r], Latest(l.g, l.start[r]), cur[r])
  {
    assert SymbolOk(l, cur, r);
    var x := l.start[r];
    if Assigned(l.g, x) || Assigned(l.h, x) {
      AssignedHasEntry(l.g, l.h, mode, f, x);
      var k :| 0 <= k < |f| && Root(mode, f[k]) == x;
      EntryIs(l, mode, f, k);
      RootsDistinct(l, mode, f, k);
      AssignedMoved(l, x);
    } else {
      LatestUnassigned(l.g, x);
      LatestUnassigned(l.h, x);
      forall k | 0 <= k < |f|
        ensures Root(mode, f[k]) != x
      {
        NoEntry(l.g, l.h, mode, f, k);
      }
    }
  }

  lemma AssignedMoved(l: Level, x: int)
    requires Versioned(l.g) && Versioned(l.h) && Original(l.g, x) && Original(l.h, x)
    requires Assigned(l.g, x) || Assigned(l.h, x)
    ensures Latest(l.g, x) != x || Latest(l.h, x) != x
  {
    if Assigned(l.g, x) { LatestMoves(l.g, x); } else { LatestMoves(l.h, x); }
  }

  lemma EntryIs(l: Level, mode: Mode, f: seq<Entry>, k: nat)
    requires FrameMeans(mode, l.g, l.h, f) && k < |f|
    ensures var x := Root(mode, f[k]); f[k] == Expected(mode, x, Latest(l.g, x), Latest(l.h, x))
  {
    if mode == Closed { assert EntryTracks(l.g, l.h, Entry(f[k].a, f[k].target, f[k].b)); }
    else { assert EntryTracks(l.g, l.h, f[k]); }
  }

  lemma RootsDistinct(l: Level, mode: Mode, f: seq<Entry>, k: nat)
    requires FrameMeans(mode, l.g, l.h, f) && k < |f|
    ensures forall j | 0 <= j < |f| && j != k :: Root(mode, f[j]) != Root(mode, f[k])
  {
    forall j | 0 <= j < |f| && j != k
      ensures Root(mode, f[j]) != Root(mode, f[k])
    {
      if j < k { assert Root(mode, f[j]) != Root(mode, f[k]); } else { assert Root(mode, f[k]) != Root(mode, f[j]); }
    }
  }

  lemma {:induction false} FramesFollow(ls: seq<Level>, bs: seq<Block>, modes: seq<Mode>, frames: seq<seq<Entry>>,
                                        scopes: seq<set<int>>, cur: map<int, int>, levels: seq<int>, iv: int,
                                        now: map<int, int>)
    requires AllMeant(ls, bs, modes, frames, scopes, levels) && Chain(ls, modes, frames, scopes, cur, levels, iv)
    requires now.Keys == scopes[0] && forall r | r in now :: r in cur && now[r] == cur[r]
    ensures FramesMeant(frames, modes, bs, now, cur.Keys)
    decreases |ls|
  {
    if ls != [] {
      hide LevelOk, SymbolEntry, AboutSymbol, KnownRoot;
      ChainHead(ls, modes, frames, scopes, cur, levels, iv);
      StartOk(ls, modes, frames, scopes, cur, levels, iv);
      OuterScope(ls, scopes[0], scopes[1]);
      var l, b := ls[0], bs[0];
      forall r | r in b.begin
        ensures r in now && r in b.first && SymbolEntry(frames[0], modes[0], b.begin[r], b.first[r], now[r])
      {
        EntryFollows(l, modes[0], frames[0], cur, iv, r);
      }
      forall k | 0 <= k < |frames[0]|
        ensures AboutSymbol(b, cur.Keys, Root(modes[0], frames[0][k]))
      {
        assert KnownRoot(l.start, scopes[1], Root(modes[0], frames[0][k]));
        AboutIs(l.start, scopes[1], b, cur.Keys, Root(modes[0], frames[0][k]));
      }
      FramesFollow(ls[1..], bs[1..], modes[1..], frames[1..], scopes[1..], l.start, levels, iv, b.begin);
    }
  }

  lemma AboutIs(start: map<int, int>, outer: set<int>, b: Block, syms: set<int>, x: int)
    requires KnownRoot(start, outer, x) && b.begin.Keys == outer && start.Keys == syms
    requires forall r | r in outer :: r in start && start[r] == b.begin[r]
    ensures AboutSymbol(b, syms, x)
  {
    var r :| r in start && start[r] == x && (r in outer || start[r] == r);
    if r in outer { assert r in b.begin && b.begin[r] == x; }
  }

  /** And when the cells are right, so is every open frame: for each symbol of the scope around its block, it has
      exactly the entry between the version at the block's begin and the current one if the block has
      assigned the symbol, and none if it has not. */
  lemma FramesRight(n: nat, steps: seq<Step>)
    requires InScopeRun(Start(n, Zeros(n)), steps) && AlwaysRight(Start(n, Zeros(n)), steps)
    ensures var p, t := Play(Start(n, Zeros(n)), steps).p, Meant(Start(n, Zeros(n)), steps);
            FramesMeant(p.frames, p.modes, t.blocks, t.cur, p.syms)
  {
    hide AlwaysRight, OwnRun, InScopeRun, Play, Meant, Chain, AllMeant;
    RightExactly(n, steps);
    var ls := RunsStayRight(n, steps);
    var p, t := Play(Start(n, Zeros(n)), steps).p, Meant(Start(n, Zeros(n)), steps);
    ScopeKnown(p, ls);
    assert CellMap(p).Keys == p.syms;
    FramesFollow(ls, t.blocks, p.modes, p.frames, p.scopes, CellMap(p), p.levels, p.iv, t.cur);
  }

  // --- levels of phis -----------------------------------------------------------------------

  /** Variable v was made by a commit of the run. */
  predicate IsPhi(p: Table, steps: seq<Step>, v: int)
  {
    steps != [] && Play(p, steps).At? &&
    var before, s := steps[..|steps| - 1], steps[|steps| - 1];
    Play(p, before).At? &&
    (IsPhi(p, before, v) || (s == Commit && Play(p, before).p.iv <= v < Play(p, steps).p.iv))
  }

  /** Levels are written at the numbers that declarations and reassignments give out, and nowhere else. */
  lemma {:induction false} LevelsLeft(n: nat, levels: seq<int>, steps: seq<Step>, v: int)
    requires |levels| == n && Play(Start(n, levels), steps).At?
    ensures var p := Play(Start(n, levels), steps).p;
            && (IsPhi(Start(n, levels), steps, v) ==> v < p.iv)
            && (v >= p.iv || IsPhi(Start(n, levels), steps, v) ==> Cell(p.levels, v) == Cell(levels, v))
  {
    if steps != [] {
      var before, s := steps[..|steps| - 1], steps[|steps| - 1];
      LevelsLeft(n, levels, before, v);
    }
  }

  /** A reassignment of a symbol whose cell is at a phi reaches the frame if and only if the level that happens to
      be left at the phi's number is below the depth of the block. */
  lemma LeftoverDecides(n: nat, levels: seq<int>, steps: seq<Step>, r: int)
    requires |levels| == n && Play(Start(n, levels), steps).At?
    requires var p := Play(Start(n, levels), steps).p;
             Legal(p, Reassign(r)) && p.frames != [] && IsPhi(Start(n, levels), steps, Cell(p.cells, r))
    ensures var p := Play(Start(n, levels), steps).p;
            var was := Cell(p.cells, r);
            Do(p, Reassign(r)).frames ==
              if Cell(levels, was) < |p.frames| then [Insert(p.frames[0], p.iv, was)] + p.frames[1..] else p.frames
  {
    LevelsLeft(n, levels, steps, Cell(Play(Start(n, levels), steps).p.cells, r));
  }
}
