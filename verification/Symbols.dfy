/** The parser's table `assignment` of current versions next to the phi stack: reassignment, blocks and
    conditionals of parser.c, the commit of ir.c, when a commit leaves a symbol at its phi, and what
    frames and cells then mean over whole runs. */
module Symbols {
  import opened Ir
  import opened Phi
  import opened Versions

  // --- the table and its steps --------------------------------------------------------------

  /** Where the parser is in the block of an open frame: not in an else branch, in one, past one. */
  datatype Mode = Straight | InElse | Closed

  /** Frames, cells (`assignment`) and levels (`sym_cdepth`) as the code keeps them, the next free
      variable, every symbol's own number, and the symbols in Lua's scope, block by block. */
  datatype Table = Table(frames: seq<seq<Entry>>, modes: seq<Mode>, cells: seq<int>, levels: seq<int>, iv: int,
                         syms: set<int>, scopes: seq<set<int>>)

  datatype Step = Declare | Fresh | Reassign(r: int) | Begin | Else | EndElse | Commit

  /** What the grammar and the sizes of the arrays allow. */
  predicate Legal(p: Table, s: Step)
  {
    && |p.modes| == |p.frames| && |p.scopes| == |p.frames| + 1
    && match s
       case Declare => p.iv < |p.cells|
       case Fresh => p.iv < |p.cells|
       case Reassign(r) => r in p.syms && p.iv < |p.cells| && (p.modes != [] ==> p.modes[0] != Closed)
       case Begin => p.modes != [] ==> p.modes[0] != Closed
       case Else => p.modes != [] && p.modes[0] == Straight
       case EndElse => p.modes != [] && p.modes[0] == InElse
       case Commit => p.modes != [] && p.modes[0] != InElse && p.iv + |p.frames[0]| <= |p.cells|
  }

  /** Is the reassignment of a symbol whose cell holds version `was` put into the frame? */
  predicate Recorded(p: Table, was: int)
  {
    p.frames != [] && Cell(p.levels, was) < |p.frames|
  }

  /** The first loop of parse_if around an else branch: entry versions become current again. */
  function Restored(cells: seq<int>, f: seq<Entry>): (r: seq<int>)
    ensures |r| == |cells|
  {
    if f == [] then cells else Put(Restored(cells, f[..|f| - 1]), f[|f| - 1].b, f[|f| - 1].b)
  }

  function Do(p: Table, s: Step): Table
    requires Legal(p, s)
  {
    match s
    case Declare =>
      p.(cells := Put(p.cells, p.iv, p.iv), levels := Put(p.levels, p.iv, |p.frames|), iv := p.iv + 1,
         syms := p.syms + {p.iv}, scopes := [p.scopes[0] + {p.iv}] + p.scopes[1..])
    case Fresh => p.(iv := p.iv + 1)
    case Reassign(r) =>
      var was := Cell(p.cells, r);
      p.(cells := Put(Put(p.cells, p.iv, r), r, p.iv), iv := p.iv + 1,
         levels := Put(p.levels, p.iv, if Recorded(p, was) then Cell(p.levels, was) else |p.frames|),
         frames := if Recorded(p, was) then [Insert(p.frames[0], p.iv, was)] + p.frames[1..] else p.frames)
    case Begin => p.(frames := [[]] + p.frames, modes := [Straight] + p.modes, scopes := [p.scopes[0]] + p.scopes)
    case Else =>
      p.(frames := [Turned(p.frames[0])] + p.frames[1..], modes := [InElse] + p.modes[1..],
         cells := Restored(p.cells, p.frames[0]), scopes := [p.scopes[1]] + p.scopes[1..])
    case EndElse => p.(frames := [Joined(p.frames[0])] + p.frames[1..], modes := [Closed] + p.modes[1..])
    case Commit =>
      p.(frames := Merge(p.frames[1..], p.frames[0], p.iv, 0), modes := p.modes[1..], scopes := p.scopes[1..],
         cells := CellsAfter(p.cells, p.frames[0], p.iv, 0), iv := p.iv + |p.frames[0]|)
  }

  datatype Outcome = Illegal | At(p: Table)

  function Play(p: Table, steps: seq<Step>): Outcome
  {
    if steps == [] then At(p)
    else
      var r := Play(p, steps[..|steps| - 1]);
      if r.At? && Legal(r.p, steps[|steps| - 1]) then At(Do(r.p, steps[|steps| - 1])) else Illegal
  }

  /** parser_init, which clears the cells but not the levels. */
  function Start(n: nat, levels: seq<int>): Table
  {
    Table([], [], seq(n, _ => 0), levels, 0, {}, [{}])
  }

  // --- what every run keeps -----------------------------------------------------------------

  /** The version of the block's entry that an entry is about. */
  function Root(mode: Mode, e: Entry): int
  {
    if mode == Closed then e.target else e.b
  }

  /** Besides its root, an entry mentions only versions that are no symbol's own number. */
  predicate EntryShape(mode: Mode, syms: set<int>, iv: int, e: Entry)
  {
    && 0 <= e.a < iv && 0 <= e.b < iv && 0 <= e.target < iv
    && (mode == Straight ==> e.target == e.b)
    && (e.a == Root(mode, e) || e.a !in syms) && (e.b == Root(mode, e) || e.b !in syms)
    && (e.target == Root(mode, e) || e.target !in syms)
  }

  predicate FrameShape(mode: Mode, syms: set<int>, iv: int, f: seq<Entry>)
  {
    && (forall i | 0 <= i < |f| :: EntryShape(mode, syms, iv, f[i]))
    && (forall i, j | 0 <= i < j < |f| :: Root(mode, f[i]) != Root(mode, f[j]))
  }

  ghost predicate Shape(p: Table)
  {
    && |p.modes| == |p.frames| && |p.scopes| == |p.frames| + 1 && |p.levels| == |p.cells| && 0 <= p.iv <= |p.cells|
    && (forall r | r in p.syms :: 0 <= r < p.iv && 0 <= Cell(p.cells, r) < p.iv)
    && (forall i | 0 <= i < |p.frames| :: FrameShape(p.modes[i], p.syms, p.iv, p.frames[i]))
    && (forall i | 1 <= i < |p.frames| :: p.modes[i] != Closed)
  }

  lemma InsertShape(mode: Mode, syms: set<int>, iv: int, f: seq<Entry>, val: int, was: int, iv': int)
    requires FrameShape(mode, syms, iv, f) && mode != Closed
    requires iv <= val < iv' && 0 <= was < iv && 0 <= iv && forall r | r in syms :: r < iv
    ensures FrameShape(mode, syms, iv', Insert(f, val, was))
  {
    var r := Insert(f, val, was);
    var k := Find(f, was);
    forall i | 0 <= i < |r|
      ensures EntryShape(mode, syms, iv', r[i])
    {
      if k < |f| { assert EntryShape(mode, syms, iv, f[i]); }
      else if i > 0 { assert EntryShape(mode, syms, iv, f[i - 1]); }
    }
  }

  /** More variables and more symbols, none of them mentioned yet, change nothing. */
  lemma ShapeGrows(mode: Mode, syms: set<int>, syms': set<int>, iv: int, iv': int, f: seq<Entry>)
    requires FrameShape(mode, syms, iv, f) && iv <= iv' && forall r | r in syms' && r !in syms :: r >= iv
    ensures FrameShape(mode, syms', iv', f)
  {
    forall i | 0 <= i < |f|
      ensures EntryShape(mode, syms', iv', f[i])
    {
      assert EntryShape(mode, syms, iv, f[i]);
    }
  }

  lemma {:induction false} MergeShape(rest: seq<seq<Entry>>, f: seq<Entry>, k: nat, modes: seq<Mode>, syms: set<int>,
                                      iv: int)
    requires k <= |f| && |modes| == |rest| && 0 <= iv && forall r | r in syms :: r < iv
    requires forall i | 0 <= i < |rest| :: FrameShape(modes[i], syms, iv, rest[i]) && modes[i] != Closed
    requires forall i | 0 <= i < |f| :: 0 <= f[i].target < iv
    ensures var m := Merge(rest, f, iv, k);
            forall i | 0 <= i < |m| :: FrameShape(modes[i], syms, iv + (|f| - k), m[i])
    decreases |f| - k
  {
    hide FrameShape, Insert, Merge;
    MergeStep(rest, f, iv, k);
    if k < |f| && rest != [] {
      MergeShape(rest, f, k + 1, modes, syms, iv);
      var m, n := Merge(rest, f, iv, k + 1), iv + (|f| - 1 - k);
      InsertShape(modes[0], syms, n, m[0], n, f[k].target, n + 1);
      forall i | 1 <= i < |m|
        ensures FrameShape(modes[i], syms, n + 1, Merge(rest, f, iv, k)[i])
      {
        ShapeGrows(modes[i], syms, syms, n, n + 1, m[i]);
      }
    }
  }

  /** What a commit writes, cell by cell: a cell that no entry mentions keeps its content, and one that
      entry j alone mentions gets the phi of entry j. */
  lemma {:induction false} CellsOfCommit(cells: seq<int>, f: seq<Entry>, iv: int, k: nat, r: int)
    requires k <= |f| && 0 <= r < |cells| && r < iv
    ensures (forall i | k <= i < |f| :: f[i].target != r && f[i].a != r && f[i].b != r) ==>
              Cell(CellsAfter(cells, f, iv, k), r) == Cell(cells, r)
    ensures forall j | k <= j < |f| && f[j].target == r &&
        (forall i | k <= i < |f| && i != j :: f[i].target != r && f[i].a != r && f[i].b != r) ::
              Cell(CellsAfter(cells, f, iv, k), r) == iv + (|f| - 1 - j)
    decreases |f| - k
  {
    CellsStep(cells, f, iv, k);
    if k < |f| { CellsOfCommit(cells, f, iv, k + 1, r); }
  }

  /** When a commit leaves a symbol's cell at the phi of an entry: exactly when the entry's target is
      the symbol's own number. In every other case the cell keeps what it held, although the phi
      supersedes it. */
  lemma CommitNames(p: Table, r: int, k: nat)
    requires Shape(p) && Legal(p, Commit) && r in p.syms && k < |p.frames[0]|
    ensures var q, phi := Do(p, Commit), p.iv + (|p.frames[0]| - 1 - k);
            (Cell(q.cells, r) == phi <==> p.frames[0][k].target == r)
    ensures (forall i | 0 <= i < |p.frames[0]| :: p.frames[0][i].target != r) ==>
        Cell(Do(p, Commit).cells, r) == Cell(p.cells, r)
  {
    var f := p.frames[0];
    forall i | 0 <= i < |f|
      ensures f[i].target != r ==> f[i].a != r && f[i].b != r
      ensures Root(p.modes[0], f[i]) == f[i].target
    {
      assert EntryShape(p.modes[0], p.syms, p.iv, f[i]);
    }
    CellsOfCommit(p.cells, f, p.iv, 0, r);
    if j :| 0 <= j < |f| && f[j].target == r {
      forall i | 0 <= i < |f| && i != j
        ensures f[i].target != r
      {
        assert Root(p.modes[0], f[i]) != Root(p.modes[0], f[j]);
      }
    }
  }

  lemma {:induction false} RestoredCells(cells: seq<int>, f: seq<Entry>, r: int)
    requires 0 <= r < |cells|
    ensures Cell(Restored(cells, f), r) == if exists i :: 0 <= i < |f| && f[i].b == r then r else Cell(cells, r)
  {
    if f != [] {
      var n := |f| - 1;
      RestoredCells(cells, f[..n], r);
      assert forall i | 0 <= i < n :: f[..n][i] == f[i];
      if i :| 0 <= i < n && f[i].b == r { assert f[..n][i].b == r; }
    }
  }

  lemma TurnShape(mode: Mode, syms: set<int>, iv: int, f: seq<Entry>)
    requires FrameShape(mode, syms, iv, f)
    ensures mode == Straight ==> FrameShape(InElse, syms, iv, Turned(f))
    ensures mode == InElse ==> FrameShape(Closed, syms, iv, Joined(f))
  {
    forall i | 0 <= i < |f|
      ensures mode == Straight ==> EntryShape(InElse, syms, iv, Turned(f)[i])
      ensures mode == InElse ==> EntryShape(Closed, syms, iv, Joined(f)[i])
    {
      assert EntryShape(mode, syms, iv, f[i]);
    }
  }

  lemma CommitShape(p: Table)
    requires Shape(p) && Legal(p, Commit)
    ensures Shape(Do(p, Commit))
  {
    var q, f := Do(p, Commit), p.frames[0];
    forall i | 0 <= i < |f|
      ensures 0 <= f[i].target < p.iv
    {
      assert EntryShape(p.modes[0], p.syms, p.iv, f[i]);
    }
    MergeShape(p.frames[1..], f, 0, p.modes[1..], p.syms, p.iv);
    forall r | r in p.syms
      ensures 0 <= Cell(q.cells, r) < q.iv
    {
      if j :| 0 <= j < |f| && f[j].target == r {
        CommitNames(p, r, j);
      } else if f != [] {
        CommitNames(p, r, 0);
      }
    }
  }

  lemma ReassignShape(p: Table, r: int)
    requires Shape(p) && Legal(p, Reassign(r))
    ensures Shape(Do(p, Reassign(r)))
  {
    hide FrameShape, Insert;
    var q, was := Do(p, Reassign(r)), Cell(p.cells, r);
    forall i | 0 <= i < |p.frames|
      ensures FrameShape(p.modes[i], p.syms, q.iv, q.frames[i])
    {
      if i == 0 && Recorded(p, was) { InsertShape(p.modes[0], p.syms, p.iv, p.frames[0], p.iv, was, q.iv); }
      else { ShapeGrows(p.modes[i], p.syms, p.syms, p.iv, q.iv, p.frames[i]); }
    }
  }

  lemma StepShape(p: Table, s: Step)
    requires Shape(p) && Legal(p, s)
    ensures Shape(Do(p, s))
  {
    match s
    case Commit => CommitShape(p);
    case Reassign(r) => ReassignShape(p, r);
    case Else =>
      TurnShape(p.modes[0], p.syms, p.iv, p.frames[0]);
      forall r | r in p.syms
        ensures 0 <= Cell(Restored(p.cells, p.frames[0]), r) < p.iv
      {
        RestoredCells(p.cells, p.frames[0], r);
      }
    case EndElse => TurnShape(p.modes[0], p.syms, p.iv, p.frames[0]);
    case _ =>
      var q := Do(p, s);
      forall i | 0 <= i < |p.frames|
        ensures FrameShape(p.modes[i], q.syms, q.iv, p.frames[i])
      {
        ShapeGrows(p.modes[i], p.syms, q.syms, p.iv, q.iv, p.frames[i]);
      }
  }

  /** Every run from parser_init, however nested, keeps the shape that `CommitNames` needs. */
  lemma {:induction false} RunsKeepShape(n: nat, levels: seq<int>, steps: seq<Step>)
    requires |levels| == n && Play(Start(n, levels), steps).At?
    ensures Shape(Play(Start(n, levels), steps).p)
  {
    if steps != [] {
      var before := steps[..|steps| - 1];
      RunsKeepShape(n, levels, before);
      StepShape(Play(Start(n, levels), before).p, steps[|steps| - 1]);
    }
  }
}
