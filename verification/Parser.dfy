/** The parts of parser.c that keep the table of current versions, in place: declarations, reassignment, the bounds
    of blocks, the two loops around an else branch, and whole programs of these. */
module Parser {
  import opened Ir
  import opened Phi
  import opened Versions
  import opened Symbols
  import opened Tracking
  import opened Intent

  /** An open block: whether it is a loop's, and the position in the code of its begin. */
  datatype Open = Open(loop: bool, pos: nat)

  /** The code so far and the blocks open in it, innermost first. */
  datatype Listing = Listing(code: seq<Tac>, opens: seq<Open>)

  /** The open blocks from the arrays that keep them by depth, from 1 on. */
  function OpensOf(loops: seq<bool>, joins: seq<nat>, n: nat): (r: seq<Open>)
    requires n < |loops| == |joins|
    ensures |r| == n && forall i | 0 <= i < n :: r[i] == Open(loops[n - i], joins[n - i])
  {
    seq(n, i requires 0 <= i < n => Open(loops[n - i], joins[n - i]))
  }

  lemma OpensPushed(loops: seq<bool>, joins: seq<nat>, loops': seq<bool>, joins': seq<nat>, n: nat)
    requires n + 1 < |loops| == |joins| == |loops'| == |joins'|
    requires forall d | 0 <= d <= n :: loops'[d] == loops[d] && joins'[d] == joins[d]
    ensures OpensOf(loops', joins', n + 1) == [Open(loops'[n + 1], joins'[n + 1])] + OpensOf(loops, joins, n)
    ensures OpensOf(loops', joins', n + 1)[1..] == OpensOf(loops', joins', n)
  {
  }

  class Parse {
    const c: PhiIr
    const assignment: array<int>
    const symDepth: array<int>
    var cdepth: nat
    ghost var modes: seq<Mode>
    ghost var syms: set<int>
    ghost var scopes: seq<set<int>>

    ghost function State(): Table
      reads this, c, assignment, symDepth
    {
      Table(c.frames, modes, assignment[..], symDepth[..], c.iv, syms, scopes)
    }

    ghost function Opens(): (r: seq<Open>)
      requires cdepth < c.joinPos.Length == c.joinLoop.Length
      ensures |r| == cdepth
      reads `cdepth, c.joinPos, c.joinLoop
    {
      OpensOf(c.joinLoop[..], c.joinPos[..], cdepth)
    }

    ghost function Listed(): Listing
      requires c.Valid() && cdepth == c.phidepth
      reads this, c, c.ops, c.joinPos, c.joinLoop
    {
      Listing(c.Code(), Opens())
    }

    ghost predicate Valid()
      reads this, c, c.ops, c.joinPos, assignment, symDepth
    {
      && c.Valid() && cdepth == c.phidepth && assignment != symDepth && Shape(State())
      && forall d | 1 <= d <= cdepth :: c.joinPos[d] <= c.size
    }

    /** parser_init: the cells are cleared, `levels` are the contents the other array happens to have. */
    constructor (c: PhiIr, levels: array<int>)
      requires c.Valid() && c.frames == [] && c.iv == 0
      ensures Valid() && this.c == c && fresh(assignment) && symDepth == levels
      ensures State() == Start(levels.Length, levels[..])
    {
      this.c := c;
      assignment := new int[levels.Length](_ => 0);
      symDepth := levels;
      cdepth, modes, syms, scopes := 0, [], {}, [{}];
      new;
      assert assignment[..] == seq(levels.Length, _ => 0);
    }

    /** parser_newsym and the cell that parse_assignment sets. */
    method Declare() returns (r: int)
      requires Valid() && Legal(State(), Symbols.Declare)
      modifies this`syms, this`scopes, c`iv, assignment, symDepth
      ensures Valid() && State() == Do(old(State()), Symbols.Declare) && r == old(c.iv)
    {
      hide FrameShape, Rep;
      ghost var p := State();
      StepShape(p, Symbols.Declare);
      r := c.iv;
      c.iv := r + 1;
      symDepth[r] := cdepth;
      assignment[r] := r;
      syms, scopes := syms + {r}, [scopes[0] + {r}] + scopes[1..];
      assert assignment[..] == p.cells[r := r] && symDepth[..] == p.levels[r := |p.frames|];
    }

    /** ir_newvar, for the result of an operation. */
    method Fresh() returns (r: int)
      requires Valid() && Legal(State(), Symbols.Fresh)
      modifies c`iv
      ensures Valid() && State() == Do(old(State()), Symbols.Fresh) && r == old(c.iv)
    {
      hide FrameShape, Rep;
      StepShape(State(), Symbols.Fresh);
      r := c.iv;
      c.iv := r + 1;
    }

    /** The part of parse_assignment for a local that exists. */
    method Reassign(r: int)
      requires Valid() && Legal(State(), Symbols.Reassign(r)) && (cdepth > 0 ==> c.size < c.iphi)
      modifies c`iv, c`iphi, c`frames, c.ops, assignment, symDepth
      ensures Valid() && State() == Do(old(State()), Symbols.Reassign(r)) && c.Code() == old(c.Code())
    {
      hide FrameShape, Rep, Insert;
      ghost var p := State();
      StepShape(p, Symbols.Reassign(r));
      var n := c.iv;
      c.iv := n + 1;
      var was := assignment[r];
      assignment[n] := r;
      symDepth[n] := cdepth;
      if cdepth > 0 && symDepth[was] < cdepth {
        var _ := c.Ins(n, was);
        symDepth[n] := symDepth[was];
      }
      assignment[r] := n;
      assert assignment[..] == p.cells[n := r][r := n];
      assert symDepth[..] == p.levels[n := if Recorded(p, was) then Cell(p.levels, was) else |p.frames|];
    }

    /** parser_phi_begin */
    method PhiBegin(loop: bool)
      requires Valid() && Legal(State(), Begin) && c.size < c.iphi && cdepth + 1 < c.joinPos.Length
      modifies this, c`iphi, c`phidepth, c`frames, c.ops, c.joinPos, c.joinLoop
      ensures Valid() && State() == Do(old(State()), Begin)
      ensures Listed() == Listing(old(c.Code()), [Open(loop, old(c.size))] + old(Opens()))
    {
      hide FrameShape, Rep;
      StepShape(State(), Begin);
      ghost var loops, joins := c.joinLoop[..], c.joinPos[..];
      c.Begin(loop);
      OpensPushed(loops, joins, c.joinLoop[..], c.joinPos[..], cdepth);
      cdepth := cdepth + 1;
      modes, scopes := [Straight] + modes, [scopes[0]] + scopes;
    }

    /** parser_phi_commit */
    method PhiCommit() returns (shift: nat)
      requires Valid() && Legal(State(), Symbols.Commit) && c.size + 2 * |c.frames[0]| <= c.iphi
      modifies this, c`size, c`iphi, c`phidepth, c`iv, c`frames, c.ops, assignment
      ensures Valid() && State() == Do(old(State()), Symbols.Commit) && shift == |old(c.frames)[0]|
      ensures c.size == old(c.size) + shift
      ensures var o := old(Opens()[0]);
              o.pos <= |old(c.Code())| &&
              Listed() == Listing(After(old(c.Code()), o.loop, o.pos, old(c.frames)[0], old(c.iv)), old(Opens())[1..])
    {
      hide Shape, FrameShape, Rep, Merge, CellsAfter, InTable, After;
      ghost var p := State();
      CommitFits(p);
      StepShape(p, Symbols.Commit);
      OpensPushed(c.joinLoop[..], c.joinPos[..], c.joinLoop[..], c.joinPos[..], cdepth - 1);
      cdepth := cdepth - 1;
      ghost var code := c.Code();
      shift := c.Commit(assignment);
      AfterSize(code, c.joinLoop[cdepth + 1], c.joinPos[cdepth + 1], p.frames[0], p.iv);
      modes, scopes := modes[1..], scopes[1..];
    }

    /** The first loop of parse_if, over the frame's entries. */
    method TurnEntries()
      requires c.Valid() && c.frames != [] && forall e | e in c.frames[0] :: InTable(assignment.Length, e)
      modifies c.ops, assignment
      ensures Rewritten(old(c.ops[..]), c.ops[..], c.iphi, Turned(c.frames[0]), |c.frames[0]|)
      ensures assignment[..] == Restored(old(assignment[..]), c.frames[0])
    {
      hide Rep, Restored, Rewritten;
      ghost var a, cells0, f, g := c.ops[..], assignment[..], c.frames[0], Turned(c.frames[0]);
      var i := c.iphi;
      RewriteStarts(a, i, c.frames, cells0);
      while c.ops[i].op != Noop
        invariant c.iphi <= i <= c.iphi + |f| && i < c.ops.Length && c.ops[i] == a[i]
        invariant Rewritten(a, c.ops[..], c.iphi, g, i - c.iphi) && assignment[..] == Restored(cells0, f[..i - c.iphi])
        decreases c.iphi + |f| - i
        modifies c.ops, assignment
      {
        ghost var k, now := i - c.iphi, c.ops[..];
        RewriteNext(a, now, c.iphi, g, k);
        RestoreNext(cells0, f, k);
        assert a[i] == AsTac(f[k]) && f[k] in f;
        var entry := c.ops[i].b;
        assignment[entry] := entry;
        c.ops[i] := c.ops[i].(target := c.ops[i].a);
        c.ops[i] := c.ops[i].(a := entry);
        assert c.ops[..] == now[i := AsTac(g[k])];
        i := i + 1;
      }
      assert i < c.iphi + |f| ==> a[i] == AsTac(f[i - c.iphi]);
      assert f[..|f|] == f;
    }

    /** parse_if at the start of an else branch. */
    method BeginElse() returns (tmp: nat)
      requires Valid() && Legal(State(), Else)
      modifies this`modes, this`scopes, c`frames, c.ops, assignment
      ensures Valid() && State() == Do(old(State()), Else) && c.Code() == old(c.Code()) && tmp == c.iphi
    {
      hide Shape, FrameShape, Rep, Restored, Rewritten;
      ghost var p, a := State(), c.ops[..];
      CommitFits(p);
      StepShape(p, Else);
      assert a[c.iphi..] == c.ops[c.iphi..];
      tmp := c.iphi;
      TurnEntries();
      RewriteEnds(a, c.ops[..], c.size, c.iphi, p.frames, Turned(c.frames[0]));
      c.frames := [Turned(c.frames[0])] + c.frames[1..];
      modes, scopes := [InElse] + modes[1..], [scopes[1]] + scopes[1..];
      assert c.ops[c.iphi..] == c.ops[..][c.iphi..] && c.Code() == c.ops[..][..c.size];
    }

    /** The second loop of parse_if. It starts where the first one did; what has been inserted below since
        then needs no rewriting. */
    method JoinEntries(tmp: nat)
      requires c.Valid() && c.frames != [] && SavedAt(tmp, c.iphi, c.frames[0])
      modifies c.ops
      ensures Rewritten(old(c.ops[..]), c.ops[..], c.iphi, Joined(c.frames[0]), |c.frames[0]|)
    {
      hide Rep, Rewritten;
      ghost var a, f, g := c.ops[..], c.frames[0], Joined(c.frames[0]);
      var i := tmp;
      RewriteStarts(a, c.iphi, c.frames, []);
      while c.ops[i].op != Noop
        invariant tmp <= i <= c.iphi + |f| && i < c.ops.Length && c.ops[i] == a[i]
        invariant Rewritten(a, c.ops[..], c.iphi, g, i - c.iphi)
        decreases c.iphi + |f| - i
        modifies c.ops
      {
        ghost var k, now := i - c.iphi, c.ops[..];
        RewriteNext(a, now, c.iphi, g, k);
        assert a[i] == AsTac(f[k]);
        var entry := c.ops[i].b;
        c.ops[i] := c.ops[i].(b := c.ops[i].target);
        c.ops[i] := c.ops[i].(target := entry);
        assert c.ops[..] == now[i := AsTac(g[k])];
        i := i + 1;
      }
      assert i < c.iphi + |f| ==> a[i] == AsTac(f[i - c.iphi]);
    }

    /** parse_if at the end of an else branch. */
    method EndElse(tmp: nat)
      requires Valid() && Legal(State(), Symbols.EndElse) && SavedAt(tmp, c.iphi, c.frames[0])
      modifies this`modes, c`frames, c.ops
      ensures Valid() && State() == Do(old(State()), Symbols.EndElse) && c.Code() == old(c.Code())
    {
      hide Shape, FrameShape, Rep, Rewritten;
      ghost var p, a := State(), c.ops[..];
      StepShape(p, Symbols.EndElse);
      assert a[c.iphi..] == c.ops[c.iphi..];
      JoinEntries(tmp);
      RewriteEnds(a, c.ops[..], c.size, c.iphi, p.frames, Joined(c.frames[0]));
      c.frames := [Joined(c.frames[0])] + c.frames[1..];
      modes := [Closed] + modes[1..];
      assert c.ops[c.iphi..] == c.ops[..][c.iphi..] && c.Code() == c.ops[..][..c.size];
    }

    /** The bounds of blocks and of else branches. The positions that conditionals save are the innermost first. */
    method Bound(s: Step, loop: bool, temps: seq<nat>) returns (now: seq<nat>)
      requires Valid() && Legal(State(), s) && Room(State(), c.size, c.ops.Length, c.joinPos.Length, Take(s, loop))
      requires AllSaved(temps, modes, c.frames, c.ops.Length) && !s.Declare? && !s.Fresh? && !s.Reassign?
      modifies this, c, c.ops, c.joinPos, c.joinLoop, assignment, symDepth
      ensures Valid() && AllSaved(now, modes, c.frames, c.ops.Length) && State() == Do(old(State()), s)
      ensures c.size == old(c.size) + Growth(old(State()), Take(s, loop))
      ensures Listed() == Next(old(State()), old(Listed()), Take(s, loop))
    {
      hide Shape, FrameShape, Rep, AllSaved, SavedAt, Do, Legal, After, Opens, OpensOf;
      ghost var p := State();
      Heights(c.ops[c.iphi..], c.frames);
      SavedNow(p, temps, c.ops.Length);
      now := temps;
      match s {
        case Begin =>
          PhiBegin(loop);
          now := [0] + temps;
        case Else =>
          var tmp := BeginElse();
          now := [tmp] + temps[1..];
        case EndElse =>
          EndElse(temps[0]);
        case Commit =>
          var _ := PhiCommit();
          now := temps[1..];
      }
      SavedStep(p, s, temps, now, c.ops.Length);
    }

    /** One act. */
    method Perform(a: Act, temps: seq<nat>) returns (now: seq<nat>)
      requires Valid() && Room(State(), c.size, c.ops.Length, c.joinPos.Length, a)
      requires (a.Take? ==> Legal(State(), a.s)) && AllSaved(temps, modes, c.frames, c.ops.Length)
      modifies this, c, c.ops, c.joinPos, c.joinLoop, assignment, symDepth
      ensures Valid() && AllSaved(now, modes, c.frames, c.ops.Length)
      ensures State() == if a.Take? then Do(old(State()), a.s) else old(State())
      ensures c.size == old(c.size) + Growth(old(State()), a)
      ensures Listed() == Next(old(State()), old(Listed()), a)
    {
      hide Shape, FrameShape, Rep, AllSaved, SavedAt, Do, Legal, After, Opens, OpensOf;
      ghost var p := State();
      Heights(c.ops[c.iphi..], c.frames);
      now := temps;
      match a {
        case Emit(t) => c.Emit(t);
        case Take(Declare, _) => var _ := Declare();
        case Take(Fresh, _) => var _ := Fresh();
        case Take(Reassign(r), _) => Reassign(r);
        case Take(s, loop) => now := Bound(s, loop, temps);
      }
      if a.Take? && (a.s.Declare? || a.s.Fresh? || a.s.Reassign?) { SavedStep(p, a.s, temps, now, c.ops.Length); }
    }

    /** A whole run. Ghost: whether after every act the cells held what was meant. */
    method Run(acts: seq<Act>) returns (temps: seq<nat>, ghost right: bool)
      requires Valid() && c.frames == [] && Fits(State(), c.size, c.ops.Length, c.joinPos.Length, acts)
      modifies this, c, c.ops, c.joinPos, c.joinLoop, assignment, symDepth
      ensures Valid() && AllSaved(temps, modes, c.frames, c.ops.Length)
      ensures InScopeRun(old(State()), Steps(acts)) && Play(old(State()), Steps(acts)) == At(State())
      ensures c.size == SizeAfter(old(State()), old(c.size), acts)
      ensures Listed() == ListingAfter(old(State()), old(Listed()), acts)
      ensures right == AlwaysRight(old(State()), Steps(acts))
      decreases |acts|
    {
      assert modes == [];
      hide Valid;
      ghost var p0 := State();
      FitsInScope(p0, c.size, c.ops.Length, c.joinPos.Length, acts);
      if acts == [] {
        temps := [];
        right := CellsRight(State(), Meant(p0, []));
      } else {
        var before, a := acts[..|acts| - 1], acts[|acts| - 1];
        temps, right := Run(before);
        temps := Perform(a, temps);
        right := right && CellsRight(State(), Meant(p0, Steps(acts)));
        if a.Take? { StepsSnoc(acts); } else { assert Steps(acts) == Steps(before); }
      }
    }
  }

  /** A whole program, from parser_init on. After every act the cells are looked at: they have always held the
      current version of every symbol in scope if and only if every commit and every else branch of the
      run was about symbols under their own numbers; and then every open frame is what it should be. */
  method ParseAll(c: PhiIr, levels: array<int>, acts: seq<Act>) returns (p: Parse, ghost right: bool)
    requires c.Valid() && c.frames == [] && c.iv == 0 && levels[..] == Zeros(levels.Length)
    requires Fits(Start(levels.Length, levels[..]), c.size, c.ops.Length, c.joinPos.Length, acts)
    modifies c, c.ops, c.joinPos, c.joinLoop, levels
    ensures InScopeRun(Start(levels.Length, Zeros(levels.Length)), Steps(acts))
    ensures p.Valid() && Play(Start(levels.Length, Zeros(levels.Length)), Steps(acts)) == At(p.State())
    ensures p.Listed() == ListingAfter(Start(levels.Length, Zeros(levels.Length)), Listing(old(c.Code()), []), acts)
    ensures var p0 := Start(levels.Length, Zeros(levels.Length));
            var t := Meant(p0, Steps(acts));
            && (right ==> CellsRight(p.State(), t) && FramesMeant(p.c.frames, p.modes, t.blocks, t.cur, p.syms))
            && (right <==> OwnRun(p0, Steps(acts)))
  {
    ghost var p0 := Start(levels.Length, Zeros(levels.Length));
    FitsInScope(p0, c.size, c.ops.Length, c.joinPos.Length, acts);
    p := new Parse(c, levels);
    var temps;
    temps, right := p.Run(acts);
    RightExactly(levels.Length, Steps(acts));
    if right { FramesRight(levels.Length, Steps(acts)); }
  }

  // --- whole runs ---------------------------------------------------------------------------

  /** An operation emitted, or a step of the table; for the begin of a block, whether it is a loop's. */
  datatype Act = Emit(t: Tac) | Take(s: Step, loop: bool)

  function Steps(acts: seq<Act>): seq<Step>
  {
    if acts == [] then []
    else
      var a := acts[|acts| - 1];
      Steps(acts[..|acts| - 1]) + if a.Take? then [a.s] else []
  }

  /** The operations that an act adds to the code. */
  function Growth(p: Table, a: Act): nat
  {
    if a.Emit? then 1 else if a.s == Symbols.Commit && p.frames != [] then |p.frames[0]| else 0
  }

  /** What an act does to the code: an operation goes to its end, and the commit of a block is carried out there. */
  function Next(p: Table, l: Listing, a: Act): Listing
  {
    match a
    case Emit(t) => l.(code := l.code + [t])
    case Take(Begin, loop) => l.(opens := [Open(loop, |l.code|)] + l.opens)
    case Take(Commit, _) =>
      if p.frames == [] || l.opens == [] || l.opens[0].pos > |l.code| then l
      else Listing(After(l.code, l.opens[0].loop, l.opens[0].pos, p.frames[0], p.iv), l.opens[1..])
    case Take(_, _) => l
  }

  function ListingAfter(p: Table, l: Listing, acts: seq<Act>): Listing
  {
    if acts == [] then l
    else
      var before := acts[..|acts| - 1];
      var r := Play(p, Steps(before));
      var now := ListingAfter(p, l, before);
      if r.At? then Next(r.p, now, acts[|acts| - 1]) else now
  }

  /** There is room for the act in arrays for cap operations and depths blocks, with size operations in use. */
  predicate Room(p: Table, size: nat, cap: nat, depths: nat, a: Act)
  {
    match a
    case Emit(_) => size + Height(p.frames) < cap
    case Take(Reassign(_), _) => p.frames != [] ==> size + Height(p.frames) < cap
    case Take(Begin, _) => size + Height(p.frames) < cap && |p.frames| + 1 < depths
    case Take(Commit, _) => p.frames != [] ==> size + Height(p.frames) + 2 * |p.frames[0]| <= cap
    case Take(_, _) => true
  }

  function SizeAfter(p: Table, size: nat, acts: seq<Act>): nat
  {
    if acts == [] then size
    else
      var before := acts[..|acts| - 1];
      var r := Play(p, Steps(before));
      SizeAfter(p, size, before) + if r.At? then Growth(r.p, acts[|acts| - 1]) else 0
  }

  /** The grammar allows every act, symbols are assigned in scope, and there is always room. */
  predicate Fits(p: Table, size: nat, cap: nat, depths: nat, acts: seq<Act>)
  {
    acts != [] ==>
      var before, a := acts[..|acts| - 1], acts[|acts| - 1];
      var r := Play(p, Steps(before));
      && Fits(p, size, cap, depths, before) && r.At?
      && Room(r.p, SizeAfter(p, size, before), cap, depths, a) && (a.Take? ==> InScope(r.p, a.s))
  }

  lemma {:induction false} FitsInScope(p: Table, size: nat, cap: nat, depths: nat, acts: seq<Act>)
    requires Fits(p, size, cap, depths, acts)
    ensures InScopeRun(p, Steps(acts)) && Play(p, Steps(acts)).At?
  {
    if acts != [] {
      var before, a := acts[..|acts| - 1], acts[|acts| - 1];
      FitsInScope(p, size, cap, depths, before);
      if a.Take? { StepsSnoc(acts); } else { assert Steps(acts) == Steps(before); }
    }
  }

  lemma StepsSnoc(acts: seq<Act>)
    requires acts != [] && acts[|acts| - 1].Take?
    ensures var r := Steps(acts);
            r != [] && r[..|r| - 1] == Steps(acts[..|acts| - 1]) && r[|r| - 1] == acts[|acts| - 1].s
  {
  }

  // --- a position saved around an else branch -----------------------------------------------

  /** With a frame at position p, tmp is one of its positions or its marker's, and entries before tmp are as
      ir_phi_ins makes them. */
  ghost predicate SavedAt(tmp: nat, p: int, f: seq<Entry>)
  {
    p <= tmp <= p + |f| && forall k | 0 <= k < tmp - p :: f[k].target == f[k].b
  }

  function Height(frames: seq<seq<Entry>>): nat
  {
    if frames == [] then 0 else |frames[0]| + 1 + Height(frames[1..])
  }

  /** The positions saved by the conditionals that are in an else branch, in an array of cap operations. */
  ghost predicate AllSaved(temps: seq<nat>, modes: seq<Mode>, frames: seq<seq<Entry>>, cap: int)
  {
    && |temps| == |modes| == |frames|
    && (frames != [] ==>
          && (modes[0] == InElse ==> SavedAt(temps[0], cap - Height(frames), frames[0]))
          && AllSaved(temps[1..], modes[1..], frames[1..], cap))
  }

  lemma {:induction false} Heights(r: seq<Tac>, frames: seq<seq<Entry>>)
    requires Rep(r, frames)
    ensures |r| == Height(frames)
    decreases |frames|
  {
    if frames != [] { Heights(r[|frames[0]| + 1..], frames[1..]); }
  }

  /** An entry inserted below a saved position is not yet turned. */
  lemma InsertSaved(tmp: nat, p: int, f: seq<Entry>, val: int, was: int)
    requires SavedAt(tmp, p, f)
    ensures var g := Insert(f, val, was); SavedAt(tmp, p + |f| - |g|, g)
  {
  }

  lemma FrameSaved(temps: seq<nat>, modes: seq<Mode>, frames: seq<seq<Entry>>, cap: int, val: int, was: int)
    requires AllSaved(temps, modes, frames, cap) && frames != []
    ensures AllSaved(temps, modes, [Insert(frames[0], val, was)] + frames[1..], cap)
  {
    hide SavedAt, Insert;
    var g := [Insert(frames[0], val, was)] + frames[1..];
    assert g[1..] == frames[1..];
    if modes[0] == InElse { InsertSaved(temps[0], cap - Height(frames), frames[0], val, was); }
  }

  lemma SavedCons(tmp: nat, temps: seq<nat>, mode: Mode, modes: seq<Mode>, f: seq<Entry>, frames: seq<seq<Entry>>,
                  cap: int)
    requires AllSaved(temps, modes, frames, cap)
    requires mode == InElse ==> SavedAt(tmp, cap - Height([f] + frames), f)
    ensures AllSaved([tmp] + temps, [mode] + modes, [f] + frames, cap)
  {
    assert ([tmp] + temps)[1..] == temps && ([mode] + modes)[1..] == modes && ([f] + frames)[1..] == frames;
  }

  lemma SavedTurned(tmp: nat, temps: seq<nat>, modes: seq<Mode>, frames: seq<seq<Entry>>, cap: int)
    requires AllSaved(temps, modes, frames, cap) && frames != [] && tmp == cap - Height(frames)
    ensures AllSaved([tmp] + temps[1..], [InElse] + modes[1..], [Turned(frames[0])] + frames[1..], cap)
  {
    var g := [Turned(frames[0])] + frames[1..];
    assert g[1..] == frames[1..];
    SavedCons(tmp, temps[1..], InElse, modes[1..], Turned(frames[0]), frames[1..], cap);
  }

  lemma SavedJoined(temps: seq<nat>, modes: seq<Mode>, frames: seq<seq<Entry>>, cap: int)
    requires AllSaved(temps, modes, frames, cap) && frames != []
    ensures AllSaved(temps, [Closed] + modes[1..], [Joined(frames[0])] + frames[1..], cap)
  {
    SavedCons(temps[0], temps[1..], Closed, modes[1..], Joined(frames[0]), frames[1..], cap);
    assert temps == [temps[0]] + temps[1..];
  }

  lemma SavedNow(p: Table, temps: seq<nat>, cap: int)
    requires AllSaved(temps, p.modes, p.frames, cap)
    ensures |temps| == |p.modes| == |p.frames|
    ensures Legal(p, Else) || Legal(p, Symbols.EndElse) || Legal(p, Symbols.Commit) ==> temps != []
    ensures Legal(p, Symbols.EndElse) ==> SavedAt(temps[0], cap - Height(p.frames), p.frames[0])
  {
  }

  /** The saved positions after a step. */
  lemma SavedStep(p: Table, s: Step, temps: seq<nat>, now: seq<nat>, cap: int)
    requires Legal(p, s) && AllSaved(temps, p.modes, p.frames, cap)
    requires if s == Begin then now == [0] + temps
             else if s == Symbols.Commit then temps != [] && now == temps[1..]
             else if s == Else then
               temps != [] && now != [] && now[0] == cap - Height(p.frames) && now == [now[0]] + temps[1..]
             else now == temps
    ensures AllSaved(now, Do(p, s).modes, Do(p, s).frames, cap)
  {
    match s
    case Reassign(r) =>
      if Recorded(p, Cell(p.cells, r)) { FrameSaved(temps, p.modes, p.frames, cap, p.iv, Cell(p.cells, r)); }
    case Begin => SavedCons(0, temps, Straight, p.modes, [], p.frames, cap);
    case Else => SavedTurned(now[0], temps, p.modes, p.frames, cap);
    case EndElse => SavedJoined(temps, p.modes, p.frames, cap);
    case Commit => MergeSaved(now, p.modes[1..], p.frames[1..], cap, p.frames[0], p.iv, 0);
    case _ =>
  }

  lemma {:induction false} MergeSaved(temps: seq<nat>, modes: seq<Mode>, rest: seq<seq<Entry>>, cap: int, f: seq<Entry>,
                                      iv: int, k: nat)
    requires AllSaved(temps, modes, rest, cap) && k <= |f|
    ensures AllSaved(temps, modes, Merge(rest, f, iv, k), cap)
    decreases |f| - k
  {
    hide AllSaved, Merge;
    MergeStep(rest, f, iv, k);
    if k < |f| && rest != [] {
      MergeSaved(temps, modes, rest, cap, f, iv, k + 1);
      FrameSaved(temps, modes, Merge(rest, f, iv, k + 1), cap, iv + (|f| - 1 - k), f[k].target);
    } else if k < |f| {
      assert Merge(rest, f, iv, k) == rest;
    }
  }

  // --- rewriting a frame in place -----------------------------------------------------------

  /** now is a with the first k entries at position p overwritten by those of g. */
  ghost predicate Rewritten(a: seq<Tac>, now: seq<Tac>, p: nat, g: seq<Entry>, k: nat)
  {
    && |now| == |a| && k <= |g| && p + |g| < |a|
    && forall x | 0 <= x < |a| :: now[x] == if p <= x < p + k then AsTac(g[x - p]) else a[x]
  }

  lemma RewriteStarts(a: seq<Tac>, p: nat, frames: seq<seq<Entry>>, cells: seq<int>)
    requires p <= |a| && Rep(a[p..], frames) && frames != []
    ensures var f := frames[0];
            && (forall g: seq<Entry> | |g| == |f| :: Rewritten(a, a, p, g, 0))
            && (forall tmp: nat | SavedAt(tmp, p, f) :: Rewritten(a, a, p, Joined(f), tmp - p))
            && cells == Restored(cells, f[..0])
            && p + |f| < |a| && a[p + |f|].op == Noop && forall k | 0 <= k < |f| :: a[p + k] == AsTac(f[k])
  {
    RepHead(a[p..], frames);
    var f := frames[0];
    assert forall k | 0 <= k <= |f| :: a[p..][k] == a[p + k];
  }

  lemma RewriteNext(a: seq<Tac>, now: seq<Tac>, p: nat, g: seq<Entry>, k: nat)
    requires Rewritten(a, now, p, g, k) && k < |g|
    ensures p + k + 1 < |a| && Rewritten(a, now[p + k := AsTac(g[k])], p, g, k + 1)
    ensures now[p + k := AsTac(g[k])][p + k + 1] == a[p + k + 1]
  {
  }

  lemma RestoreNext(cells: seq<int>, f: seq<Entry>, k: nat)
    requires k < |f|
    ensures Restored(cells, f[..k + 1]) == Put(Restored(cells, f[..k]), f[k].b, f[k].b)
  {
    assert f[..k + 1][..k] == f[..k];
  }

  lemma RewriteEnds(a: seq<Tac>, now: seq<Tac>, size: nat, p: nat, frames: seq<seq<Entry>>, g: seq<Entry>)
    requires size <= p <= |a| && Rep(a[p..], frames) && frames != [] && |g| == |frames[0]| &&
        Rewritten(a, now, p, g, |g|)
    ensures Rep(now[p..], [g] + frames[1..]) && now[..size] == a[..size]
  {
    RepRewrite(a[p..], now[p..], frames, g);
  }

  /** Every variable an entry mentions has a cell. */
  lemma CommitFits(p: Table)
    requires Shape(p) && p.frames != []
    ensures forall e | e in p.frames[0] :: InTable(|p.cells|, e)
    ensures |p.levels| == |p.cells| && 0 <= p.iv <= |p.cells|
  {
    forall e | e in p.frames[0]
      ensures InTable(|p.cells|, e)
    {
      var i :| 0 <= i < |p.frames[0]| && p.frames[0][i] == e;
      assert EntryShape(p.modes[0], p.syms, p.iv, p.frames[0][i]);
    }
  }

  lemma AfterSize(code: seq<Tac>, loop: bool, join: nat, f: seq<Entry>, iv: int)
    requires join <= |code|
    ensures |After(code, loop, join, f, iv)| == |code| + |f|
  {
  }
}
