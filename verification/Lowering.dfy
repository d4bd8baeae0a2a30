/** Straight-line Lua programs: what they mean, and the three-address operations that the parser emits for them. */
module Lowering {
  import opened Ir
  import opened Codegen

  // --- programs -----------------------------------------------------------------------------

  /** An expression. Constants, and the names of globals and fields, are numbers of constants; locals are numbered. */
  datatype Expr =
    | Ctt(i: nat)
    | Local(x: nat)
    | Global(i: nat)
    | Field(e: Expr, i: nat)
    | Binary(op: Op, left: Expr, right: Expr)
    | Apply(f: Expr, args: Arguments)

  datatype Arguments = NoArgs | AndArg(before: Arguments, last: Expr)

  datatype Stmt =
    | Define(x: nat, e: Expr)
    | Assign(x: nat, e: Expr)
    | SetGlobal(i: nat, e: Expr)
    | Evaluate(e: Expr)

  function Count(args: Arguments): nat
  {
    if args.NoArgs? then 0 else Count(args.before) + 1
  }

  /** Constants exist, locals are in scope, operators are those of parse_term and parse_factor that are compiled, and
      what is called is a name. */
  predicate Scoped(u: Unit, scope: set<nat>, e: Expr)
  {
    match e
    case Ctt(i) => i < |u.ctts|
    case Local(x) => x in scope
    case Global(i) => i < |u.ctts|
    case Field(b, i) => i < |u.ctts| && Scoped(u, scope, b)
    case Binary(op, l, r) => IsArith(op) && Scoped(u, scope, l) && Scoped(u, scope, r)
    case Apply(f, args) => (f.Local? || f.Global?) && Scoped(u, scope, f) && AllScoped(u, scope, args)
  }

  predicate AllScoped(u: Unit, scope: set<nat>, args: Arguments)
  {
    args.AndArg? ==> AllScoped(u, scope, args.before) && Scoped(u, scope, args.last)
  }

  predicate Mentions(e: Expr, x: nat)
  {
    match e
    case Local(y) => y == x
    case Field(b, _) => Mentions(b, x)
    case Binary(_, l, r) => Mentions(l, x) || Mentions(r, x)
    case Apply(f, args) => Mentions(f, x) || AnyMentions(args, x)
    case _ => false
  }

  predicate AnyMentions(args: Arguments, x: nat)
  {
    args.AndArg? && (AnyMentions(args.before, x) || Mentions(args.last, x))
  }

  // --- meaning ------------------------------------------------------------------------------

  /** A word, and the calls made up to it. */
  datatype Result = Result(v: nat, trace: seq<Event>)

  datatype Results = Results(vs: seq<nat>, trace: seq<Event>)

  function Constant(u: Unit, i: nat): nat
  {
    if i < |u.ctts| then u.ctts[i] else 0
  }

  /** `%` is a - floor(a / b) * b. */
  function Compute(w: World, op: Op, left: nat, right: nat): nat
  {
    match op
    case Add => w.add(left, right)
    case Sub => w.sub(left, right)
    case Mul => w.mul(left, right)
    case Mod => w.sub(left, w.mul(w.floor(w.div(left, right)), right))
    case _ => w.div(left, right)
  }

  function CarriedAll(w: World, t: seq<Event>, n: nat, vs: seq<nat>): (r: seq<nat>)
    ensures |r| == |vs| && forall i | 0 <= i < |vs| :: r[i] == Carried(w, t, n, vs[i])
  {
    seq(|vs|, i requires 0 <= i < |vs| => Carried(w, t, n, vs[i]))
  }

  /** The value of an expression: left operand before right one, arguments in order, the callee before them; what is
      held across a call becomes what the call's collections make of it. */
  function Eval(w: World, u: Unit, env: map<int, nat>, t: seq<Event>, e: Expr): Result
    decreases e
  {
    match e
    case Ctt(i) => Result(Constant(u, i), t)
    case Local(x) => Result(if x in env then env[x] else 0, t)
    case Global(i) =>
      var t1 := t + [Event(GetGlobal, [u.L, Constant(u, i)])];
      Result(w.result(t1), t1)
    case Field(b, i) =>
      var r := Eval(w, u, env, t, b);
      var t1 := r.trace + [Event(GetField, [u.L, r.v, Constant(u, i)])];
      Result(w.result(t1), t1)
    case Binary(op, left, right) =>
      var a := Eval(w, u, env, t, left);
      var b := Eval(w, u, CarriedEnv(w, a.trace, |t|, env), a.trace, right);
      Result(Compute(w, op, Carried(w, b.trace, |a.trace|, a.v), b.v), b.trace)
    case Apply(f, args) =>
      var c := Eval(w, u, env, t, f);
      var d := EvalAll(w, u, CarriedEnv(w, c.trace, |t|, env), c.trace, args);
      var words := [Carried(w, d.trace, |c.trace|, c.v), u.L, |d.vs|] + d.vs;
      var t1 := d.trace + [Event(Indirect(|d.vs|), words)];
      Result(w.result(t1), t1)
  }

  function EvalAll(w: World, u: Unit, env: map<int, nat>, t: seq<Event>, args: Arguments): Results
    decreases args
  {
    match args
    case NoArgs => Results([], t)
    case AndArg(before, last) =>
      var a := EvalAll(w, u, env, t, before);
      var b := Eval(w, u, CarriedEnv(w, a.trace, |t|, env), a.trace, last);
      Results(CarriedAll(w, b.trace, |a.trace|, a.vs) + [b.v], b.trace)
  }

  /** The locals, and the calls made so far. */
  datatype Locals = Locals(env: map<int, nat>, trace: seq<Event>)

  function Exec1(w: World, u: Unit, s: Locals, stmt: Stmt): Locals
  {
    var r := Eval(w, u, s.env, s.trace, stmt.e);
    match stmt
    case SetGlobal(i, _) =>
      var t := r.trace + [Event(Fn.SetGlobal, [u.L, Constant(u, i), r.v])];
      Locals(CarriedEnv(w, t, |s.trace|, s.env), t)
    case Evaluate(_) => Locals(CarriedEnv(w, r.trace, |s.trace|, s.env), r.trace)
    case _ => Locals(CarriedEnv(w, r.trace, |s.trace|, s.env)[stmt.x := r.v], r.trace)
  }

  function ExecAll(w: World, u: Unit, s: Locals, program: seq<Stmt>): Locals
  {
    if program == [] then s
    else Exec1(w, u, ExecAll(w, u, s, program[..|program| - 1]), program[|program| - 1])
  }

  // --- emission -----------------------------------------------------------------------------

  /** Operations, the operand with the value, and the next free variable. */
  datatype Lowered = Lowered(ops: seq<Tac>, r: int, iv: nat)

  datatype AllLowered = AllLowered(ops: seq<Tac>, rs: seq<int>, iv: nat)

  function ArgOps(rs: seq<int>): (ops: seq<Tac>)
    ensures |ops| == |rs| && forall j | 0 <= j < |rs| :: ops[j] == Tac(Arg, rs[j], NO_ARG, NO_TARGET)
  {
    seq(|rs|, j requires 0 <= j < |rs| => Tac(Arg, rs[j], NO_ARG, NO_TARGET))
  }

  /** parse_expr, with the current versions of the locals in `cells`. C leaves open whether the result variable of a
      binary operation is taken before its right operand is parsed or after: `early` tells. */
  function LowerExpr(e: Expr, cells: map<nat, nat>, iv: nat, early: bool): Lowered
  {
    match e
    case Ctt(i) => Lowered([], 0 - i - 1, iv)
    case Local(x) => Lowered([], if x in cells then cells[x] else 0, iv)
    case Global(i) => Lowered([Tac(GLoad, 0 - i - 1, NO_ARG, iv)], iv, iv + 1)
    case Field(b, i) =>
      var l := LowerExpr(b, cells, iv, early);
      Lowered(l.ops + [Tac(TLoad, l.r, 0 - i - 1, l.iv)], l.iv, l.iv + 1)
    case Binary(op, left, right) =>
      var a := LowerExpr(left, cells, iv, early);
      var b := LowerExpr(right, cells, if early then a.iv + 1 else a.iv, early);
      var target := if early then a.iv else b.iv;
      Lowered(a.ops + b.ops + [Tac(op, a.r, b.r, target)], target, if early then b.iv else b.iv + 1)
    case Apply(f, args) =>
      var c := LowerExpr(f, cells, iv, early);
      var d := LowerArgs(args, cells, c.iv, early);
      Lowered(c.ops + d.ops + (ArgOps(d.rs) + [Tac(Call, c.r, |d.rs|, d.iv)]), d.iv, d.iv + 1)
  }

  /** The expressions of parse_args; the operations that pass them follow all of these. */
  function LowerArgs(args: Arguments, cells: map<nat, nat>, iv: nat, early: bool): AllLowered
  {
    match args
    case NoArgs => AllLowered([], [], iv)
    case AndArg(before, last) =>
      var a := LowerArgs(before, cells, iv, early);
      var b := LowerExpr(last, cells, a.iv, early);
      AllLowered(a.ops + b.ops, a.rs + [b.r], b.iv)
  }

  /** Operations, current versions, next free variable. */
  datatype Unfinished = Unfinished(ops: seq<Tac>, cells: map<nat, nat>, iv: nat)

  /** parse_assignment: the target's new version is current before the right side is parsed, and is not copied to
      when the right side is that version itself. */
  function Lower1(p: Unfinished, stmt: Stmt, early: bool): Unfinished
  {
    match stmt
    case Define(x, e) =>
      var cells := p.cells[x := p.iv];
      var l := LowerExpr(e, cells, p.iv + 1, early);
      Unfinished(p.ops + l.ops + [Tac(LCopy, l.r, NO_ARG, p.iv)], cells, l.iv)
    case Assign(x, e) =>
      var cells := p.cells[x := p.iv];
      var l := LowerExpr(e, cells, p.iv + 1, early);
      Unfinished(p.ops + l.ops + (if l.r == p.iv then [] else [Tac(LCopy, l.r, NO_ARG, p.iv)]), cells, l.iv)
    case SetGlobal(i, e) =>
      var l := LowerExpr(e, p.cells, p.iv + 1, early);
      var copy := if l.r == p.iv then [] else [Tac(LCopy, l.r, NO_ARG, p.iv)];
      Unfinished(p.ops + l.ops + (copy + [Tac(GStore, 0 - i - 1, p.iv, NO_TARGET)]), p.cells, l.iv)
    case Evaluate(e) =>
      var l := LowerExpr(e, p.cells, p.iv, early);
      Unfinished(p.ops + l.ops, p.cells, l.iv)
  }

  function LowerAll(program: seq<Stmt>, early: bool): Unfinished
  {
    if program == [] then Unfinished([], map[], 0)
    else Lower1(LowerAll(program[..|program| - 1], early), program[|program| - 1], early)
  }

  /** The locals in scope after a program. */
  function ScopeAfter(program: seq<Stmt>): set<nat>
  {
    if program == [] then {}
    else
      var s := program[|program| - 1];
      ScopeAfter(program[..|program| - 1]) + if s.Define? then {s.x} else {}
  }

  /** Every statement is about what is in scope; a definition or assignment may see its own target, since that is
      current before the right side is parsed. */
  predicate InScope(u: Unit, program: seq<Stmt>)
  {
    program != [] ==>
      var before, s := program[..|program| - 1], program[|program| - 1];
      && InScope(u, before)
      && Scoped(u, ScopeAfter(before) + (if s.Define? then {s.x} else {}), s.e)
      && (s.Assign? ==> s.x in ScopeAfter(before)) && (s.SetGlobal? ==> s.i < |u.ctts|)
  }

  /** No right side mentions the local it is for. */
  predicate Fresh(program: seq<Stmt>)
  {
    forall i | 0 <= i < |program| :: FreshAt(program[i])
  }

  predicate FreshAt(s: Stmt)
  {
    s.Define? || s.Assign? ==> !Mentions(s.e, s.x)
  }

  // --- emission keeps the meaning -----------------------------------------------------------

  /** A collection moves tables only, and no constant is one. */
  ghost predicate FixesConstants(w: World, u: Unit)
  {
    forall t, i | 0 <= i < |u.ctts| :: w.move(t, u.ctts[i]) == u.ctts[i]
  }

  lemma {:induction false} CarriedConstant(w: World, u: Unit, t: seq<Event>, n: nat, i: nat)
    requires FixesConstants(w, u) && i < |u.ctts|
    ensures Carried(w, t, n, u.ctts[i]) == u.ctts[i]
    decreases |t|
  {
    if |t| > n { CarriedConstant(w, u, t[..|t| - 1], n, i); }
  }

  lemma {:induction false} RunAppend(w: World, u: Unit, s: State, a: seq<Tac>, b: seq<Tac>)
    ensures Run(w, u, s, a + b) == Run(w, u, Run(w, u, s, a), b)
  {
    if b == [] {
      assert a + b == a;
    } else {
      assert (a + b)[..|a + b| - 1] == a + b[..|b| - 1];
      RunAppend(w, u, s, a, b[..|b| - 1]);
    }
  }

  lemma RunOne(w: World, u: Unit, s: State, t: Tac)
    ensures Run(w, u, s, [t]) == Run1(w, u, s, t)
  {
    assert [t][..0] == [];
    assert Run(w, u, s, []) == s;
  }

  /** The machine's variables hold the locals. */
  ghost predicate Matches(cells: map<nat, nat>, env: map<int, nat>, s: State, iv: nat)
  {
    forall x | x in cells :: cells[x] < iv && x in env && cells[x] in s.env && s.env[cells[x]] == env[x]
  }

  /** From s to s' only variables from iv on are new, and the others are as collections left them. */
  ghost predicate Keeps(w: World, s: State, s': State, iv: nat)
  {
    && s.trace <= s'.trace
    && forall y | y in s.env && y < iv :: y in s'.env && s'.env[y] == Carried(w, s'.trace, |s.trace|, s.env[y])
  }

  lemma KeepsChain(w: World, s: State, s1: State, s2: State, iv: nat, iv1: nat)
    requires Keeps(w, s, s1, iv) && Keeps(w, s1, s2, iv1) && iv <= iv1
    ensures Keeps(w, s, s2, iv)
  {
    forall y | y in s.env && y < iv
      ensures y in s2.env && s2.env[y] == Carried(w, s2.trace, |s.trace|, s.env[y])
    {
      CarriedChain(w, s1.trace, s2.trace, |s.trace|, s.env[y]);
    }
  }

  lemma MatchesKept(w: World, cells: map<nat, nat>, env: map<int, nat>, s: State, s': State, iv: nat, iv': nat)
    requires Matches(cells, env, s, iv) && Keeps(w, s, s', iv) && iv <= iv'
    ensures Matches(cells, CarriedEnv(w, s'.trace, |s.trace|, env), s', iv')
  {
  }

  /** An operand keeps its value up to collections. */
  ghost predicate Gives(u: Unit, s: State, r: int, v: nat, iv: nat)
  {
    r < iv && Readable(u, s.env, r) && Operand(u, s.env, r) == v
  }

  lemma GivesLater(w: World, u: Unit, s: State, s': State, r: int, v: nat, iv: nat)
    requires FixesConstants(w, u) && Gives(u, s, r, v, iv) && Keeps(w, s, s', iv)
    ensures Gives(u, s', r, Carried(w, s'.trace, |s.trace|, v), iv)
  {
    if r < 0 { CarriedConstant(w, u, s'.trace, |s.trace|, -r - 1); }
  }

  /** The lowered expression, run: its calls, and its value in its operand. */
  ghost predicate Runs(w: World, u: Unit, env: map<int, nat>, s: State, e: Expr, l: Lowered, iv: nat)
  {
    var s', v := Run(w, u, s, l.ops), Eval(w, u, env, s.trace, e);
    iv <= l.iv && s'.trace == v.trace && Keeps(w, s, s', iv) && Gives(u, s', l.r, v.v, l.iv)
  }

  /** The operands rs have the values vs. */
  ghost predicate AllGive(u: Unit, s: State, rs: seq<int>, vs: seq<nat>, iv: nat)
  {
    |rs| == |vs| && forall j | 0 <= j < |rs| :: Gives(u, s, rs[j], vs[j], iv)
  }

  ghost predicate RunsAll(w: World, u: Unit, env: map<int, nat>, s: State, args: Arguments, l: AllLowered, iv: nat)
  {
    var s', v := Run(w, u, s, l.ops), EvalAll(w, u, env, s.trace, args);
    iv <= l.iv && s'.trace == v.trace && Keeps(w, s, s', iv) && AllGive(u, s', l.rs, v.vs, l.iv)
  }

  lemma KeepsSelf(w: World, s: State, iv: nat)
    ensures Keeps(w, s, s, iv)
  {
  }

  /** One more operation with a call and a result in a new variable. */
  lemma CallKeeps(w: World, u: Unit, s: State, fn: Fn, args: seq<nat>, iv: nat)
    requires iv != NO_TARGET
    ensures var s' := Invoke(w, s, fn, args, iv);
            && Keeps(w, s, s', iv) && Gives(u, s', iv, w.result(s'.trace), iv + 1)
            && s'.trace == s.trace + [Event(fn, args)]
  {
    var s' := Invoke(w, s, fn, args, iv);
    assert s'.trace[..|s'.trace| - 1] == s.trace;
    forall x
      ensures Carried(w, s'.trace, |s.trace|, x) == Carry(w, s'.trace, x)
    {
      assert Carried(w, s.trace, |s.trace|, x) == x;
    }
  }

  lemma {:induction false} IvGrows(e: Expr, cells: map<nat, nat>, iv: nat, early: bool)
    ensures LowerExpr(e, cells, iv, early).iv >= iv
  {
    match e
    case Field(b, _) => IvGrows(b, cells, iv, early);
    case Binary(_, left, right) =>
      IvGrows(left, cells, iv, early);
      var a := LowerExpr(left, cells, iv, early);
      IvGrows(right, cells, if early then a.iv + 1 else a.iv, early);
    case Apply(f, args) =>
      IvGrows(f, cells, iv, early);
      ArgsGrow(args, cells, LowerExpr(f, cells, iv, early).iv, early);
    case _ =>
  }

  lemma {:induction false} ArgsGrow(args: Arguments, cells: map<nat, nat>, iv: nat, early: bool)
    ensures LowerArgs(args, cells, iv, early).iv >= iv
    ensures |LowerArgs(args, cells, iv, early).rs| == Count(args)
  {
    if args.AndArg? {
      ArgsGrow(args.before, cells, iv, early);
      IvGrows(args.last, cells, LowerArgs(args.before, cells, iv, early).iv, early);
    }
  }

  /** What the premises of the induction say. */
  ghost predicate Prepared(w: World, u: Unit, cells: map<nat, nat>, env: map<int, nat>, s: State, iv: nat)
  {
    FixesConstants(w, u) && Matches(cells, env, s, iv)
  }

  /** The operations emitted for an expression compute its value: run from any state that holds the locals, they make
      its calls with the same words, and leave its value in its operand and every other variable alone. */
  lemma {:induction false} LowerRuns(w: World, u: Unit, cells: map<nat, nat>, env: map<int, nat>, s: State, e: Expr,
                                     iv: nat, early: bool)
    requires Prepared(w, u, cells, env, s, iv) && Scoped(u, cells.Keys, e)
    requires LowerExpr(e, cells, iv, early).iv <= NO_TARGET
    ensures Runs(w, u, env, s, e, LowerExpr(e, cells, iv, early), iv)
    decreases e
  {
    hide Runs, RunsAll, Matches, Keeps, Eval, EvalAll, Run;
    match e
    case Ctt(i) => LeafRuns(w, u, cells, env, s, e, iv, early);
    case Local(x) => LeafRuns(w, u, cells, env, s, e, iv, early);
    case Global(i) => GlobalRuns(w, u, env, s, i, iv);
    case Field(b, i) =>
      LowerRuns(w, u, cells, env, s, b, iv, early);
      FieldRuns(w, u, env, s, b, i, LowerExpr(b, cells, iv, early), iv);
    case Binary(op, left, right) =>
      var a := LowerExpr(left, cells, iv, early);
      var iv1 := if early then a.iv + 1 else a.iv;
      IvGrows(right, cells, iv1, early);
      LowerRuns(w, u, cells, env, s, left, iv, early);
      var s1 := Run(w, u, s, a.ops);
      RunsKeeps(w, u, env, s, left, a, iv);
      MatchesKept(w, cells, env, s, s1, iv, iv1);
      LowerRuns(w, u, cells, CarriedEnv(w, s1.trace, |s.trace|, env), s1, right, iv1, early);
      BinaryRuns(w, u, env, s, op, left, right, a, LowerExpr(right, cells, iv1, early), iv, iv1, early);
    case Apply(f, args) =>
      var c := LowerExpr(f, cells, iv, early);
      ArgsGrow(args, cells, c.iv, early);
      LowerRuns(w, u, cells, env, s, f, iv, early);
      var s1 := Run(w, u, s, c.ops);
      RunsKeeps(w, u, env, s, f, c, iv);
      MatchesKept(w, cells, env, s, s1, iv, c.iv);
      LowerArgsRun(w, u, cells, CarriedEnv(w, s1.trace, |s.trace|, env), s1, args, c.iv, early);
      ApplyRuns(w, u, env, s, f, args, c, LowerArgs(args, cells, c.iv, early), iv);
  }

  lemma LeafRuns(w: World, u: Unit, cells: map<nat, nat>, env: map<int, nat>, s: State, e: Expr, iv: nat, early: bool)
    requires Prepared(w, u, cells, env, s, iv) && Scoped(u, cells.Keys, e) && (e.Ctt? || e.Local?)
    ensures Runs(w, u, env, s, e, LowerExpr(e, cells, iv, early), iv)
  {
    KeepsSelf(w, s, iv);
  }

  lemma RunsKeeps(w: World, u: Unit, env: map<int, nat>, s: State, e: Expr, l: Lowered, iv: nat)
    requires Runs(w, u, env, s, e, l, iv)
    ensures Keeps(w, s, Run(w, u, s, l.ops), iv) && iv <= l.iv
  {
  }

  lemma {:induction false} LowerArgsRun(w: World, u: Unit, cells: map<nat, nat>, env: map<int, nat>, s: State,
                                        args: Arguments, iv: nat, early: bool)
    requires Prepared(w, u, cells, env, s, iv) && AllScoped(u, cells.Keys, args)
    requires LowerArgs(args, cells, iv, early).iv <= NO_TARGET
    ensures RunsAll(w, u, env, s, args, LowerArgs(args, cells, iv, early), iv)
    decreases args
  {
    KeepsSelf(w, s, iv);
    if args.AndArg? {
      var a := LowerArgs(args.before, cells, iv, early);
      IvGrows(args.last, cells, a.iv, early);
      ArgsGrow(args.before, cells, iv, early);
      LowerArgsRun(w, u, cells, env, s, args.before, iv, early);
      var s1 := Run(w, u, s, a.ops);
      MatchesKept(w, cells, env, s, s1, iv, a.iv);
      LowerRuns(w, u, cells, CarriedEnv(w, s1.trace, |s.trace|, env), s1, args.last, a.iv, early);
      AndArgRuns(w, u, env, s, args.before, args.last, a, LowerExpr(args.last, cells, a.iv, early), iv);
    }
  }

  lemma GlobalRuns(w: World, u: Unit, env: map<int, nat>, s: State, i: nat, iv: nat)
    requires i < |u.ctts| && iv + 1 <= NO_TARGET
    ensures Runs(w, u, env, s, Global(i), Lowered([Tac(GLoad, 0 - i - 1, NO_ARG, iv)], iv, iv + 1), iv)
  {
    RunOne(w, u, s, Tac(GLoad, 0 - i - 1, NO_ARG, iv));
    CallKeeps(w, u, s, GetGlobal, [u.L, u.ctts[i]], iv);
    hide Run, Keeps, Gives, Invoke;
  }

  lemma FieldRuns(w: World, u: Unit, env: map<int, nat>, s: State, b: Expr, i: nat, l: Lowered, iv: nat)
    requires i < |u.ctts| && l.iv + 1 <= NO_TARGET && Runs(w, u, env, s, b, l, iv)
    ensures Runs(w, u, env, s, Field(b, i), Lowered(l.ops + [Tac(TLoad, l.r, 0 - i - 1, l.iv)], l.iv, l.iv + 1), iv)
  {
    var t := Tac(TLoad, l.r, 0 - i - 1, l.iv);
    var s1 := Run(w, u, s, l.ops);
    RunAppend(w, u, s, l.ops, [t]);
    RunOne(w, u, s1, t);
    CallKeeps(w, u, s1, GetField, [u.L, Operand(u, s1.env, l.r), u.ctts[i]], l.iv);
    hide Run, Keeps, Invoke;
    KeepsChain(w, s, s1, Run1(w, u, s1, t), iv, l.iv);
  }

  lemma BinaryRuns(w: World, u: Unit, env: map<int, nat>, s: State, op: Op, left: Expr, right: Expr, a: Lowered,
                   b: Lowered, iv: nat, iv1: nat, early: bool)
    requires FixesConstants(w, u) && IsArith(op) && Runs(w, u, env, s, left, a, iv) && a.iv <= iv1
    requires iv1 == if early then a.iv + 1 else a.iv
    requires var s1 := Run(w, u, s, a.ops);
             Runs(w, u, CarriedEnv(w, s1.trace, |s.trace|, env), s1, right, b, iv1)
    requires (if early then b.iv else b.iv + 1) <= NO_TARGET
    ensures var target := if early then a.iv else b.iv;
            Runs(w, u, env, s, Binary(op, left, right),
                 Lowered(a.ops + b.ops + [Tac(op, a.r, b.r, target)], target, if early then b.iv else b.iv + 1), iv)
  {
    var target := if early then a.iv else b.iv;
    var t := Tac(op, a.r, b.r, target);
    var s1 := Run(w, u, s, a.ops);
    var s2 := Run(w, u, s1, b.ops);
    RunAppend(w, u, s, a.ops, b.ops);
    RunAppend(w, u, s, a.ops + b.ops, [t]);
    RunOne(w, u, s2, t);
    hide Run;
    GivesLater(w, u, s1, s2, a.r, Operand(u, s1.env, a.r), a.iv);
    KeepsChain(w, s, s1, s2, iv, iv1);
    ArithmeticRuns(w, u, s2, t, iv);
    KeepsChain(w, s, s2, Run1(w, u, s2, t), iv, if early then a.iv else b.iv);
  }

  /** One arithmetic operation: left operand first. */
  lemma ArithmeticRuns(w: World, u: Unit, s: State, t: Tac, iv: nat)
    requires IsArith(t.op) && 0 <= t.target < NO_TARGET
    ensures var s' := Run1(w, u, s, t);
            && s'.trace == s.trace && Keeps(w, s, s', t.target) && t.target in s'.env
            && s'.env[t.target] == Compute(w, t.op, Operand(u, s.env, t.a), Operand(u, s.env, t.b))
  {
  }

  lemma AndArgRuns(w: World, u: Unit, env: map<int, nat>, s: State, before: Arguments, last: Expr, a: AllLowered,
                   b: Lowered, iv: nat)
    requires FixesConstants(w, u) && RunsAll(w, u, env, s, before, a, iv)
    requires var s1 := Run(w, u, s, a.ops);
             Runs(w, u, CarriedEnv(w, s1.trace, |s.trace|, env), s1, last, b, a.iv)
    ensures RunsAll(w, u, env, s, AndArg(before, last), AllLowered(a.ops + b.ops, a.rs + [b.r], b.iv), iv)
  {
    var s1 := Run(w, u, s, a.ops);
    var s2 := Run(w, u, s1, b.ops);
    RunAppend(w, u, s, a.ops, b.ops);
    hide Run;
    KeepsChain(w, s, s1, s2, iv, a.iv);
    var vs := EvalAll(w, u, env, s.trace, before).vs;
    forall j | 0 <= j < |a.rs|
      ensures Gives(u, s2, a.rs[j], Carried(w, s2.trace, |s1.trace|, vs[j]), b.iv)
    {
      GivesLater(w, u, s1, s2, a.rs[j], vs[j], a.iv);
    }
  }

  /** Operations that pass arguments line up their values. */
  lemma {:induction false} ArgOpsRun(w: World, u: Unit, s: State, rs: seq<int>, vs: seq<nat>, iv: nat)
    requires AllGive(u, s, rs, vs, iv)
    ensures Run(w, u, s, ArgOps(rs)) == s.(args := s.args + vs)
    decreases |rs|
  {
    if rs == [] {
      assert s.args + vs == s.args && ArgOps(rs) == [];
    } else {
      var n := |rs| - 1;
      ArgOpsRun(w, u, s, rs[..n], vs[..n], iv);
      assert ArgOps(rs)[..n] == ArgOps(rs[..n]);
      assert Gives(u, s, rs[n], vs[n], iv);
      assert s.args + vs == s.args + vs[..n] + [vs[n]];
    }
  }

  lemma ApplyRuns(w: World, u: Unit, env: map<int, nat>, s: State, f: Expr, args: Arguments, c: Lowered, d: AllLowered,
                  iv: nat)
    requires FixesConstants(w, u) && Runs(w, u, env, s, f, c, iv) && d.iv + 1 <= NO_TARGET
    requires var s1 := Run(w, u, s, c.ops);
             RunsAll(w, u, CarriedEnv(w, s1.trace, |s.trace|, env), s1, args, d, c.iv)
    ensures Runs(w, u, env, s, Apply(f, args),
                 Lowered(c.ops + d.ops + (ArgOps(d.rs) + [Tac(Call, c.r, |d.rs|, d.iv)]), d.iv, d.iv + 1), iv)
  {
    var t := Tac(Call, c.r, |d.rs|, d.iv);
    var s1 := Run(w, u, s, c.ops);
    var s2 := Run(w, u, s1, d.ops);
    var fv := Eval(w, u, env, s.trace, f).v;
    var vs := EvalAll(w, u, CarriedEnv(w, s1.trace, |s.trace|, env), s1.trace, args).vs;
    RunAppend(w, u, s, c.ops, d.ops);
    RunAppend(w, u, s, c.ops + d.ops, ArgOps(d.rs) + [t]);
    GivesLater(w, u, s1, s2, c.r, fv, c.iv);
    KeepsChain(w, s, s1, s2, iv, c.iv);
    hide Run, ArgOps, Keeps, Gives, AllGive, Eval, EvalAll;
    EvalApply(w, u, env, s.trace, f, args);
    IndirectRuns(w, u, s2, c.r, Carried(w, s2.trace, |s1.trace|, fv), c.iv, d.rs, vs, d.iv);
    KeepsChain(w, s, s2, Run(w, u, s2, ArgOps(d.rs) + [t]), iv, d.iv);
  }

  lemma EvalApply(w: World, u: Unit, env: map<int, nat>, t: seq<Event>, f: Expr, args: Arguments)
    ensures var c := Eval(w, u, env, t, f);
            var d := EvalAll(w, u, CarriedEnv(w, c.trace, |t|, env), c.trace, args);
            var words := [Carried(w, d.trace, |c.trace|, c.v), u.L, |d.vs|] + d.vs;
            var r := Eval(w, u, env, t, Apply(f, args));
            r.trace == d.trace + [Event(Indirect(|d.vs|), words)] && r.v == w.result(r.trace)
  {
  }

  /** The operations of a call, once callee and arguments have been evaluated. */
  lemma IndirectRuns(w: World, u: Unit, s: State, r: int, v: nat, iv0: nat, rs: seq<int>, vs: seq<nat>, iv: nat)
    requires Gives(u, s, r, v, iv0) && AllGive(u, s, rs, vs, iv) && iv + 1 <= NO_TARGET
    ensures var s' := Run(w, u, s, ArgOps(rs) + [Tac(Call, r, |rs|, iv)]);
            && s'.trace == s.trace + [Event(Indirect(|rs|), [v, u.L, |rs|] + vs)]
            && Keeps(w, s, s', iv) && Gives(u, s', iv, w.result(s'.trace), iv + 1)
  {
    var t := Tac(Call, r, |rs|, iv);
    RunAppend(w, u, s, ArgOps(rs), [t]);
    ArgOpsRun(w, u, s, rs, vs, iv);
    var s1 := s.(args := s.args + vs);
    RunOne(w, u, s1, t);
    hide Run, ArgOps;
    assert LastArgs(s1.args, |rs|) == vs;
    CallKeeps(w, u, s1, Indirect(|rs|), [v, u.L, |rs|] + vs, iv);
    assert Run1(w, u, s1, t) == Invoke(w, s1, Indirect(|rs|), [v, u.L, |rs|] + vs, iv);
    hide Invoke, Run1;
  }

  // --- statements ---------------------------------------------------------------------------

  /** A local that is not mentioned might as well have another version. */
  lemma {:induction false} LowerIgnores(e: Expr, cells: map<nat, nat>, x: nat, n: nat, iv: nat, early: bool)
    requires !Mentions(e, x)
    ensures LowerExpr(e, cells[x := n], iv, early) == LowerExpr(e, cells, iv, early)
    decreases e
  {
    match e
    case Field(b, _) => LowerIgnores(b, cells, x, n, iv, early);
    case Binary(_, left, right) =>
      LowerIgnores(left, cells, x, n, iv, early);
      var a := LowerExpr(left, cells, iv, early);
      LowerIgnores(right, cells, x, n, if early then a.iv + 1 else a.iv, early);
    case Apply(f, args) =>
      LowerIgnores(f, cells, x, n, iv, early);
      ArgsIgnore(args, cells, x, n, LowerExpr(f, cells, iv, early).iv, early);
    case _ =>
  }

  lemma {:induction false} ArgsIgnore(args: Arguments, cells: map<nat, nat>, x: nat, n: nat, iv: nat, early: bool)
    requires !AnyMentions(args, x)
    ensures LowerArgs(args, cells[x := n], iv, early) == LowerArgs(args, cells, iv, early)
    decreases args
  {
    if args.AndArg? {
      ArgsIgnore(args.before, cells, x, n, iv, early);
      LowerIgnores(args.last, cells, x, n, LowerArgs(args.before, cells, iv, early).iv, early);
    }
  }

  lemma {:induction false} ScopedWithout(u: Unit, scope: set<nat>, e: Expr, x: nat)
    requires Scoped(u, scope + {x}, e) && !Mentions(e, x)
    ensures Scoped(u, scope, e)
    decreases e
  {
    match e
    case Field(b, _) => ScopedWithout(u, scope, b, x);
    case Binary(_, left, right) =>
      ScopedWithout(u, scope, left, x);
      ScopedWithout(u, scope, right, x);
    case Apply(f, args) =>
      ScopedWithout(u, scope, f, x);
      AllScopedWithout(u, scope, args, x);
    case _ =>
  }

  lemma {:induction false} AllScopedWithout(u: Unit, scope: set<nat>, args: Arguments, x: nat)
    requires AllScoped(u, scope + {x}, args) && !AnyMentions(args, x)
    ensures AllScoped(u, scope, args)
    decreases args
  {
    if args.AndArg? {
      AllScopedWithout(u, scope, args.before, x);
      ScopedWithout(u, scope, args.last, x);
    }
  }

  /** An operand is a constant, a new variable, or the version of a local. */
  lemma OperandFrom(e: Expr, cells: map<nat, nat>, iv: nat, early: bool)
    ensures var r := LowerExpr(e, cells, iv, early).r; r < 0 || r >= iv || e.Local?
  {
    match e
    case Field(b, i) => IvGrows(b, cells, iv, early);
    case Binary(op, left, right) =>
      IvGrows(left, cells, iv, early);
      var a := LowerExpr(left, cells, iv, early);
      IvGrows(right, cells, if early then a.iv + 1 else a.iv, early);
    case Apply(f, args) =>
      IvGrows(f, cells, iv, early);
      ArgsGrow(args, cells, LowerExpr(f, cells, iv, early).iv, early);
    case _ =>
  }

  /** What has been lowered so far, run, has made the calls of the program so far and holds its locals. */
  ghost predicate Follows(w: World, u: Unit, s0: State, p: Unfinished, s: Locals)
  {
    var r := Run(w, u, s0, p.ops);
    r.trace == s.trace && Matches(p.cells, s.env, r, p.iv)
  }

  /** The right side of a statement, with n the new version of its target or of a global's copy. */
  lemma RightSide(w: World, u: Unit, s0: State, p: Unfinished, s: Locals, e: Expr, iv: nat, early: bool)
    requires FixesConstants(w, u) && Follows(w, u, s0, p, s) && Scoped(u, p.cells.Keys, e) && p.iv <= iv
    requires LowerExpr(e, p.cells, iv, early).iv <= NO_TARGET
    ensures var l, r := LowerExpr(e, p.cells, iv, early), Eval(w, u, s.env, s.trace, e);
            var s1 := Run(w, u, s0, p.ops + l.ops);
            && iv <= l.iv && s1.trace == r.trace && Gives(u, s1, l.r, r.v, l.iv) && s.trace <= r.trace
            && Matches(p.cells, CarriedEnv(w, r.trace, |s.trace|, s.env), s1, p.iv)
  {
    var s1 := Run(w, u, s0, p.ops);
    var l := LowerExpr(e, p.cells, iv, early);
    LowerRuns(w, u, p.cells, s.env, s1, e, iv, early);
    RunAppend(w, u, s0, p.ops, l.ops);
    hide Run, Eval, Gives;
    var s2 := Run(w, u, s1, l.ops);
    forall y | y in s1.env && y < p.iv
      ensures y in s2.env && s2.env[y] == Carried(w, s2.trace, |s1.trace|, s1.env[y])
    {
    }
    MatchesKept(w, p.cells, s.env, s1, s2, p.iv, p.iv);
  }

  lemma CopyRuns(w: World, u: Unit, s: State, r: int, v: nat, iv: nat, n: nat)
    requires Gives(u, s, r, v, iv) && n < NO_TARGET
    ensures Run(w, u, s, [Tac(LCopy, r, NO_ARG, n)]) == s.(env := s.env[n := v])
  {
    RunOne(w, u, s, Tac(LCopy, r, NO_ARG, n));
  }

  /** The right side is parsed as if the target were not current yet, and is another variable. */
  lemma RightSideFresh(u: Unit, p: Unfinished, e: Expr, x: nat, early: bool)
    requires !Mentions(e, x) && Scoped(u, p.cells.Keys + {x}, e) && forall y | y in p.cells :: p.cells[y] < p.iv
    ensures Scoped(u, p.cells.Keys, e)
    ensures var l := LowerExpr(e, p.cells, p.iv + 1, early);
            LowerExpr(e, p.cells[x := p.iv], p.iv + 1, early) == l && l.r != p.iv && p.iv < l.iv
  {
    ScopedWithout(u, p.cells.Keys, e, x);
    LowerIgnores(e, p.cells, x, p.iv, p.iv + 1, early);
    OperandNotTarget(u, p, e, early);
  }

  lemma OperandNotTarget(u: Unit, p: Unfinished, e: Expr, early: bool)
    requires Scoped(u, p.cells.Keys, e) && forall y | y in p.cells :: p.cells[y] < p.iv
    ensures var l := LowerExpr(e, p.cells, p.iv + 1, early); l.r != p.iv && p.iv < l.iv
  {
    OperandFrom(e, p.cells, p.iv + 1, early);
    IvGrows(e, p.cells, p.iv + 1, early);
    if e.Local? { assert e.x in p.cells; }
  }

  /** The right side and the copy to the new version n. */
  lemma CopiedRuns(w: World, u: Unit, s0: State, p: Unfinished, s: Locals, e: Expr, l: Lowered, early: bool)
    requires FixesConstants(w, u) && Follows(w, u, s0, p, s) && Scoped(u, p.cells.Keys, e)
    requires l == LowerExpr(e, p.cells, p.iv + 1, early) && p.iv < l.iv <= NO_TARGET
    ensures var r := Eval(w, u, s.env, s.trace, e);
            var s1 := Run(w, u, s0, p.ops + l.ops + [Tac(LCopy, l.r, NO_ARG, p.iv)]);
            && s.trace <= r.trace && s1.trace == r.trace && p.iv in s1.env && s1.env[p.iv] == r.v
            && Matches(p.cells, CarriedEnv(w, r.trace, |s.trace|, s.env), s1, p.iv)
  {
    RightSide(w, u, s0, p, s, e, p.iv + 1, early);
    hide Eval, Gives, LowerExpr, Run;
    RunAppend(w, u, s0, p.ops + l.ops, [Tac(LCopy, l.r, NO_ARG, p.iv)]);
    CopyRuns(w, u, Run(w, u, s0, p.ops + l.ops), l.r, Eval(w, u, s.env, s.trace, e).v, l.iv, p.iv);
  }

  /** `local x = e` and `x = e`. */
  lemma DefineRuns(w: World, u: Unit, s0: State, p: Unfinished, s: Locals, stmt: Stmt, early: bool)
    requires FixesConstants(w, u) && Follows(w, u, s0, p, s) && (stmt.Define? || stmt.Assign?) && FreshAt(stmt)
    requires Scoped(u, p.cells.Keys + {stmt.x}, stmt.e) && Lower1(p, stmt, early).iv <= NO_TARGET
    ensures Follows(w, u, s0, Lower1(p, stmt, early), Exec1(w, u, s, stmt))
  {
    hide Run, Eval, Gives, LowerExpr, Scoped, CarriedEnv;
    RightSideFresh(u, p, stmt.e, stmt.x, early);
    var l := LowerExpr(stmt.e, p.cells, p.iv + 1, early);
    CopiedRuns(w, u, s0, p, s, stmt.e, l, early);
  }

  lemma SetGlobalRuns(w: World, u: Unit, s0: State, p: Unfinished, s: Locals, i: nat, e: Expr, early: bool)
    requires FixesConstants(w, u) && Follows(w, u, s0, p, s) && i < |u.ctts|
    requires Scoped(u, p.cells.Keys, e) && Lower1(p, Stmt.SetGlobal(i, e), early).iv <= NO_TARGET
    ensures Follows(w, u, s0, Lower1(p, Stmt.SetGlobal(i, e), early), Exec1(w, u, s, Stmt.SetGlobal(i, e)))
  {
    hide Run, Eval, Gives, LowerExpr, Scoped, CarriedEnv, Run1;
    OperandNotTarget(u, p, e, early);
    var n := p.iv;
    var l, r := LowerExpr(e, p.cells, n + 1, early), Eval(w, u, s.env, s.trace, e);
    CopiedRuns(w, u, s0, p, s, e, l, early);
    var copy, store := Tac(LCopy, l.r, NO_ARG, n), Tac(GStore, 0 - i - 1, n, NO_TARGET);
    assert p.ops + l.ops + ([copy] + [store]) == p.ops + l.ops + [copy] + [store];
    RunAppend(w, u, s0, p.ops + l.ops + [copy], [store]);
    var s2 := Run(w, u, s0, p.ops + l.ops + [copy]);
    RunOne(w, u, s2, store);
    StoreRuns(w, u, s2, i, n, r.v, p.cells, CarriedEnv(w, r.trace, |s.trace|, s.env), n);
    EnvTwice(w, r.trace, Run1(w, u, s2, store).trace, |s.trace|, s.env);
    MatchesMore(p.cells, CarriedEnv(w, Run1(w, u, s2, store).trace, |s.trace|, s.env), Run1(w, u, s2, store), n + 1,
                l.iv);
  }

  lemma MatchesMore(cells: map<nat, nat>, env: map<int, nat>, s: State, iv: nat, iv': nat)
    requires Matches(cells, env, s, iv) && iv <= iv'
    ensures Matches(cells, env, s, iv')
  {
  }

  lemma EnvTwice(w: World, t: seq<Event>, t': seq<Event>, n: nat, env: map<int, nat>)
    requires t <= t' && n <= |t|
    ensures CarriedEnv(w, t', |t|, CarriedEnv(w, t, n, env)) == CarriedEnv(w, t', n, env)
  {
    forall v | v in env
      ensures Carried(w, t', |t|, Carried(w, t, n, env[v])) == Carried(w, t', n, env[v])
    {
      CarriedChain(w, t, t', n, env[v]);
    }
  }

  lemma StoreRuns(w: World, u: Unit, s: State, i: nat, n: nat, v: nat, cells: map<nat, nat>, env: map<int, nat>,
                  iv: nat)
    requires i < |u.ctts| && n in s.env && s.env[n] == v && Matches(cells, env, s, iv)
    ensures var s' := Run1(w, u, s, Tac(GStore, 0 - i - 1, n, NO_TARGET));
            && s'.trace == s.trace + [Event(Fn.SetGlobal, [u.L, Constant(u, i), v])]
            && Matches(cells, CarriedEnv(w, s'.trace, |s.trace|, env), s', iv + 1)
  {
    var s' := Run1(w, u, s, Tac(GStore, 0 - i - 1, n, NO_TARGET));
    assert s'.trace[..|s'.trace| - 1] == s.trace;
    forall x
      ensures Carried(w, s'.trace, |s.trace|, x) == Carry(w, s'.trace, x)
    {
      assert Carried(w, s.trace, |s.trace|, x) == x;
    }
  }

  lemma StmtRuns(w: World, u: Unit, s0: State, p: Unfinished, s: Locals, stmt: Stmt, early: bool)
    requires FixesConstants(w, u) && Follows(w, u, s0, p, s) && FreshAt(stmt)
    requires Scoped(u, p.cells.Keys + (if stmt.Define? then {stmt.x} else {}), stmt.e)
    requires (stmt.Assign? ==> stmt.x in p.cells) && (stmt.SetGlobal? ==> stmt.i < |u.ctts|)
    requires Lower1(p, stmt, early).iv <= NO_TARGET
    ensures Follows(w, u, s0, Lower1(p, stmt, early), Exec1(w, u, s, stmt))
  {
    hide Run, Eval, LowerExpr, Scoped;
    match stmt
    case SetGlobal(i, e) =>
      assert p.cells.Keys + {} == p.cells.Keys;
      SetGlobalRuns(w, u, s0, p, s, i, e, early);
    case Evaluate(e) =>
      assert p.cells.Keys + {} == p.cells.Keys;
      RightSide(w, u, s0, p, s, e, p.iv, early);
    case Define(_, _) => DefineRuns(w, u, s0, p, s, stmt, early);
    case Assign(x, _) =>
      assert p.cells.Keys + {} == p.cells.Keys + {x};
      DefineRuns(w, u, s0, p, s, stmt, early);
  }

  lemma {:induction false} CellsAre(u: Unit, program: seq<Stmt>, early: bool)
    requires InScope(u, program)
    ensures LowerAll(program, early).cells.Keys == ScopeAfter(program)
  {
    if program != [] { CellsAre(u, program[..|program| - 1], early); }
  }

  lemma IvGrows1(p: Unfinished, stmt: Stmt, early: bool)
    ensures Lower1(p, stmt, early).iv >= p.iv && p.ops <= Lower1(p, stmt, early).ops
  {
    match stmt
    case Define(x, e) => IvGrows(e, p.cells[x := p.iv], p.iv + 1, early);
    case Assign(x, e) => IvGrows(e, p.cells[x := p.iv], p.iv + 1, early);
    case SetGlobal(_, e) => IvGrows(e, p.cells, p.iv + 1, early);
    case Evaluate(e) => IvGrows(e, p.cells, p.iv, early);
  }

  /** A whole program in which no right side mentions its own target: the operations emitted for it, run, make the calls
      of the program with the same words in the same order, and leave the value of each local in its current
      version. */
  lemma {:induction false} ProgramRuns(w: World, u: Unit, s0: State, program: seq<Stmt>, early: bool)
    requires FixesConstants(w, u) && InScope(u, program) && Fresh(program)
    requires LowerAll(program, early).iv <= NO_TARGET
    ensures LowerAll(program, early).cells.Keys == ScopeAfter(program)
    ensures Follows(w, u, s0, LowerAll(program, early), ExecAll(w, u, Locals(map[], s0.trace), program))
  {
    CellsAre(u, program, early);
    if program != [] {
      var before, stmt := program[..|program| - 1], program[|program| - 1];
      var p := LowerAll(before, early);
      IvGrows1(p, stmt, early);
      ProgramRuns(w, u, s0, before, early);
      assert FreshAt(stmt);
      StmtRuns(w, u, s0, p, ExecAll(w, u, Locals(map[], s0.trace), before), stmt, early);
    }
  }
}
