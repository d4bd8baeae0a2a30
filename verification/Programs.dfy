/** Straight-line Lua programs through parser and compiler: which of them the back end can be given, and that the
    machine code then does what the program says. */
module Programs {
  import opened Ir
  import opened Liveness
  import opened Codegen
  import opened Frames
  import opened Backend
  import opened Lowering

  // --- emitted operations are in order ------------------------------------------------------

  function Span(lo: nat, hi: nat): (r: set<int>)
    ensures forall v :: v in r <==> lo <= v < hi
  {
    if hi <= lo then {} else Span(lo, hi - 1) + {hi - 1}
  }

  /** What the compiler asks of one operation, the variables aside. */
  predicate Usual(u: Unit, t: Tac)
  {
    && Plain(t.op) && !Idle(t.op) && t.op != NewTbl
    && (Silent(t.op) ==> t.target == NO_TARGET)
    && (Reads(t.op) > 0 && t.a < 0 ==> -t.a - 1 < |u.ctts|)
    && (Reads(t.op) > 1 && t.b < 0 ==> -t.b - 1 < |u.ctts|)
  }

  /** The operations write the variables in `made`, each once, and no others; arguments are in front of their calls. */
  ghost predicate Formed(u: Unit, ops: seq<Tac>, made: set<int>)
  {
    (forall i | 0 <= i < |ops| :: Usual(u, ops[i]) && CallOk(ops, i)) && Targets(ops, made)
  }

  ghost predicate Targets(ops: seq<Tac>, made: set<int>)
  {
    && (forall i | 0 <= i < |ops| && !Silent(ops[i].op) :: ops[i].target in made)
    && (forall i, j | 0 <= i < j < |ops| && !Silent(ops[i].op) && !Silent(ops[j].op) :: ops[i].target != ops[j].target)
    && (forall v | v in made :: Made(ops, v))
  }

  ghost predicate Made(ops: seq<Tac>, v: int)
  {
    exists i :: 0 <= i < |ops| && !Silent(ops[i].op) && ops[i].target == v
  }

  /** They read only what is known before or has been written. */
  ghost predicate Fed(ops: seq<Tac>, known: set<int>)
  {
    forall i, v | 0 <= i < |ops| && Uses(ops[i], v) :: v in known || MadeBefore(ops, i, v)
  }

  ghost predicate MadeBefore(ops: seq<Tac>, i: int, v: int)
  {
    exists j :: 0 <= j < i && j < |ops| && !Silent(ops[j].op) && ops[j].target == v
  }

  lemma FormedNothing(u: Unit)
    ensures Formed(u, [], {}) && forall known :: Fed([], known)
  {
  }

  lemma FormedAppend(u: Unit, a: seq<Tac>, b: seq<Tac>, made: set<int>, more: set<int>)
    requires Formed(u, a, made) && Formed(u, b, more) && made !! more
    ensures Formed(u, a + b, made + more)
  {
    hide Usual, CallOk, Targets;
    TargetsAppend(a, b, made, more);
    var c := a + b;
    forall i | 0 <= i < |c|
      ensures Usual(u, c[i]) && CallOk(c, i)
    {
      CallShifted(a, b, if i < |a| then 0 else i - |a|);
      if i < |a| { CallKept(a, b, i); }
    }
  }

  lemma TargetsAppend(a: seq<Tac>, b: seq<Tac>, made: set<int>, more: set<int>)
    requires Targets(a, made) && Targets(b, more) && made !! more
    ensures Targets(a + b, made + more)
  {
    hide Silent;
    var c := a + b;
    forall v | v in made + more
      ensures Made(c, v)
    {
      if v in made {
        var i :| 0 <= i < |a| && !Silent(a[i].op) && a[i].target == v;
        assert c[i] == a[i];
      } else {
        var i :| 0 <= i < |b| && !Silent(b[i].op) && b[i].target == v;
        assert c[|a| + i] == b[i];
      }
    }
  }

  lemma CallKept(a: seq<Tac>, b: seq<Tac>, i: nat)
    requires i < |a| && CallOk(a, i)
    ensures CallOk(a + b, i)
  {
  }

  lemma CallShifted(a: seq<Tac>, b: seq<Tac>, i: nat)
    ensures i < |b| && CallOk(b, i) ==> CallOk(a + b, |a| + i)
  {
  }

  lemma FedAppend(u: Unit, a: seq<Tac>, b: seq<Tac>, made: set<int>, known: set<int>)
    requires Formed(u, a, made) && Fed(a, known) && Fed(b, known + made)
    ensures Fed(a + b, known)
  {
    hide Usual, Silent, Uses;
    var c := a + b;
    forall i, v | 0 <= i < |c| && Uses(c[i], v)
      ensures v in known || MadeBefore(c, i, v)
    {
      if i < |a| {
        assert c[i] == a[i];
        if v !in known {
          var j :| 0 <= j < i && j < |a| && !Silent(a[j].op) && a[j].target == v;
          assert c[j] == a[j];
        }
      } else {
        var k := i - |a|;
        assert c[i] == b[k] && Uses(b[k], v);
        assert v in known + made || MadeBefore(b, k, v);
        if v in made {
          assert Made(a, v);
          var j :| 0 <= j < |a| && !Silent(a[j].op) && a[j].target == v;
          assert c[j] == a[j];
        } else if v !in known {
          var j :| 0 <= j < k && j < |b| && !Silent(b[j].op) && b[j].target == v;
          assert c[|a| + j] == b[j];
        }
      }
    }
  }

  /** One operation with a result. */
  lemma OneFormed(u: Unit, t: Tac, known: set<int>)
    requires Usual(u, t) && !Silent(t.op) && t.op != Call
    requires (t.a >= 0 ==> t.a in known) && (t.b >= 0 ==> t.b in known)
    ensures Formed(u, [t], {t.target}) && Fed([t], known)
  {
    assert [t][0] == t;
  }

  lemma CopyFormed(u: Unit, r: int, n: nat)
    requires r < 0 ==> -r - 1 < |u.ctts|
    ensures Formed(u, [Tac(LCopy, r, NO_ARG, n)], {n})
  {
    assert [Tac(LCopy, r, NO_ARG, n)][0].target == n;
  }

  /** An operand is a constant that exists or a variable that is known. */
  predicate Ok(u: Unit, r: int, known: set<int>)
  {
    if r < 0 then -r - 1 < |u.ctts| else r in known
  }

  // --- expressions --------------------------------------------------------------------------

  ghost predicate ExprFormed(u: Unit, l: Lowered, iv: nat)
  {
    iv <= l.iv && Formed(u, l.ops, Span(iv, l.iv)) && (l.r < 0 ==> -l.r - 1 < |u.ctts|)
  }

  ghost predicate ArgsFormed(u: Unit, l: AllLowered, iv: nat)
  {
    && iv <= l.iv && Formed(u, l.ops, Span(iv, l.iv))
    && forall j | 0 <= j < |l.rs| && l.rs[j] < 0 :: -l.rs[j] - 1 < |u.ctts|
  }

  lemma SpanSplit(lo: nat, mid: nat, hi: nat)
    requires lo <= mid <= hi
    ensures Span(lo, mid) + Span(mid, hi) == Span(lo, hi) && Span(lo, mid) !! Span(mid, hi)
    ensures Span(mid, mid) == {} && Span(mid, mid + 1) == {mid as int}
  {
  }

  lemma SpanGap(lo: nat, mid: nat, hi: nat)
    requires lo <= mid < hi
    ensures Span(lo, mid) + Span(mid + 1, hi) + {mid as int} == Span(lo, hi)
    ensures Span(lo, mid) !! Span(mid + 1, hi) && Span(lo, mid) + Span(mid + 1, hi) !! {mid as int}
  {
  }

  lemma SpanNext(lo: nat, mid: nat, hi: nat)
    requires lo <= mid <= hi
    ensures Span(lo, mid) + Span(mid, hi) + {hi as int} == Span(lo, hi + 1)
    ensures Span(lo, mid) !! Span(mid, hi) && Span(lo, mid) + Span(mid, hi) !! {hi as int}
  {
  }

  lemma {:induction false} LowerFormed(u: Unit, cells: map<nat, nat>, e: Expr, iv: nat, early: bool)
    requires Scoped(u, cells.Keys, e)
    ensures ExprFormed(u, LowerExpr(e, cells, iv, early), iv)
    decreases e
  {
    hide Formed;
    match e
    case Ctt(i) => FormedNothing(u); SpanSplit(iv, iv, iv);
    case Local(x) => FormedNothing(u); SpanSplit(iv, iv, iv);
    case Global(i) => GlobalFormed(u, i, iv);
    case Field(b, i) =>
      LowerFormed(u, cells, b, iv, early);
      FieldFormed(u, LowerExpr(b, cells, iv, early), i, iv);
    case Binary(op, left, right) =>
      var a := LowerExpr(left, cells, iv, early);
      var iv1 := if early then a.iv + 1 else a.iv;
      LowerFormed(u, cells, left, iv, early);
      LowerFormed(u, cells, right, iv1, early);
      BinaryFormed(u, op, a, LowerExpr(right, cells, iv1, early), iv, early);
    case Apply(f, args) =>
      var c := LowerExpr(f, cells, iv, early);
      LowerFormed(u, cells, f, iv, early);
      LowerArgsFormed(u, cells, args, c.iv, early);
      ApplyFormed(u, c, LowerArgs(args, cells, c.iv, early), iv);
  }

  lemma {:induction false} LowerArgsFormed(u: Unit, cells: map<nat, nat>, args: Arguments, iv: nat, early: bool)
    requires AllScoped(u, cells.Keys, args)
    ensures ArgsFormed(u, LowerArgs(args, cells, iv, early), iv)
    decreases args
  {
    hide Formed;
    match args
    case NoArgs => FormedNothing(u); SpanSplit(iv, iv, iv);
    case AndArg(before, last) =>
      var a := LowerArgs(before, cells, iv, early);
      var b := LowerExpr(last, cells, a.iv, early);
      LowerArgsFormed(u, cells, before, iv, early);
      LowerFormed(u, cells, last, a.iv, early);
      SpanSplit(iv, a.iv, b.iv);
      FormedAppend(u, a.ops, b.ops, Span(iv, a.iv), Span(a.iv, b.iv));
  }

  lemma GlobalFormed(u: Unit, i: nat, iv: nat)
    requires i < |u.ctts|
    ensures ExprFormed(u, Lowered([Tac(GLoad, 0 - i - 1, NO_ARG, iv)], iv, iv + 1), iv)
  {
    OneFormed(u, Tac(GLoad, 0 - i - 1, NO_ARG, iv), {});
    SpanSplit(iv, iv, iv);
  }

  lemma FieldFormed(u: Unit, l: Lowered, i: nat, iv: nat)
    requires ExprFormed(u, l, iv) && i < |u.ctts|
    ensures ExprFormed(u, Lowered(l.ops + [Tac(TLoad, l.r, 0 - i - 1, l.iv)], l.iv, l.iv + 1), iv)
  {
    var t := Tac(TLoad, l.r, 0 - i - 1, l.iv);
    OneFormed(u, t, {l.r});
    hide Formed;
    SpanSplit(iv, l.iv, l.iv + 1);
    SpanSplit(l.iv, l.iv, l.iv);
    FormedAppend(u, l.ops, [t], Span(iv, l.iv), {l.iv as int});
  }

  lemma BinaryFormed(u: Unit, op: Op, a: Lowered, b: Lowered, iv: nat, early: bool)
    requires IsArith(op) && ExprFormed(u, a, iv) && ExprFormed(u, b, if early then a.iv + 1 else a.iv)
    ensures var target := if early then a.iv else b.iv;
            ExprFormed(u, Lowered(a.ops + b.ops + [Tac(op, a.r, b.r, target)], target,
                                  if early then b.iv else b.iv + 1), iv)
  {
    hide Formed, IsArith, Span;
    var target := if early then a.iv else b.iv;
    var iv1 := if early then a.iv + 1 else a.iv;
    if early { SpanGap(iv, a.iv, b.iv); } else { SpanNext(iv, a.iv, b.iv); }
    ArithFormed(u, Tac(op, a.r, b.r, target), a.ops, b.ops, Span(iv, a.iv), Span(iv1, b.iv));
  }

  lemma ArithFormed(u: Unit, t: Tac, a: seq<Tac>, b: seq<Tac>, made: set<int>, more: set<int>)
    requires IsArith(t.op) && (t.a < 0 ==> -t.a - 1 < |u.ctts|) && (t.b < 0 ==> -t.b - 1 < |u.ctts|)
    requires Formed(u, a, made) && Formed(u, b, more) && made !! more && made + more !! {t.target}
    ensures Formed(u, a + b + [t], made + more + {t.target})
  {
    ArithUsual(u, t);
    hide Usual, Silent, IsArith, Formed;
    OneFormed(u, t, {t.a, t.b});
    FormedAppend(u, a, b, made, more);
    FormedAppend(u, a + b, [t], made + more, {t.target});
  }

  lemma ArithUsual(u: Unit, t: Tac)
    requires IsArith(t.op) && (t.a < 0 ==> -t.a - 1 < |u.ctts|) && (t.b < 0 ==> -t.b - 1 < |u.ctts|)
    ensures Usual(u, t) && !Silent(t.op) && t.op != Call
  {
  }

  lemma CallFormed(u: Unit, r: int, rs: seq<int>, iv: nat)
    requires r < 0 ==> -r - 1 < |u.ctts|
    requires forall j | 0 <= j < |rs| && rs[j] < 0 :: -rs[j] - 1 < |u.ctts|
    ensures Formed(u, ArgOps(rs) + [Tac(Call, r, |rs|, iv)], {iv as int})
  {
    var ops := ArgOps(rs) + [Tac(Call, r, |rs|, iv)];
    assert ops[|rs|] == Tac(Call, r, |rs|, iv);
    forall i | 0 <= i < |ops|
      ensures Usual(u, ops[i]) && CallOk(ops, i)
    {
      if i < |rs| { assert ops[i] == Tac(Arg, rs[i], NO_ARG, NO_TARGET); }
    }
  }

  lemma ApplyFormed(u: Unit, c: Lowered, d: AllLowered, iv: nat)
    requires ExprFormed(u, c, iv) && ArgsFormed(u, d, c.iv)
    ensures ExprFormed(u, Lowered(c.ops + d.ops + (ArgOps(d.rs) + [Tac(Call, c.r, |d.rs|, d.iv)]), d.iv, d.iv + 1), iv)
  {
    hide Formed, ArgOps;
    var call := ArgOps(d.rs) + [Tac(Call, c.r, |d.rs|, d.iv)];
    CallFormed(u, c.r, d.rs, d.iv);
    SpanSplit(iv, c.iv, d.iv);
    FormedAppend(u, c.ops, d.ops, Span(iv, c.iv), Span(c.iv, d.iv));
    SpanSplit(iv, d.iv, d.iv + 1);
    SpanSplit(d.iv, d.iv, d.iv);
    FormedAppend(u, c.ops + d.ops, call, Span(iv, d.iv), {d.iv as int});
  }

  // --- what expressions read ----------------------------------------------------------------

  ghost predicate ExprFed(l: Lowered, iv: nat, known: set<int>)
  {
    Fed(l.ops, known) && (l.r >= 0 ==> l.r in known + Span(iv, l.iv))
  }

  ghost predicate ArgsFed(l: AllLowered, iv: nat, known: set<int>)
  {
    Fed(l.ops, known) && forall j | 0 <= j < |l.rs| && l.rs[j] >= 0 :: l.rs[j] in known + Span(iv, l.iv)
  }

  /** Every local that the expression mentions has a known version. */
  ghost predicate KnownIn(e: Expr, cells: map<nat, nat>, known: set<int>)
  {
    forall x | x in cells && Mentions(e, x) :: cells[x] in known
  }

  ghost predicate KnownInAll(args: Arguments, cells: map<nat, nat>, known: set<int>)
  {
    forall x | x in cells && AnyMentions(args, x) :: cells[x] in known
  }

  lemma FedMore(ops: seq<Tac>, known: set<int>, more: set<int>)
    requires Fed(ops, known) && known <= more
    ensures Fed(ops, more)
  {
  }

  lemma KnownLocal(x: nat, cells: map<nat, nat>, known: set<int>)
    requires KnownIn(Local(x), cells, known) && x in cells
    ensures cells[x] in known
  {
    assert Mentions(Local(x), x);
  }

  lemma KnownParts(e: Expr, cells: map<nat, nat>, known: set<int>)
    requires KnownIn(e, cells, known)
    ensures e.Field? ==> KnownIn(e.e, cells, known)
    ensures e.Binary? ==> KnownIn(e.left, cells, known) && KnownIn(e.right, cells, known)
    ensures e.Apply? ==> KnownIn(e.f, cells, known) && KnownInAll(e.args, cells, known)
  {
    forall x
      ensures e.Field? && Mentions(e.e, x) ==> Mentions(e, x)
      ensures e.Binary? && (Mentions(e.left, x) || Mentions(e.right, x)) ==> Mentions(e, x)
      ensures e.Apply? && (Mentions(e.f, x) || AnyMentions(e.args, x)) ==> Mentions(e, x)
    {
    }
  }

  lemma {:induction false} LowerFed(u: Unit, cells: map<nat, nat>, e: Expr, iv: nat, early: bool, known: set<int>)
    requires Scoped(u, cells.Keys, e) && KnownIn(e, cells, known)
    ensures ExprFed(LowerExpr(e, cells, iv, early), iv, known)
    decreases e
  {
    hide Formed, Fed, KnownIn, KnownInAll, Mentions;
    LowerFormed(u, cells, e, iv, early);
    match e
    case Ctt(i) => FormedNothing(u);
    case Local(x) =>
      FormedNothing(u);
      KnownLocal(x, cells, known);
    case Global(i) => GlobalFed(i, iv, known);
    case Field(b, i) =>
      KnownParts(e, cells, known);
      LowerFormed(u, cells, b, iv, early);
      LowerFed(u, cells, b, iv, early, known);
      FieldFed(u, LowerExpr(b, cells, iv, early), i, iv, known);
    case Binary(op, left, right) =>
      KnownParts(e, cells, known);
      var a := LowerExpr(left, cells, iv, early);
      var iv1 := if early then a.iv + 1 else a.iv;
      LowerFormed(u, cells, left, iv, early);
      LowerFormed(u, cells, right, iv1, early);
      LowerFed(u, cells, left, iv, early, known);
      LowerFed(u, cells, right, iv1, early, known);
      BinaryFed(u, op, a, LowerExpr(right, cells, iv1, early), iv, early, known);
    case Apply(f, args) =>
      KnownParts(e, cells, known);
      var c := LowerExpr(f, cells, iv, early);
      LowerFormed(u, cells, f, iv, early);
      LowerArgsFormed(u, cells, args, c.iv, early);
      LowerFed(u, cells, f, iv, early, known);
      LowerArgsFed(u, cells, args, c.iv, early, known);
      ApplyFed(u, c, LowerArgs(args, cells, c.iv, early), iv, known);
  }

  lemma {:induction false} LowerArgsFed(u: Unit, cells: map<nat, nat>, args: Arguments, iv: nat, early: bool,
                                        known: set<int>)
    requires AllScoped(u, cells.Keys, args) && KnownInAll(args, cells, known)
    ensures ArgsFed(LowerArgs(args, cells, iv, early), iv, known)
    decreases args
  {
    hide Formed, Fed;
    match args
    case NoArgs => FormedNothing(u);
    case AndArg(before, last) =>
      assert forall x | AnyMentions(before, x) || Mentions(last, x) :: AnyMentions(args, x);
      var a := LowerArgs(before, cells, iv, early);
      var b := LowerExpr(last, cells, a.iv, early);
      LowerArgsFormed(u, cells, before, iv, early);
      LowerFormed(u, cells, last, a.iv, early);
      LowerArgsFed(u, cells, before, iv, early, known);
      LowerFed(u, cells, last, a.iv, early, known);
      FedMore(b.ops, known, known + Span(iv, a.iv));
      FedAppend(u, a.ops, b.ops, Span(iv, a.iv), known);
  }

  lemma OneFed(t: Tac, known: set<int>)
    requires (t.a >= 0 ==> t.a in known) && (t.b >= 0 && t.op != Call ==> t.b in known)
    ensures Fed([t], known)
  {
  }

  lemma GlobalFed(i: nat, iv: nat, known: set<int>)
    ensures ExprFed(Lowered([Tac(GLoad, 0 - i - 1, NO_ARG, iv)], iv, iv + 1), iv, known)
  {
    OneFed(Tac(GLoad, 0 - i - 1, NO_ARG, iv), known);
  }

  lemma FieldFed(u: Unit, l: Lowered, i: nat, iv: nat, known: set<int>)
    requires ExprFormed(u, l, iv) && ExprFed(l, iv, known)
    ensures ExprFed(Lowered(l.ops + [Tac(TLoad, l.r, 0 - i - 1, l.iv)], l.iv, l.iv + 1), iv, known)
  {
    var t := Tac(TLoad, l.r, 0 - i - 1, l.iv);
    OneFed(t, known + Span(iv, l.iv));
    hide Formed, Fed;
    FedAppend(u, l.ops, [t], Span(iv, l.iv), known);
  }

  lemma BinaryFed(u: Unit, op: Op, a: Lowered, b: Lowered, iv: nat, early: bool, known: set<int>)
    requires IsArith(op) && ExprFormed(u, a, iv) && ExprFormed(u, b, if early then a.iv + 1 else a.iv)
    requires ExprFed(a, iv, known) && ExprFed(b, if early then a.iv + 1 else a.iv, known)
    ensures var target := if early then a.iv else b.iv;
            ExprFed(Lowered(a.ops + b.ops + [Tac(op, a.r, b.r, target)], target, if early then b.iv else b.iv + 1), iv,
                    known)
  {
    var target := if early then a.iv else b.iv;
    var t := Tac(op, a.r, b.r, target);
    var iv1 := if early then a.iv + 1 else a.iv;
    var made := Span(iv, a.iv) + Span(iv1, b.iv);
    OneFed(t, known + made);
    hide Formed, Fed;
    FedMore(b.ops, known, known + Span(iv, a.iv));
    FedAppend(u, a.ops, b.ops, Span(iv, a.iv), known);
    FormedAppend(u, a.ops, b.ops, Span(iv, a.iv), Span(iv1, b.iv));
    FedAppend(u, a.ops + b.ops, [t], made, known);
  }

  lemma CallFed(r: int, rs: seq<int>, iv: nat, known: set<int>)
    requires (r >= 0 ==> r in known) && forall j | 0 <= j < |rs| && rs[j] >= 0 :: rs[j] in known
    ensures Fed(ArgOps(rs) + [Tac(Call, r, |rs|, iv)], known)
  {
    var ops := ArgOps(rs) + [Tac(Call, r, |rs|, iv)];
    forall i, v | 0 <= i < |ops| && Uses(ops[i], v)
      ensures v in known
    {
      if i < |rs| { assert ops[i] == Tac(Arg, rs[i], NO_ARG, NO_TARGET); }
    }
  }

  lemma ApplyFed(u: Unit, c: Lowered, d: AllLowered, iv: nat, known: set<int>)
    requires ExprFormed(u, c, iv) && ArgsFormed(u, d, c.iv) && ExprFed(c, iv, known) && ArgsFed(d, c.iv, known)
    ensures ExprFed(Lowered(c.ops + d.ops + (ArgOps(d.rs) + [Tac(Call, c.r, |d.rs|, d.iv)]), d.iv, d.iv + 1), iv, known)
  {
    var call := ArgOps(d.rs) + [Tac(Call, c.r, |d.rs|, d.iv)];
    var made := Span(iv, c.iv) + Span(c.iv, d.iv);
    CallFed(c.r, d.rs, d.iv, known + made);
    hide Formed, Fed, ArgOps;
    FedMore(d.ops, known, known + Span(iv, c.iv));
    FedAppend(u, c.ops, d.ops, Span(iv, c.iv), known);
    FormedAppend(u, c.ops, d.ops, Span(iv, c.iv), Span(c.iv, d.iv));
    FedAppend(u, c.ops + d.ops, call, made, known);
  }

  // --- statements and programs --------------------------------------------------------------

  /** What has been emitted so far is in order, whole, and reads only what it has written. */
  ghost predicate InOrder(u: Unit, p: Unfinished)
  {
    && Formed(u, p.ops, Span(0, p.iv)) && Fed(p.ops, {})
    && forall x | x in p.cells :: p.cells[x] < p.iv
  }

  lemma CopyOrder(u: Unit, p: Unfinished, e: Expr, l: Lowered, early: bool)
    requires InOrder(u, p) && Scoped(u, p.cells.Keys, e) && l == LowerExpr(e, p.cells, p.iv + 1, early)
    ensures Formed(u, p.ops + l.ops + [Tac(LCopy, l.r, NO_ARG, p.iv)], Span(0, l.iv))
    ensures Fed(p.ops + l.ops + [Tac(LCopy, l.r, NO_ARG, p.iv)], {}) && p.iv < l.iv
  {
    hide Formed, Fed, Span;
    var n, t := p.iv, Tac(LCopy, l.r, NO_ARG, p.iv);
    LowerFormed(u, p.cells, e, n + 1, early);
    LowerFed(u, p.cells, e, n + 1, early, Span(0, n));
    SpanGap(0, n, l.iv);
    var made := Span(0, n) + Span(n + 1, l.iv);
    FormedAppend(u, p.ops, l.ops, Span(0, n), Span(n + 1, l.iv));
    CopyFormed(u, l.r, n);
    FormedAppend(u, p.ops + l.ops, [t], made, {n as int});
    Unknown(Span(0, n));
    FedAppend(u, p.ops, l.ops, Span(0, n), {});
    OneFed(t, made);
    Unknown(made);
    FedAppend(u, p.ops + l.ops, [t], made, {});
  }

  lemma Unknown(s: set<int>)
    ensures {} + s == s
  {
  }

  lemma StoreOrder(u: Unit, ops: seq<Tac>, i: nat, n: nat, iv: nat)
    requires Formed(u, ops, Span(0, iv)) && Fed(ops, {}) && n < iv && i < |u.ctts|
    ensures var c := ops + [Tac(GStore, 0 - i - 1, n, NO_TARGET)];
            Formed(u, c, Span(0, iv)) && Fed(c, {})
  {
    var t := Tac(GStore, 0 - i - 1, n, NO_TARGET);
    assert Formed(u, [t], {}) by { assert [t][0] == t; }
    OneFed(t, Span(0, iv));
    hide Formed, Fed;
    FormedAppend(u, ops, [t], Span(0, iv), {});
    Unknown(Span(0, iv));
    FedAppend(u, ops, [t], Span(0, iv), {});
    assert Span(0, iv) + {} == Span(0, iv);
  }

  /** The scope of a statement's right side, its own target included if it is a new local. */
  predicate StmtScoped(u: Unit, scope: set<nat>, s: Stmt)
  {
    && Scoped(u, scope + (if s.Define? then {s.x} else {}), s.e)
    && (s.Assign? ==> s.x in scope) && (s.SetGlobal? ==> s.i < |u.ctts|)
  }

  lemma StmtInOrder(u: Unit, p: Unfinished, s: Stmt, early: bool)
    requires InOrder(u, p) && FreshAt(s) && StmtScoped(u, p.cells.Keys, s)
    ensures InOrder(u, Lower1(p, s, early))
  {
    hide Formed, Fed, Scoped, LowerExpr;
    assert p.cells.Keys + {} == p.cells.Keys;
    match s
    case Define(x, e) =>
      RightSideFresh(u, p, e, x, early);
      CopyOrder(u, p, e, LowerExpr(e, p.cells, p.iv + 1, early), early);
    case Assign(x, e) =>
      assert p.cells.Keys + {x} == p.cells.Keys;
      RightSideFresh(u, p, e, x, early);
      CopyOrder(u, p, e, LowerExpr(e, p.cells, p.iv + 1, early), early);
    case SetGlobal(i, e) =>
      OperandNotTarget(u, p, e, early);
      var l := LowerExpr(e, p.cells, p.iv + 1, early);
      CopyOrder(u, p, e, l, early);
      StoreOrder(u, p.ops + l.ops + [Tac(LCopy, l.r, NO_ARG, p.iv)], i, p.iv, l.iv);
      assert p.ops + l.ops + ([Tac(LCopy, l.r, NO_ARG, p.iv)] + [Tac(GStore, 0 - i - 1, p.iv, NO_TARGET)]) ==
             p.ops + l.ops + [Tac(LCopy, l.r, NO_ARG, p.iv)] + [Tac(GStore, 0 - i - 1, p.iv, NO_TARGET)];
    case Evaluate(e) => EvaluateInOrder(u, p, e, early);
  }

  lemma EvaluateInOrder(u: Unit, p: Unfinished, e: Expr, early: bool)
    requires InOrder(u, p) && Scoped(u, p.cells.Keys, e)
    ensures InOrder(u, Lower1(p, Evaluate(e), early))
  {
    hide Formed, Fed;
    var l := LowerExpr(e, p.cells, p.iv, early);
    LowerFormed(u, p.cells, e, p.iv, early);
    LowerFed(u, p.cells, e, p.iv, early, Span(0, p.iv));
    SpanSplit(0, p.iv, l.iv);
    FormedAppend(u, p.ops, l.ops, Span(0, p.iv), Span(p.iv, l.iv));
    Unknown(Span(0, p.iv));
    FedAppend(u, p.ops, l.ops, Span(0, p.iv), {});
  }

  lemma {:induction false} ProgramInOrder(u: Unit, program: seq<Stmt>, early: bool)
    requires InScope(u, program) && Fresh(program)
    ensures InOrder(u, LowerAll(program, early))
  {
    CellsAre(u, program, early);
    if program == [] {
      FormedNothing(u);
      SpanSplit(0, 0, 0);
    } else {
      var before, s := program[..|program| - 1], program[|program| - 1];
      assert FreshAt(s);
      ProgramInOrder(u, before, early);
      CellsAre(u, before, early);
      StmtInOrder(u, LowerAll(before, early), s, early);
    }
  }

  /** What is in order is what the back end takes. */
  lemma OrderIsStraight(u: Unit, ops: seq<Tac>, iv: nat)
    requires Formed(u, ops, Span(0, iv)) && Fed(ops, {}) && |ops| < OP_MAX && iv <= NO_TARGET
    ensures StraightLine(ops, 0, iv, u)
  {
    assert Params(ops, 0) == [] by { NoHeader(u, ops, Span(0, iv)); }
    forall v | 0 <= v < iv
      ensures Defined(ops, v)
    {
      assert Made(ops, v);
      var i :| 0 <= i < |ops| && !Silent(ops[i].op) && ops[i].target == v;
      UsualDefines(u, ops[i]);
      assert Defines(ops[i], v);
    }
    forall i, v | 0 <= i < |ops| && Uses(ops[i], v)
      ensures WrittenBy(ops, i, v) && ops[i].op != NewTbl
    {
      assert MadeBefore(ops, i, v);
      var j :| 0 <= j < i && j < |ops| && !Silent(ops[j].op) && ops[j].target == v;
      UsualDefines(u, ops[j]);
      assert Defines(ops[j], v) && Usual(u, ops[i]);
    }
  }

  lemma NoHeader(u: Unit, ops: seq<Tac>, made: set<int>)
    requires Formed(u, ops, made)
    ensures Params(ops, 0) == [] && forall i | 0 <= i < |ops| :: !Idle(ops[i].op)
  {
    if ops != [] { assert Usual(u, ops[0]); }
  }

  lemma UsualDefines(u: Unit, t: Tac)
    requires Usual(u, t)
    ensures Counts(t) && !IsJmp(t.op)
  {
  }

  // --- a right side that mentions its own target --------------------------------------------

  ghost predicate Used(ops: seq<Tac>, v: int)
  {
    exists i :: 0 <= i < |ops| && Uses(ops[i], v)
  }

  lemma UsedAppend(a: seq<Tac>, b: seq<Tac>, v: int)
    ensures Used(a, v) || Used(b, v) ==> Used(a + b, v)
  {
    var c := a + b;
    if i :| 0 <= i < |a| && Uses(a[i], v) { assert c[i] == a[i]; }
    if i :| 0 <= i < |b| && Uses(b[i], v) { assert c[|a| + i] == b[i]; }
  }

  lemma OneUsed(t: Tac, v: int)
    requires Uses(t, v)
    ensures Used([t], v)
  {
    assert [t][0] == t;
  }

  lemma FieldUses(r: int, i: nat, target: int, v: nat)
    requires r == v
    ensures Used([Tac(TLoad, r, 0 - i - 1, target)], v)
  {
    OneUsed(Tac(TLoad, r, 0 - i - 1, target), v);
  }

  lemma ArithUses(op: Op, a: int, b: int, target: int, v: nat)
    requires IsArith(op) && (a == v || b == v)
    ensures Used([Tac(op, a, b, target)], v)
  {
    OneUsed(Tac(op, a, b, target), v);
  }

  lemma CallUses(r: int, n: nat, target: int, v: nat)
    requires r == v
    ensures Used([Tac(Call, r, n, target)], v)
  {
    OneUsed(Tac(Call, r, n, target), v);
  }

  lemma ArgUses(rs: seq<int>, j: nat, v: nat)
    requires j < |rs| && rs[j] == v
    ensures Used(ArgOps(rs), v)
  {
    assert Uses(ArgOps(rs)[j], v);
  }

  /** An expression that mentions a local reads its version, or is it. */
  lemma {:induction false} MentionUsed(u: Unit, cells: map<nat, nat>, e: Expr, x: nat, iv: nat, early: bool)
    requires Scoped(u, cells.Keys, e) && Mentions(e, x) && x in cells
    ensures if e.Local? then e.x == x else Used(LowerExpr(e, cells, iv, early).ops, cells[x])
    decreases e
  {
    hide Used, Uses;
    var v := cells[x];
    match e
    case Local(y) =>
    case Field(b, i) =>
      MentionUsed(u, cells, b, x, iv, early);
      var l := LowerExpr(b, cells, iv, early);
      if b.Local? { FieldUses(l.r, i, l.iv, v); }
      UsedAppend(l.ops, [Tac(TLoad, l.r, 0 - i - 1, l.iv)], v);
    case Binary(op, left, right) =>
      var a := LowerExpr(left, cells, iv, early);
      var iv1 := if early then a.iv + 1 else a.iv;
      if Mentions(left, x) {
        MentionUsed(u, cells, left, x, iv, early);
      } else {
        MentionUsed(u, cells, right, x, iv1, early);
      }
      var b := LowerExpr(right, cells, iv1, early);
      BinaryUsed(op, a, b, if early then a.iv else b.iv, v);
    case Apply(f, args) =>
      var c := LowerExpr(f, cells, iv, early);
      if !Mentions(f, x) { ArgMentionUsed(u, cells, args, x, c.iv, early); }
      ApplyUsed(c, LowerArgs(args, cells, c.iv, early), v);
  }

  lemma BinaryUsed(op: Op, a: Lowered, b: Lowered, target: nat, v: nat)
    requires IsArith(op) && (Used(a.ops, v) || Used(b.ops, v) || a.r == v || b.r == v)
    ensures Used(a.ops + b.ops + [Tac(op, a.r, b.r, target)], v)
  {
    hide Used;
    if a.r == v || b.r == v { ArithUses(op, a.r, b.r, target, v); }
    UsedAppend(a.ops, b.ops, v);
    UsedAppend(a.ops + b.ops, [Tac(op, a.r, b.r, target)], v);
  }

  lemma ApplyUsed(c: Lowered, d: AllLowered, v: nat)
    requires Used(c.ops, v) || Used(d.ops, v) || c.r == v || exists j :: 0 <= j < |d.rs| && d.rs[j] == v
    ensures Used(c.ops + d.ops + (ArgOps(d.rs) + [Tac(Call, c.r, |d.rs|, d.iv)]), v)
  {
    hide Used, ArgOps;
    var t := Tac(Call, c.r, |d.rs|, d.iv);
    if c.r == v { CallUses(c.r, |d.rs|, d.iv, v); }
    if j :| 0 <= j < |d.rs| && d.rs[j] == v { ArgUses(d.rs, j, v); }
    UsedAppend(ArgOps(d.rs), [t], v);
    UsedAppend(c.ops, d.ops, v);
    UsedAppend(c.ops + d.ops, ArgOps(d.rs) + [t], v);
  }

  lemma {:induction false} ArgMentionUsed(u: Unit, cells: map<nat, nat>, args: Arguments, x: nat, iv: nat, early: bool)
    requires AllScoped(u, cells.Keys, args) && AnyMentions(args, x) && x in cells
    ensures var d := LowerArgs(args, cells, iv, early);
            Used(d.ops, cells[x]) || exists j :: 0 <= j < |d.rs| && d.rs[j] == cells[x]
    decreases args
  {
    match args
    case AndArg(before, last) =>
      var a := LowerArgs(before, cells, iv, early);
      var b := LowerExpr(last, cells, a.iv, early);
      var d := LowerArgs(args, cells, iv, early);
      if AnyMentions(before, x) {
        ArgMentionUsed(u, cells, before, x, iv, early);
        if j :| 0 <= j < |a.rs| && a.rs[j] == cells[x] { assert d.rs[j] == cells[x]; }
      } else {
        MentionUsed(u, cells, last, x, a.iv, early);
        if last.Local? { assert d.rs[|a.rs|] == cells[x]; }
      }
      UsedAppend(a.ops, b.ops, cells[x]);
  }

  /** All results are in variables from lo on and below hi. */
  ghost predicate Between(ops: seq<Tac>, lo: nat, hi: nat)
  {
    forall i | 0 <= i < |ops| && !Silent(ops[i].op) :: lo <= ops[i].target < hi
  }

  lemma FormedBetween(u: Unit, ops: seq<Tac>, lo: nat, hi: nat)
    requires Formed(u, ops, Span(lo, hi))
    ensures Between(ops, lo, hi) && forall i | 0 <= i < |ops| :: ops[i].op != NewTbl
  {
    hide CallOk;
  }

  lemma BetweenAppend(a: seq<Tac>, b: seq<Tac>, lo: nat, hi: nat)
    requires Between(a, lo, hi) && Between(b, lo, hi)
    ensures Between(a + b, lo, hi)
  {
    hide Silent;
  }

  lemma BetweenMore(a: seq<Tac>, lo: nat, hi: nat, lo': nat, hi': nat)
    requires Between(a, lo, hi) && lo' <= lo && hi <= hi'
    ensures Between(a, lo', hi')
  {
    hide Silent;
  }

  lemma NothingBetween(iv: nat)
    ensures Between([], iv, iv)
  {
  }

  /** The operations a statement adds. */
  function Added(p: Unfinished, s: Stmt, early: bool): (r: seq<Tac>)
    ensures Lower1(p, s, early).ops == p.ops + r
  {
    match s
    case Define(x, e) =>
      var l := LowerExpr(e, p.cells[x := p.iv], p.iv + 1, early);
      l.ops + [Tac(LCopy, l.r, NO_ARG, p.iv)]
    case Assign(x, e) =>
      var l := LowerExpr(e, p.cells[x := p.iv], p.iv + 1, early);
      l.ops + if l.r == p.iv then [] else [Tac(LCopy, l.r, NO_ARG, p.iv)]
    case SetGlobal(i, e) =>
      var l := LowerExpr(e, p.cells, p.iv + 1, early);
      var copy := if l.r == p.iv then [] else [Tac(LCopy, l.r, NO_ARG, p.iv)];
      l.ops + (copy + [Tac(GStore, 0 - i - 1, p.iv, NO_TARGET)])
    case Evaluate(e) => LowerExpr(e, p.cells, p.iv, early).ops
  }

  lemma ScopedMore(u: Unit, p: Unfinished, s: Stmt)
    requires StmtScoped(u, p.cells.Keys, s)
    ensures s.Define? || s.Assign? ==> Scoped(u, p.cells[s.x := p.iv].Keys, s.e)
    ensures s.SetGlobal? || s.Evaluate? ==> Scoped(u, p.cells.Keys, s.e)
  {
    if s.Define? || s.Assign? {
      assert p.cells[s.x := p.iv].Keys == p.cells.Keys + (if s.Define? then {s.x} else {});
    } else {
      assert p.cells.Keys + {} == p.cells.Keys;
    }
  }

  lemma AddedBetween(u: Unit, p: Unfinished, s: Stmt, early: bool)
    requires StmtScoped(u, p.cells.Keys, s)
    ensures Between(Added(p, s, early), p.iv, Lower1(p, s, early).iv) && p.iv <= Lower1(p, s, early).iv
  {
    hide Formed, Scoped;
    ScopedMore(u, p, s);
    var cells := if s.Define? || s.Assign? then p.cells[s.x := p.iv] else p.cells;
    var iv := if s.Evaluate? then p.iv else p.iv + 1;
    var l := LowerExpr(s.e, cells, iv, early);
    LowerFormed(u, cells, s.e, iv, early);
    FormedBetween(u, l.ops, iv, l.iv);
    BetweenMore(l.ops, iv, l.iv, p.iv, l.iv);
    if !s.Evaluate? {
      var rest := Added(p, s, early)[|l.ops|..];
      assert Between(rest, p.iv, l.iv);
      BetweenAppend(l.ops, rest, p.iv, l.iv);
      assert l.ops + rest == Added(p, s, early);
    }
  }

  /** Later statements add operations with results in later variables. */
  lemma {:induction false} LaterBetween(u: Unit, program: seq<Stmt>, n: nat, early: bool)
    requires InScope(u, program) && n <= |program|
    ensures InScope(u, program[..n])
    ensures var p, q := LowerAll(program[..n], early), LowerAll(program, early);
            p.iv <= q.iv && p.ops <= q.ops && Between(q.ops[|p.ops|..], p.iv, q.iv)
    decreases |program|
  {
    hide Between, Lower1, Added;
    if n == |program| {
      assert program[..n] == program;
      NothingBetween(LowerAll(program, early).iv);
      assert LowerAll(program, early).ops[|LowerAll(program, early).ops|..] == [];
    } else {
      var before, s := program[..|program| - 1], program[|program| - 1];
      assert before[..n] == program[..n];
      LaterBetween(u, before, n, early);
      CellsAre(u, before, early);
      var p, q := LowerAll(program[..n], early), LowerAll(before, early);
      AddedBetween(u, q, s, early);
      var added, iv := Added(q, s, early), Lower1(q, s, early).iv;
      BetweenMore(q.ops[|p.ops|..], p.iv, q.iv, p.iv, iv);
      BetweenMore(added, q.iv, iv, p.iv, iv);
      BetweenAppend(q.ops[|p.ops|..], added, p.iv, iv);
      assert (q.ops + added)[|p.ops|..] == q.ops[|p.ops|..] + added;
    }
  }

  lemma {:induction false} EarlierBetween(u: Unit, program: seq<Stmt>, early: bool)
    requires InScope(u, program)
    ensures Between(LowerAll(program, early).ops, 0, LowerAll(program, early).iv)
  {
    LaterBetween(u, program, 0, early);
    assert program[..0] == [];
    assert LowerAll(program, early).ops[0..] == LowerAll(program, early).ops;
  }

  lemma StraightWrites(u: Unit, ops: seq<Tac>, iv: nat, n: nat)
    requires StraightLine(ops, 0, iv, u) && n < iv
    ensures Made(ops, n)
  {
    NoParams(ops, iv, u);
    assert Defined(ops, n);
    var i :| 0 <= i < |ops| && Defines(ops[i], n);
    TargetIs(ops, 0, iv, u, i);
  }

  lemma StraightReads(u: Unit, ops: seq<Tac>, iv: nat, i: nat, n: nat)
    requires StraightLine(ops, 0, iv, u) && i < |ops| && Uses(ops[i], n) && ops[i].op != NewTbl
    ensures MadeBefore(ops, i, n)
  {
    NoParams(ops, iv, u);
    OneOp(ops, 0, iv, u, i);
    hide StraightLine, Uses;
    assert WrittenBy(ops, i, n);
    var k :| 0 <= k < i && k < |ops| && Defines(ops[k], n);
    TargetIs(ops, 0, iv, u, k);
  }

  lemma NoParams(ops: seq<Tac>, iv: nat, u: Unit)
    requires StraightLine(ops, 0, iv, u)
    ensures Params(ops, 0) == []
  {
    assert Declares(ops, 0, iv);
    hide StraightLine;
  }

  /** The new version has no definition but the copy behind the right side. */
  lemma OnlyAt(a: seq<Tac>, b: seq<Tac>, r: seq<Tac>, q: seq<Tac>, n: nat, hi: nat, iv: nat)
    requires a + b <= r <= q && |r| <= |a| + |b| + 1 && n < hi
    requires Between(a, 0, n) && Between(b, n + 1, hi) && Between(q[|r|..], hi, iv)
    ensures forall i | 0 <= i < |q| && (i != |a| + |b| || |r| == |a| + |b|) :: !Silent(q[i].op) ==> q[i].target != n
  {
    hide Silent;
    forall i | 0 <= i < |q| && (i != |a| + |b| || |r| == |a| + |b|) && !Silent(q[i].op)
      ensures q[i].target != n
    {
      if i < |a| { assert q[i] == (a + b)[i] == a[i]; }
      else if i < |a| + |b| { assert q[i] == (a + b)[i] == b[i - |a|]; }
      else { assert q[i] == q[|r|..][i - |r|]; }
    }
  }

  /** What has been emitted before a statement, its right side, all it adds, and the whole program. */
  lemma Surroundings(u: Unit, program: seq<Stmt>, n: nat, early: bool)
    requires InScope(u, program) && n < |program| && (program[n].Define? || program[n].Assign?)
    ensures InScope(u, program[..n]) && StmtScoped(u, LowerAll(program[..n], early).cells.Keys, program[n])
    ensures var s, p, q := program[n], LowerAll(program[..n], early), LowerAll(program, early);
            var l, r := LowerExpr(s.e, p.cells[s.x := p.iv], p.iv + 1, early), Lower1(p, s, early);
            && p.ops + l.ops <= r.ops <= q.ops && |r.ops| <= |p.ops| + |l.ops| + 1 && l.iv <= q.iv && p.iv < l.iv
            && (s.Define? || l.r != p.iv ==> r.ops == p.ops + l.ops + [Tac(LCopy, l.r, NO_ARG, p.iv)])
            && (s.Assign? && l.r == p.iv ==> r.ops == p.ops + l.ops)
            && (forall i | 0 <= i < |l.ops| :: l.ops[i].op != NewTbl)
            && Between(p.ops, 0, p.iv) && Between(l.ops, p.iv + 1, l.iv) && Between(q.ops[|r.ops|..], l.iv, q.iv)
  {
    hide Between, Formed, Scoped, LowerExpr;
    var s, p := program[n], LowerAll(program[..n], early);
    LaterBetween(u, program, n + 1, early);
    assert program[..n + 1][..n] == program[..n];
    EarlierBetween(u, program[..n], early);
    CellsAre(u, program[..n], early);
    ScopedMore(u, p, s);
    var l := LowerExpr(s.e, p.cells[s.x := p.iv], p.iv + 1, early);
    LowerFormed(u, p.cells[s.x := p.iv], s.e, p.iv + 1, early);
    FormedBetween(u, l.ops, p.iv + 1, l.iv);
  }

  /** A statement that mentions its own target reads the new version before anything has written it, or, when the
      right side is the target itself, nothing ever writes it. */
  lemma StaleRead(u: Unit, program: seq<Stmt>, n: nat, early: bool)
    requires InScope(u, program) && n < |program| && !FreshAt(program[n])
    ensures !StraightLine(LowerAll(program, early).ops, 0, LowerAll(program, early).iv, u)
  {
    hide StraightLine, Between, Scoped, InScope, LowerExpr, LowerAll, Lower1, StmtScoped, Mentions;
    hide Silent, Uses;
    var s, p, q := program[n], LowerAll(program[..n], early), LowerAll(program, early);
    Surroundings(u, program, n, early);
    ScopedMore(u, p, s);
    var cells := p.cells[s.x := p.iv];
    var l, r := LowerExpr(s.e, cells, p.iv + 1, early), Lower1(p, s, early).ops;
    MentionUsed(u, cells, s.e, s.x, p.iv + 1, early);
    OnlyAt(p.ops, l.ops, r, q.ops, p.iv, l.iv, q.iv);
    if StraightLine(q.ops, 0, q.iv, u) {
      if !s.e.Local? {
        var i :| 0 <= i < |l.ops| && Uses(l.ops[i], p.iv);
        ReadEarly(u, p.ops, l.ops, r, q.ops, q.iv, p.iv, i);
      } else if s.Define? {
        CopyOfItself(u, cells, s.e, p.iv + 1, early, s.x);
        CopyUses(p.iv);
        ReadEarly(u, p.ops + l.ops, [Tac(LCopy, l.r, NO_ARG, p.iv)], r, q.ops, q.iv, p.iv, 0);
      } else {
        CopyOfItself(u, cells, s.e, p.iv + 1, early, s.x);
        StraightWrites(u, q.ops, q.iv, p.iv);
      }
    }
  }
  lemma CopyUses(n: nat)
    ensures Uses(Tac(LCopy, n, NO_ARG, n), n)
  {
  }

  lemma CopyOfItself(u: Unit, cells: map<nat, nat>, e: Expr, iv: nat, early: bool, x: nat)
    requires e == Local(x) && x in cells
    ensures LowerExpr(e, cells, iv, early).r == cells[x]
  {
  }

  /** Operation i of the middle part b reads n, which a straight-line program has then made. */
  lemma ReadEarly(u: Unit, a: seq<Tac>, b: seq<Tac>, r: seq<Tac>, q: seq<Tac>, iv: nat, n: nat, i: nat)
    requires StraightLine(q, 0, iv, u) && a + b <= r <= q && i < |b| && Uses(b[i], n) && b[i].op != NewTbl
    ensures MadeBefore(q, |a| + i, n)
  {
    hide StraightLine, Uses;
    assert q[|a| + i] == (a + b)[|a| + i] == b[i];
    StraightReads(u, q, iv, |a| + i, n);
  }

  /** For every program in scope that fits: what the parser emits is what the back end takes, every variable written
      once and before it is read, if and only if no right side mentions its own target. */
  lemma StraightExactly(u: Unit, program: seq<Stmt>, early: bool)
    requires InScope(u, program)
    requires |LowerAll(program, early).ops| < OP_MAX && LowerAll(program, early).iv <= NO_TARGET
    ensures Fresh(program) <==> StraightLine(LowerAll(program, early).ops, 0, LowerAll(program, early).iv, u)
  {
    hide StraightLine;
    if Fresh(program) {
      ProgramInOrder(u, program, early);
      OrderIsStraight(u, LowerAll(program, early).ops, LowerAll(program, early).iv);
    } else {
      var n :| 0 <= n < |program| && !FreshAt(program[n]);
      StaleRead(u, program, n, early);
    }
  }

  /** `local x = 1; x = x + 1`, with constant 0 for 1. */
  const INCREMENT: seq<Stmt> := [Define(0, Ctt(0)), Assign(0, Binary(Add, Local(0), Ctt(0)))]

  /** The sum reads variable 1, the new version of x, in front of the copy that is its only definition. */
  lemma ReadsItself(early: bool)
    ensures LowerAll(INCREMENT, early).ops ==
            [Tac(LCopy, -1, NO_ARG, 0), Tac(Add, 1, -1, 2), Tac(LCopy, 2, NO_ARG, 1)]
  {
    assert INCREMENT[..2] == INCREMENT && INCREMENT[..1] == [INCREMENT[0]] && INCREMENT[..1][..0] == [];
    var p0 := LowerAll([], early);
    var p1 := Lower1(p0, INCREMENT[0], early);
    assert p1 == LowerAll(INCREMENT[..1], early) && p1.cells == map[0 := 0];
    assert p1.ops == [Tac(LCopy, -1, NO_ARG, 0)] && p1.iv == 1;
    var cells := map[0 := 1];
    var t := Tac(Add, 1, -1, 2);
    assert p1.cells[0 := 1] == cells;
    assert LowerExpr(Local(0), cells, 2, early) == Lowered([], 1, 2);
    assert LowerExpr(Ctt(0), cells, if early then 3 else 2, early) == Lowered([], -1, if early then 3 else 2);
    assert [] + [] + [t] == [t];
    assert LowerExpr(INCREMENT[1].e, cells, 2, early) == Lowered([t], 2, 3);
  }

  // --- compiled -----------------------------------------------------------------------------

  /** The machine enters the main chunk, before any call of its own. */
  ghost predicate Started(w: World, u: Unit, m: Mach, s: State)
  {
    FixesL(w, u) && FixesConstants(w, u) && Entered(u, m, s, [])
  }

  /** The machine code makes the calls of the program, with the same words in the same order, and gives the machine
      back. */
  ghost predicate Does(w: World, u: Unit, m: Mach, s: State, program: seq<Stmt>, code: seq<Instr>)
  {
    var m' := Exec(w, m, code);
    m'.trace == ExecAll(w, u, Locals(map[], s.trace), program).trace && HandsBack(w, m, m')
  }

  /** From the program to machine code: parser, liveness, allocation and emission. */
  method CompileProgram(program: seq<Stmt>, u: Unit, early: bool) returns (code: seq<Instr>, k: Layout, used: nat)
    requires InScope(u, program) && Fresh(program)
    requires |LowerAll(program, early).ops| < OP_MAX && LowerAll(program, early).iv <= NO_TARGET
    ensures SoundLayout(k) && ChunkOk(u, k, LowerAll(program, early).ops) && Within(k.asg, used)
    ensures code == Prologue(used, k.lvar) + EmitAll(u, k.asg, k.lvar, LowerAll(program, early).ops) +
        Epilogue(used, k.lvar)
    ensures forall w: World, m: Mach, s: State | Started(w, u, m, s) :: Does(w, u, m, s, program, code)
  {
    hide StraightLine, SoundLayout, ChunkOk, Within, Entered, FixesL, FixesConstants, Implements, ParamsPlaced;
    var p := LowerAll(program, early);
    StraightExactly(u, program, early);
    code, k, used := CompileStraightLine(p.ops, 0, p.iv, u);
    MainHasNoParams(p.ops, p.iv, u);
    forall w: World, m: Mach, s: State | Started(w, u, m, s)
      ensures Does(w, u, m, s, program, code)
    {
      assert Implements(w, u, m, s, p.ops, code);
      ProgramRuns(w, u, s, program, early);
      ImplementsDoes(w, u, m, s, program, code, early);
    }
  }

  lemma MainHasNoParams(ops: seq<Tac>, iv: nat, u: Unit)
    requires StraightLine(ops, 0, iv, u)
    ensures Params(ops, 0) == []
  {
    NoParams(ops, iv, u);
  }

  lemma ImplementsDoes(w: World, u: Unit, m: Mach, s: State, program: seq<Stmt>, code: seq<Instr>, early: bool)
    requires Implements(w, u, m, s, LowerAll(program, early).ops, code)
    requires Follows(w, u, s, LowerAll(program, early), ExecAll(w, u, Locals(map[], s.trace), program))
    ensures Does(w, u, m, s, program, code)
  {
    hide Exec, Run, HandsBack;
  }

  /** After the first n statements, in the code of any compiled program, each local that is still needed is, where the
      layout says, the word that the statements give it. */
  lemma LocalsInPlace(w: World, u: Unit, k: Layout, m: Mach, s: State, program: seq<Stmt>, n: nat, early: bool, x: nat)
    requires InScope(u, program) && Fresh(program) && n <= |program| && LowerAll(program, early).iv <= NO_TARGET
    requires SoundLayout(k) && ChunkOk(u, k, LowerAll(program, early).ops) && FixesL(w, u) && FixesConstants(w, u)
    requires Holds(u, k, m, s.env, 0) && m.trace == s.trace && x in ScopeAfter(program[..n])
    ensures var p, now := LowerAll(program[..n], early), ExecAll(w, u, Locals(map[], s.trace), program[..n]);
            var m' := Exec(w, m, EmitAll(u, k.asg, k.lvar, p.ops));
            && x in p.cells && x in now.env && m'.trace == now.trace
            && (p.cells[x] < |k.asg| && |p.ops| <= k.end[p.cells[x]] ==>
                  Reading(m', k.asg[p.cells[x]]) == now.env[x])
  {
    assert Sized(k);
    hide SoundLayout, ChunkOk, FixesL, FixesConstants, Exec, EmitAll, Run, Holds, Untouched, Formed, Fed;
    LaterBetween(u, program, n, early);
    FreshPrefix(program, n);
    var p, ops := LowerAll(program[..n], early), LowerAll(program, early).ops;
    ProgramRuns(w, u, s, program[..n], early);
    ProgramInOrder(u, program[..n], early);
    ChunkPrefix(u, k, ops, |p.ops|);
    assert ops[..|p.ops|] == p.ops;
    CompiledCodeSimulates(w, u, k, m, s, p.ops);
    if p.cells[x] < |k.asg| && |p.ops| <= k.end[p.cells[x]] {
      MadeStarts(u, k, p.ops, p.iv, p.cells[x]);
      LiveRead(u, k, Exec(w, m, EmitAll(u, k.asg, k.lvar, p.ops)), Run(w, u, s, p.ops).env, |p.ops|, p.cells[x]);
    }
  }

  lemma FreshPrefix(program: seq<Stmt>, n: nat)
    requires Fresh(program) && n <= |program|
    ensures Fresh(program[..n])
  {
  }

  lemma MadeStarts(u: Unit, k: Layout, ops: seq<Tac>, iv: nat, v: nat)
    requires Sized(k) && ChunkOk(u, k, ops) && Formed(u, ops, Span(0, iv)) && v < iv && v < |k.asg|
    ensures k.ini[v] < |ops|
  {
    assert Made(ops, v);
    var i :| 0 <= i < |ops| && !Silent(ops[i].op) && ops[i].target == v;
    assert OpOk(u, k, ops[i], i);
  }

  lemma LiveRead(u: Unit, k: Layout, m: Mach, env: map<int, nat>, i: nat, v: nat)
    requires Sized(k) && Holds(u, k, m, env, i) && v < |k.asg| && k.ini[v] < i <= k.end[v]
    ensures v in env && Reading(m, k.asg[v]) == env[v]
  {
    assert LiveOk(k, m, env, i, v);
  }

  /** Operand r, a constant or a variable in its place, is v. */
  ghost predicate Located(u: Unit, k: Layout, m: Mach, r: int, v: nat)
  {
    if r < 0 then -r - 1 < |u.ctts| && u.ctts[-r - 1] == v else r < |k.asg| && Reading(m, k.asg[r]) == v
  }

  /** And the right side of statement n, evaluated: its operand, where the layout says, is the value of the expression
      by the meaning of the language. */
  lemma ValueInPlace(w: World, u: Unit, k: Layout, m: Mach, s: State, program: seq<Stmt>, n: nat, early: bool)
    requires InScope(u, program) && Fresh(program) && n < |program| && LowerAll(program, early).iv <= NO_TARGET
    requires program[n].Define? || program[n].Assign?
    requires SoundLayout(k) && ChunkOk(u, k, LowerAll(program, early).ops) && FixesL(w, u) && FixesConstants(w, u)
    requires Holds(u, k, m, s.env, 0) && m.trace == s.trace
    ensures var p, now := LowerAll(program[..n], early), ExecAll(w, u, Locals(map[], s.trace), program[..n]);
            var l := LowerExpr(program[n].e, p.cells[program[n].x := p.iv], p.iv + 1, early);
            var value := Eval(w, u, now.env, now.trace, program[n].e);
            var m' := Exec(w, m, EmitAll(u, k.asg, k.lvar, p.ops + l.ops));
            m'.trace == value.trace && Located(u, k, m', l.r, value.v)
  {
    hide SoundLayout, ChunkOk, FixesL, FixesConstants, Exec, EmitAll, Run, Holds, Untouched, Eval, LowerExpr, Scoped;
    hide Lower1, Between, LowerAll, ExecAll, InScope, Fresh, StmtScoped, Follows, Sized, Located;
    var e, x := program[n].e, program[n].x;
    var p, q := LowerAll(program[..n], early), LowerAll(program, early);
    var l := LowerExpr(e, p.cells[x := p.iv], p.iv + 1, early);
    var now := ExecAll(w, u, Locals(map[], s.trace), program[..n]);
    Surroundings(u, program, n, early);
    BeforeStmt(w, u, s, program, n, early);
    ValueAt(w, u, k, m, s, p, now, e, l, q.ops, early);
  }

  lemma ValueAt(w: World, u: Unit, k: Layout, m: Mach, s: State, p: Unfinished, now: Locals, e: Expr, l: Lowered,
                q: seq<Tac>, early: bool)
    requires SoundLayout(k) && ChunkOk(u, k, q) && FixesL(w, u) && FixesConstants(w, u)
    requires Holds(u, k, m, s.env, 0) && m.trace == s.trace && Follows(w, u, s, p, now)
    requires Scoped(u, p.cells.Keys, e) && l == LowerExpr(e, p.cells, p.iv + 1, early) && l.iv <= NO_TARGET
    requires p.ops + l.ops + [Tac(LCopy, l.r, NO_ARG, p.iv)] <= q
    ensures var value, m' := Eval(w, u, now.env, now.trace, e), Exec(w, m, EmitAll(u, k.asg, k.lvar, p.ops + l.ops));
            m'.trace == value.trace && Located(u, k, m', l.r, value.v)
  {
    hide SoundLayout, ChunkOk, FixesL, FixesConstants, Exec, EmitAll, Run, Holds, Eval, LowerExpr, Scoped, Gives;
    hide Follows, Located, Matches, CarriedEnv;
    RightSide(w, u, s, p, now, e, p.iv + 1, early);
    CompiledAt(w, u, k, m, s, q, p.ops + l.ops, l.r, p.iv, Eval(w, u, now.env, now.trace, e).v, l.iv);
  }

  /** Operations that give r the value v, in front of a copy of r, compiled. */
  lemma CompiledAt(w: World, u: Unit, k: Layout, m: Mach, s: State, q: seq<Tac>, ops: seq<Tac>, r: int, n: nat, v: nat,
                   iv: nat)
    requires SoundLayout(k) && FixesL(w, u) && ChunkOk(u, k, q) && Holds(u, k, m, s.env, 0) && m.trace == s.trace
    requires ops + [Tac(LCopy, r, NO_ARG, n)] <= q && Gives(u, Run(w, u, s, ops), r, v, iv)
    ensures var m' := Exec(w, m, EmitAll(u, k.asg, k.lvar, ops));
            m'.trace == Run(w, u, s, ops).trace && Located(u, k, m', r, v)
  {
    assert Sized(k);
    hide SoundLayout, ChunkOk, FixesL, Exec, EmitAll, Run, Holds, Gives, Agree, Located, Sized;
    CopiedIn(ops, Tac(LCopy, r, NO_ARG, n), q);
    ChunkPrefix(u, k, q, |ops|);
    CompiledCodeSimulates(w, u, k, m, s, ops);
    AgreeTrace(w, u, k, m, s, ops);
    OperandLocated(w, u, k, m, s, q, ops, r, n, v, iv);
  }

  lemma CopiedIn(ops: seq<Tac>, t: Tac, q: seq<Tac>)
    requires ops + [t] <= q
    ensures |ops| < |q| && q[..|ops|] == ops && q[|ops|] == t
  {
    assert q[|ops|] == (ops + [t])[|ops|];
  }

  lemma OperandLocated(w: World, u: Unit, k: Layout, m: Mach, s: State, q: seq<Tac>, ops: seq<Tac>, r: int, n: nat,
                       v: nat, iv: nat)
    requires SoundLayout(k) && FixesL(w, u) && ChunkOk(u, k, q) && Holds(u, k, m, s.env, 0) && m.trace == s.trace
    requires ops + [Tac(LCopy, r, NO_ARG, n)] <= q && Gives(u, Run(w, u, s, ops), r, v, iv)
    ensures Located(u, k, Exec(w, m, EmitAll(u, k.asg, k.lvar, ops)), r, v)
  {
    hide SoundLayout, ChunkOk, FixesL, Exec, EmitAll, Run, Holds, Gives;
    GivesIs(u, Run(w, u, s, ops), r, v, iv);
    if r >= 0 { OperandLive(w, u, k, m, s, q, ops, r, n); }
  }

  lemma AgreeTrace(w: World, u: Unit, k: Layout, m: Mach, s: State, ops: seq<Tac>)
    requires Sized(k) && Agree(w, u, k, m, s, ops)
    ensures Exec(w, m, EmitAll(u, k.asg, k.lvar, ops)).trace == Run(w, u, s, ops).trace
  {
  }

  lemma GivesIs(u: Unit, s: State, r: int, v: nat, iv: nat)
    requires Gives(u, s, r, v, iv)
    ensures if r < 0 then -r - 1 < |u.ctts| && u.ctts[-r - 1] == v else r in s.env && s.env[r] == v
  {
  }

  /** What holds in front of statement n. */
  lemma BeforeStmt(w: World, u: Unit, s: State, program: seq<Stmt>, n: nat, early: bool)
    requires InScope(u, program) && Fresh(program) && n < |program| && LowerAll(program, early).iv <= NO_TARGET
    requires program[n].Define? || program[n].Assign?
    requires FixesConstants(w, u)
    ensures var p, st := LowerAll(program[..n], early), program[n];
            var l := LowerExpr(st.e, p.cells, p.iv + 1, early);
            && Scoped(u, p.cells.Keys, st.e) && LowerExpr(st.e, p.cells[st.x := p.iv], p.iv + 1, early) == l
            && l.r != p.iv && l.iv <= NO_TARGET
            && Follows(w, u, s, p, ExecAll(w, u, Locals(map[], s.trace), program[..n]))
  {
    hide FixesConstants, Run, Formed, Fed, LowerExpr, Scoped, Between, StmtScoped, Follows, ExecAll, LowerAll;
    Surroundings(u, program, n, early);
    FreshPrefix(program, n);
    LaterBetween(u, program, n, early);
    ProgramRuns(w, u, s, program[..n], early);
    ProgramInOrder(u, program[..n], early);
    assert FreshAt(program[n]);
    SideOf(u, LowerAll(program[..n], early), program[n], early);
  }

  /** The copy behind the right side reads its operand. */
  lemma OperandLive(w: World, u: Unit, k: Layout, m: Mach, s: State, q: seq<Tac>, ops: seq<Tac>, r: nat, n: nat)
    requires SoundLayout(k) && FixesL(w, u) && ChunkOk(u, k, q) && Holds(u, k, m, s.env, 0) && m.trace == s.trace
    requires ops + [Tac(LCopy, r, NO_ARG, n)] <= q
    ensures r < |k.asg|
    ensures var env := Run(w, u, s, ops).env;
            r in env && Reading(Exec(w, m, EmitAll(u, k.asg, k.lvar, ops)), k.asg[r]) == env[r]
  {
    var i := |ops|;
    assert q[i] == (ops + [Tac(LCopy, r, NO_ARG, n)])[i] && q[..i] == ops;
    assert OpOk(u, k, q[i], i);
    hide SoundLayout, ChunkOk, FixesL, Exec, EmitAll, Run, Holds;
    OperandsRead(w, u, k, m, s, q, i, r);
  }

  lemma SideOf(u: Unit, p: Unfinished, s: Stmt, early: bool)
    requires StmtScoped(u, p.cells.Keys, s) && FreshAt(s) && (s.Define? || s.Assign?)
    requires forall y | y in p.cells :: p.cells[y] < p.iv
    ensures Scoped(u, p.cells.Keys, s.e)
    ensures var l := LowerExpr(s.e, p.cells, p.iv + 1, early);
            LowerExpr(s.e, p.cells[s.x := p.iv], p.iv + 1, early) == l && l.r != p.iv
  {
    assert s.Assign? ==> p.cells.Keys + {} == p.cells.Keys + {s.x};
    RightSideFresh(u, p, s.e, s.x, early);
  }
}
