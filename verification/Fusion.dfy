/** Compare-and-branch fusion of ir_opt in ir.c, and why it preserves every run. */
module Fusion {
  import opened Ir

  // --- runs of three-address code -----------------------------------------------------------

  /** What every operation other than comparisons and jumps was asked to do, in order. */
  datatype Event = Event(op: Op, a: int, b: int, table: int)

  datatype State = State(pc: nat, env: map<int, int>, trace: seq<Event>)

  /** Constants by operand, and the result of an operation given everything that happened. */
  datatype World = World(constant: int -> int, result: seq<Event> -> int)

  function Value(w: World, env: map<int, int>, x: int): int
  {
    if x < 0 then w.constant(x) else if x in env then env[x] else 0
  }

  /** The b field of a call is its argument count. */
  function SecondValue(w: World, env: map<int, int>, t: Tac): int
  {
    if t.op == Call then t.b else Value(w, env, t.b)
  }

  /** The target field of a table store is the table, which it reads; other targets are written. */
  function TableValue(w: World, env: map<int, int>, t: Tac): int
  {
    if t.op == TStore then Value(w, env, t.target) else 0
  }

  function ResultOf(t: Tac): int
  {
    if t.op == TStore then NO_TARGET else t.target
  }

  /** Operation t reads variable v. */
  predicate ReadsVar(t: Tac, v: int)
  {
    Uses(t, v) || (t.op == TStore && v >= 0 && t.target == v)
  }

  function Write(env: map<int, int>, target: int, v: int): map<int, int>
  {
    if target == NO_TARGET then env else env[target := v]
  }

  function Compare(op: Op, a: int, b: int): int
  {
    if (a == b) == (op == Eq) then 1 else 0
  }

  predicate Taken(w: World, env: map<int, int>, t: Tac)
  {
    match t.op
    case Jmp => true
    case Jz => Value(w, env, t.a) == 0
    case Jnz => Value(w, env, t.a) != 0
    case Je => Value(w, env, t.a) == Value(w, env, t.b)
    case _ => Value(w, env, t.a) != Value(w, env, t.b)
  }

  /** One step; a state past the end stays there. */
  function Step(w: World, ops: seq<Tac>, s: State): State
  {
    if s.pc >= |ops| then s else
    var t := ops[s.pc];
    if !Counts(t) then s.(pc := s.pc + 1)
    else if IsJmp(t.op) then s.(pc := if Taken(w, s.env, t) && t.target >= 0 then t.target else s.pc + 1)
    else if t.op == Eq || t.op == Ne then
      s.(pc := s.pc + 1, env := Write(s.env, t.target, Compare(t.op, Value(w, s.env, t.a), Value(w, s.env, t.b))))
    else
      var tr := s.trace + [Event(t.op, Value(w, s.env, t.a), SecondValue(w, s.env, t), TableValue(w, s.env, t))];
      State(s.pc + 1, Write(s.env, ResultOf(t), w.result(tr)), tr)
  }

  function Run(w: World, ops: seq<Tac>, s: State, n: nat): State
  {
    if n == 0 then s else Step(w, ops, Run(w, ops, s, n - 1))
  }

  /** What counts as a definition is what a step writes: no jump, no mark, and not the table of a store. */
  lemma StepDefines(w: World, ops: seq<Tac>, s: State, v: int)
    requires s.pc < |ops|
    ensures v in Step(w, ops, s).env <==> v in s.env || (Defines(ops[s.pc], v) && ops[s.pc].op != TStore)
    ensures !Defines(ops[s.pc], v) ==> Value(w, Step(w, ops, s).env, v) == Value(w, s.env, v)
  {
    hide Taken;
  }

  /** What counts as a use, with the table of a store, is all that a step reads. */
  lemma StepReads(w: World, ops: seq<Tac>, s: State, r: State)
    requires s.pc == r.pc < |ops| && s.trace == r.trace
    requires forall v | ReadsVar(ops[s.pc], v) :: Value(w, s.env, v) == Value(w, r.env, v)
    ensures var s', r' := Step(w, ops, s), Step(w, ops, r);
            s'.pc == r'.pc && s'.trace == r'.trace &&
            forall v | Defines(ops[s.pc], v) && ops[s.pc].op != TStore :: Value(w, s'.env, v) == Value(w, r'.env, v)
  {
    var t := ops[s.pc];
    if Counts(t) {
      assert t.op == TStore && t.target >= 0 ==> ReadsVar(t, t.target);
      Constants(w, ops, s.env, r.env, t.a);
      Constants(w, ops, s.env, r.env, t.b);
      Constants(w, ops, s.env, r.env, t.target);
      ReadsOperands(t);
      SameReads(w, ops, s, r);
    }
  }

  lemma ReadsOperands(t: Tac)
    requires Counts(t)
    ensures (t.a >= 0 ==> ReadsVar(t, t.a)) && (t.b >= 0 && t.op != Call ==> ReadsVar(t, t.b))
  {
  }

  lemma SameReads(w: World, ops: seq<Tac>, s: State, r: State)
    requires s.pc == r.pc < |ops| && s.trace == r.trace && Counts(ops[s.pc])
    requires var t := ops[s.pc];
             && Value(w, s.env, t.a) == Value(w, r.env, t.a)
             && (t.op != Call ==> Value(w, s.env, t.b) == Value(w, r.env, t.b))
             && TableValue(w, s.env, t) == TableValue(w, r.env, t)
    ensures var s', r' := Step(w, ops, s), Step(w, ops, r);
            s'.pc == r'.pc && s'.trace == r'.trace &&
            forall v | Defines(ops[s.pc], v) && ops[s.pc].op != TStore :: Value(w, s'.env, v) == Value(w, r'.env, v)
  {
    hide TableValue;
  }

  // --- the rewriting ------------------------------------------------------------------------

  /** Positions i-1 and i are a comparison and a branch on its result. */
  predicate FusedAt(ops: seq<Tac>, i: int)
  {
    && 1 <= i < |ops| && (ops[i - 1].op == Eq || ops[i - 1].op == Ne) && (ops[i].op == Jz || ops[i].op == Jnz)
    && ops[i].a == ops[i - 1].target
  }

  function Branch(cmp: Tac, jmp: Tac): Tac
  {
    Tac(if (cmp.op == Ne) == (jmp.op == Jz) then Je else Jne, cmp.a, cmp.b, jmp.target)
  }

  /** Every pair rewritten at once. */
  function Fused(ops: seq<Tac>): (r: seq<Tac>)
    ensures |r| == |ops|
  {
    seq(|ops|, i requires 0 <= i < |ops| => FusedOp(ops, i))
  }

  function FusedOp(ops: seq<Tac>, i: nat): Tac
    requires i < |ops|
  {
    if FusedAt(ops, i) then Branch(ops[i - 1], ops[i])
    else if FusedAt(ops, i + 1) then ops[i].(op := Noop)
    else ops[i]
  }

  predicate Fuses(cmp: Tac, jmp: Tac)
  {
    (cmp.op == Eq || cmp.op == Ne) && (jmp.op == Jz || jmp.op == Jnz) && jmp.a == cmp.target
  }

  /** The loop has come to position i: pairs before it are rewritten, but position i - 1 may still be the
      comparison of one. */
  ghost predicate FusedUpTo(was: seq<Tac>, now: seq<Tac>, i: nat)
  {
    && |now| == |was| && i >= 1
    && (forall k | i <= k < |was| :: now[k] == was[k])
    && (forall k | 0 <= k < i - 1 && k < |was| :: now[k] == FusedOp(was, k))
    && (i <= |was| ==> now[i - 1] == if FusedAt(was, i - 1) then Branch(was[i - 2], was[i - 1]) else was[i - 1])
  }

  /** One round: positions i - 1 and i as they are now tell whether they were a pair. */
  lemma FuseNext(was: seq<Tac>, now: seq<Tac>, i: nat)
    requires FusedUpTo(was, now, i) && i < |was|
    ensures var o0, o1 := now[i - 1], now[i];
            var r := if Fuses(o0, o1) then now[i := Branch(o0, o1)][i - 1 := o0.(op := Noop)] else now;
            FusedUpTo(was, r, i + 1)
  {
    assert Fuses(now[i - 1], now[i]) <==> FusedAt(was, i);
  }

  /** The peephole loop, one position after the other in place, rewrites every pair. */
  method Fuse(ops: array<Tac>)
    modifies ops
    ensures ops[..] == Fused(old(ops[..]))
  {
    hide FusedUpTo, FusedAt, FusedOp;
    ghost var was := ops[..];
    var i := 1;
    FuseStarts(was);
    while i < ops.Length
      invariant i >= 1 && FusedUpTo(was, ops[..], i)
    {
      ghost var now := ops[..];
      FuseNext(was, now, i);
      var o0, o1 := ops[i - 1], ops[i];
      if o0.op == Ne && o1.op == Jz && o1.a == o0.target {
        ops[i] := Tac(Je, o0.a, o0.b, o1.target);
        ops[i - 1] := o0.(op := Noop);
      } else if o0.op == Ne && o1.op == Jnz && o1.a == o0.target {
        ops[i] := Tac(Jne, o0.a, o0.b, o1.target);
        ops[i - 1] := o0.(op := Noop);
      } else if o0.op == Eq && o1.op == Jz && o1.a == o0.target {
        ops[i] := Tac(Jne, o0.a, o0.b, o1.target);
        ops[i - 1] := o0.(op := Noop);
      } else if o0.op == Eq && o1.op == Jnz && o1.a == o0.target {
        ops[i] := Tac(Je, o0.a, o0.b, o1.target);
        ops[i - 1] := o0.(op := Noop);
      }
      assert ops[..] == if Fuses(o0, o1) then now[i := Branch(o0, o1)][i - 1 := o0.(op := Noop)] else now;
      i := i + 1;
    }
    FuseEnds(was, ops[..], i);
  }

  lemma FuseStarts(was: seq<Tac>)
    ensures FusedUpTo(was, was, 1)
  {
  }

  lemma FuseEnds(was: seq<Tac>, now: seq<Tac>, i: nat)
    requires FusedUpTo(was, now, i) && i >= |was|
    ensures now == Fused(was)
  {
  }

  // --- preservation -------------------------------------------------------------------------

  /** Variable v is the result of a fused comparison. */
  ghost predicate Gone(ops: seq<Tac>, v: int)
  {
    exists i :: FusedAt(ops, i) && ops[i - 1].target == v
  }

  /** A fused result is a variable read by its branch alone, and no jump enters between the
      comparison and the branch. */
  ghost predicate FusableAt(ops: seq<Tac>, i: int)
  {
    FusedAt(ops, i) ==>
      && 0 <= ops[i - 1].target != NO_TARGET
      && (forall k | 0 <= k < |ops| && ReadsVar(ops[k], ops[i - 1].target) :: k == i)
      && (forall k | 0 <= k < |ops| && IsJmp(ops[k].op) :: ops[k].target != i)
  }

  ghost predicate Fusable(ops: seq<Tac>)
  {
    forall i | 0 <= i < |ops| :: FusableAt(ops, i)
  }

  ghost predicate Agree(w: World, ops: seq<Tac>, senv: map<int, int>, renv: map<int, int>)
  {
    forall v | !Gone(ops, v) :: Value(w, senv, v) == Value(w, renv, v)
  }

  /** On reaching the branch of a fused pair, the original has the comparison's outcome in the
      result variable. */
  ghost predicate Pending(w: World, ops: seq<Tac>, pc: nat, senv: map<int, int>, renv: map<int, int>)
  {
    FusedAt(ops, pc) ==>
      var c := ops[pc - 1];
      Value(w, senv, c.target) == Compare(c.op, Value(w, renv, c.a), Value(w, renv, c.b))
  }

  /** Same position, same events, same values except for fused results. */
  ghost predicate Related(w: World, ops: seq<Tac>, s: State, r: State)
  {
    s.pc == r.pc && s.trace == r.trace && Agree(w, ops, s.env, r.env) && Pending(w, ops, s.pc, s.env, r.env)
  }

  /** What an operation other than a fused branch reads is no fused result. */
  lemma OperandsKept(w: World, ops: seq<Tac>, senv: map<int, int>, renv: map<int, int>, k: nat)
    requires Fusable(ops) && Agree(w, ops, senv, renv) && k < |ops| && Counts(ops[k]) && !FusedAt(ops, k)
    ensures Value(w, senv, ops[k].a) == Value(w, renv, ops[k].a)
    ensures SecondValue(w, senv, ops[k]) == SecondValue(w, renv, ops[k])
    ensures TableValue(w, senv, ops[k]) == TableValue(w, renv, ops[k])
    ensures ops[k].op != Call ==> Value(w, senv, ops[k].b) == Value(w, renv, ops[k].b)
  {
    forall v | ReadsVar(ops[k], v)
      ensures Value(w, senv, v) == Value(w, renv, v)
    {
      forall i | FusedAt(ops, i)
        ensures ops[i - 1].target != v
      {
        assert FusableAt(ops, i);
      }
      assert !Gone(ops, v);
    }
    Constants(w, ops, senv, renv, ops[k].a);
    Constants(w, ops, senv, renv, ops[k].b);
    Constants(w, ops, senv, renv, ops[k].target);
    assert ops[k].op == TStore && ops[k].target >= 0 ==> ReadsVar(ops[k], ops[k].target);
  }

  lemma Constants(w: World, ops: seq<Tac>, senv: map<int, int>, renv: map<int, int>, x: int)
    ensures x < 0 ==> Value(w, senv, x) == Value(w, renv, x)
  {
  }

  lemma NotEntered(ops: seq<Tac>, k: nat)
    requires Fusable(ops) && k < |ops| && IsJmp(ops[k].op)
    ensures !FusedAt(ops, ops[k].target) && !FusedAt(ops, k + 1)
  {
    var i := ops[k].target;
    if 0 <= i < |ops| {
      assert FusableAt(ops, i);
    }
  }

  /** The fused branch is taken exactly when the original one is. */
  lemma SameOutcome(w: World, senv: map<int, int>, renv: map<int, int>, cmp: Tac, jmp: Tac)
    requires (cmp.op == Eq || cmp.op == Ne) && (jmp.op == Jz || jmp.op == Jnz) && jmp.a == cmp.target
    requires Value(w, senv, cmp.target) == Compare(cmp.op, Value(w, renv, cmp.a), Value(w, renv, cmp.b))
    ensures Taken(w, senv, jmp) <==> Taken(w, renv, Branch(cmp, jmp))
  {
  }

  lemma BranchStep(w: World, ops: seq<Tac>, s: State, r: State)
    requires Fusable(ops) && Related(w, ops, s, r) && FusedAt(ops, s.pc)
    ensures Related(w, ops, Step(w, ops, s), Step(w, Fused(ops), r))
  {
    hide Agree, Fusable, Taken;
    var k := s.pc;
    SameOutcome(w, s.env, r.env, ops[k - 1], ops[k]);
    NotEntered(ops, k);
  }

  /** Writing one variable on both sides, or a fused result on the left alone, keeps agreement. */
  lemma WriteAgrees(w: World, ops: seq<Tac>, senv: map<int, int>, renv: map<int, int>, x: int, v: int)
    requires Agree(w, ops, senv, renv)
    ensures Agree(w, ops, Write(senv, x, v), Write(renv, x, v))
    ensures Gone(ops, x) ==> Agree(w, ops, Write(senv, x, v), renv)
  {
    hide Gone;
  }

  function Outcome(w: World, env: map<int, int>, t: Tac): int
  {
    Compare(t.op, Value(w, env, t.a), Value(w, env, t.b))
  }

  lemma ComparisonRuns(w: World, ops: seq<Tac>, s: State)
    requires FusedAt(ops, s.pc + 1)
    ensures var t := ops[s.pc];
            Step(w, ops, s) == State(s.pc + 1, Write(s.env, t.target, Outcome(w, s.env, t)), s.trace)
  {
    hide Write, Value;
    var t := ops[s.pc];
    assert t.op == Eq || t.op == Ne;
    hide FusedAt;
  }

  lemma NoopRuns(w: World, ops: seq<Tac>, r: State)
    requires FusedAt(ops, r.pc + 1)
    ensures Step(w, Fused(ops), r) == r.(pc := r.pc + 1)
  {
    hide Write, Value, Taken;
    assert !FusedAt(ops, r.pc);
    assert Fused(ops)[r.pc].op == Noop;
    hide FusedAt, Fused, FusedOp;
  }

  /** A fused comparison has become a no-op; the branch after it will find the outcome. */
  lemma ComparisonStep(w: World, ops: seq<Tac>, s: State, r: State)
    requires Fusable(ops) && Related(w, ops, s, r) && FusedAt(ops, s.pc + 1)
    ensures Related(w, ops, Step(w, ops, s), Step(w, Fused(ops), r))
  {
    var k := s.pc;
    var t := ops[k];
    assert FusableAt(ops, k + 1) && !FusedAt(ops, k) && Gone(ops, t.target);
    hide Step, Fused, FusedOp, Agree, Fusable, FusableAt, Gone;
    OperandsKept(w, ops, s.env, r.env, k);
    ComparisonRuns(w, ops, s);
    NoopRuns(w, ops, r);
    WriteAgrees(w, ops, s.env, r.env, t.target, Outcome(w, s.env, t));
  }

  lemma JumpStep(w: World, ops: seq<Tac>, s: State, r: State)
    requires Fusable(ops) && Related(w, ops, s, r) && s.pc < |ops| && IsJmp(ops[s.pc].op) && !FusedAt(ops, s.pc)
    ensures Related(w, ops, Step(w, ops, s), Step(w, Fused(ops), r))
  {
    hide Agree, Fusable;
    NotEntered(ops, s.pc);
    OperandsKept(w, ops, s.env, r.env, s.pc);
    assert Fused(ops)[s.pc] == ops[s.pc];
    hide FusedAt, Value, FusedOp, Fused;
  }

  lemma PlainStep(w: World, ops: seq<Tac>, s: State, r: State)
    requires Fusable(ops) && Related(w, ops, s, r) && s.pc < |ops| && !IsJmp(ops[s.pc].op) && !FusedAt(ops, s.pc + 1)
    ensures Related(w, ops, Step(w, ops, s), Step(w, Fused(ops), r))
  {
    hide Agree, Fusable, Taken;
    var t := ops[s.pc];
    assert Fused(ops)[s.pc] == t;
    if Counts(t) {
      OperandsKept(w, ops, s.env, r.env, s.pc);
      var s' := Step(w, ops, s);
      var v := if t.op == Eq || t.op == Ne then Compare(t.op, Value(w, s.env, t.a), Value(w, s.env, t.b))
          else w.result(s'.trace);
      WriteAgrees(w, ops, s.env, r.env, if t.op == Eq || t.op == Ne then t.target else ResultOf(t), v);
    }
    hide FusedAt, Value, Write, FusedOp, Fused;
  }

  lemma StepRelated(w: World, ops: seq<Tac>, s: State, r: State)
    requires Fusable(ops) && Related(w, ops, s, r)
    ensures Related(w, ops, Step(w, ops, s), Step(w, Fused(ops), r))
  {
    hide Agree, Fusable, Pending;
    if s.pc < |ops| {
      if FusedAt(ops, s.pc) { BranchStep(w, ops, s, r); }
      else if FusedAt(ops, s.pc + 1) { ComparisonStep(w, ops, s, r); }
      else if IsJmp(ops[s.pc].op) { JumpStep(w, ops, s, r); }
      else { PlainStep(w, ops, s, r); }
    }
  }

  /** Fusion preserves every run from a position that is not the branch of a fused pair: step for
      step the same position, the same events, and the same value of every variable that is not a
      fused result. */
  lemma {:induction false} FusionPreservesRuns(w: World, ops: seq<Tac>, s: State, n: nat)
    requires Fusable(ops) && !FusedAt(ops, s.pc)
    ensures Related(w, ops, Run(w, ops, s, n), Run(w, Fused(ops), s, n))
  {
    if n > 0 {
      FusionPreservesRuns(w, ops, s, n - 1);
      StepRelated(w, ops, Run(w, ops, s, n - 1), Run(w, Fused(ops), s, n - 1));
    }
  }

  /** What a comparison says of two words. */
  predicate Says(op: Op, a: int, b: int)
  {
    if op == Eq then a == b else a != b
  }

  /** A comparison and the branch on its result, as parse_if emits them: the branch of JZ falls through, and that of
      JNZ jumps, exactly when what the comparison says is true; before fusion and after it. */
  lemma ConditionMeans(w: World, ops: seq<Tac>, s: State)
    requires Fusable(ops) && FusedAt(ops, s.pc + 1) && ops[s.pc + 1].target >= 0
    ensures var cmp, jmp := ops[s.pc], ops[s.pc + 1];
            var holds := Says(cmp.op, Value(w, s.env, cmp.a), Value(w, s.env, cmp.b));
            var next := if (jmp.op == Jz) == holds then s.pc + 2 else jmp.target;
            Run(w, ops, s, 2).pc == next && Run(w, Fused(ops), s, 2).pc == next
  {
    var k := s.pc;
    assert FusableAt(ops, k + 1) && !FusedAt(ops, k);
    FusionPreservesRuns(w, ops, s, 2);
    ComparisonRuns(w, ops, s);
    hide Fusable, FusableAt, Fused, FusedOp;
    assert Run(w, ops, s, 0) == s && Run(w, ops, s, 1) == Step(w, ops, s);
    assert Run(w, ops, s, 2) == Step(w, ops, Step(w, ops, s));
    BranchRuns(w, ops, Step(w, ops, s), ops[k], Says(ops[k].op, Value(w, s.env, ops[k].a), Value(w, s.env, ops[k].b)));
  }

  lemma BranchRuns(w: World, ops: seq<Tac>, s: State, cmp: Tac, holds: bool)
    requires s.pc < |ops| && (ops[s.pc].op == Jz || ops[s.pc].op == Jnz) && ops[s.pc].target >= 0
    requires cmp.target >= 0 && ops[s.pc].a == cmp.target && Value(w, s.env, cmp.target) == if holds then 1 else 0
    ensures Step(w, ops, s).pc == if (ops[s.pc].op == Jz) == holds then s.pc + 1 else ops[s.pc].target
  {
    hide Value;
  }
}
