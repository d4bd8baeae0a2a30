/** Straight-line chunks through the whole back end: liveness, allocation, code generation. */
module Backend {
  import opened Ir
  import opened Liveness
  import opened Allocate
  import opened Codegen
  import opened Registers
  import opened Frames

  /** The parameters of a function whose header is at position begin: those of the operations in front of it. */
  function Params(ops: seq<Tac>, begin: nat): (r: seq<int>)
    ensures |r| > 0 ==> |r| <= begin < |ops| && ops[begin].op == FunctionBegin && |r| == ops[begin].b
    ensures |r| > 0 ==> forall k | 0 <= k < |r| :: r[k] == ops[begin - |r| + k].a
  {
    if begin < |ops| && ops[begin].op == FunctionBegin && 0 < ops[begin].b <= begin then
      seq(ops[begin].b, k requires 0 <= k < ops[begin].b => ops[begin - ops[begin].b + k].a)
    else []
  }

  /** The chunk's operations begin with the declarations of its parameters, each of another variable, which nothing
      writes. */
  ghost predicate Declares(ops: seq<Tac>, begin: nat, iv: nat)
  {
    var params := Params(ops, begin);
    && begin == |params| && (begin < |ops| && ops[begin].op == FunctionBegin ==> ops[begin].b == begin)
    && (forall i | 0 <= i < |ops| :: ops[i].op == Param <==> i < begin)
    && (forall k | 0 <= k < |params| :: 0 <= params[k] < iv && !Defined(ops, params[k]))
    && (forall k, l | 0 <= k < l < |params| :: params[k] != params[l])
  }

  /** A straight-line chunk, the main one or a function: plain operations, each variable below iv a parameter or
      written by exactly one of them, and before it is read; the arguments of a call are set up right in front of
      it. (A table constructor is emitted with operand fields 0 it never reads; the b of a call is a count.) */
  ghost predicate StraightLine(ops: seq<Tac>, begin: nat, iv: nat, u: Unit)
  {
    && iv <= NO_TARGET && |ops| < OP_MAX && Declares(ops, begin, iv)
    && (forall i | 0 <= i < |ops| :: Plain(ops[i].op))
    && (forall i | 0 <= i < |ops| ::
          if Silent(ops[i].op) then Counts(ops[i]) ==> ops[i].target == NO_TARGET else 0 <= ops[i].target < iv)
    && (forall i, j | 0 <= i < j < |ops| && !Silent(ops[i].op) && !Silent(ops[j].op) :: ops[i].target != ops[j].target)
    && (forall i | 0 <= i < |ops| && Reads(ops[i].op) > 0 && ops[i].a < 0 :: -ops[i].a - 1 < |u.ctts|)
    && (forall i | 0 <= i < |ops| && Reads(ops[i].op) > 1 && ops[i].b < 0 :: -ops[i].b - 1 < |u.ctts|)
    && (forall i | 0 <= i < |ops| :: CallOk(ops, i))
    && (forall i, v | 0 <= i < |ops| && Uses(ops[i], v) ::
          v in Params(ops, begin) || WrittenBy(ops, if ops[i].op == NewTbl then i + 1 else i, v))
    && (forall v | 0 <= v < iv :: v in Params(ops, begin) || Defined(ops, v))
  }

  ghost predicate WrittenBy(ops: seq<Tac>, i: nat, v: int)
  {
    exists j :: 0 <= j < i && j < |ops| && Defines(ops[j], v)
  }

  lemma {:induction false} FlatDepth(ops: seq<Tac>, i: nat)
    requires i < |ops| && forall j | 0 <= j < |ops| :: Plain(ops[j].op)
    ensures Depth(ops, i) == 0
  {
    if i > 0 { FlatDepth(ops, i - 1); }
  }

  /** An operation reads parameters and what has been written before it, and writes variables below iv. */
  lemma OneOp(ops: seq<Tac>, begin: nat, iv: nat, u: Unit, i: nat)
    requires StraightLine(ops, begin, iv, u) && i < |ops|
    ensures Plain(ops[i].op) && forall v | Defines(ops[i], v) :: 0 <= v < iv
    ensures forall v | Uses(ops[i], v) ::
              v in Params(ops, begin) || WrittenBy(ops, if ops[i].op == NewTbl then i + 1 else i, v)
  {
    hide Params, Declares, CallOk;
  }

  lemma OneParam(ops: seq<Tac>, begin: nat, iv: nat, u: Unit, v: int)
    requires StraightLine(ops, begin, iv, u) && v in Params(ops, begin)
    ensures 0 <= v < iv && !Defined(ops, v) && exists i :: 0 <= i < |ops| && Uses(ops[i], v)
  {
    assert Declares(ops, begin, iv);
    hide StraightLine;
    DeclaredParam(ops, begin, iv, v);
  }

  lemma DeclaredParam(ops: seq<Tac>, begin: nat, iv: nat, v: int)
    requires Declares(ops, begin, iv) && v in Params(ops, begin)
    ensures 0 <= v < iv && !Defined(ops, v) && exists i :: 0 <= i < |ops| && Uses(ops[i], v)
  {
    hide Params, Defined;
    var params := Params(ops, begin);
    var k :| 0 <= k < |params| && params[k] == v;
    assert ops[k].op == Param && ops[k].a == v && 0 <= v < iv && !Defined(ops, v);
    hide Declares;
    assert Uses(ops[k], v);
  }

  /** What code generation needs of an operation, ranges aside. */
  lemma OpShape(ops: seq<Tac>, begin: nat, iv: nat, u: Unit, i: nat)
    requires StraightLine(ops, begin, iv, u) && i < |ops|
    ensures var t := ops[i];
            && Plain(t.op) && CallOk(ops, i) && iv <= NO_TARGET
            && (if Silent(t.op) then Idle(t.op) || t.target == NO_TARGET else 0 <= t.target < iv)
            && (t.op == Param ==> t.target == NO_TARGET)
            && (Reads(t.op) > 0 && t.a < 0 ==> -t.a - 1 < |u.ctts|)
            && (Reads(t.op) > 1 && t.b < 0 ==> -t.b - 1 < |u.ctts|)
  {
    hide Params, Declares, CallOk, WrittenBy, Defined, Uses;
  }

  /** A plain operation writes its target, unless it is silent. */
  lemma Writes(t: Tac, iv: nat)
    requires Plain(t.op) && iv <= NO_TARGET
    requires if Silent(t.op) then Idle(t.op) || t.target == NO_TARGET else 0 <= t.target < iv
    requires t.op == Param ==> t.target == NO_TARGET
    ensures forall v :: Defines(t, v) <==> !Silent(t.op) && v == t.target
  {
  }

  lemma TargetIs(ops: seq<Tac>, begin: nat, iv: nat, u: Unit, i: nat)
    requires StraightLine(ops, begin, iv, u) && i < |ops|
    ensures !Silent(ops[i].op) ==>
              0 <= ops[i].target < iv && Defines(ops[i], ops[i].target) && ops[i].target !in Params(ops, begin)
    ensures forall v :: Defines(ops[i], v) <==> !Silent(ops[i].op) && v == ops[i].target
  {
    OpShape(ops, begin, iv, u, i);
    hide StraightLine, Params, WrittenBy, Uses, Plain, Silent, Defines, CallOk;
    Writes(ops[i], iv);
    if ops[i].target in Params(ops, begin) { OneParam(ops, begin, iv, u, ops[i].target); }
  }

  lemma Flat(ops: seq<Tac>, begin: nat, iv: nat, u: Unit)
    requires StraightLine(ops, begin, iv, u)
    ensures |ops| < OP_MAX && Balanced(ops) && VarsBelow(ops, iv)
    ensures forall i | 0 <= i < |ops| :: Depth(ops, i) == 0
  {
    assert |ops| < OP_MAX;
    hide StraightLine, Params, Defines, Uses, Plain;
    forall i | 0 <= i < |ops|
      ensures Plain(ops[i].op)
    {
      OneOp(ops, begin, iv, u, i);
    }
    forall i | 0 <= i < |ops|
      ensures Depth(ops, i) == 0
    {
      FlatDepth(ops, i);
    }
    forall i, v | 0 <= i < |ops| && (Defines(ops[i], v) || Uses(ops[i], v))
      ensures 0 <= v < iv
    {
      VarBelow(ops, begin, iv, u, i, v);
    }
  }

  lemma VarBelow(ops: seq<Tac>, begin: nat, iv: nat, u: Unit, i: nat, v: int)
    requires StraightLine(ops, begin, iv, u) && i < |ops| && (Defines(ops[i], v) || Uses(ops[i], v))
    ensures 0 <= v < iv
  {
    hide StraightLine, Params, Defines, Uses;
    OneOp(ops, begin, iv, u, i);
    if Uses(ops[i], v) {
      if v in Params(ops, begin) {
        OneParam(ops, begin, iv, u, v);
      } else {
        var j :| 0 <= j < |ops| && Defines(ops[j], v);
        OneOp(ops, begin, iv, u, j);
      }
    }
  }

  /** In straight-line code a range runs from the one definition to the last use. */
  lemma FlatRange(ops: seq<Tac>, begin: nat, iv: nat, u: Unit, v: nat, ini: int, end: int)
    requires StraightLine(ops, begin, iv, u) && v < iv && v !in Params(ops, begin) && LiveRange(ops, v, ini, end)
    ensures 0 <= ini < |ops| && Defines(ops[ini], v)
    ensures forall i | 0 <= i < |ops| :: Defines(ops[i], v) <==> i == ini
    ensures forall i | 0 <= i < |ops| && Uses(ops[i], v) :: ini <= i <= end && (ops[i].op != NewTbl ==> ini < i)
    ensures end == UNUSED || ini <= end
  {
    Flat(ops, begin, iv, u);
    forall i | 0 <= i < |ops| && Uses(ops[i], v)
      ensures ini <= i && (ops[i].op != NewTbl ==> ini < i)
    {
      assert WrittenBy(ops, if ops[i].op == NewTbl then i + 1 else i, v);
    }
    assert Defined(ops, v) && ini >= 0;
    if !NeverUsed(ops, v) {
      var x :| LastUse(ops, v, x) && EndsAt(ops, StartDepth(ops, ini), x, end);
      assert Depth(ops, x) == 0 && Depth(ops, ini) == 0;
    }
  }

  /** The range of a parameter has no start, and ends with its last use, its declaration at the least. */
  lemma ParamRange(ops: seq<Tac>, begin: nat, iv: nat, u: Unit, v: nat, ini: int, end: int)
    requires StraightLine(ops, begin, iv, u) && v < iv && v in Params(ops, begin) && LiveRange(ops, v, ini, end)
    ensures ini == UNUSED && end >= 0 && forall i | 0 <= i < |ops| && Uses(ops[i], v) :: i <= end
  {
    hide StraightLine, Params, Defines, Uses, Depth;
    OneParam(ops, begin, iv, u, v);
    assert !NeverUsed(ops, v);
  }

  ghost predicate Listed(order: seq<Live>, v: int)
  {
    exists p :: 0 <= p < |order| && order[p].name == v
  }

  /** Variable v is defined at position i and nowhere else. */
  ghost predicate DefinedAt(ops: seq<Tac>, v: int, i: int)
  {
    0 <= i < |ops| && forall j | 0 <= j < |ops| :: Defines(ops[j], v) <==> j == i
  }

  /** l is the variable that is no parameter and starts there. */
  ghost predicate Sorts(ops: seq<Tac>, begin: nat, ini: seq<int>, l: Live)
  {
    l.name < |ini| && l.start == ini[l.name] && l.name !in Params(ops, begin)
  }

  /** Stand-in for the library sort of `ini`: the defined variables by position of definition. */
  method SortRanges(ops: seq<Tac>, begin: nat, iv: nat, u: Unit, ini: array<int>) returns (order: seq<Live>)
    requires StraightLine(ops, begin, iv, u) && ini.Length == iv
    requires forall v | 0 <= v < iv && v !in Params(ops, begin) :: DefinedAt(ops, v, ini[v])
    ensures forall p | 0 <= p < |order| :: Sorts(ops, begin, ini[..], order[p])
    ensures forall p, q | 0 <= p < q < |order| :: order[p].start < order[q].start
    ensures forall v | 0 <= v < iv && v !in Params(ops, begin) :: Listed(order, v)
  {
    hide StraightLine, Params, Defines;
    order := [];
    var i := 0;
    while i < |ops|
      invariant 0 <= i <= |ops|
      invariant forall p | 0 <= p < |order| :: Sorts(ops, begin, ini[..], order[p])
      invariant forall p | 0 <= p < |order| :: order[p].start < i
      invariant forall p, q | 0 <= p < q < |order| :: order[p].start < order[q].start
      invariant forall v | 0 <= v < iv && v !in Params(ops, begin) && ini[v] < i :: Listed(order, v)
    {
      TargetIs(ops, begin, iv, u, i);
      if !Silent(ops[i].op) {
        ghost var was := order;
        order := order + [Live(i, ops[i].target)];
        forall v | 0 <= v < iv && v !in Params(ops, begin) && ini[v] < i + 1
          ensures Listed(order, v)
        {
          if ini[v] < i {
            var p :| 0 <= p < |was| && was[p].name == v;
            assert order[p].name == v;
          } else {
            assert Defines(ops[i], v);
            assert order[|was|].name == v;
          }
        }
      }
      i := i + 1;
    }
  }

  lemma RegOf(j: nat)
    requires j < |ALLOCATABLE|
    ensures Saved(ALLOCATABLE[j]) && ALLOCATABLE[j] > 0
    ensures forall l | 0 <= l < |ALLOCATABLE| && l != j :: ALLOCATABLE[l] != ALLOCATABLE[j]
  {
  }

  /** A finished allocation of the listed variables, which start out unassigned. */
  ghost predicate Allocation(order: seq<Live>, end: seq<int>, zero: seq<int>, asg: seq<int>, at: seq<Loc>, used: nat,
                             spills: nat)
  {
    && |end| == |asg| == |zero| && Input(order, |asg|)
    && (forall p | 0 <= p < |order| :: zero[order[p].name] == 0)
    && Stored(order, ALLOCATABLE, zero, asg, at) && |at| == |order| && used <= |ALLOCATABLE|
    && Placed(Ranges(order, end, zero), at, used, spills)
  }

  lemma CodeAt(order: seq<Live>, end: seq<int>, zero: seq<int>, asg: seq<int>, at: seq<Loc>, used: nat, spills: nat,
               p: nat)
    requires Allocation(order, end, zero, asg, at, used, spills) && p < |order|
    ensures var v := order[p].name;
            asg[v] == Code(ALLOCATABLE, 0, at[p]) && at[p] != Fixed &&
            (if end[v] == -1 then asg[v] == RAX else Saved(asg[v]) || 0 - spills <= asg[v] < 0)
    ensures at[p].Reg? ==> at[p].j < used && asg[order[p].name] == ALLOCATABLE[at[p].j] > 0
    ensures asg[order[p].name] > 0 ==> asg[order[p].name] in ALLOCATABLE[..used]
    ensures at[p].Slot? ==> asg[order[p].name] == 0 - at[p].s < 0
  {
    var rs := Ranges(order, end, zero);
    assert LocOk(rs, at, used, spills, p) && CodeOk(order, ALLOCATABLE, zero, asg, at, p);
    if at[p].Reg? { RegOf(at[p].j); }
  }

  /** Every register in asg is among the first `used` that were handed out. */
  predicate Within(asg: seq<int>, used: nat)
  {
    used <= |ALLOCATABLE| && forall v | 0 <= v < |asg| && asg[v] > 0 :: asg[v] in ALLOCATABLE[..used]
  }

  /** The locations after the loop over the parameters: theirs are the words the caller left, all others are as
      they were. */
  ghost predicate ParamsFixed(params: seq<int>, asg: seq<int>, fixed: seq<int>, used: nat, spills: nat)
  {
    && |fixed| == |asg| && (forall j, l | 0 <= j < l < |params| :: params[j] != params[l])
    && (forall j | 0 <= j < |params| ::
          0 <= params[j] < |asg| && fixed[params[j]] == 0 - ParamSlot(used, spills, j) - 1)
    && (forall v | 0 <= v < |asg| && v !in params :: fixed[v] == asg[v])
  }

  /** What allocate stores, with the slots of the parameters, is a sound layout for code generation. */
  lemma LayoutSound(order: seq<Live>, ini: seq<int>, end: seq<int>, zero: seq<int>, asg: seq<int>, at: seq<Loc>,
                    used: nat, spills: nat, params: seq<int>, fixed: seq<int>)
    requires Allocation(order, end, zero, asg, at, used, spills) && |ini| == |asg|
    requires ParamsFixed(params, asg, fixed, used, spills)
    requires forall p | 0 <= p < |order| :: order[p].start == ini[order[p].name] && order[p].name !in params
    requires forall v | 0 <= v < |asg| ::
               if v in params then ini[v] == -1 && end[v] >= 0
               else Listed(order, v) && (end[v] == -1 || ini[v] <= end[v])
    ensures SoundLayout(Layout(ini, end, fixed, spills, ParamSlot(used, spills, |params|))) && Within(fixed, used)
  {
    var k := Layout(ini, end, fixed, spills, ParamSlot(used, spills, |params|));
    forall v | 0 <= v < |asg|
      ensures LocSound(k, v) && (fixed[v] > 0 ==> fixed[v] in ALLOCATABLE[..used])
    {
      if v in params {
        var j :| 0 <= j < |params| && params[j] == v;
      } else {
        assert Listed(order, v);
        var p :| 0 <= p < |order| && order[p].name == v;
        CodeAt(order, end, zero, asg, at, used, spills, p);
      }
    }
    forall v, w | 0 <= v < |asg| && 0 <= w < |asg|
      ensures PairSound(k, v, w)
    {
      if v != w { LocationsApart(order, ini, end, zero, asg, at, used, spills, params, fixed, v, w); }
    }
  }

  lemma LocationsApart(order: seq<Live>, ini: seq<int>, end: seq<int>, zero: seq<int>, asg: seq<int>, at: seq<Loc>,
                       used: nat, spills: nat, params: seq<int>, fixed: seq<int>, v: nat, w: nat)
    requires Allocation(order, end, zero, asg, at, used, spills) && |ini| == |asg|
    requires ParamsFixed(params, asg, fixed, used, spills)
    requires forall p | 0 <= p < |order| :: order[p].start == ini[order[p].name] && order[p].name !in params
    requires v < |asg| && w < |asg| && v != w && (v in params || Listed(order, v)) && (w in params || Listed(order, w))
    ensures end[v] != -1 && end[w] != -1 && fixed[v] == fixed[w] ==>
              fixed[v] > 0 && (end[v] < ini[w] || end[w] < ini[v])
  {
    hide Allocation;
    if v in params && w in params {
      var j :| 0 <= j < |params| && params[j] == v;
      var l :| 0 <= l < |params| && params[l] == w;
    } else if v in params {
      var j :| 0 <= j < |params| && params[j] == v;
      var q :| 0 <= q < |order| && order[q].name == w;
      AboveSlots(order, end, zero, asg, at, used, spills, q);
    } else if w in params {
      var j :| 0 <= j < |params| && params[j] == w;
      var p :| 0 <= p < |order| && order[p].name == v;
      AboveSlots(order, end, zero, asg, at, used, spills, p);
    } else {
      var p :| 0 <= p < |order| && order[p].name == v;
      var q :| 0 <= q < |order| && order[q].name == w;
      AboveSlots(order, end, zero, asg, at, used, spills, p);
      NumbersApart(order, end, zero, asg, at, used, spills, p, q);
    }
  }

  lemma AboveSlots(order: seq<Live>, end: seq<int>, zero: seq<int>, asg: seq<int>, at: seq<Loc>, used: nat,
                   spills: nat, p: nat)
    requires Allocation(order, end, zero, asg, at, used, spills) && p < |order|
    ensures order[p].name < |asg| == |end| && asg[order[p].name] >= 0 - spills
  {
    CodeAt(order, end, zero, asg, at, used, spills, p);
  }

  lemma NumbersApart(order: seq<Live>, end: seq<int>, zero: seq<int>, asg: seq<int>, at: seq<Loc>, used: nat,
                     spills: nat, p: nat, q: nat)
    requires Allocation(order, end, zero, asg, at, used, spills) && p < |order| && q < |order| && p != q
    ensures var v, w := order[p], order[q];
            end[v.name] != -1 && end[w.name] != -1 && asg[v.name] == asg[w.name] ==>
              asg[v.name] > 0 && (end[v.name] < w.start || end[w.name] < v.start)
  {
    var rs := Ranges(order, end, zero);
    CodeAt(order, end, zero, asg, at, used, spills, p);
    CodeAt(order, end, zero, asg, at, used, spills, q);
    if at[p].Reg? { RegOf(at[p].j); }
    if p < q { assert PairOk(rs, at, p, q); } else { assert PairOk(rs, at, q, p); }
    assert LocOk(rs, at, used, spills, p) && LocOk(rs, at, used, spills, q);
  }

  lemma ChunkFits(ops: seq<Tac>, begin: nat, iv: nat, u: Unit, k: Layout)
    requires StraightLine(ops, begin, iv, u) && Sized(k) && |k.asg| == iv
    requires forall v | 0 <= v < iv :: LiveRange(ops, v, k.ini[v], k.end[v])
    ensures ChunkOk(u, k, ops)
  {
    forall i | 0 <= i < |ops|
      ensures OpOk(u, k, ops[i], i) && CallOk(ops, i)
    {
      hide StraightLine, LiveRange, CallOk, OpOk;
      OpShape(ops, begin, iv, u, i);
      OpFits(ops, begin, iv, u, k, i);
    }
  }

  lemma OpFits(ops: seq<Tac>, begin: nat, iv: nat, u: Unit, k: Layout, i: nat)
    requires StraightLine(ops, begin, iv, u) && Sized(k) && |k.asg| == iv && i < |ops|
    requires forall v | 0 <= v < iv :: LiveRange(ops, v, k.ini[v], k.end[v])
    ensures OpOk(u, k, ops[i], i)
  {
    OpShape(ops, begin, iv, u, i);
    hide StraightLine, LiveRange, CallOk, Plain, Silent;
    var t := ops[i];
    forall v | 0 <= v < iv
      ensures k.ini[v] == i <==> !Silent(t.op) && v == t.target
    {
      StartsAt(ops, begin, iv, u, v, k.ini[v], k.end[v], i);
    }
    OperandsFit(ops, begin, iv, u, k, i);
    hide OperandOk;
  }

  lemma OperandsFit(ops: seq<Tac>, begin: nat, iv: nat, u: Unit, k: Layout, i: nat)
    requires StraightLine(ops, begin, iv, u) && Sized(k) && |k.asg| == iv && i < |ops|
    requires forall v | 0 <= v < iv :: LiveRange(ops, v, k.ini[v], k.end[v])
    ensures Reads(ops[i].op) > 0 ==> OperandOk(u, k, i, ops[i].a)
    ensures Reads(ops[i].op) > 1 ==> OperandOk(u, k, i, ops[i].b)
  {
    OpShape(ops, begin, iv, u, i);
    hide StraightLine, LiveRange, CallOk;
    var t := ops[i];
    if Reads(t.op) > 0 && t.a >= 0 { UseInRange(ops, begin, iv, u, k, i, t.a); }
    if Reads(t.op) > 1 && t.b >= 0 { UseInRange(ops, begin, iv, u, k, i, t.b); }
  }

  lemma StartsAt(ops: seq<Tac>, begin: nat, iv: nat, u: Unit, v: nat, ini: int, end: int, i: nat)
    requires StraightLine(ops, begin, iv, u) && v < iv && LiveRange(ops, v, ini, end) && i < |ops|
    ensures ini == i <==> !Silent(ops[i].op) && v == ops[i].target
  {
    var t := ops[i];
    hide StraightLine, Params, Defines, LiveRange, Uses, Silent;
    TargetIs(ops, begin, iv, u, i);
    if v in Params(ops, begin) {
      OneParam(ops, begin, iv, u, v);
      ParamRange(ops, begin, iv, u, v, ini, end);
    } else {
      FlatRange(ops, begin, iv, u, v, ini, end);
    }
  }

  lemma UseInRange(ops: seq<Tac>, begin: nat, iv: nat, u: Unit, k: Layout, i: nat, v: nat)
    requires StraightLine(ops, begin, iv, u) && Sized(k) && |k.asg| == iv
    requires forall v | 0 <= v < iv :: LiveRange(ops, v, k.ini[v], k.end[v])
    requires i < |ops| && Uses(ops[i], v) && ops[i].op != NewTbl
    ensures OperandOk(u, k, i, v)
  {
    Flat(ops, begin, iv, u);
    if v in Params(ops, begin) {
      ParamRange(ops, begin, iv, u, v, k.ini[v], k.end[v]);
    } else {
      FlatRange(ops, begin, iv, u, v, k.ini[v], k.end[v]);
    }
  }

  /** Parameter j has the slot for it, and no other variable goes without a definition. */
  ghost predicate ParamsPlaced(k: Layout, params: seq<int>, used: nat)
  {
    && Sized(k) && k.top == ParamSlot(used, k.lvar, |params|)
    && (forall v | 0 <= v < |k.ini| && k.ini[v] < 0 :: v in params)
    && forall j | 0 <= j < |params| ::
         0 <= params[j] < |k.asg| && k.asg[params[j]] == 0 - ParamSlot(used, k.lvar, j) - 1
  }

  /** liveness, allocate and the loops over the parameters: ranges and locations for the chunk. */
  method Plan(ops: seq<Tac>, begin: nat, iv: nat, u: Unit) returns (k: Layout, used: nat)
    requires StraightLine(ops, begin, iv, u)
    ensures |k.asg| == iv && Within(k.asg, used) && ParamsPlaced(k, Params(ops, begin), used)
    ensures SoundLayout(k) && ChunkOk(u, k, ops)
  {
    hide StraightLine, LiveRange, Balanced, VarsBelow, Defined, Placed, Stored, DefinedAt, Pressed, LiveAt, Params,
        SoundLayout, ChunkOk, Ordered, Listed, Sorts, Within, ParamsPlaced, ParamsFixed, Allocation, Input;
    Flat(ops, begin, iv, u);
    var params := Params(ops, begin);
    ParamsBelow(ops, begin, iv, u);
    var ini, end := new int[iv], new int[iv];
    Liveness.Liveness(ops, iv, ini, end);
    FlatRanges(ops, begin, iv, u, ini[..], end[..]);
    var order := SortRanges(ops, begin, iv, u, ini);
    var assignment := new int[iv](_ => 0);
    Reserve(params, assignment);
    ghost var zero := assignment[..];
    SortedInput(ops, begin, order, ini[..], end[..], zero);
    var spills;
    ghost var at;
    used, spills, at := Allocate.Allocate(order, ALLOCATABLE, end[..], assignment);
    ghost var asg := assignment[..];
    AllocationDone(ops, begin, order, ini[..], end[..], zero, asg, at, used, spills);
    FixParams(params, used, spills, assignment);
    FixedAre(params, asg, assignment[..], used, spills);
    LayoutSound(order, ini[..], end[..], zero, asg, at, used, spills, params, assignment[..]);
    k := Layout(ini[..], end[..], assignment[..], spills, ParamSlot(used, spills, |params|));
    ParamsPlacedAre(ops, begin, k, asg, used);
    ChunkFits(ops, begin, iv, u, k);
  }

  lemma ParamsBelow(ops: seq<Tac>, begin: nat, iv: nat, u: Unit)
    requires StraightLine(ops, begin, iv, u)
    ensures forall j | 0 <= j < |Params(ops, begin)| :: 0 <= Params(ops, begin)[j] < iv
    ensures forall j, l | 0 <= j < l < |Params(ops, begin)| :: Params(ops, begin)[j] != Params(ops, begin)[l]
  {
  }

  lemma AllocationDone(ops: seq<Tac>, begin: nat, order: seq<Live>, ini: seq<int>, end: seq<int>, zero: seq<int>,
                       asg: seq<int>, at: seq<Loc>, used: nat, spills: nat)
    requires |ini| == |end| == |zero| && Input(order, |zero|) && Stored(order, ALLOCATABLE, zero, asg, at)
    requires |at| == |order| && used <= |ALLOCATABLE| && Placed(Ranges(order, end, zero), at, used, spills)
    requires forall v | 0 <= v < |zero| :: zero[v] == if v in Params(ops, begin) then -1 else 0
    requires forall p | 0 <= p < |order| :: Sorts(ops, begin, ini, order[p])
    ensures Allocation(order, end, zero, asg, at, used, spills) && |asg| == |ini|
    ensures forall p | 0 <= p < |order| ::
              order[p].name < |ini| && order[p].start == ini[order[p].name] && order[p].name !in Params(ops, begin)
  {
    hide Params, Placed;
    assert forall p | 0 <= p < |order| :: Sorts(ops, begin, ini, order[p]);
  }

  lemma FixedAre(params: seq<int>, asg: seq<int>, fixed: seq<int>, used: nat, spills: nat)
    requires |fixed| == |asg| && forall j, l | 0 <= j < l < |params| :: params[j] != params[l]
    requires forall j | 0 <= j < |params| :: 0 <= params[j] < |asg|
    requires forall j | 0 <= j < |params| :: fixed[params[j]] == 0 - ParamSlot(used, spills, j) - 1
    requires forall v | 0 <= v < |asg| && v !in params :: fixed[v] == asg[v]
    ensures ParamsFixed(params, asg, fixed, used, spills)
  {
  }

  lemma ParamsPlacedAre(ops: seq<Tac>, begin: nat, k: Layout, asg: seq<int>, used: nat)
    requires Sized(k) && ParamsFixed(Params(ops, begin), asg, k.asg, used, k.lvar)
    requires k.top == ParamSlot(used, k.lvar, |Params(ops, begin)|)
    requires forall v | 0 <= v < |k.ini| && v !in Params(ops, begin) :: k.ini[v] >= 0
    ensures ParamsPlaced(k, Params(ops, begin), used)
  {
  }

  lemma FlatRanges(ops: seq<Tac>, begin: nat, iv: nat, u: Unit, ini: seq<int>, end: seq<int>)
    requires StraightLine(ops, begin, iv, u) && |ini| == |end| == iv
    requires forall v | 0 <= v < iv :: LiveRange(ops, v, ini[v], end[v])
    ensures forall v | 0 <= v < iv && v in Params(ops, begin) :: ini[v] == -1 && end[v] >= 0
    ensures forall v | 0 <= v < iv && v !in Params(ops, begin) ::
              DefinedAt(ops, v, ini[v]) && 0 <= ini[v] && (end[v] == UNUSED || ini[v] <= end[v])
  {
    hide StraightLine, LiveRange, Params;
    forall v | 0 <= v < iv
      ensures v in Params(ops, begin) ==> ini[v] == -1 && end[v] >= 0
      ensures v !in Params(ops, begin) ==>
                DefinedAt(ops, v, ini[v]) && 0 <= ini[v] && (end[v] == UNUSED || ini[v] <= end[v])
    {
      if v in Params(ops, begin) {
        ParamRange(ops, begin, iv, u, v, ini[v], end[v]);
      } else {
        FlatRange(ops, begin, iv, u, v, ini[v], end[v]);
      }
    }
  }

  /** Sorted ranges are what allocate expects. */
  lemma SortedInput(ops: seq<Tac>, begin: nat, order: seq<Live>, ini: seq<int>, end: seq<int>, zero: seq<int>)
    requires |ini| == |end| == |zero|
    requires forall v | 0 <= v < |ini| && v !in Params(ops, begin) :: end[v] == UNUSED || ini[v] <= end[v]
    requires forall p | 0 <= p < |order| :: Sorts(ops, begin, ini, order[p])
    requires forall p, q | 0 <= p < q < |order| :: order[p].start < order[q].start
    ensures Input(order, |zero|) && Ordered(Ranges(order, end, zero))
  {
    hide Params;
    assert forall p | 0 <= p < |order| :: Sorts(ops, begin, ini, order[p]);
  }

  /** The body keeps what the function does not save. */
  lemma BodyIsKept(w: World, k: Layout, p: Mach, b: Mach, used: nat)
    requires SoundLayout(k) && Within(k.asg, used) && Untouched(w, k, p, b)
    ensures BodyKeeps(w, p, b, used, FrameWords(used, k.lvar))
  {
    forall r | 0 <= r < 16 && Saved(r) && Beyond(used, r)
      ensures Unwritten(k, r)
    {
      forall v | 0 <= v < |k.asg|
        ensures k.asg[v] != r
      {
        if k.asg[v] > 0 {
          var j :| 0 <= j < used && ALLOCATABLE[j] == k.asg[v];
        }
      }
    }
    forall s | FrameWords(used, k.lvar) <= s < |p.stack|
      ensures b.stack[s] == Carried(w, b.trace, |p.trace|, p.stack[s])
    {
      forall v | 0 <= v < |k.asg| && k.ini[v] >= 0
        ensures k.asg[v] != -s - 1
      {
        assert LocSound(k, v);
      }
      assert Unwritten(k, -s - 1);
    }
  }

  /** The machine on entry to a function: the return address on top of the words of the caller, of which parameter
      j is the j-th, and L as the first argument of the C convention. */
  ghost predicate Entered(u: Unit, m: Mach, s: State, params: seq<int>)
  {
    && |m.reg| == 16 && m.reg[RDI] == u.L && m.trace == s.trace && |params| < |m.stack|
    && forall j | 0 <= j < |params| :: params[j] in s.env && s.env[params[j]] == m.stack[1 + j]
  }

  /** The function makes the calls of the three-address program with the same words, and hands rsp, every
      preserved register and the stack back to its caller. */
  ghost predicate Implements(w: World, u: Unit, m: Mach, s: State, ops: seq<Tac>, code: seq<Instr>)
  {
    var m' := Exec(w, m, code);
    m'.trace == Run(w, u, s, ops).trace && HandsBack(w, m, m')
  }

  lemma FunctionImplements(w: World, u: Unit, k: Layout, m: Mach, s: State, ops: seq<Tac>, used: nat, params: seq<int>)
    requires SoundLayout(k) && ChunkOk(u, k, ops) && Within(k.asg, used) && ParamsPlaced(k, params, used)
    requires FixesL(w, u) && Entered(u, m, s, params)
    ensures Implements(w, u, m, s, ops, Prologue(used, k.lvar) + EmitAll(u, k.asg, k.lvar, ops) +
        Epilogue(used, k.lvar))
  {
    assert Sized(k);
    hide Exec, Prologue, Epilogue, EmitAll, SoundLayout, ChunkOk, FixesL, HandsBack, Untouched, BodyKeeps, ParamsPlaced;
    var p := Exec(w, m, Prologue(used, k.lvar));
    HoldsAtStart(w, u, k, m, s, used, params);
    hide Entered;
    CompiledCodeSimulates(w, u, k, p, s, ops);
    var b := Exec(w, p, EmitAll(u, k.asg, k.lvar, ops));
    BodyIsKept(w, k, p, b, used);
    CallPreserves(w, m, b, used, k.lvar);
    ExecAppend(w, m, Prologue(used, k.lvar), EmitAll(u, k.asg, k.lvar, ops));
    ExecAppend(w, m, Prologue(used, k.lvar) + EmitAll(u, k.asg, k.lvar, ops), Epilogue(used, k.lvar));
  }

  /** Past the prologue, L is in its slot and each parameter in the slot computed for it. */
  lemma HoldsAtStart(w: World, u: Unit, k: Layout, m: Mach, s: State, used: nat, params: seq<int>)
    requires SoundLayout(k) && used <= |ALLOCATABLE| && ParamsPlaced(k, params, used) && Entered(u, m, s, params)
    ensures var p := Exec(w, m, Prologue(used, k.lvar));
            Holds(u, k, p, s.env, 0) && p.trace == s.trace && |m.reg| == 16
  {
    hide Exec, Prologue, SoundLayout, FrameWords;
    var p := Exec(w, m, Prologue(used, k.lvar));
    Entering(w, m, used, k.lvar);
    assert k.lvar < FrameWords(used, k.lvar);
    forall v | 0 <= v < |k.asg|
      ensures LiveOk(k, p, s.env, 0, v)
    {
      if k.ini[v] < 0 {
        var j :| 0 <= j < |params| && params[j] == v;
        var caller := m.(stack := m.stack[1..]);
        assert Enter(caller, m.stack[0]) == m;
        ParamIsArgument(w, caller, m.stack[0], used, k.lvar, j);
      }
    }
  }

  /** compile_chunk for straight-line code, calls and parameters included: on every machine that enters the function,
      with whatever collections the calls bring, the code makes the calls of the three-address program
      with the same words and returns everything to its caller. `L` goes to the slot after the spilled
      variables. */
  method CompileStraightLine(ops: seq<Tac>, begin: nat, iv: nat, u: Unit)
      returns (code: seq<Instr>, k: Layout, used: nat)
    requires StraightLine(ops, begin, iv, u)
    ensures SoundLayout(k) && ChunkOk(u, k, ops) && |k.asg| == iv && Within(k.asg, used)
    ensures ParamsPlaced(k, Params(ops, begin), used)
    ensures code == Prologue(used, k.lvar) + EmitAll(u, k.asg, k.lvar, ops) + Epilogue(used, k.lvar)
    ensures forall w: World, m: Mach, s: State | FixesL(w, u) && Entered(u, m, s, Params(ops, begin)) ::
              Implements(w, u, m, s, ops, code)
  {
    hide StraightLine, SoundLayout, ChunkOk, Implements, ParamsPlaced, Entered, Params;
    k, used := Plan(ops, begin, iv, u);
    DeclarationsFirst(ops, begin, iv, u);
    var body := Assemble(u, k, ops, begin);
    code := Prologue(used, k.lvar) + body + Epilogue(used, k.lvar);
    forall w: World, m: Mach, s: State | FixesL(w, u) && Entered(u, m, s, Params(ops, begin))
      ensures Implements(w, u, m, s, ops, code)
    {
      FunctionImplements(w, u, k, m, s, ops, used, Params(ops, begin));
    }
  }

  lemma DeclarationsFirst(ops: seq<Tac>, begin: nat, iv: nat, u: Unit)
    requires StraightLine(ops, begin, iv, u)
    ensures begin <= |ops| && forall i | 0 <= i < begin :: Idle(ops[i].op)
  {
    assert Declares(ops, begin, iv);
    hide StraightLine;
  }

  lemma {:induction false} IdleEmitsNothing(u: Unit, k: Layout, ops: seq<Tac>)
    requires forall i | 0 <= i < |ops| :: Idle(ops[i].op)
    ensures EmitAll(u, k.asg, k.lvar, ops) == []
  {
    if ops != [] { IdleEmitsNothing(u, k, ops[..|ops| - 1]); }
  }

  /** The loop over the operations. */
  method Assemble(u: Unit, k: Layout, ops: seq<Tac>, begin: nat) returns (code: seq<Instr>)
    requires begin <= |ops| && forall i | 0 <= i < begin :: Idle(ops[i].op)
    ensures code == EmitAll(u, k.asg, k.lvar, ops)
  {
    hide EmitNext;
    code := [];
    IdleEmitsNothing(u, k, ops[..begin]);
    var i := begin;
    while i < |ops|
      invariant begin <= i <= |ops| && code == EmitAll(u, k.asg, k.lvar, ops[..i])
    {
      assert ops[..i + 1][..i] == ops[..i];
      code := code + EmitNext(u, k.asg, k.lvar, ops[..i], ops[i]);
      i := i + 1;
    }
    assert ops[..i] == ops;
  }
}
