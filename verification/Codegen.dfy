/** Code generation of cc.c for straight-line code: loads, operations, runtime calls and saves at the
    locations allocate chose, against the three-address semantics. */
module Codegen {
  import opened Ir
  import opened Registers

  // --- the machine --------------------------------------------------------------------------

  /** What compiled code calls: the runtime, or through ml_indirect_call any function of the program. */
  datatype Fn = NewTable | GetField | GetGlobal | SetGlobal | Indirect(nargs: nat)

  datatype Instr =
    | MovImm(r: int, v: nat)
    | Load(r: int, slot: nat)
    | Store(slot: nat, r: int)
    | Mov(d: int, s: int)
    | ToX(x: bool, r: int)
    | FromX(r: int, x: bool)
    | AddSd
    | SubSd
    | MulSd
    | DivSd
    | RevSub
    | Floor
    | CallFn(fn: Fn)
    | Push(r: int)
    | Pop(r: int)
    | Lower(n: nat)
    | Raise(n: nat)

  /** A call and the words it was passed. */
  datatype Event = Event(fn: Fn, args: seq<nat>)

  /** Registers, xmm0 and xmm1, the whole stack from rsp upwards in 8-byte words, and the calls made so
      far. Slot s of the current frame is the s-th word of the stack. */
  datatype Mach = Mach(reg: seq<nat>, x0: nat, x1: nat, stack: seq<nat>, trace: seq<Event>)

  /** What is left uninterpreted: floating point; what a call returns and leaves in the registers it may
      destroy, given everything that was ever asked; what a word on the stack or in a preserved
      register becomes when that call collects; and what lowering rsp uncovers. */
  datatype World = World(add: (nat, nat) -> nat, sub: (nat, nat) -> nat, mul: (nat, nat) -> nat, div: (nat, nat) -> nat,
                         floor: nat -> nat, result: seq<Event> -> nat, junk: (seq<Event>, int) -> nat,
                         move: (seq<Event>, nat) -> nat, stale: (seq<Event>, nat) -> nat)

  /** lua_newtable collects when the space is full, and called code may call it; then lua_gc_impl
      rewrites every word of the stack, the registers pushed by lua_gc among them. The other runtime
      functions move nothing. */
  predicate MayCollect(fn: Fn) { fn.NewTable? || fn.Indirect? }

  /** The word that x has become after the last call of trace t. */
  function Carry(w: World, t: seq<Event>, x: nat): nat
    requires t != []
  {
    if MayCollect(t[|t| - 1].fn) then w.move(t, x) else x
  }

  /** The word that x has become after the calls of trace t from the n-th on. */
  function Carried(w: World, t: seq<Event>, n: nat, x: nat): nat
    decreases |t|
  {
    if |t| <= n then x else Carry(w, t, Carried(w, t[..|t| - 1], n, x))
  }

  /** The variables after the calls of trace t from the n-th on. */
  function CarriedEnv(w: World, t: seq<Event>, n: nat, env: map<int, nat>): (r: map<int, nat>)
    ensures r.Keys == env.Keys && forall v | v in env :: r[v] == Carried(w, t, n, env[v])
  {
    map v | v in env :: Carried(w, t, n, env[v])
  }

  /** A collection moves tables only: the interpreter state is not one. */
  ghost predicate FixesL(w: World, u: Unit)
  {
    forall t :: w.move(t, u.L) == u.L
  }

  /** The registers of the first arguments in the C convention. */
  const ARGUMENTS: seq<int> := [RDI, RSI, RDX]

  function InRegisters(m: Mach, n: nat): (r: seq<nat>)
    requires |m.reg| == 16 && n <= 3
    ensures |r| == n
  {
    if n == 0 then [] else InRegisters(m, n - 1) + [m.reg[ARGUMENTS[n - 1]]]
  }

  /** What a function of the runtime takes, L first; what ml_indirect_call is handed: the callee in rcx, then L and
      the number of arguments, and these on the stack. */
  function Args(m: Mach, fn: Fn): seq<nat>
    requires |m.reg| == 16
  {
    match fn
    case NewTable => InRegisters(m, 1)
    case GetGlobal => InRegisters(m, 2)
    case GetField => InRegisters(m, 3)
    case SetGlobal => InRegisters(m, 3)
    case Indirect(n) => [m.reg[RCX]] + InRegisters(m, 2) + m.stack[..if n <= |m.stack| then n else |m.stack|]
  }

  lemma RegistersAre(m: Mach)
    requires |m.reg| == 16
    ensures InRegisters(m, 1) == [m.reg[RDI]] && InRegisters(m, 2) == [m.reg[RDI], m.reg[RSI]]
    ensures InRegisters(m, 3) == [m.reg[RDI], m.reg[RSI], m.reg[RDX]]
  {
    assert InRegisters(m, 0) == [];
  }

  function CarryAll(w: World, t: seq<Event>, ws: seq<nat>): (r: seq<nat>)
    requires t != []
    ensures |r| == |ws| && forall i | 0 <= i < |ws| :: r[i] == Carry(w, t, ws[i])
  {
    seq(|ws|, i requires 0 <= i < |ws| => Carry(w, t, ws[i]))
  }

  function AfterCall(w: World, m: Mach, fn: Fn): Mach
    requires |m.reg| == 16
  {
    var t := m.trace + [Event(fn, Args(m, fn))];
    m.(trace := t, stack := CarryAll(w, t, m.stack), reg := seq(16, r requires 0 <= r < 16 => RegAfterCall(w, m, t, r)))
  }

  function RegAfterCall(w: World, m: Mach, t: seq<Event>, r: nat): nat
    requires |m.reg| == 16 && r < 16 && t != []
  {
    if Saved(r) then Carry(w, t, m.reg[r]) else if r == RAX then w.result(t) else w.junk(t, r)
  }

  predicate Fits(m: Mach, i: Instr)
  {
    && |m.reg| == 16
    && match i
       case MovImm(r, _) => 0 <= r < 16
       case Load(r, s) => 0 <= r < 16 && s < |m.stack|
       case Store(s, r) => 0 <= r < 16 && s < |m.stack|
       case Mov(d, s) => 0 <= d < 16 && 0 <= s < 16
       case ToX(_, r) => 0 <= r < 16
       case FromX(r, _) => 0 <= r < 16
       case Push(r) => 0 <= r < 16
       case Pop(r) => 0 <= r < 16 && m.stack != []
       case Raise(n) => n <= |m.stack|
       case _ => true
  }

  /** One instruction; one that does not fit the machine leaves it alone. */
  function Do(w: World, m: Mach, i: Instr): Mach
  {
    if !Fits(m, i) then m else
    match i
    case MovImm(r, v) => m.(reg := m.reg[r := v])
    case Load(r, s) => m.(reg := m.reg[r := m.stack[s]])
    case Store(s, r) => m.(stack := m.stack[s := m.reg[r]])
    case Mov(d, s) => m.(reg := m.reg[d := m.reg[s]])
    case ToX(x, r) => if x then m.(x1 := m.reg[r]) else m.(x0 := m.reg[r])
    case FromX(r, x) => m.(reg := m.reg[r := if x then m.x1 else m.x0])
    case AddSd => m.(x0 := w.add(m.x0, m.x1))
    case SubSd => m.(x0 := w.sub(m.x0, m.x1))
    case MulSd => m.(x0 := w.mul(m.x0, m.x1))
    case DivSd => m.(x0 := w.div(m.x0, m.x1))
    case RevSub => m.(x1 := w.sub(m.x1, m.x0))
    case Floor => m.(x0 := w.floor(m.x0))
    case CallFn(fn) => AfterCall(w, m, fn)
    case Push(r) => m.(stack := [m.reg[r]] + m.stack)
    case Pop(r) => m.(reg := m.reg[r := m.stack[0]], stack := m.stack[1..])
    case Lower(n) => m.(stack := Stale(w, m.trace, n) + m.stack)
    case Raise(n) => m.(stack := m.stack[n..])
  }

  function Stale(w: World, t: seq<Event>, n: nat): (r: seq<nat>)
    ensures |r| == n
  {
    seq(n, i requires 0 <= i < n => StaleAt(w, t, i))
  }

  function StaleAt(w: World, t: seq<Event>, i: nat): nat { w.stale(t, i) }

  function Exec(w: World, m: Mach, code: seq<Instr>): Mach
    decreases |code|
  {
    if code == [] then m else Exec(w, Do(w, m, code[0]), code[1..])
  }

  lemma {:induction false} ExecAppend(w: World, m: Mach, c: seq<Instr>, d: seq<Instr>)
    ensures Exec(w, m, c + d) == Exec(w, Exec(w, m, c), d)
    decreases |c|
  {
    if c == [] {
      assert c + d == d;
    } else {
      assert (c + d)[1..] == c[1..] + d;
      ExecAppend(w, Do(w, m, c[0]), c[1..], d);
    }
  }

  lemma ExecOne(w: World, m: Mach, i: Instr)
    ensures Exec(w, m, [i]) == Do(w, m, i)
  {
    assert [i][1..] == [];
    assert Exec(w, Do(w, m, i), []) == Do(w, m, i);
  }

  // --- three-address semantics --------------------------------------------------------------

  /** Constants, and the interpreter state word passed to every runtime call. */
  datatype Unit = Unit(ctts: seq<nat>, L: nat)

  /** Variables, the arguments set up for the next call, and the calls made so far. */
  datatype State = State(env: map<int, nat>, args: seq<nat>, trace: seq<Event>)

  predicate Readable(u: Unit, env: map<int, nat>, a: int)
  {
    if a >= 0 then a in env else -a - 1 < |u.ctts|
  }

  function Operand(u: Unit, env: map<int, nat>, a: int): nat
  {
    if !Readable(u, env, a) then 0 else if a >= 0 then env[a] else u.ctts[-a - 1]
  }

  function Assign(env: map<int, nat>, target: int, v: nat): map<int, nat>
  {
    if target == NO_TARGET then env else env[target := v]
  }

  predicate IsArith(op: Op) { op == Add || op == Sub || op == Mul || op == Div || op == Mod }

  /** Operations that are a call into the runtime. */
  predicate IsCall(op: Op) { op == GLoad || op == GStore || op == TLoad || op == NewTbl }

  /** Operations that no code is emitted for: the declarations in front of a function, its marks, and what
      other passes leave blank. */
  predicate Idle(op: Op) { op == Param || op == FunctionBegin || op == FunctionEnd || op == Noop }

  predicate Plain(op: Op) { op == LCopy || IsArith(op) || IsCall(op) || op == Arg || op == Call || Idle(op) }

  /** Operations without a result. */
  predicate Silent(op: Op) { op == GStore || op == Arg || Idle(op) }

  /** How many of a and b an operation reads. */
  function Reads(op: Op): nat
  {
    if op == NewTbl || Idle(op) then 0 else if op == LCopy || op == GLoad || op == Arg || op == Call then 1 else 2
  }

  function CallOf(op: Op): Fn
  {
    match op
    case GLoad => GetGlobal
    case GStore => SetGlobal
    case TLoad => GetField
    case _ => NewTable
  }

  /** The variables after the last call of trace t. */
  function CarryEnv(w: World, t: seq<Event>, env: map<int, nat>): (r: map<int, nat>)
    requires t != []
    ensures r.Keys == env.Keys && forall v | v in env :: r[v] == Carry(w, t, env[v])
  {
    map v | v in env :: Carry(w, t, env[v])
  }

  /** The last n arguments set up. */
  function LastArgs(args: seq<nat>, n: int): seq<nat>
  {
    if 0 <= n <= |args| then args[|args| - n..] else args
  }

  function Arith(w: World, op: Op, a: nat, b: nat): nat
  {
    match op
    case Add => w.add(a, b)
    case Sub => w.sub(a, b)
    case Mul => w.mul(a, b)
    case _ => w.div(a, b)
  }

  function Run1(w: World, u: Unit, s: State, t: Tac): State
  {
    var a := Operand(u, s.env, t.a);
    var b := Operand(u, s.env, t.b);
    match t.op
    case LCopy => s.(env := Assign(s.env, t.target, a))
    case Mod => s.(env := Assign(s.env, t.target, w.sub(a, w.mul(w.floor(w.div(a, b)), b))))
    case GLoad => Invoke(w, s, GetGlobal, [u.L, a], t.target)
    case GStore => Invoke(w, s, SetGlobal, [u.L, a, b], NO_TARGET)
    case TLoad => Invoke(w, s, GetField, [u.L, a, b], t.target)
    case NewTbl => Invoke(w, s, NewTable, [u.L], t.target)
    case Arg => s.(args := s.args + [a])
    case Param => s
    case FunctionBegin => s
    case FunctionEnd => s
    case Noop => s
    case Call => if t.b < 0 then s else Invoke(w, s, Indirect(t.b), [a, u.L, t.b] + LastArgs(s.args, t.b), t.target)
    case _ => s.(env := Assign(s.env, t.target, Arith(w, t.op, a, b)))
  }

  /** Any call may move what the variables refer to; then the result is assigned. */
  function Invoke(w: World, s: State, fn: Fn, args: seq<nat>, target: int): State
  {
    var t := s.trace + [Event(fn, args)];
    State(Assign(CarryEnv(w, t, s.env), target, w.result(t)), [], t)
  }

  function Run(w: World, u: Unit, s: State, ops: seq<Tac>): State
    decreases |ops|
  {
    if ops == [] then s else Run1(w, u, Run(w, u, s, ops[..|ops| - 1]), ops[|ops| - 1])
  }

  // --- emission -----------------------------------------------------------------------------

  /** The LOAD macro: bring operand fld into register r. */
  function LoadInto(u: Unit, asg: seq<int>, fld: int, r: int): seq<Instr>
  {
    if fld < 0 then (if -fld - 1 < |u.ctts| then [MovImm(r, u.ctts[-fld - 1])] else [])
    else if fld >= |asg| then []
    else if asg[fld] < 0 then [Load(r, -asg[fld] - 1)]
    else if r != asg[fld] then [Mov(r, asg[fld])]
    else []
  }

  /** The register an operand is read from: LOAD_RA and LOAD_RB use a variable's own register, and
      a scratch register for anything else. */
  function SourceReg(asg: seq<int>, fld: int, scratch: int): int
  {
    if 0 <= fld < |asg| && asg[fld] >= 0 then asg[fld] else scratch
  }

  function Fetch(u: Unit, asg: seq<int>, fld: int, scratch: int): seq<Instr>
  {
    if 0 <= fld < |asg| && asg[fld] >= 0 then [] else LoadInto(u, asg, fld, scratch)
  }

  /** SAVE_RESULT: move rax to where the target lives. */
  function SaveResult(asg: seq<int>, target: int): seq<Instr>
  {
    if target == NO_TARGET || !(0 <= target < |asg|) then []
    else if asg[target] >= 0 then (if asg[target] != RAX then [Mov(asg[target], RAX)] else [])
    else [Store(-asg[target] - 1, RAX)]
  }

  /** Leave an xmm register where the target lives. */
  function SaveX(asg: seq<int>, target: int, x: bool): seq<Instr>
  {
    if 0 <= target < |asg| && asg[target] >= 0 then [FromX(asg[target], x)]
    else [FromX(RAX, x)] + SaveResult(asg, target)
  }

  /** The instruction that computes an arithmetic operation on xmm0 and xmm1. */
  function Sd(op: Op): Instr
  {
    match op
    case Add => AddSd
    case Sub => SubSd
    case Mul => MulSd
    case _ => DivSd
  }

  /** compile_chunk's switch, for the operations of straight-line code. */
  function Emit(u: Unit, asg: seq<int>, lvar: nat, t: Tac): seq<Instr>
  {
    match t.op
    case LCopy =>
      if 0 <= t.target < |asg| && asg[t.target] >= 0 then LoadInto(u, asg, t.a, asg[t.target])
      else LoadInto(u, asg, t.a, RAX) + SaveResult(asg, t.target)
    case Mod =>
      Fetch(u, asg, t.a, RDI) + Fetch(u, asg, t.b, RSI) +
      [ToX(false, SourceReg(asg, t.a, RDI)), ToX(true, SourceReg(asg, t.b, RSI)), DivSd, Floor, MulSd,
       ToX(true, SourceReg(asg, t.a, RDI)), RevSub] + SaveX(asg, t.target, true)
    case GLoad => [Load(RDI, lvar)] + LoadInto(u, asg, t.a, RSI) + [CallFn(GetGlobal)] + SaveResult(asg, t.target)
    case GStore => [Load(RDI, lvar)] + LoadInto(u, asg, t.a, RSI) + LoadInto(u, asg, t.b, RDX) + [CallFn(SetGlobal)]
    case TLoad => [Load(RDI, lvar)] + LoadInto(u, asg, t.a, RSI) + LoadInto(u, asg, t.b, RDX) + [CallFn(GetField)] +
        SaveResult(asg, t.target)
    case NewTbl => [Load(RDI, lvar)] + [CallFn(NewTable)] + SaveResult(asg, t.target)
    case _ =>
      Fetch(u, asg, t.a, RDI) + Fetch(u, asg, t.b, RSI) +
      [ToX(false, SourceReg(asg, t.a, RDI)), ToX(true, SourceReg(asg, t.b, RSI)), Sd(t.op)] +
          SaveX(asg, t.target, false)
  }

  function AlignedArgs(n: nat): nat { n + n % 2 }

  /** One round of the argument loop, rsp lowered by `align` words: operand fld goes to slot s. */
  function StoreArg(u: Unit, asg: seq<int>, align: nat, fld: int, s: nat): seq<Instr>
  {
    if fld < 0 then (if -fld - 1 < |u.ctts| then [MovImm(RAX, u.ctts[-fld - 1]), Store(s, RAX)] else [])
    else if fld >= |asg| then []
    else if asg[fld] < 0 then [Load(RAX, -asg[fld] - 1 + align), Store(s, RAX)]
    else [Store(s, asg[fld])]
  }

  /** The first j rounds: the argument operations are read backwards, their slots filled from the last
      one down. */
  function StoreArgs(u: Unit, asg: seq<int>, n: nat, before: seq<Tac>, j: nat): seq<Instr>
    requires j <= n <= |before|
  {
    if j == 0 then []
    else StoreArgs(u, asg, n, before, j - 1) + StoreArg(u, asg, AlignedArgs(n), before[|before| - j].a, n - j)
  }

  /** The CALL case; `before` are the operations in front of it. */
  function EmitCall(u: Unit, asg: seq<int>, lvar: nat, before: seq<Tac>, t: Tac): seq<Instr>
    requires 0 <= t.b <= |before|
  {
    var n: nat := t.b;
    LoadInto(u, asg, t.a, RCX) + [Load(RDI, lvar), MovImm(RSI, n)] + (if n > 0 then [Lower(AlignedArgs(n))] else []) +
    StoreArgs(u, asg, n, before, n) + [CallFn(Indirect(n))] + (if n > 0 then [Raise(AlignedArgs(n))] else []) +
    SaveResult(asg, t.target)
  }

  function EmitNext(u: Unit, asg: seq<int>, lvar: nat, before: seq<Tac>, t: Tac): seq<Instr>
  {
    if t.op == Arg || Idle(t.op) then []
    else if t.op == Call then (if 0 <= t.b <= |before| then EmitCall(u, asg, lvar, before, t) else [])
    else Emit(u, asg, lvar, t)
  }

  function EmitAll(u: Unit, asg: seq<int>, lvar: nat, ops: seq<Tac>): seq<Instr>
  {
    if ops == [] then []
    else EmitAll(u, asg, lvar, ops[..|ops| - 1]) + EmitNext(u, asg, lvar, ops[..|ops| - 1], ops[|ops| - 1])
  }

  // --- simulation ---------------------------------------------------------------------------

  /** The live ranges and locations a chunk is compiled with; `lvar` is the slot that keeps L. Slots beyond it,
      up to `top`, are those of parameters, which have no definition. */
  datatype Layout = Layout(ini: seq<int>, end: seq<int>, asg: seq<int>, lvar: nat, top: nat)

  /** A slot that a variable may have. */
  predicate InStack(k: Layout, loc: int) { 0 - k.top <= loc < 0 && loc != 0 - k.lvar - 1 }

  predicate Sized(k: Layout) { |k.ini| == |k.end| == |k.asg| }

  predicate LocSound(k: Layout, v: nat)
    requires Sized(k) && v < |k.asg|
  {
    if k.end[v] == -1 then k.asg[v] == RAX
    else
      && k.ini[v] <= k.end[v] && (Saved(k.asg[v]) || InStack(k, k.asg[v]))
      && (k.ini[v] >= 0 ==> 0 - k.lvar <= k.asg[v])
  }

  predicate PairSound(k: Layout, v: nat, w: nat)
    requires Sized(k) && v < |k.asg| && w < |k.asg|
  {
    v != w && k.end[v] != -1 && k.end[w] != -1 && k.asg[v] == k.asg[w] ==>
      k.asg[v] > 0 && (k.end[v] < k.ini[w] || k.end[w] < k.ini[v])
  }

  /** What allocate and the loop over the parameters guarantee. */
  ghost predicate SoundLayout(k: Layout)
  {
    && Sized(k) && k.lvar < k.top
    && (forall v | 0 <= v < |k.asg| :: LocSound(k, v))
    && (forall v, w | 0 <= v < |k.asg| && 0 <= w < |k.asg| :: PairSound(k, v, w))
  }

  /** An operand that operation i reads: a constant, or a variable live there. */
  predicate OperandOk(u: Unit, k: Layout, i: int, fld: int)
    requires Sized(k)
  {
    if fld < 0 then -fld - 1 < |u.ctts| else fld < |k.asg| && k.ini[fld] < i <= k.end[fld]
  }

  /** Operation i of a straight-line chunk in which every variable is written once, before its uses. */
  ghost predicate OpOk(u: Unit, k: Layout, t: Tac, i: nat)
    requires Sized(k)
  {
    && Plain(t.op)
    && (Reads(t.op) > 0 ==> OperandOk(u, k, i, t.a))
    && (Reads(t.op) > 1 ==> OperandOk(u, k, i, t.b))
    && (if Silent(t.op) then (Idle(t.op) || t.target == NO_TARGET) && (forall v | 0 <= v < |k.ini| :: k.ini[v] != i)
        else 0 <= t.target < |k.asg| && t.target != NO_TARGET && forall v | 0 <= v < |k.ini| :: k.ini[v] == i <==>
            v == t.target)
  }

  function Reading(m: Mach, loc: int): nat
  {
    if 0 <= loc < |m.reg| then m.reg[loc] else if 0 <= -loc - 1 < |m.stack| then m.stack[-loc - 1] else 0
  }

  predicate LiveOk(k: Layout, m: Mach, env: map<int, nat>, i: int, v: nat)
    requires Sized(k) && v < |k.asg|
  {
    k.ini[v] < i <= k.end[v] ==> v in env && Reading(m, k.asg[v]) == env[v]
  }

  /** Before operation i the machine holds every live variable where the layout says, and L. */
  ghost predicate Holds(u: Unit, k: Layout, m: Mach, env: map<int, nat>, i: nat)
    requires Sized(k)
  {
    && |m.reg| == 16 && k.lvar < k.top <= |m.stack| && m.stack[k.lvar] == u.L
    && forall v | 0 <= v < |k.asg| :: LiveOk(k, m, env, i, v)
  }

  /** m' differs from m at most in scratch registers, xmm registers, the trace and location loc. */
  ghost predicate Same(m: Mach, m': Mach, loc: int)
  {
    && |m.reg| == |m'.reg| == 16 && |m.stack| == |m'.stack|
    && (forall r | 0 <= r < 16 && Saved(r) && r != loc :: m'.reg[r] == m.reg[r])
    && (forall s | 0 <= s < |m.stack| && loc != -s - 1 :: m'.stack[s] == m.stack[s])
  }

  lemma HoldsScratch(u: Unit, k: Layout, m: Mach, m': Mach, env: map<int, nat>, i: nat)
    requires SoundLayout(k) && Holds(u, k, m, env, i) && Same(m, m', RAX)
    ensures Holds(u, k, m', env, i)
  {
    forall v | 0 <= v < |k.asg|
      ensures LiveOk(k, m', env, i, v)
    {
      assert LiveOk(k, m, env, i, v) && LocSound(k, v);
    }
  }

  /** After operation i wrote its target, everything live at i+1 is in place. */
  lemma HoldsNext(u: Unit, k: Layout, m: Mach, m': Mach, env: map<int, nat>, i: nat, target: nat, val: nat)
    requires SoundLayout(k) && Holds(u, k, m, env, i) && target < |k.asg| && Same(m, m', k.asg[target])
    requires forall v | 0 <= v < |k.ini| :: k.ini[v] == i <==> v == target
    requires k.end[target] != -1 ==> Reading(m', k.asg[target]) == val
    ensures Holds(u, k, m', env[target := val], i + 1)
  {
    var j, env' := i + 1, env[target := val];
    assert LocSound(k, target);
    forall v | 0 <= v < |k.asg|
      ensures LiveOk(k, m', env', j, v)
    {
      assert LiveOk(k, m, env, i, v) && LocSound(k, v) && PairSound(k, v, target);
    }
  }

  /** LOAD puts the operand's value into the register it was asked for. */
  lemma LoadIntoOk(w: World, u: Unit, k: Layout, m: Mach, env: map<int, nat>, i: nat, fld: int, r: int)
    requires SoundLayout(k) && Holds(u, k, m, env, i) && OperandOk(u, k, i, fld) && 0 <= r < 16
    ensures Readable(u, env, fld)
    ensures Exec(w, m, LoadInto(u, k.asg, fld, r)) == m.(reg := m.reg[r := Operand(u, env, fld)])
  {
    if fld >= 0 {
      assert LiveOk(k, m, env, i, fld) && LocSound(k, fld);
      if k.asg[fld] < 0 {
        ExecOne(w, m, Load(r, -k.asg[fld] - 1));
      } else if r != k.asg[fld] {
        ExecOne(w, m, Mov(r, k.asg[fld]));
      } else {
        assert m.reg[r := m.reg[r]] == m.reg;
      }
    } else {
      ExecOne(w, m, MovImm(r, u.ctts[-fld - 1]));
    }
  }

  /** LOAD_RA / LOAD_RB: afterwards the source register has the operand, and only scratch changed. */
  lemma FetchOk(w: World, u: Unit, k: Layout, m: Mach, env: map<int, nat>, i: nat, fld: int, scratch: int)
    requires SoundLayout(k) && Holds(u, k, m, env, i) && OperandOk(u, k, i, fld) && (scratch == RDI || scratch == RSI)
    ensures var m' := Exec(w, m, Fetch(u, k.asg, fld, scratch));
            var r := SourceReg(k.asg, fld, scratch);
            Same(m, m', RAX) && m'.trace == m.trace && 0 <= r < 16 && (Saved(r) || r == scratch) &&
            m'.reg[r] == Operand(u, env, fld) &&
            forall q | 0 <= q < 16 && q != scratch :: m'.reg[q] == m.reg[q]
  {
    if fld >= 0 {
      assert LiveOk(k, m, env, i, fld) && LocSound(k, fld);
    }
    LoadIntoOk(w, u, k, m, env, i, fld, scratch);
  }

  /** SAVE_RESULT copies rax to the target's location. */
  lemma SaveResultOk(w: World, k: Layout, m: Mach, target: nat)
    requires SoundLayout(k) && target < |k.asg| && target != NO_TARGET && |m.reg| == 16 && k.top <= |m.stack|
    ensures var m' := Exec(w, m, SaveResult(k.asg, target));
            Same(m, m', k.asg[target]) && m'.trace == m.trace && Reading(m', k.asg[target]) == m.reg[RAX]
  {
    assert LocSound(k, target);
    if k.asg[target] > 0 {
      ExecOne(w, m, Mov(k.asg[target], RAX));
    } else if k.asg[target] < 0 {
      ExecOne(w, m, Store(-k.asg[target] - 1, RAX));
    }
  }

  lemma SaveXOk(w: World, k: Layout, m: Mach, target: nat, x: bool)
    requires SoundLayout(k) && target < |k.asg| && target != NO_TARGET && |m.reg| == 16 && k.top <= |m.stack|
    ensures var m' := Exec(w, m, SaveX(k.asg, target, x));
            Same(m, m', k.asg[target]) && m'.trace == m.trace && Reading(m', k.asg[target]) == if x then m.x1 else m.x0
  {
    assert LocSound(k, target);
    if k.asg[target] >= 0 {
      ExecOne(w, m, FromX(k.asg[target], x));
    } else {
      ExecAppend(w, m, [FromX(RAX, x)], SaveResult(k.asg, target));
      ExecOne(w, m, FromX(RAX, x));
      SaveResultOk(w, k, Do(w, m, FromX(RAX, x)), target);
    }
  }

  lemma SameChain(m: Mach, n: Mach, o: Mach, loc: int)
    requires Same(m, n, RAX) && Same(n, o, loc)
    ensures Same(m, o, loc)
  {
  }

  lemma ExecThree(w: World, m: Mach, a: Instr, b: Instr, c: Instr)
    ensures Exec(w, m, [a, b, c]) == Do(w, Do(w, Do(w, m, a), b), c)
  {
    assert [a, b, c] == [a] + ([b] + [c]);
    ExecAppend(w, m, [a], [b] + [c]);
    ExecOne(w, m, a);
    ExecAppend(w, Do(w, m, a), [b], [c]);
    ExecOne(w, Do(w, m, a), b);
    ExecOne(w, Do(w, Do(w, m, a), b), c);
  }

  /** The operands of a two-operand operation, fetched one after the other. */
  lemma FetchBoth(w: World, u: Unit, k: Layout, m: Mach, env: map<int, nat>, i: nat, a: int, b: int)
    requires SoundLayout(k) && Holds(u, k, m, env, i) && OperandOk(u, k, i, a) && OperandOk(u, k, i, b)
    ensures var m' := Exec(w, m, Fetch(u, k.asg, a, RDI) + Fetch(u, k.asg, b, RSI));
            var ra, rb := SourceReg(k.asg, a, RDI), SourceReg(k.asg, b, RSI);
            Same(m, m', RAX) && m'.trace == m.trace && 0 <= ra < 16 && 0 <= rb < 16 &&
            m'.reg[ra] == Operand(u, env, a) && m'.reg[rb] == Operand(u, env, b)
  {
    ExecAppend(w, m, Fetch(u, k.asg, a, RDI), Fetch(u, k.asg, b, RSI));
    var m1 := Exec(w, m, Fetch(u, k.asg, a, RDI));
    FetchOk(w, u, k, m, env, i, a, RDI);
    HoldsScratch(u, k, m, m1, env, i);
    FetchOk(w, u, k, m1, env, i, b, RSI);
  }

  /** The xmm sequence of an operation leaves its value in xmm0, that of `%` in xmm1. */
  lemma CoreOk(w: World, m: Mach, op: Op, ra: int, rb: int)
    requires |m.reg| == 16 && 0 <= ra < 16 && 0 <= rb < 16
    ensures Exec(w, m, [ToX(false, ra), ToX(true, rb), Sd(op)]) == m.(x0 := Arith(w, op, m.reg[ra], m.reg[rb]),
        x1 := m.reg[rb])
    ensures var q := w.mul(w.floor(w.div(m.reg[ra], m.reg[rb])), m.reg[rb]);
            Exec(w, m, [ToX(false, ra), ToX(true, rb), DivSd, Floor, MulSd, ToX(true, ra), RevSub]) ==
            m.(x0 := q, x1 := w.sub(m.reg[ra], q))
  {
    ExecThree(w, m, ToX(false, ra), ToX(true, rb), Sd(op));
    var c1, c2, c3 := [ToX(false, ra), ToX(true, rb), DivSd], [Floor, MulSd, ToX(true, ra)], [RevSub];
    ExecThree(w, m, c1[0], c1[1], c1[2]);
    var m1 := Exec(w, m, c1);
    ExecThree(w, m1, c2[0], c2[1], c2[2]);
    ExecAppend(w, m, c1, c2);
    ExecAppend(w, m, c1 + c2, c3);
    ExecOne(w, Exec(w, m1, c2), RevSub);
    assert [ToX(false, ra), ToX(true, rb), DivSd, Floor, MulSd, ToX(true, ra), RevSub] == c1 + c2 + c3;
  }

  // --- what the code leaves alone -----------------------------------------------------------

  /** m' has made m's calls and possibly more; every preserved register and every word of the stack other
      than location loc is what the collections in between made of it. */
  ghost predicate Kept(w: World, m: Mach, m': Mach, loc: int)
  {
    && |m.reg| == |m'.reg| == 16 && |m.stack| == |m'.stack| && m.trace <= m'.trace
    && (forall r | 0 <= r < 16 && Saved(r) && r != loc :: m'.reg[r] == Carried(w, m'.trace, |m.trace|, m.reg[r]))
    && (forall s | 0 <= s < |m.stack| && loc != -s - 1 :: m'.stack[s] == Carried(w, m'.trace, |m.trace|, m.stack[s]))
  }

  lemma SameKept(w: World, m: Mach, m': Mach, loc: int)
    requires Same(m, m', loc) && m'.trace == m.trace
    ensures Kept(w, m, m', loc)
  {
  }

  lemma {:induction false} CarriedChain(w: World, t: seq<Event>, t': seq<Event>, n: nat, x: nat)
    requires t <= t' && n <= |t|
    ensures Carried(w, t', n, x) == Carried(w, t', |t|, Carried(w, t, n, x))
    decreases |t'|
  {
    if |t'| > |t| {
      CarriedChain(w, t, t'[..|t'| - 1], n, x);
    } else {
      assert t == t';
    }
  }

  /** m' is m right after a call, t the calls so far. */
  ghost predicate Called(w: World, m: Mach, m': Mach)
  {
    && |m.reg| == |m'.reg| == 16 && |m.stack| == |m'.stack| && m'.trace != [] && m'.trace[..|m'.trace| - 1] == m.trace
    && (forall r | 0 <= r < 16 && Saved(r) :: m'.reg[r] == Carry(w, m'.trace, m.reg[r]))
    && (forall s | 0 <= s < |m.stack| :: m'.stack[s] == Carry(w, m'.trace, m.stack[s]))
    && m'.reg[RAX] == w.result(m'.trace)
  }

  lemma CalledKept(w: World, m: Mach, m1: Mach, m2: Mach, m3: Mach, loc: int)
    requires Same(m, m1, RAX) && m1.trace == m.trace && Called(w, m1, m2) && Same(m2, m3, loc) && m3.trace == m2.trace
    ensures Kept(w, m, m3, loc)
  {
    var t := m3.trace;
    forall x
      ensures Carried(w, t, |m.trace|, x) == Carry(w, t, x)
    {
      assert Carried(w, t[..|t| - 1], |m.trace|, x) == x;
    }
  }

  /** What a collection does to the variables it does to their places: everything live is still in
      place, and so is L. */
  lemma HoldsCarried(w: World, u: Unit, k: Layout, m: Mach, m': Mach, env: map<int, nat>, i: nat)
    requires SoundLayout(k) && Holds(u, k, m, env, i) && FixesL(w, u) && Called(w, m, m')
    ensures Holds(u, k, m', CarryEnv(w, m'.trace, env), i)
  {
    forall v | 0 <= v < |k.asg|
      ensures LiveOk(k, m', CarryEnv(w, m'.trace, env), i, v)
    {
      assert LiveOk(k, m, env, i, v) && LocSound(k, v);
    }
  }

  // --- one operation ------------------------------------------------------------------------

  /** The location an operation may change. */
  function LocOf(k: Layout, t: Tac): int
  {
    if 0 <= t.target < |k.asg| && !Silent(t.op) then k.asg[t.target] else RAX
  }

  /** Emitted code and operation agree: same calls with the same words, every variable live afterwards
      where it should be, everything else as it was or as collections made it. */
  ghost predicate Simulates(w: World, u: Unit, k: Layout, m: Mach, s: State, before: seq<Tac>, t: Tac)
    requires Sized(k)
  {
    var m', s' := Exec(w, m, EmitNext(u, k.asg, k.lvar, before, t)), Run1(w, u, s, t);
    Holds(u, k, m', s'.env, |before| + 1) && m'.trace == s'.trace && Kept(w, m, m', LocOf(k, t))
  }

  /** What an operation can rely on. */
  ghost predicate Ready(w: World, u: Unit, k: Layout, m: Mach, s: State, before: seq<Tac>, t: Tac)
  {
    SoundLayout(k) && FixesL(w, u) && Holds(u, k, m, s.env, |before|) && m.trace == s.trace && OpOk(u, k, t, |before|)
  }

  lemma ArithStep(w: World, u: Unit, k: Layout, m: Mach, s: State, before: seq<Tac>, t: Tac)
    requires Ready(w, u, k, m, s, before, t) && IsArith(t.op)
    ensures Simulates(w, u, k, m, s, before, t)
  {
    var i := |before|;
    var ra, rb := SourceReg(k.asg, t.a, RDI), SourceReg(k.asg, t.b, RSI);
    var fetch := Fetch(u, k.asg, t.a, RDI) + Fetch(u, k.asg, t.b, RSI);
    var isMod := t.op == Mod;
    var core := if isMod then [ToX(false, ra), ToX(true, rb), DivSd, Floor, MulSd, ToX(true, ra), RevSub]
                else [ToX(false, ra), ToX(true, rb), Sd(t.op)];
    FetchBoth(w, u, k, m, s.env, i, t.a, t.b);
    var m1 := Exec(w, m, fetch);
    CoreOk(w, m1, t.op, ra, rb);
    var m2 := Exec(w, m1, core);
    SaveXOk(w, k, m2, t.target, isMod);
    ExecAppend(w, m, fetch, core);
    ExecAppend(w, m, fetch + core, SaveX(k.asg, t.target, isMod));
    var m3 := Exec(w, m2, SaveX(k.asg, t.target, isMod));
    assert Emit(u, k.asg, k.lvar, t) == fetch + core + SaveX(k.asg, t.target, isMod);
    SameChain(m, m2, m3, k.asg[t.target]);
    SameKept(w, m, m3, k.asg[t.target]);
    HoldsNext(u, k, m, m3, s.env, i, t.target, if isMod then m2.x1 else m2.x0);
    hide Kept, Same, Exec;
  }

  lemma CopyStep(w: World, u: Unit, k: Layout, m: Mach, s: State, before: seq<Tac>, t: Tac)
    requires Ready(w, u, k, m, s, before, t) && t.op == LCopy
    ensures Simulates(w, u, k, m, s, before, t)
  {
    var i, loc := |before|, k.asg[t.target];
    assert LocSound(k, t.target);
    var v := Operand(u, s.env, t.a);
    if loc >= 0 {
      LoadIntoOk(w, u, k, m, s.env, i, t.a, loc);
      var m1 := Exec(w, m, LoadInto(u, k.asg, t.a, loc));
      SameKept(w, m, m1, loc);
      HoldsNext(u, k, m, m1, s.env, i, t.target, v);
    } else {
      LoadIntoOk(w, u, k, m, s.env, i, t.a, RAX);
      var m1 := m.(reg := m.reg[RAX := v]);
      ExecAppend(w, m, LoadInto(u, k.asg, t.a, RAX), SaveResult(k.asg, t.target));
      SaveResultOk(w, k, m1, t.target);
      var m2 := Exec(w, m1, SaveResult(k.asg, t.target));
      SameChain(m, m1, m2, loc);
      SameKept(w, m, m2, loc);
      HoldsNext(u, k, m, m2, s.env, i, t.target, v);
    }
  }

  /** The argument set-up of a runtime call: L in rdi, then up to two operands in rsi and rdx. */
  function SetUp(u: Unit, asg: seq<int>, lvar: nat, t: Tac): seq<Instr>
  {
    [Load(RDI, lvar)] + (if Reads(t.op) > 0 then LoadInto(u, asg, t.a, RSI) else []) +
    (if Reads(t.op) > 1 then LoadInto(u, asg, t.b, RDX) else [])
  }

  lemma SetUpOk(w: World, u: Unit, k: Layout, m: Mach, env: map<int, nat>, t: Tac, i: nat)
    requires SoundLayout(k) && Holds(u, k, m, env, i) && OpOk(u, k, t, i) && IsCall(t.op)
    ensures var m' := Exec(w, m, SetUp(u, k.asg, k.lvar, t));
            Same(m, m', RAX) && m'.trace == m.trace && m'.reg[RDI] == u.L && Holds(u, k, m', env, i) &&
            (Reads(t.op) > 0 ==> m'.reg[RSI] == Operand(u, env, t.a)) &&
            (Reads(t.op) > 1 ==> m'.reg[RDX] == Operand(u, env, t.b))
  {
    var c1 := [Load(RDI, k.lvar)];
    var c2 := if Reads(t.op) > 0 then LoadInto(u, k.asg, t.a, RSI) else [];
    var c3 := if Reads(t.op) > 1 then LoadInto(u, k.asg, t.b, RDX) else [];
    ExecAppend(w, m, c1, c2);
    ExecAppend(w, m, c1 + c2, c3);
    ExecOne(w, m, Load(RDI, k.lvar));
    var m1 := Exec(w, m, c1);
    HoldsScratch(u, k, m, m1, env, i);
    if Reads(t.op) > 0 { LoadIntoOk(w, u, k, m1, env, i, t.a, RSI); }
    var m2 := Exec(w, m1, c2);
    HoldsScratch(u, k, m1, m2, env, i);
    if Reads(t.op) > 1 { LoadIntoOk(w, u, k, m2, env, i, t.b, RDX); }
    HoldsScratch(u, k, m, Exec(w, m, c1 + c2 + c3), env, i);
  }

  /** A runtime call with its arguments set up is the call of the three-address semantics. */
  lemma CallAgrees(w: World, u: Unit, m: Mach, s: State, t: Tac)
    requires IsCall(t.op) && |m.reg| == 16 && m.trace == s.trace && m.reg[RDI] == u.L
    requires Reads(t.op) > 0 ==> m.reg[RSI] == Operand(u, s.env, t.a)
    requires Reads(t.op) > 1 ==> m.reg[RDX] == Operand(u, s.env, t.b)
    ensures var m', s' := AfterCall(w, m, CallOf(t.op)), Run1(w, u, s, t);
            Called(w, m, m') && m'.trace == s'.trace &&
            s'.env == Assign(CarryEnv(w, m'.trace, s.env), if t.op == GStore then NO_TARGET else t.target, m'.reg[RAX])
  {
    RegistersAre(m);
  }

  /** What follows a call: the result goes to the target. */
  lemma AfterCallOk(w: World, u: Unit, k: Layout, m: Mach, m1: Mach, m2: Mach, env: map<int, nat>, i: nat, target: nat)
    requires SoundLayout(k) && FixesL(w, u) && Same(m, m1, RAX) && m1.trace == m.trace && Called(w, m1, m2) &&
        Holds(u, k, m1, env, i)
    requires target < |k.asg| && target != NO_TARGET && forall v | 0 <= v < |k.ini| :: k.ini[v] == i <==> v == target
    ensures var m3 := Exec(w, m2, SaveResult(k.asg, target));
            && Holds(u, k, m3, Assign(CarryEnv(w, m2.trace, env), target, m2.reg[RAX]), i + 1)
            && m3.trace == m2.trace && Kept(w, m, m3, k.asg[target])
  {
    HoldsCarried(w, u, k, m1, m2, env, i);
    SaveResultOk(w, k, m2, target);
    var m3 := Exec(w, m2, SaveResult(k.asg, target));
    HoldsNext(u, k, m2, m3, CarryEnv(w, m2.trace, env), i, target, m2.reg[RAX]);
    CalledKept(w, m, m1, m2, m3, k.asg[target]);
  }

  /** The code of a runtime call up to the return. */
  lemma RuntimeCode(w: World, u: Unit, k: Layout, m: Mach, s: State, t: Tac, i: nat) returns (m1: Mach, m2: Mach)
    requires SoundLayout(k) && Holds(u, k, m, s.env, i) && OpOk(u, k, t, i) && m.trace == s.trace && IsCall(t.op)
    ensures Same(m, m1, RAX) && m1.trace == m.trace && Holds(u, k, m1, s.env, i) && Called(w, m1, m2)
    ensures m2.trace == Run1(w, u, s, t).trace
    ensures Run1(w, u, s, t).env == Assign(CarryEnv(w, m2.trace, s.env), if t.op == GStore then NO_TARGET
        else t.target, m2.reg[RAX])
    ensures Exec(w, m, SetUp(u, k.asg, k.lvar, t) + [CallFn(CallOf(t.op))]) == m2
  {
    assert Sized(k);
    hide Run1, AfterCall, Same, Called, SetUp, SoundLayout, Holds, CarryEnv, Operand, OpOk;
    var setup, fn := SetUp(u, k.asg, k.lvar, t), CallOf(t.op);
    SetUpOk(w, u, k, m, s.env, t, i);
    m1 := Exec(w, m, setup);
    HasRegs(w, u, k, m1, s.env, i);
    m2 := AfterCall(w, m1, fn);
    ExecAppend(w, m, setup, [CallFn(fn)]);
    ExecOne(w, m1, CallFn(fn));
    CallAgrees(w, u, m1, s, t);
  }

  lemma CallStep(w: World, u: Unit, k: Layout, m: Mach, s: State, before: seq<Tac>, t: Tac)
    requires Ready(w, u, k, m, s, before, t) && IsCall(t.op)
    ensures Simulates(w, u, k, m, s, before, t)
  {
    assert Sized(k);
    hide Run1, Same, Kept, Called, SetUp, SaveResult, SoundLayout, Holds, FixesL, CarryEnv, Exec, Emit, CallOf;
    var i := |before|;
    var m1, m2 := RuntimeCode(w, u, k, m, s, t, i);
    EmitIs(u, k, t);
    if t.op == GStore {
      HoldsCarried(w, u, k, m1, m2, s.env, i);
      HoldsSkip(u, k, m2, CarryEnv(w, m2.trace, s.env), i);
      SameSelf(m2);
      CalledRegs(w, m1, m2);
      CalledKept(w, m, m1, m2, m2, RAX);
    } else {
      ExecAppend(w, m, SetUp(u, k.asg, k.lvar, t) + [CallFn(CallOf(t.op))], SaveResult(k.asg, t.target));
      AfterCallOk(w, u, k, m, m1, m2, s.env, i, t.target);
    }
  }

  lemma CalledRegs(w: World, m: Mach, m': Mach)
    requires Called(w, m, m')
    ensures |m'.reg| == 16
  {
  }

  lemma EmitIs(u: Unit, k: Layout, t: Tac)
    requires IsCall(t.op)
    ensures var c := SetUp(u, k.asg, k.lvar, t) + [CallFn(CallOf(t.op))];
            Emit(u, k.asg, k.lvar, t) == if t.op == GStore then c else c + SaveResult(k.asg, t.target)
  {
  }

  lemma HasRegs(w: World, u: Unit, k: Layout, m: Mach, env: map<int, nat>, i: nat)
    requires Sized(k) && Holds(u, k, m, env, i)
    ensures |m.reg| == 16 && k.lvar < k.top <= |m.stack| && m.stack[k.lvar] == u.L
  {
  }

  lemma SameSelf(m: Mach)
    ensures |m.reg| == 16 ==> Same(m, m, RAX)
  {
  }

  lemma HoldsSkip(u: Unit, k: Layout, m: Mach, env: map<int, nat>, i: nat)
    requires Sized(k) && Holds(u, k, m, env, i) && forall v | 0 <= v < |k.ini| :: k.ini[v] != i
    ensures Holds(u, k, m, env, i + 1)
  {
    var j := i + 1;
    forall v | 0 <= v < |k.asg|
      ensures LiveOk(k, m, env, j, v)
    {
      assert LiveOk(k, m, env, i, v);
    }
  }

  // --- calls of the program's own -----------------------------------------------------------

  /** Operand fld is a constant, or the machine holds it where the layout says. */
  predicate Found(u: Unit, k: Layout, m: Mach, env: map<int, nat>, fld: int)
  {
    if fld < 0 then -fld - 1 < |u.ctts|
    else
      && fld < |k.asg| && fld in env && (Saved(k.asg[fld]) || InStack(k, k.asg[fld]))
      && Reading(m, k.asg[fld]) == env[fld]
  }

  /** The n operations in front of a call set up its arguments, and each argument can still be read. */
  ghost predicate ArgsFound(u: Unit, k: Layout, m: Mach, s: State, before: seq<Tac>, n: nat)
  {
    n <= |before| && n <= |s.args| && forall j | 1 <= j <= n :: ArgFound(u, k, m, s, before, j)
  }

  predicate ArgFound(u: Unit, k: Layout, m: Mach, s: State, before: seq<Tac>, j: nat)
    requires 1 <= j <= |before| && j <= |s.args|
  {
    Found(u, k, m, s.env, before[|before| - j].a) && s.args[|s.args| - j] == Operand(u, s.env, before[|before| - j].a)
  }

  /** m' is m with rsp lowered by `align` words: same preserved registers, and m's stack above. */
  ghost predicate Lowered(m: Mach, m': Mach, align: nat)
  {
    && |m.reg| == |m'.reg| == 16 && |m'.stack| == align + |m.stack| && m'.stack[align..] == m.stack &&
        m'.trace == m.trace
    && forall r | 0 <= r < 16 && Saved(r) :: m'.reg[r] == m.reg[r]
  }

  /** The last n arguments from the lo-th on are in their words. */
  ghost predicate ArgsIn(m: Mach, s: State, n: nat, lo: int)
  {
    n <= |s.args| && n <= |m.stack| && forall x | 0 <= x < n && lo <= x :: m.stack[x] == s.args[|s.args| - n + x]
  }

  /** One round of the argument loop puts the operand into its word, whatever rsp was lowered by. */
  lemma ArgStored(w: World, u: Unit, k: Layout, m: Mach, m': Mach, env: map<int, nat>, fld: int, align: nat, s: nat)
    requires Lowered(m, m', align) && k.top <= |m.stack| && Found(u, k, m, env, fld) && s < align
    ensures var r := Exec(w, m', StoreArg(u, k.asg, align, fld, s));
            && Lowered(m, r, align) && r.stack == m'.stack[s := Operand(u, env, fld)]
            && (forall q | 0 < q < 16 :: r.reg[q] == m'.reg[q])
  {
    if fld < 0 {
      ExecTwo(w, m', MovImm(RAX, u.ctts[-fld - 1]), Store(s, RAX));
    } else if k.asg[fld] < 0 {
      var slot := -k.asg[fld] - 1;
      assert m'.stack[slot + align] == m'.stack[align..][slot];
      ExecTwo(w, m', Load(RAX, slot + align), Store(s, RAX));
    } else {
      ExecOne(w, m', Store(s, k.asg[fld]));
    }
  }

  lemma ExecNone(w: World, m: Mach)
    ensures Exec(w, m, []) == m
  {
  }

  lemma ExecTwo(w: World, m: Mach, a: Instr, b: Instr)
    ensures Exec(w, m, [a, b]) == Do(w, Do(w, m, a), b)
  {
    assert [a, b] == [a] + [b];
    ExecAppend(w, m, [a], [b]);
    ExecOne(w, m, a);
    ExecOne(w, Do(w, m, a), b);
  }

  /** The argument loop: the k-th argument is in the k-th word from rsp, and no word of the caller's
      frame has changed. */
  lemma {:induction false} ArgumentsStored(w: World, u: Unit, k: Layout, m: Mach, m': Mach, s: State,
                                          before: seq<Tac>, n: nat, j: nat)
    requires Lowered(m, m', AlignedArgs(n)) && k.top <= |m.stack| && ArgsFound(u, k, m, s, before, n) && j <= n
    ensures var r := Exec(w, m', StoreArgs(u, k.asg, n, before, j));
            && Lowered(m, r, AlignedArgs(n)) && (forall q | 0 < q < 16 :: r.reg[q] == m'.reg[q])
            && ArgsIn(r, s, n, n - j)
    decreases j
  {
    hide Exec, StoreArg, Found, Operand;
    if j == 0 {
      ExecNone(w, m');
    } else {
      ArgumentsStored(w, u, k, m, m', s, before, n, j - 1);
      var c := StoreArgs(u, k.asg, n, before, j - 1);
      var m1 := Exec(w, m', c);
      var fld := before[|before| - j].a;
      assert ArgFound(u, k, m, s, before, j);
      ArgStored(w, u, k, m, m1, s.env, fld, AlignedArgs(n), n - j);
      ExecAppend(w, m', c, StoreArg(u, k.asg, AlignedArgs(n), fld, n - j));
    }
  }

  /** Callee, L and argument count, and rsp lowered for the arguments. */
  function CallSetUp(u: Unit, asg: seq<int>, lvar: nat, t: Tac): seq<Instr>
    requires t.b >= 0
  {
    LoadInto(u, asg, t.a, RCX) + [Load(RDI, lvar), MovImm(RSI, t.b)] +
        (if t.b > 0 then [Lower(AlignedArgs(t.b))] else [])
  }

  lemma CallSetUpOk(w: World, u: Unit, k: Layout, m: Mach, env: map<int, nat>, t: Tac, i: nat)
    requires SoundLayout(k) && Holds(u, k, m, env, i) && OperandOk(u, k, i, t.a) && t.b >= 0
    ensures var r := Exec(w, m, CallSetUp(u, k.asg, k.lvar, t));
            Lowered(m, r, AlignedArgs(t.b)) && r.reg[RCX] == Operand(u, env, t.a) && r.reg[RDI] == u.L &&
                r.reg[RSI] == t.b
  {
    var c1, c2 := LoadInto(u, k.asg, t.a, RCX), [Load(RDI, k.lvar), MovImm(RSI, t.b)];
    var c3 := if t.b > 0 then [Lower(AlignedArgs(t.b))] else [];
    ExecAppend(w, m, c1, c2);
    ExecAppend(w, m, c1 + c2, c3);
    LoadIntoOk(w, u, k, m, env, i, t.a, RCX);
    var m1 := Exec(w, m, c1);
    ExecTwo(w, m1, c2[0], c2[1]);
    var m2 := Exec(w, m1, c2);
    if t.b > 0 {
      ExecOne(w, m2, c3[0]);
    } else {
      assert Exec(w, m2, c3) == m2;
    }
  }

  /** rsp goes back up after the call: what remains is the machine of before, called. */
  lemma Raised(w: World, m: Mach, m1: Mach, fn: Fn, align: nat)
    requires Lowered(m, m1, align)
    ensures var m2 := AfterCall(w, m1, fn);
            align <= |m2.stack| && Called(w, m, m2.(stack := m2.stack[align..]))
  {
    var m2 := AfterCall(w, m1, fn);
    forall s | 0 <= s < |m.stack|
      ensures m2.stack[align..][s] == Carry(w, m2.trace, m.stack[s])
    {
      assert m1.stack[align..][s] == m1.stack[s + align];
    }
  }

  lemma EmitCallIs(u: Unit, asg: seq<int>, lvar: nat, before: seq<Tac>, t: Tac)
    requires 0 <= t.b <= |before|
    ensures EmitCall(u, asg, lvar, before, t) ==
            CallSetUp(u, asg, lvar, t) + StoreArgs(u, asg, t.b, before, t.b) + [CallFn(Indirect(t.b))] +
            (if t.b > 0 then [Raise(AlignedArgs(t.b))] else []) + SaveResult(asg, t.target)
  {
  }

  /** The call itself and the return of rsp, as the three-address semantics has them. */
  lemma IndirectAgrees(w: World, u: Unit, m: Mach, m2: Mach, s: State, t: Tac)
    requires t.op == Call && t.b >= 0 && t.b <= |s.args| && Lowered(m, m2, AlignedArgs(t.b)) && m.trace == s.trace
    requires m2.reg[RCX] == Operand(u, s.env, t.a) && m2.reg[RDI] == u.L && m2.reg[RSI] == t.b
    requires ArgsIn(m2, s, t.b, 0)
    ensures var m3, s' := AfterCall(w, m2, Indirect(t.b)), Run1(w, u, s, t);
            && m3.trace == s'.trace && m3.trace != [] && |m3.reg| == 16
            && s'.env == Assign(CarryEnv(w, m3.trace, s.env), t.target, m3.reg[RAX])
  {
    var n := t.b;
    RegistersAre(m2);
    assert m2.stack[..n] == LastArgs(s.args, n);
    assert [m2.reg[RCX]] + [m2.reg[RDI], m2.reg[RSI]] == [m2.reg[RCX], m2.reg[RDI], m2.reg[RSI]];
  }

  /** The code in front of a call: callee, L and count in their registers, the arguments in their words. */
  lemma BeforeCall(w: World, u: Unit, k: Layout, m: Mach, s: State, before: seq<Tac>, t: Tac) returns (m1: Mach,
                   m2: Mach)
    requires Ready(w, u, k, m, s, before, t) && t.op == Call && 0 <= t.b && ArgsFound(u, k, m, s, before, t.b)
    ensures t.b <= |before| && t.b <= |s.args| && m1 == Exec(w, m, CallSetUp(u, k.asg, k.lvar, t))
    ensures m2 == Exec(w, m1, StoreArgs(u, k.asg, t.b, before, t.b)) && Lowered(m, m2, AlignedArgs(t.b))
    ensures |m2.reg| == 16 && m2.reg[RCX] == Operand(u, s.env, t.a) && m2.reg[RDI] == u.L && m2.reg[RSI] == t.b
    ensures ArgsIn(m2, s, t.b, 0)
  {
    assert Sized(k);
    hide SoundLayout, FixesL, Operand, CallSetUp, StoreArgs, Exec, Holds, OpOk, OperandOk, ArgsFound, Lowered,
        AlignedArgs, ArgsIn;
    AlignedEnough(t.b);
    CalleeOk(u, k, t, |before|);
    ArgsCount(u, k, m, s, before, t.b);
    HasRegs(w, u, k, m, s.env, |before|);
    CallSetUpOk(w, u, k, m, s.env, t, |before|);
    m1 := Exec(w, m, CallSetUp(u, k.asg, k.lvar, t));
    LoweredRegs(m, m1, AlignedArgs(t.b));
    ArgumentsStored(w, u, k, m, m1, s, before, t.b, t.b);
    m2 := Exec(w, m1, StoreArgs(u, k.asg, t.b, before, t.b));
    LoweredRegs(m, m2, AlignedArgs(t.b));
  }

  /** The code of a call up to the return: callee and arguments as asked for, rsp back where it was. */
  lemma CallCode(w: World, u: Unit, k: Layout, m: Mach, s: State, before: seq<Tac>, t: Tac) returns (m4: Mach)
    requires Ready(w, u, k, m, s, before, t) && t.op == Call && 0 <= t.b && ArgsFound(u, k, m, s, before, t.b)
    ensures Called(w, m, m4) && m4.trace == Run1(w, u, s, t).trace
    ensures Run1(w, u, s, t).env == Assign(CarryEnv(w, m4.trace, s.env), t.target, m4.reg[RAX])
    ensures Exec(w, m, EmitCall(u, k.asg, k.lvar, before, t)) == Exec(w, m4, SaveResult(k.asg, t.target))
  {
    hide AlignedArgs, Run1, Called, CarryEnv, Operand, EmitCall, AfterCall, Exec, ArgsFound, Lowered, OpOk, Holds,
        SoundLayout, StoreArgs, CallSetUp;
    var m1, m2 := BeforeCall(w, u, k, m, s, before, t);
    IndirectAgrees(w, u, m, m2, s, t);
    Raised(w, m, m2, Indirect(t.b), AlignedArgs(t.b));
    m4 := AfterCall(w, m2, Indirect(t.b));
    m4 := m4.(stack := m4.stack[AlignedArgs(t.b)..]);
    CallTail(w, u, k, m, m1, m2, before, t);
  }

  lemma AlignedEnough(n: nat)
    ensures n <= AlignedArgs(n) <= n + 1 && AlignedArgs(n) % 2 == 0
  {
  }

  lemma CalleeOk(u: Unit, k: Layout, t: Tac, i: nat)
    requires Sized(k) && OpOk(u, k, t, i) && t.op == Call
    ensures OperandOk(u, k, i, t.a)
  {
  }

  lemma LoweredRegs(m: Mach, m': Mach, align: nat)
    requires Lowered(m, m', align)
    ensures |m.reg| == |m'.reg| == 16 && |m'.stack| == align + |m.stack|
  {
  }

  lemma ArgsCount(u: Unit, k: Layout, m: Mach, s: State, before: seq<Tac>, n: nat)
    requires ArgsFound(u, k, m, s, before, n)
    ensures n <= |before| && n <= |s.args|
  {
  }

  lemma CallTail(w: World, u: Unit, k: Layout, m: Mach, m1: Mach, m2: Mach, before: seq<Tac>, t: Tac)
    requires 0 <= t.b <= |before| && |m2.reg| == 16
    requires m1 == Exec(w, m, CallSetUp(u, k.asg, k.lvar, t)) &&
        m2 == Exec(w, m1, StoreArgs(u, k.asg, t.b, before, t.b))
    ensures var m3, align := AfterCall(w, m2, Indirect(t.b)), AlignedArgs(t.b);
            align <= |m3.stack| && |m3.reg| == 16 ==>
              Exec(w, m, EmitCall(u, k.asg, k.lvar, before, t)) == Exec(w, m3.(stack := m3.stack[align..]),
                  SaveResult(k.asg, t.target))
  {
    hide AfterCall, CallSetUp, StoreArgs, EmitCall, SaveResult;
    var n: nat := t.b;
    var align := AlignedArgs(n);
    var c1, c2, c3 := CallSetUp(u, k.asg, k.lvar, t), StoreArgs(u, k.asg, n, before, n), [CallFn(Indirect(n))];
    var c4, c5 := if n > 0 then [Raise(align)] else [], SaveResult(k.asg, t.target);
    EmitCallIs(u, k.asg, k.lvar, before, t);
    ExecAppend(w, m, c1, c2);
    ExecAppend(w, m, c1 + c2, c3);
    ExecAppend(w, m, c1 + c2 + c3, c4);
    ExecAppend(w, m, c1 + c2 + c3 + c4, c5);
    ExecOne(w, m2, CallFn(Indirect(n)));
    var m3 := AfterCall(w, m2, Indirect(n));
    ExecOne(w, m3, Raise(align));
    ExecNone(w, m3);
    assert m3.stack[0..] == m3.stack;
    hide Exec;
  }

  lemma IndirectStep(w: World, u: Unit, k: Layout, m: Mach, s: State, before: seq<Tac>, t: Tac)
    requires Ready(w, u, k, m, s, before, t) && t.op == Call && 0 <= t.b && ArgsFound(u, k, m, s, before, t.b)
    ensures Simulates(w, u, k, m, s, before, t)
  {
    hide Run1, Same, Kept, Called, FixesL, CarryEnv, EmitCall, Exec, SaveResult, Holds;
    ArgsCount(u, k, m, s, before, t.b);
    var m4 := CallCode(w, u, k, m, s, before, t);
    hide ArgsFound;
    HasRegs(w, u, k, m, s.env, |before|);
    SameSelf(m);
    AfterCallOk(w, u, k, m, m, m4, s.env, |before|, t.target);
  }

  /** An argument operation emits nothing and has its operand in place; nor does a mark. */
  lemma ArgStep(w: World, u: Unit, k: Layout, m: Mach, s: State, before: seq<Tac>, t: Tac)
    requires Ready(w, u, k, m, s, before, t) && (t.op == Arg || Idle(t.op))
    ensures Simulates(w, u, k, m, s, before, t)
  {
    HoldsSkip(u, k, m, s.env, |before|);
    HasRegs(w, u, k, m, s.env, |before|);
    SameSelf(m);
    SameKept(w, m, m, RAX);
  }

  // --- whole chunks -------------------------------------------------------------------------

  /** The operations in front of a call that set up its arguments. */
  ghost predicate CallOk(ops: seq<Tac>, i: nat)
    requires i < |ops|
  {
    ops[i].op == Call ==> 0 <= ops[i].b <= i && forall q | i - ops[i].b <= q < i :: ops[q].op == Arg
  }

  /** A chunk of straight-line code, every operation in order. */
  ghost predicate ChunkOk(u: Unit, k: Layout, ops: seq<Tac>)
    requires Sized(k)
  {
    forall i | 0 <= i < |ops| :: OpOk(u, k, ops[i], i) && CallOk(ops, i)
  }

  /** No operation writes to the location. */
  ghost predicate Unwritten(k: Layout, loc: int)
    requires Sized(k)
  {
    forall v | 0 <= v < |k.asg| && k.ini[v] >= 0 :: k.asg[v] != loc
  }

  /** A register that calls preserve and a word of the stack that are no variable's, or a parameter's, are as they
      were or as collections made them. */
  ghost predicate Untouched(w: World, k: Layout, m: Mach, m': Mach)
    requires Sized(k)
  {
    && |m.reg| == |m'.reg| == 16 && |m.stack| == |m'.stack| && m.trace <= m'.trace
    && (forall r | 0 <= r < 16 && Saved(r) && Unwritten(k, r) :: m'.reg[r] == Carried(w, m'.trace, |m.trace|, m.reg[r]))
    && (forall s | 0 <= s < |m.stack| && Unwritten(k, -s - 1) ::
          m'.stack[s] == Carried(w, m'.trace, |m.trace|, m.stack[s]))
  }

  lemma UntouchedNext(w: World, u: Unit, k: Layout, m: Mach, m1: Mach, m2: Mach, t: Tac, i: nat)
    requires Sized(k) && Untouched(w, k, m, m1) && Kept(w, m1, m2, LocOf(k, t)) && OpOk(u, k, t, i)
    ensures Untouched(w, k, m, m2)
  {
    forall x
      ensures Carried(w, m2.trace, |m.trace|, x) == Carried(w, m2.trace, |m1.trace|, Carried(w, m1.trace, |m.trace|, x))
    {
      CarriedChain(w, m1.trace, m2.trace, |m.trace|, x);
    }
  }

  /** After any prefix of the chunk, machine and three-address state agree: the same calls with the same
      words so far, every live variable where its location says, nothing else disturbed. */
  ghost predicate Agree(w: World, u: Unit, k: Layout, m: Mach, s: State, ops: seq<Tac>)
    requires Sized(k)
  {
    var m', s' := Exec(w, m, EmitAll(u, k.asg, k.lvar, ops)), Run(w, u, s, ops);
    Holds(u, k, m', s'.env, |ops|) && m'.trace == s'.trace && Untouched(w, k, m, m')
  }

  /** s1 is s0 with the arguments set up by the operations from p on. */
  ghost predicate LinedUp(u: Unit, s0: State, s1: State, ops: seq<Tac>, p: nat)
  {
    && p <= |ops| && s1.env == s0.env && s1.trace == s0.trace && |s1.args| >= |ops| - p
    && forall q | p <= q < |ops| :: s1.args[|s1.args| - (|ops| - q)] == Operand(u, s1.env, ops[q].a)
  }

  lemma LinedUpNext(w: World, u: Unit, s0: State, s1: State, ops: seq<Tac>, p: nat, t: Tac)
    requires LinedUp(u, s0, s1, ops, p) && t.op == Arg
    ensures LinedUp(u, s0, Run1(w, u, s1, t), ops + [t], p)
  {
    var s2, all := Run1(w, u, s1, t), ops + [t];
    forall q | p <= q < |all|
      ensures s2.args[|s2.args| - (|all| - q)] == Operand(u, s2.env, all[q].a)
    {
      if q < |ops| { assert s1.args[|s1.args| - (|ops| - q)] == Operand(u, s1.env, ops[q].a); }
    }
  }

  /** Argument operations change neither machine nor variables, they only line up the arguments. */
  lemma {:induction false} ArgsLineUp(w: World, u: Unit, k: Layout, s: State, ops: seq<Tac>, p: nat)
    requires p <= |ops| && forall q | p <= q < |ops| :: ops[q].op == Arg
    ensures EmitAll(u, k.asg, k.lvar, ops) == EmitAll(u, k.asg, k.lvar, ops[..p])
    ensures LinedUp(u, Run(w, u, s, ops[..p]), Run(w, u, s, ops), ops, p)
    decreases |ops|
  {
    hide LinedUp, Run1, EmitNext;
    if p == |ops| {
      assert ops[..p] == ops;
      LinedUpNone(u, Run(w, u, s, ops), ops);
    } else {
      var before, t := ops[..|ops| - 1], ops[|ops| - 1];
      assert before[..p] == ops[..p] && before + [t] == ops;
      ArgsLineUp(w, u, k, s, before, p);
      LinedUpNext(w, u, Run(w, u, s, ops[..p]), Run(w, u, s, before), before, p, t);
      EmitsNothing(u, k, before, t);
      assert EmitAll(u, k.asg, k.lvar, ops) == EmitAll(u, k.asg, k.lvar, before) + [];
    }
  }

  lemma LinedUpNone(u: Unit, s: State, ops: seq<Tac>)
    ensures LinedUp(u, s, s, ops, |ops|)
  {
  }

  lemma EmitsNothing(u: Unit, k: Layout, before: seq<Tac>, t: Tac)
    requires t.op == Arg
    ensures EmitNext(u, k.asg, k.lvar, before, t) == []
  {
  }

  lemma LinedUpAt(u: Unit, s0: State, s1: State, ops: seq<Tac>, p: nat)
    requires LinedUp(u, s0, s1, ops, p) && p < |ops|
    ensures |ops| - p <= |s1.args| && s1.env == s0.env
    ensures s1.args[|s1.args| - (|ops| - p)] == Operand(u, s1.env, ops[p].a)
  {
  }

  lemma ArgsInFront(ops: seq<Tac>, i: nat, p: nat)
    requires p < i < |ops| && ops[i].op == Call && i - p <= ops[i].b && CallOk(ops, i)
    ensures forall q | p <= q < i :: ops[..i][q].op == Arg
    ensures ops[..i][..p] == ops[..p] && ops[..i][p] == ops[p]
  {
  }

  /** What a call needs: its arguments can be read where they could be when they were set up. */
  lemma ArgFoundAt(w: World, u: Unit, k: Layout, m: Mach, s: State, ops: seq<Tac>, i: nat, p: nat)
    requires SoundLayout(k) && ChunkOk(u, k, ops) && p < i < |ops| && ops[i].op == Call && i - p <= ops[i].b &&
        CallOk(ops, i)
    requires Agree(w, u, k, m, s, ops[..p])
    ensures var m', s' := Exec(w, m, EmitAll(u, k.asg, k.lvar, ops[..i])), Run(w, u, s, ops[..i]);
            i - p <= |s'.args| && ArgFound(u, k, m', s', ops[..i], i - p)
  {
    assert Sized(k);
    hide Exec, EmitAll, Run, Operand, SoundLayout, ChunkOk, Untouched, Holds, Found, CallOk, LinedUp;
    var before := ops[..i];
    ArgsInFront(ops, i, p);
    ArgsLineUp(w, u, k, s, before, p);
    LinedUpAt(u, Run(w, u, s, ops[..p]), Run(w, u, s, before), before, p);
    ArgHeld(u, k, Exec(w, m, EmitAll(u, k.asg, k.lvar, before)), Run(w, u, s, before).env, ops, p);
  }

  lemma ArgHeld(u: Unit, k: Layout, m: Mach, env: map<int, nat>, ops: seq<Tac>, p: nat)
    requires SoundLayout(k) && ChunkOk(u, k, ops) && p < |ops| && ops[p].op == Arg && Holds(u, k, m, env, p)
    ensures Found(u, k, m, env, ops[p].a)
  {
    assert OpOk(u, k, ops[p], p);
    var a := ops[p].a;
    if a >= 0 { assert LiveOk(k, m, env, p, a) && LocSound(k, a); }
  }

  lemma AllArgsFound(w: World, u: Unit, k: Layout, m: Mach, s: State, ops: seq<Tac>, i: nat)
    requires SoundLayout(k) && ChunkOk(u, k, ops) && i < |ops| && ops[i].op == Call && CallOk(ops, i)
    requires forall p | 0 <= p < i :: Agree(w, u, k, m, s, ops[..p])
    ensures ArgsFound(u, k, Exec(w, m, EmitAll(u, k.asg, k.lvar, ops[..i])), Run(w, u, s, ops[..i]), ops[..i], ops[i].b)
  {
    hide Exec, EmitAll, Run, ArgFound, Agree, ChunkOk, SoundLayout;
    var m', s' := Exec(w, m, EmitAll(u, k.asg, k.lvar, ops[..i])), Run(w, u, s, ops[..i]);
    if ops[i].b > 0 { ArgFoundAt(w, u, k, m, s, ops, i, i - ops[i].b); }
    forall j | 1 <= j <= ops[i].b
      ensures ArgFound(u, k, m', s', ops[..i], j)
    {
      ArgFoundAt(w, u, k, m, s, ops, i, i - j);
    }
  }

  lemma ChunkPrefix(u: Unit, k: Layout, ops: seq<Tac>, n: nat)
    requires Sized(k) && ChunkOk(u, k, ops) && n <= |ops|
    ensures ChunkOk(u, k, ops[..n])
  {
    forall i | 0 <= i < n
      ensures OpOk(u, k, ops[..n][i], i) && CallOk(ops[..n], i)
    {
      assert OpOk(u, k, ops[i], i) && CallOk(ops, i);
    }
  }

  lemma StepSimulates(w: World, u: Unit, k: Layout, m: Mach, s: State, before: seq<Tac>, t: Tac)
    requires Ready(w, u, k, m, s, before, t) && (t.op == Call ==> 0 <= t.b && ArgsFound(u, k, m, s, before, t.b))
    ensures Simulates(w, u, k, m, s, before, t)
  {
    hide Simulates, ArgsFound, Holds;
    if t.op == LCopy { CopyStep(w, u, k, m, s, before, t); }
    else if t.op == Arg || Idle(t.op) { ArgStep(w, u, k, m, s, before, t); }
    else if t.op == Call { IndirectStep(w, u, k, m, s, before, t); }
    else if IsCall(t.op) { CallStep(w, u, k, m, s, before, t); }
    else { ArithStep(w, u, k, m, s, before, t); }
  }

  lemma {:induction false} CompiledCodeSimulates(w: World, u: Unit, k: Layout, m: Mach, s: State, ops: seq<Tac>)
    requires SoundLayout(k) && FixesL(w, u) && ChunkOk(u, k, ops) && Holds(u, k, m, s.env, 0) && m.trace == s.trace
    ensures Agree(w, u, k, m, s, ops)
    decreases |ops|
  {
    if ops == [] {
      HasRegs(w, u, k, m, s.env, 0);
    } else {
      hide SoundLayout, FixesL, Holds, Untouched, OpOk, Emit;
      var n := |ops| - 1;
      var before, t := ops[..n], ops[n];
      ChunkPrefix(u, k, ops, n);
      CompiledCodeSimulates(w, u, k, m, s, before);
      var m1, s1 := Exec(w, m, EmitAll(u, k.asg, k.lvar, before)), Run(w, u, s, before);
      assert OpOk(u, k, t, n) && CallOk(ops, n);
      if t.op == Call {
        forall p | 0 <= p < n
          ensures Agree(w, u, k, m, s, ops[..p])
        {
          ChunkPrefix(u, k, ops, p);
          CompiledCodeSimulates(w, u, k, m, s, ops[..p]);
        }
        AllArgsFound(w, u, k, m, s, ops, n);
      }
      StepSimulates(w, u, k, m1, s1, before, t);
      ExecAppend(w, m, EmitAll(u, k.asg, k.lvar, before), EmitNext(u, k.asg, k.lvar, before, t));
      UntouchedNext(w, u, k, m, m1, Exec(w, m1, EmitNext(u, k.asg, k.lvar, before, t)), t, n);
    }
  }

  /** In particular each operand of operation i, read where the layout says, has the value the
      three-address semantics gives it. */
  lemma OperandsRead(w: World, u: Unit, k: Layout, m: Mach, s: State, ops: seq<Tac>, i: nat, v: nat)
    requires SoundLayout(k) && FixesL(w, u) && ChunkOk(u, k, ops) && Holds(u, k, m, s.env, 0) && m.trace == s.trace
    requires i < |ops| && v < |k.asg|
    requires (Reads(ops[i].op) > 0 && ops[i].a == v) || (Reads(ops[i].op) > 1 && ops[i].b == v)
    ensures var m' := Exec(w, m, EmitAll(u, k.asg, k.lvar, ops[..i]));
            var env := Run(w, u, s, ops[..i]).env;
            v in env && Reading(m', k.asg[v]) == env[v]
  {
    ChunkPrefix(u, k, ops, i);
    CompiledCodeSimulates(w, u, k, m, s, ops[..i]);
    assert OpOk(u, k, ops[i], i);
    assert LiveOk(k, Exec(w, m, EmitAll(u, k.asg, k.lvar, ops[..i])), Run(w, u, s, ops[..i]).env, i, v);
  }
}
