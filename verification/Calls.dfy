/** A call of compiled code from compiled code: both sides are the code of cc.c, and the call is no longer a
    thing that answers as it likes. */
module Calls {
  import opened Ir
  import opened Registers
  import opened Codegen
  import opened Frames
  import opened Backend

  /** The machine at the call instruction. */
  function AtCall(w: World, u: Unit, k: Layout, m: Mach, before: seq<Tac>, t: Tac): Mach
    requires 0 <= t.b <= |before|
  {
    Exec(w, Exec(w, m, CallSetUp(u, k.asg, k.lvar, t)), StoreArgs(u, k.asg, t.b, before, t.b))
  }

  /** The return instruction. */
  function Return(m: Mach): Mach
  {
    if m.stack == [] then m else m.(stack := m.stack[1..])
  }

  /** The code behind a call. */
  function AfterReturn(k: Layout, t: Tac): seq<Instr>
  {
    (if t.b > 0 then [Raise(AlignedArgs(t.b))] else []) + SaveResult(k.asg, t.target)
  }

  /** The callee starts with the caller's arguments as its parameters. */
  ghost predicate Binds(c: State, params: seq<int>, args: seq<nat>)
  {
    |params| <= |args| && forall j | 0 <= j < |params| :: params[j] in c.env && c.env[params[j]] == args[j]
  }

  /** A caller at a call with enough arguments. */
  ghost predicate Calling(w: World, u: Unit, k: Layout, m: Mach, s: State, before: seq<Tac>, t: Tac, params: seq<int>)
  {
    && Ready(w, u, k, m, s, before, t) && t.op == Call && |params| <= t.b && ArgsFound(u, k, m, s, before, t.b)
  }

  /** The callee is entered with the caller's arguments in its parameters, wherever the caller keeps its operands and
      whatever the two frame sizes. */
  lemma CalleeEntered(w: World, u: Unit, k: Layout, m: Mach, s: State, before: seq<Tac>, t: Tac, ret: nat,
                      c: State, params: seq<int>)
    requires Calling(w, u, k, m, s, before, t, params)
    requires c.trace == s.trace && Binds(c, params, LastArgs(s.args, t.b))
    ensures t.b <= |before| && Entered(u, Enter(AtCall(w, u, k, m, before, t), ret), c, params)
    ensures Lowered(m, AtCall(w, u, k, m, before, t), AlignedArgs(t.b))
  {
    hide Exec, Ready, ArgsFound, CallSetUp, StoreArgs, AlignedArgs, Operand;
    var m1, m2 := BeforeCall(w, u, k, m, s, before, t);
    LoweredRegs(m, m2, AlignedArgs(t.b));
    LoweredTrace(w, u, k, m, m2, s, before, t);
    ParamsInWords(m2, ret, s, c, t.b, params);
  }

  lemma LoweredTrace(w: World, u: Unit, k: Layout, m: Mach, m2: Mach, s: State, before: seq<Tac>, t: Tac)
    requires Ready(w, u, k, m, s, before, t) && t.b >= 0 && Lowered(m, m2, AlignedArgs(t.b))
    ensures m2.trace == s.trace
  {
  }

  lemma ParamsInWords(m2: Mach, ret: nat, s: State, c: State, n: nat, params: seq<int>)
    requires n <= |s.args| && ArgsIn(m2, s, n, 0) && Binds(c, params, LastArgs(s.args, n)) && |params| <= n
    ensures |params| < |Enter(m2, ret).stack|
    ensures forall j | 0 <= j < |params| :: params[j] in c.env && c.env[params[j]] == Enter(m2, ret).stack[1 + j]
  {
    forall j | 0 <= j < |params|
      ensures c.env[params[j]] == Enter(m2, ret).stack[1 + j]
    {
      assert m2.stack[j] == s.args[|s.args| - n + j];
    }
  }

  /** The stack of the machine at a call is that of the function's entry, its saved registers, its frame and the
      arguments, as the addresses of `AlwaysAligned` have it: with the C convention on entry, rsp is a multiple
      of 16 bytes at the call, and the callee is entered under the same convention. */
  lemma CallAligned(w: World, u: Unit, k: Layout, m0: Mach, m: Mach, s: State, before: seq<Tac>, t: Tac, used: nat,
                    ret: nat, rsp: int, outer: seq<Active>)
    requires Calling(w, u, k, m, s, before, t, []) && |m0.reg| == 16 && used <= 6
    requires |m.stack| == |Exec(w, m0, Prologue(used, k.lvar)).stack|
    ensures t.b <= |before| && 0 <= t.b
    ensures var call := AtCall(w, u, k, m, before, t);
            && CallRsp(rsp, outer + [Active(used, k.lvar, t.b)]) == EntryRsp(rsp, outer) - (|call.stack| - |m0.stack|)
            && (|call.stack| - |m0.stack|) % 2 == 1 && (|Enter(call, ret).stack| - |m0.stack|) % 2 == 0
  {
    hide Exec, Ready, ArgsFound, CallSetUp, StoreArgs, AlignedArgs, Operand, Prologue, FrameWords;
    Entering(w, m0, used, k.lvar);
    var m1, m2 := BeforeCall(w, u, k, m, s, before, t);
    LoweredRegs(m, m2, AlignedArgs(t.b));
    assert (outer + [Active(used, k.lvar, t.b)])[..|outer|] == outer;
    FrameParity(used, k.lvar, t.b);
  }

  lemma FrameParity(used: nat, spills: nat, n: nat)
    ensures (used + FrameWords(used, spills) + AlignedArgs(n)) % 2 == 1
  {
  }

  lemma {:induction false} CarriedL(w: World, u: Unit, t: seq<Event>, n: nat)
    requires FixesL(w, u)
    ensures Carried(w, t, n, u.L) == u.L
    decreases |t|
  {
    if |t| > n { CarriedL(w, u, t[..|t| - 1], n); }
  }

  /** Everything live is in place after any number of collections. */
  lemma HoldsKept(w: World, u: Unit, k: Layout, m: Mach, m': Mach, env: map<int, nat>, i: nat)
    requires SoundLayout(k) && Holds(u, k, m, env, i) && FixesL(w, u) && Kept(w, m, m', RAX)
    ensures Holds(u, k, m', CarriedEnv(w, m'.trace, |m.trace|, env), i)
  {
    hide FixesL;
    CarriedL(w, u, m'.trace, |m.trace|);
    forall v | 0 <= v < |k.asg|
      ensures LiveOk(k, m', CarriedEnv(w, m'.trace, |m.trace|, env), i, v)
    {
      assert LiveOk(k, m, env, i, v) && LocSound(k, v);
    }
  }

  /** What the callee hands back is, past return address and arguments, the caller's machine with what collections
      moved. */
  lemma BackInCaller(w: World, m: Mach, m2: Mach, ret: nat, r: Mach, align: nat)
    requires Lowered(m, m2, align) && HandsBack(w, Enter(m2, ret), r)
    ensures align <= |Return(r).stack| && Return(r).reg == r.reg && |r.reg| == 16 && Return(r).trace == r.trace
    ensures Kept(w, m, Return(r).(stack := Return(r).stack[align..]), RAX)
  {
    hide Carried;
    var e := Enter(m2, ret);
    forall s | 0 <= s < |m.stack|
      ensures Return(r).stack[align..][s] == Carried(w, r.trace, |m.trace|, m.stack[s])
    {
      assert e.stack[1 + align + s] == m2.stack[align..][s];
    }
  }

  lemma ReturnCode(w: World, k: Layout, r: Mach, t: Tac)
    requires t.b >= 0 && |r.reg| == 16 && AlignedArgs(t.b) <= |r.stack|
    ensures Exec(w, r, AfterReturn(k, t)) ==
            Exec(w, r.(stack := r.stack[AlignedArgs(t.b)..]), SaveResult(k.asg, t.target))
  {
    hide SaveResult;
    var raise := if t.b > 0 then [Raise(AlignedArgs(t.b))] else [];
    ExecAppend(w, r, raise, SaveResult(k.asg, t.target));
    if t.b > 0 {
      ExecOne(w, r, Raise(AlignedArgs(t.b)));
    } else {
      assert r.stack[0..] == r.stack;
    }
  }

  /** A call from compiled code into compiled code, the callee's own instructions included: the callee makes the calls
      of its three-address program with its parameters bound to the caller's arguments; the caller goes on
      with every live variable in place, as the collections in the callee left it, and with the callee's rax
      in the target. */
  lemma CompiledCall(w: World, u: Unit, k: Layout, m: Mach, s: State, before: seq<Tac>, t: Tac, ret: nat,
                     k': Layout, used: nat, c: State, ops: seq<Tac>, params: seq<int>)
    requires Calling(w, u, k, m, s, before, t, params)
    requires c.trace == s.trace && Binds(c, params, LastArgs(s.args, t.b))
    requires SoundLayout(k') && ChunkOk(u, k', ops) && Within(k'.asg, used) && ParamsPlaced(k', params, used)
    ensures t.b <= |before| &&
            var code := Prologue(used, k'.lvar) + EmitAll(u, k'.asg, k'.lvar, ops) + Epilogue(used, k'.lvar);
            var r := Exec(w, Enter(AtCall(w, u, k, m, before, t), ret), code);
            var m' := Exec(w, Return(r), AfterReturn(k, t));
            var env := CarriedEnv(w, m'.trace, |m.trace|, s.env);
            && m'.trace == Run(w, u, c, ops).trace && |r.reg| == 16
            && Holds(u, k, m', Assign(env, t.target, r.reg[RAX]), |before| + 1)
  {
    var n := |before|;
    var code := Prologue(used, k'.lvar) + EmitAll(u, k'.asg, k'.lvar, ops) + Epilogue(used, k'.lvar);
    CallingParts(w, u, k, m, s, before, t, params);
    hide Exec, EmitAll, Prologue, Epilogue, Ready, Calling, AtCall, ArgsFound, Enter, Entered, SoundLayout;
    hide ChunkOk, Within, ParamsPlaced, Binds, Lowered, HandsBack, Kept, Holds, FixesL, SaveResult;
    hide AfterReturn, CarriedEnv, Run, Return;
    CalleeEntered(w, u, k, m, s, before, t, ret, c, params);
    var m2 := AtCall(w, u, k, m, before, t);
    FunctionImplements(w, u, k', Enter(m2, ret), c, ops, used, params);
    var r := Exec(w, Enter(m2, ret), code);
    BackInCaller(w, m, m2, ret, r, AlignedArgs(t.b));
    var back := Return(r).(stack := Return(r).stack[AlignedArgs(t.b)..]);
    Resumes(w, u, k, m, back, s.env, n, t);
    ReturnCode(w, k, Return(r), t);
  }

  lemma CallingParts(w: World, u: Unit, k: Layout, m: Mach, s: State, before: seq<Tac>, t: Tac, params: seq<int>)
    requires Calling(w, u, k, m, s, before, t, params)
    ensures SoundLayout(k) && FixesL(w, u) && Holds(u, k, m, s.env, |before|) && OpOk(u, k, t, |before|)
    ensures m.trace == s.trace && t.op == Call && 0 <= t.b <= |before|
  {
  }

  /** The caller goes on: result saved, everything live in place. */
  lemma Resumes(w: World, u: Unit, k: Layout, m: Mach, back: Mach, env: map<int, nat>, i: nat, t: Tac)
    requires SoundLayout(k) && FixesL(w, u) && Holds(u, k, m, env, i) && OpOk(u, k, t, i) && t.op == Call
    requires Kept(w, m, back, RAX)
    ensures |back.reg| == 16
    ensures var m' := Exec(w, back, SaveResult(k.asg, t.target));
            && m'.trace == back.trace
            && Holds(u, k, m', Assign(CarriedEnv(w, back.trace, |m.trace|, env), t.target, back.reg[RAX]), i + 1)
  {
    TargetOk(u, k, t, i);
    HoldsKept(w, u, k, m, back, env, i);
    hide SoundLayout, FixesL, OpOk, Kept, Exec, SaveResult, Holds, CarriedEnv;
    var now := CarriedEnv(w, back.trace, |m.trace|, env);
    HasRegs(w, u, k, back, now, i);
    SaveResultOk(w, k, back, t.target);
    HoldsNext(u, k, back, Exec(w, back, SaveResult(k.asg, t.target)), now, i, t.target, back.reg[RAX]);
  }

  lemma TargetOk(u: Unit, k: Layout, t: Tac, i: nat)
    requires Sized(k) && OpOk(u, k, t, i) && t.op == Call
    ensures 0 <= t.target < |k.asg| && t.target != NO_TARGET
    ensures forall v | 0 <= v < |k.ini| :: k.ini[v] == i <==> v == t.target
  {
  }
}
