/** The jump cases of compile_chunk: what the emitted compare, test and jump instructions do is what the
    three-address operations say. */
module Branches {
  import Values
  import opened Ir
  import opened Fusion
  import opened Jumps

  /** The jump that each operation is compiled to. */
  function KindOf(op: Op): Kind
    requires IsJmp(op)
  {
    match op
    case Jmp => Always
    case Jz => IfZero
    case Je => IfZero
    case _ => IfNotZero
  }

  /** The zero flag in front of it: after a comparison of two registers, set when they are equal; after a test of one
      with itself, when it is zero. */
  predicate ZeroFlag(w: World, env: map<int, int>, t: Tac)
  {
    if t.op == Je || t.op == Jne then Value(w, env, t.a) - Value(w, env, t.b) == 0 else Value(w, env, t.a) == 0
  }

  /** Operation k of ops is item k, and a jump of the right kind if it is a jump. */
  predicate Compiles(items: seq<Item>, ops: seq<Tac>, k: nat)
    requires k < |ops| == |items|
  {
    && (items[k].jump <==> IsJmp(ops[k].op))
    && (IsJmp(ops[k].op) ==> items[k].kind == KindOf(ops[k].op) && ops[k].target == items[k].target)
  }

  /** The address of operation k in a finished chunk of the operations before `end`. */
  function AddressOf(addr: seq<int>, end: nat, k: nat): int
    requires k < |addr|
  {
    if k < end then addr[k] else addr[|addr| - 1]
  }

  /** The jump is taken exactly when the operation says so. */
  lemma KindMeans(w: World, env: map<int, int>, t: Tac)
    requires IsJmp(t.op)
    ensures Takes(KindOf(t.op), ZeroFlag(w, env, t)) <==> Taken(w, env, t)
  {
    hide Value;
  }

  lemma StepOfJump(w: World, ops: seq<Tac>, s: State)
    requires s.pc < |ops| && IsJmp(ops[s.pc].op) && ops[s.pc].target >= 0
    ensures Step(w, ops, s).pc == if Taken(w, s.env, ops[s.pc]) then ops[s.pc].target else s.pc + 1
  {
    hide Taken;
  }

  /** In a finished chunk, a processor at the jump of operation k goes on exactly where the three-address program
      does. */
  lemma JumpFollowed(w: World, ops: seq<Tac>, s: State, items: seq<Item>, code: seq<Values.byte>, addr: seq<int>,
                     end: nat)
    requires |ops| == |items| == end && |addr| == end + 1 && s.pc < end && Compiles(items, ops, s.pc)
    requires Obeys(code, addr, items, end, s.pc) && IsJmp(ops[s.pc].op)
    ensures 0 <= addr[s.pc] && Step(w, ops, s).pc < |addr|
    ensures Follow(code, addr[s.pc] + |items[s.pc].pre|, ZeroFlag(w, s.env, ops[s.pc])) ==
            AddressOf(addr, end, Step(w, ops, s).pc)
  {
    hide Follow, Taken, Takes, KindOf, ZeroFlag, Step;
    var t := ops[s.pc];
    KindMeans(w, s.env, t);
    StepOfJump(w, ops, s);
    var zero := ZeroFlag(w, s.env, t);
    assert Takes(items[s.pc].kind, zero) == Taken(w, s.env, t);
  }
}
