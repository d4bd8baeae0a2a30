/** Stack frames of cc.c and env.asm on the machine of Codegen: prologue and epilogue around any body, where
    a callee finds its parameters, and stack alignment over nested calls. */
module Frames {
  import opened Registers
  import opened Codegen

  // --- prologue and epilogue ----------------------------------------------------------------

  /** Words reserved below the saved registers: spilled variables, L, and one more when that makes
      the frame keep the stack 16-byte aligned. */
  function FrameWords(used: nat, spills: nat): nat
  {
    var nvars := spills + 1;
    if (used + nvars) % 2 == 0 then nvars + 1 else nvars
  }

  /** Push the first n allocatable registers. */
  function PushCode(n: nat): seq<Instr>
    requires n <= 6
  {
    if n == 0 then [] else PushCode(n - 1) + [Push(ALLOCATABLE[n - 1])]
  }

  /** Pop them again, last one first. */
  function PopCode(n: nat): seq<Instr>
    requires n <= 6
  {
    if n == 0 then [] else [Pop(ALLOCATABLE[n - 1])] + PopCode(n - 1)
  }

  /** Registers saved, frame reserved, L in the slot after the spilled variables. */
  function Prologue(used: nat, spills: nat): seq<Instr>
    requires used <= 6
  {
    PushCode(used) + [Lower(FrameWords(used, spills))] + [Store(spills, RDI)]
  }

  function Epilogue(used: nat, spills: nat): seq<Instr>
    requires used <= 6
  {
    [Raise(FrameWords(used, spills))] + PopCode(used)
  }

  function SavedWord(m: Mach, n: nat, j: nat): nat
    requires |m.reg| == 16 && j < n <= 6
  {
    m.reg[ALLOCATABLE[n - 1 - j]]
  }

  function SavedWords(m: Mach, n: nat): (r: seq<nat>)
    requires |m.reg| == 16 && n <= 6
    ensures |r| == n && forall j | 0 <= j < n :: r[j] == SavedWord(m, n, j)
  {
    seq(n, j requires 0 <= j < n => SavedWord(m, n, j))
  }

  lemma {:induction false} PushedWords(w: World, m: Mach, n: nat)
    requires |m.reg| == 16 && n <= 6
    ensures Exec(w, m, PushCode(n)) == m.(stack := SavedWords(m, n) + m.stack)
  {
    if n > 0 {
      PushedWords(w, m, n - 1);
      var i := Push(ALLOCATABLE[n - 1]);
      ExecAppend(w, m, PushCode(n - 1), [i]);
      ExecOne(w, Exec(w, m, PushCode(n - 1)), i);
      assert [m.reg[ALLOCATABLE[n - 1]]] + SavedWords(m, n - 1) == SavedWords(m, n);
      assert [m.reg[ALLOCATABLE[n - 1]]] + (SavedWords(m, n - 1) + m.stack) == SavedWords(m, n) + m.stack;
    } else {
      assert SavedWords(m, 0) + m.stack == m.stack;
    }
  }

  lemma Distinct(n: nat, j: nat)
    requires n <= j < 6
    ensures forall l | 0 <= l < n :: ALLOCATABLE[l] != ALLOCATABLE[j]
    ensures 0 <= ALLOCATABLE[j] < 16 && Saved(ALLOCATABLE[j])
  {
  }

  /** Register r is none of the first n allocatable ones. */
  predicate Beyond(n: nat, r: int)
    requires n <= 6
  {
    forall j | 0 <= j < n :: ALLOCATABLE[j] != r
  }

  /** The j-th allocatable register has the word that was pushed from it when n were pushed on top of
      the stack that m still has. */
  predicate BackIn(r: Mach, m: Mach, n: nat, j: nat)
    requires j < n <= 6
  {
    |r.reg| == 16 && n <= |m.stack| && r.reg[ALLOCATABLE[j]] == m.stack[n - 1 - j]
  }

  lemma {:induction false} PoppedRegs(w: World, m: Mach, n: nat)
    requires |m.reg| == 16 && n <= 6 && n <= |m.stack|
    ensures var r := Exec(w, m, PopCode(n));
            && |r.reg| == 16 && r.stack == m.stack[n..] && r.trace == m.trace
            && (forall j | 0 <= j < n :: BackIn(r, m, n, j))
            && forall q | 0 <= q < 16 && Beyond(n, q) :: r.reg[q] == m.reg[q]
    decreases n
  {
    hide Exec, BackIn, Beyond;
    if n == 0 {
      ExecNone(w, m);
    } else {
      var i := Pop(ALLOCATABLE[n - 1]);
      Distinct(n - 1, n - 1);
      ExecAppend(w, m, [i], PopCode(n - 1));
      ExecOne(w, m, i);
      var m1 := Do(w, m, i);
      PoppedRegs(w, m1, n - 1);
      assert m1.stack == m.stack[1..] && m1.stack[n - 1..] == m.stack[n..];
      PoppedRest(w, m, m1, Exec(w, m1, PopCode(n - 1)), n, n - 1);
    }
  }

  lemma PoppedRest(w: World, m: Mach, m1: Mach, r: Mach, n: nat, k: nat)
    requires n == k + 1 <= 6 && |m.reg| == 16 && n <= |m.stack| && m1 == Do(w, m, Pop(ALLOCATABLE[n - 1])) &&
        |r.reg| == 16
    requires forall j | 0 <= j < k :: BackIn(r, m1, k, j)
    requires forall q | 0 <= q < 16 && Beyond(k, q) :: r.reg[q] == m1.reg[q]
    ensures forall j | 0 <= j < n :: BackIn(r, m, n, j)
    ensures forall q | 0 <= q < 16 && Beyond(n, q) :: r.reg[q] == m.reg[q]
  {
    Distinct(k, k);
    assert Beyond(k, ALLOCATABLE[k]);
    forall j | 0 <= j < n
      ensures BackIn(r, m, n, j)
    {
      if j < k { assert BackIn(r, m1, k, j); }
    }
    forall q | 0 <= q < 16 && Beyond(n, q)
      ensures r.reg[q] == m.reg[q]
    {
      assert Beyond(k, q) && ALLOCATABLE[k] != q;
    }
  }

  /** The machine past the prologue. */
  lemma Entering(w: World, m: Mach, used: nat, spills: nat)
    requires |m.reg| == 16 && used <= 6
    ensures var p, f := Exec(w, m, Prologue(used, spills)), FrameWords(used, spills);
            && spills < f && p.reg == m.reg && p.trace == m.trace && |p.stack| == f + used + |m.stack|
            && p.stack[spills] == m.reg[RDI] && p.stack[f..] == SavedWords(m, used) + m.stack
  {
    hide Exec;
    var f := FrameWords(used, spills);
    ExecAppend(w, m, PushCode(used), [Lower(f)]);
    ExecAppend(w, m, PushCode(used) + [Lower(f)], [Store(spills, RDI)]);
    PushedWords(w, m, used);
    var m1 := Exec(w, m, PushCode(used));
    ExecOne(w, m1, Lower(f));
    var m2 := Do(w, m1, Lower(f));
    assert m2.stack[f..] == m1.stack;
    ExecOne(w, m2, Store(spills, RDI));
    assert m2.stack[spills := m2.reg[RDI]][f..] == m2.stack[f..];
  }

  /** What the code between prologue and epilogue does to the machine: rsp comes back, every word above
      the frame and every preserved register that the function did not save is as it was or as
      collections made it. */
  ghost predicate BodyKeeps(w: World, p: Mach, b: Mach, used: nat, frame: nat)
    requires used <= 6
  {
    && |p.reg| == |b.reg| == 16 && |b.stack| == |p.stack| && p.trace <= b.trace
    && (forall s | frame <= s < |p.stack| :: b.stack[s] == Carried(w, b.trace, |p.trace|, p.stack[s]))
    && (forall r | 0 <= r < 16 && Saved(r) && Beyond(used, r) :: b.reg[r] == Carried(w, b.trace, |p.trace|, p.reg[r]))
  }

  /** What a caller gets back: rsp, every preserved register and the whole stack, with the words that
      collections have moved. */
  ghost predicate HandsBack(w: World, m: Mach, r: Mach)
  {
    && |m.reg| == |r.reg| == 16 && |r.stack| == |m.stack| && m.trace <= r.trace
    && (forall s | 0 <= s < |m.stack| :: r.stack[s] == Carried(w, r.trace, |m.trace|, m.stack[s]))
    && (forall q | 0 <= q < 16 && Saved(q) :: r.reg[q] == Carried(w, r.trace, |m.trace|, m.reg[q]))
  }

  /** A function with this prologue and epilogue hands its caller everything back, whatever its body
      did inside its frame. */
  lemma CallPreserves(w: World, m: Mach, b: Mach, used: nat, spills: nat)
    requires |m.reg| == 16 && used <= 6
    requires BodyKeeps(w, Exec(w, m, Prologue(used, spills)), b, used, FrameWords(used, spills))
    ensures HandsBack(w, m, Exec(w, b, Epilogue(used, spills))) && Exec(w, b, Epilogue(used, spills)).trace == b.trace
  {
    hide Exec, Prologue, Carried, FrameWords;
    var f, p := FrameWords(used, spills), Exec(w, m, Prologue(used, spills));
    Entering(w, m, used, spills);
    ExecAppend(w, b, [Raise(f)], PopCode(used));
    ExecOne(w, b, Raise(f));
    var b1 := Do(w, b, Raise(f));
    assert b1.stack == b.stack[f..];
    PoppedRegs(w, b1, used);
    var r := Exec(w, b1, PopCode(used));
    forall s | 0 <= s < used + |m.stack|
      ensures b1.stack[s] == Carried(w, b.trace, |m.trace|, (SavedWords(m, used) + m.stack)[s])
    {
      assert b1.stack[s] == b.stack[f + s] && p.stack[f..][s] == p.stack[f + s];
    }
    forall s | 0 <= s < |m.stack|
      ensures r.stack[s] == Carried(w, r.trace, |m.trace|, m.stack[s])
    {
      assert r.stack[s] == b1.stack[used + s];
    }
    forall q | 0 <= q < 16 && Saved(q)
      ensures r.reg[q] == Carried(w, r.trace, |m.trace|, m.reg[q])
    {
      if !Beyond(used, q) {
        var j :| 0 <= j < used && ALLOCATABLE[j] == q;
        assert BackIn(r, b1, used, j);
        assert (SavedWords(m, used) + m.stack)[used - 1 - j] == SavedWord(m, used, used - 1 - j);
      }
    }
  }

  // --- parameters ---------------------------------------------------------------------------

  /** The call instruction pushes the return address; ml_indirect_call goes on with a jump. */
  function Enter(m: Mach, ret: nat): Mach
  {
    m.(stack := [ret] + m.stack)
  }

  /** compile_chunk's slot for parameter k of a function with this frame. */
  function ParamSlot(used: nat, spills: nat, k: nat): nat
  {
    FrameWords(used, spills) + used + 1 + k
  }

  /** The slot a callee computes for parameter k is the k-th word from the caller's rsp, where the
      caller stored argument k, whatever the two frame sizes. */
  lemma ParamIsArgument(w: World, m: Mach, ret: nat, used: nat, spills: nat, k: nat)
    requires |m.reg| == 16 && used <= 6 && k < |m.stack|
    ensures var b := Exec(w, Enter(m, ret), Prologue(used, spills));
            ParamSlot(used, spills, k) < |b.stack| && b.stack[ParamSlot(used, spills, k)] == m.stack[k]
  {
    hide Exec, Prologue, FrameWords;
    var e, f := Enter(m, ret), FrameWords(used, spills);
    Entering(w, e, used, spills);
    var b := Exec(w, e, Prologue(used, spills));
    assert b.stack[f..][used + 1 + k] == b.stack[f + used + 1 + k];
    assert (SavedWords(e, used) + e.stack)[used + 1 + k] == e.stack[1 + k];
  }

  /** The loop that gives parameters their slots. Parameter operations precede the function mark in
      order, so the i-th one back is parameter nparams-i. */
  method FixParams(params: seq<int>, used: nat, spills: nat, assignment: array<int>)
    requires forall k | 0 <= k < |params| :: 0 <= params[k] < assignment.Length
    requires forall k, l | 0 <= k < l < |params| :: params[k] != params[l]
    modifies assignment
    ensures forall k | 0 <= k < |params| :: assignment[params[k]] == 0 - ParamSlot(used, spills, k) - 1
    ensures forall v | 0 <= v < assignment.Length && v !in params :: assignment[v] == old(assignment[v])
  {
    var nparams := |params|;
    var i := 1;
    while i <= nparams
      invariant 1 <= i <= nparams + 1
      invariant forall k | nparams - i < k < nparams :: assignment[params[k]] == 0 - ParamSlot(used, spills, k) - 1
      invariant forall v | 0 <= v < assignment.Length && v !in params :: assignment[v] == old(assignment[v])
    {
      var v := params[nparams - i];
      var locals := FrameWords(used, spills) + used + 1;
      assignment[v] := 0 - (locals + (nparams - i)) - 1;
      i := i + 1;
    }
  }

  /** The loop in front of allocate that keeps it from placing parameters. */
  method Reserve(params: seq<int>, assignment: array<int>)
    requires forall k | 0 <= k < |params| :: 0 <= params[k] < assignment.Length
    modifies assignment
    ensures forall v | 0 <= v < assignment.Length :: assignment[v] == if v in params then -1 else old(assignment[v])
  {
    var i := 1;
    while i <= |params|
      invariant 1 <= i <= |params| + 1
      invariant forall v | 0 <= v < assignment.Length ::
                  assignment[v] == if v in params[|params| - i + 1..] then -1 else old(assignment[v])
    {
      assert params[|params| - i..] == [params[|params| - i]] + params[|params| - i + 1..];
      assignment[params[|params| - i]] := -1;
      i := i + 1;
    }
  }

  // --- alignment ----------------------------------------------------------------------------

  /** One active call: the function's frame, and how many arguments it is passing on. */
  datatype Active = Active(used: nat, spills: nat, nargs: nat)

  /** rsp on entry to the function that the chain of active calls, outermost first, ends in. */
  function EntryRsp(rsp: int, calls: seq<Active>): int
  {
    if calls == [] then rsp else CallRsp(rsp, calls) - 1
  }

  /** rsp at the call instruction of the innermost active call. */
  function CallRsp(rsp: int, calls: seq<Active>): int
    requires calls != []
    decreases |calls|, 0
  {
    var c := calls[|calls| - 1];
    var outer := calls[..|calls| - 1];
    var entry := if outer == [] then rsp else CallRsp(rsp, outer) - 1;
    entry - c.used - FrameWords(c.used, c.spills) - AlignedArgs(c.nargs)
  }

  /** With the C convention on entry to the outermost function (rsp one word off a 16-byte boundary),
      rsp is a multiple of 16 bytes at every call however deep, and every function is entered under
      the same convention. */
  lemma {:induction false} AlwaysAligned(rsp: int, calls: seq<Active>)
    requires rsp % 2 == 1 && calls != []
    ensures CallRsp(rsp, calls) % 2 == 0 && EntryRsp(rsp, calls) % 2 == 1
    decreases |calls|
  {
    var outer := calls[..|calls| - 1];
    if outer != [] {
      AlwaysAligned(rsp, outer);
    }
  }
}
