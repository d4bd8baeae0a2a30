/** Three-address code: ir.h. */
module Ir {
  datatype Op =
    | LCopy | Add | Mul | Sub | Div | Mod | Eq | Ne
    | TLoad | TStore | GLoad | GStore | NewTbl
    | Param | Arg | Call | Ret | Phi | Noop
    | Jmp | Jz | Jnz | Je | Jne
    | LoopHeader | LoopBegin | LoopEnd | FunctionBegin | FunctionEnd

  /** Operands: a variable number, minus one less than a constant's index, or `NO_ARG`. */
  datatype Tac = Tac(op: Op, a: int, b: int, target: int)

  const NO_ARG: int := -32768
  const NO_TARGET: int := 0xffff

  predicate IsJmp(op: Op) { (op == Jmp || op == Jz || op == Jnz || op == Je || op == Jne) }

  predicate IsMark(op: Op) { (op == LoopHeader || op == LoopBegin || op == LoopEnd || op == FunctionBegin ||
                   op == FunctionEnd) }

  predicate Counts(t: Tac) { t.op != Noop && !IsMark(t.op) }

  /** Operation t writes variable v. */
  predicate Defines(t: Tac, v: int)
  {
    Counts(t) && !IsJmp(t.op) && t.target != NO_TARGET && t.target == v
  }

  /** Operation t reads variable v; the b field of a call is its argument count. */
  predicate Uses(t: Tac, v: int)
  {
    Counts(t) && v >= 0 && (t.a == v || (t.b == v && t.op != Call))
  }
}
