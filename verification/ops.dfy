/** The instruction set shared by the lexer and the code generator. */
module Ops {

  /** An optional value; `None` stands for a lexing or generation failure
      (the original aborts the process at that point). */
  datatype Option<T> = None | Some(value: T)

  /** One instruction of the tape language. The four counted variants carry
      the length of the run of identical characters they were folded from. */
  datatype Op =
    | PointerInc(count: nat)
    | PointerDec(count: nat)
    | ValueInc(count: nat)
    | ValueDec(count: nat)
    | Output
    | Input
    | LLoop
    | RLoop
  {
    /** True of the run-length-folded variants. */
    predicate IsCounted() {
      PointerInc? || PointerDec? || ValueInc? || ValueDec?
    }
  }

  /** Number of loop openers in `ops`. */
  function CountOpen(ops: seq<Op>): nat
  {
    if ops == [] then 0
    else CountOpen(ops[..|ops| - 1]) + (if ops[|ops| - 1].LLoop? then 1 else 0)
  }

  /** Number of loop closers in `ops`. */
  function CountClose(ops: seq<Op>): nat
  {
    if ops == [] then 0
    else CountClose(ops[..|ops| - 1]) + (if ops[|ops| - 1].RLoop? then 1 else 0)
  }

  /** Loop nesting depth after `ops`: openers minus closers. */
  function Depth(ops: seq<Op>): int
  {
    CountOpen(ops) - CountClose(ops)
  }

  /** No prefix of `ops` closes more loops than it opened. */
  predicate NeverUnderflows(ops: seq<Op>)
  {
    forall n :: 0 <= n <= |ops| ==> Depth(ops[..n]) >= 0
  }
}
