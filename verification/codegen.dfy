/** The code generator as the original writes it: an object whose builder
    appends instructions at a moving insertion point and whose loop-frame
    stack is pushed and popped in place. Each method is proved against the
    abstract generator of module `ControlFlow`. */
module CodeGeneration {
  import opened Ops
  import opened ControlFlow
  import opened ControlFlowProperties

  class CodeGen {
    /** The instructions to translate. */
    const ast: seq<Op>
    /** Blocks of the program's entry function, in creation order. */
    var blocks: seq<Block>
    /** Open loops as (cond, end) frames, innermost last. */
    var loops: seq<Frame>
    /** The block the builder appends to. */
    var current: nat

    ghost function State(): Cfg
      reads this
    {
      Cfg(blocks, loops, current)
    }

    ghost predicate Valid()
      reads this
    {
      InRange(State())
    }

    /** Bootstrap: the entry block allocates the tape-pointer slot, a zeroed
        tape of `TapeCells` one-byte cells, and stores the tape's address. */
    constructor (ast: seq<Op>)
      ensures this.ast == ast
      ensures State() == Initial()
    {
      this.ast := ast;
      blocks := [EntryBlock()];
      loops := [];
      current := 0;
    }

    /** The builder: appends `code` at the end of the insertion block. */
    method Emit(code: seq<Instr>)
      requires Valid()
      modifies this
      ensures blocks == old(blocks)[old(current) := old(blocks)[old(current)] + code]
      ensures loops == old(loops) && current == old(current)
      ensures Valid()
    {
      blocks := blocks[current := blocks[current] + code];
    }

    /** Moves the tape pointer by `count` cells, backwards when `dec`. */
    method PtrManipulate(count: nat, dec: bool)
      requires Valid()
      modifies this
      ensures blocks == old(blocks)[old(current) := old(blocks)[old(current)] + PointerCode(count, dec)]
      ensures loops == old(loops) && current == old(current)
      ensures Valid()
    {
      var delta: int := count;
      if dec {
        delta := -delta;
      }
      Emit([LoadTapePtr, Offset(delta), StoreTapePtr]);
    }

    /** Adds `count` to the current cell, or subtracts it when `dec`. */
    method ValManipulate(count: nat, dec: bool)
      requires Valid()
      modifies this
      ensures blocks == old(blocks)[old(current) := old(blocks)[old(current)] + ValueCode(count, dec)]
      ensures loops == old(loops) && current == old(current)
      ensures Valid()
    {
      var update := if !dec then AddCell(count) else SubCell(count);
      Emit([LoadTapePtr, LoadCell, update, StoreCell]);
    }

    /** Writes the current cell with `putchar`. */
    method Out()
      requires Valid()
      modifies this
      ensures blocks == old(blocks)[old(current) := old(blocks)[old(current)] + OutputCode()]
      ensures loops == old(loops) && current == old(current)
      ensures Valid()
    {
      Emit([LoadTapePtr, LoadCell, CallPutchar]);
    }

    /** Reads a character with `getchar` into the current cell. */
    method Input()
      requires Valid()
      modifies this
      ensures blocks == old(blocks)[old(current) := old(blocks)[old(current)] + InputCode()]
      ensures loops == old(loops) && current == old(current)
      ensures Valid()
    {
      Emit([LoadTapePtr, CallGetchar, StoreCell]);
    }

    /** Opens a loop: appends fresh blocks cond, body and end, pushes
        (cond, end), branches to cond, tests the cell there, and continues
        in body. */
    method LoopStart()
      requires Valid()
      modifies this
      ensures var n := |old(blocks)|;
        && blocks == old(blocks)[old(current) := old(blocks)[old(current)] + [Br(n)]]
                       + [CondCode(n + 1, n + 2), [], []]
        && loops == old(loops) + [Frame(n, n + 2)]
        && current == n + 1
      ensures Valid()
    {
      ghost var start := blocks[current := blocks[current] + [Br(|blocks|)]];
      var cond := |blocks|;
      blocks := blocks + [[]];
      var body := |blocks|;
      blocks := blocks + [[]];
      var end := |blocks|;
      blocks := blocks + [[]];
      loops := loops + [Frame(cond, end)];
      Emit([Br(cond)]);
      assert blocks == start + [[], [], []];
      current := cond;
      Emit([LoadTapePtr, LoadCell, CmpNonZero, CondBr(body, end)]);
      assert [] + CondCode(body, end) == CondCode(body, end);
      assert blocks == start + [CondCode(body, end), [], []];
      current := body;
    }

    /** Closes the innermost loop: pops its frame, branches back to its cond
        block and continues in its end block. On an empty stack the original
        panics; here `ok` is false and nothing changes. */
    method LoopEnd() returns (ok: bool)
      requires Valid()
      modifies this
      ensures ok <==> old(loops) != []
      ensures !ok ==> State() == old(State())
      ensures ok ==>
        var f := old(loops)[|old(loops)| - 1];
        && blocks == old(blocks)[old(current) := old(blocks)[old(current)] + [Br(f.cond)]]
        && loops == old(loops)[..|old(loops)| - 1]
        && current == f.end
      ensures Valid()
    {
      if loops == [] {
        return false;
      }
      var f := loops[|loops| - 1];
      loops := loops[..|loops| - 1];
      Emit([Br(f.cond)]);
      current := f.end;
      ok := true;
    }

    /** One arm of the translation loop: dispatches `op` to its emitter. */
    method TranslateOp(op: Op) returns (ok: bool)
      requires Valid()
      modifies this
      ensures ok <==> Step(old(State()), op).Some?
      ensures ok ==> Step(old(State()), op) == Some(State())
      ensures Valid()
    {
      ok := true;
      match op {
        case PointerInc(n) => PtrManipulate(n, false);
        case PointerDec(n) => PtrManipulate(n, true);
        case ValueInc(n) => ValManipulate(n, false);
        case ValueDec(n) => ValManipulate(n, true);
        case Output => Out();
        case Input => Input();
        case LLoop => LoopStart();
        case RLoop => ok := LoopEnd();
      }
    }

    /** Translates every instruction in order and ends the entry function
        with `return 0`; fails exactly when a `]` has no open loop. The loop
        stack is not checked at the end. */
    method Run() returns (ok: bool)
      requires State() == Initial()
      modifies this
      ensures ok <==> NeverUnderflows(ast)
      ensures ok <==> Compile(ast).Some?
      ensures ok ==> blocks == Compile(ast).value
    {
      CompileSucceedsIff(ast);
      var i := 0;
      while i < |ast|
        invariant 0 <= i <= |ast|
        invariant Valid()
        invariant Generate(ast[..i]) == Some(State())
      {
        ghost var before := State();
        assert ast[..i + 1][..i] == ast[..i];
        assert Generate(ast[..i + 1]) == Step(before, ast[i]);
        var translated := TranslateOp(ast[i]);
        if !translated {
          GenerateFailureIsFinal(ast, i + 1);
          return false;
        }
        i := i + 1;
      }
      assert ast[..|ast|] == ast;
      Emit([Ret(0)]);
      ok := true;
    }
  }
}
