/** The code generator with the IR builder replaced by an abstract control-flow
    graph. Blocks of the program's entry function are numbered in the order
    they are appended (the entry block is 0); each block is the list of
    instructions the builder appended to it, terminators included. `Step` is
    the effect of one instruction, `Generate` of a whole sequence, and
    `Compile` adds the final `return 0`. */
module ControlFlow {
  import opened Ops

  /** Abstract IR instructions, one per builder call of the original. */
  datatype Instr =
    | AllocTapePtr                       // stack slot holding the tape pointer
    | CallCalloc(count: nat, size: nat)  // allocation of the zeroed tape
    | LoadTapePtr                        // read the tape pointer from its slot
    | StoreTapePtr                       // write the tape pointer to its slot
    | Offset(delta: int)                 // address arithmetic on the tape pointer
    | LoadCell                           // read the cell under the pointer
    | AddCell(amount: nat)
    | SubCell(amount: nat)
    | StoreCell                          // write the cell under the pointer
    | CallPutchar
    | CallGetchar
    | CmpNonZero                         // compare the loaded cell with zero
    | Br(target: nat)
    | CondBr(ifNonZero: nat, ifZero: nat)
    | Ret(value: int)
  {
    predicate IsTerminator() {
      Br? || CondBr? || Ret?
    }

    /** Every block this instruction may branch to has an id below `n`. */
    predicate TargetsBelow(n: nat) {
      (Br? ==> target < n) && (CondBr? ==> ifNonZero < n && ifZero < n)
    }
  }

  type Block = seq<Instr>

  /** An open loop: its condition block and its exit block. */
  datatype Frame = Frame(cond: nat, end: nat)

  /** Generator state: the entry function's blocks, the loop-frame stack
      (innermost last) and the insertion block. */
  datatype Cfg = Cfg(blocks: seq<Block>, loops: seq<Frame>, current: nat)

  /** Number of tape cells the generated program allocates. */
  const TapeCells: nat := 1000

  /** The bootstrap code: a slot for the tape pointer, the zeroed tape, and
      the tape's address stored into the slot. */
  function EntryBlock(): Block
  {
    [AllocTapePtr, CallCalloc(TapeCells, 1), StoreTapePtr]
  }

  function Initial(): Cfg
  {
    Cfg([EntryBlock()], [], 0)
  }

  /** The insertion block and every block a frame names exist. */
  predicate InRange(c: Cfg)
  {
    && c.current < |c.blocks|
    && forall k :: 0 <= k < |c.loops| ==> c.loops[k].cond < |c.blocks| && c.loops[k].end < |c.blocks|
  }

  /** Appends `code` at the end of the insertion block. */
  function Append(c: Cfg, code: seq<Instr>): Cfg
    requires c.current < |c.blocks|
  {
    c.(blocks := c.blocks[c.current := c.blocks[c.current] + code])
  }

  /** Pointer move by `count` cells, backwards when `dec`. */
  function PointerCode(count: nat, dec: bool): seq<Instr>
  {
    [LoadTapePtr, Offset(if dec then -(count as int) else count), StoreTapePtr]
  }

  /** Cell update by `count`, downwards when `dec`. */
  function ValueCode(count: nat, dec: bool): seq<Instr>
  {
    [LoadTapePtr, LoadCell, if dec then SubCell(count) else AddCell(count), StoreCell]
  }

  function OutputCode(): seq<Instr>
  {
    [LoadTapePtr, LoadCell, CallPutchar]
  }

  function InputCode(): seq<Instr>
  {
    [LoadTapePtr, CallGetchar, StoreCell]
  }

  /** The condition block of a loop: enter `body` while the cell is nonzero. */
  function CondCode(body: nat, exit: nat): seq<Instr>
  {
    [LoadTapePtr, LoadCell, CmpNonZero, CondBr(body, exit)]
  }

  /** Loop opener: three fresh blocks cond, body, end (in that order), the
      frame (cond, end) pushed, insertion moved to body. */
  function OpenLoop(c: Cfg): Cfg
    requires c.current < |c.blocks|
  {
    var n := |c.blocks|;
    Cfg(Append(c, [Br(n)]).blocks + [CondCode(n + 1, n + 2), [], []],
        c.loops + [Frame(n, n + 2)],
        n + 1)
  }

  /** Loop closer: the newest frame popped, a branch back to its condition,
      insertion moved to its end block; `None` on an empty stack. */
  function CloseLoop(c: Cfg): Option<Cfg>
    requires c.current < |c.blocks|
  {
    if c.loops == [] then None
    else
      var f := c.loops[|c.loops| - 1];
      Some(Cfg(Append(c, [Br(f.cond)]).blocks, c.loops[..|c.loops| - 1], f.end))
  }

  /** The effect of one instruction on the generator state. */
  function Step(c: Cfg, op: Op): (r: Option<Cfg>)
    requires InRange(c)
    ensures r.None? <==> op.RLoop? && c.loops == []
    ensures r.Some? ==> InRange(r.value) && |r.value.blocks| >= |c.blocks|
  {
    match op
    case PointerInc(n) => Some(Append(c, PointerCode(n, false)))
    case PointerDec(n) => Some(Append(c, PointerCode(n, true)))
    case ValueInc(n) => Some(Append(c, ValueCode(n, false)))
    case ValueDec(n) => Some(Append(c, ValueCode(n, true)))
    case Output => Some(Append(c, OutputCode()))
    case Input => Some(Append(c, InputCode()))
    case LLoop => Some(OpenLoop(c))
    case RLoop => CloseLoop(c)
  }

  /** The generator state after `ops`, or `None` if some `]` found the
      loop stack empty (the original panics there). */
  function Generate(ops: seq<Op>): (r: Option<Cfg>)
    ensures r.Some? ==> InRange(r.value)
  {
    if ops == [] then Some(Initial())
    else
      match Generate(ops[..|ops| - 1])
      case None => None
      case Some(c) => Step(c, ops[|ops| - 1])
  }

  /** The blocks once `return 0` is appended at the insertion point. */
  function Finish(c: Cfg): seq<Block>
    requires c.current < |c.blocks|
  {
    Append(c, [Ret(0)]).blocks
  }

  /** The entry function generated for `ops`. */
  function Compile(ops: seq<Op>): Option<seq<Block>>
  {
    match Generate(ops)
    case None => None
    case Some(c) => Some(Finish(c))
  }

  // ----------------------------------------------------------------------
  // Reference bracket matching, independent of the block graph
  // ----------------------------------------------------------------------

  /** The ordinals (0 for the first `[`, 1 for the second, ...) of the loops
      still open after `ops`, innermost last; a `]` closes the most recent
      one. `None` when a `]` has nothing to close. */
  function OpenLoops(ops: seq<Op>): Option<seq<nat>>
  {
    if ops == [] then Some([])
    else
      var init := ops[..|ops| - 1];
      match OpenLoops(init)
      case None => None
      case Some(open) =>
        if ops[|ops| - 1].LLoop? then Some(open + [CountOpen(init)])
        else if ops[|ops| - 1].RLoop? then (if open == [] then None else Some(open[..|open| - 1]))
        else Some(open)
  }

  /** The blocks of the k-th loop opened: cond and end (body lies between). */
  function FrameOf(k: nat): Frame
  {
    Frame(1 + 3 * k, 3 + 3 * k)
  }

  function Frames(open: seq<nat>): seq<Frame>
  {
    seq(|open|, i requires 0 <= i < |open| => FrameOf(open[i]))
  }

  // ----------------------------------------------------------------------
  // Well-formed graphs
  // ----------------------------------------------------------------------

  /** Exit blocks of the open loops. */
  function Ends(loops: seq<Frame>): set<nat>
  {
    set k | 0 <= k < |loops| :: loops[k].end
  }

  predicate Unterminated(b: Block)
  {
    forall i :: 0 <= i < |b| ==> !b[i].IsTerminator()
  }

  /** Exactly one terminator, at the end. */
  predicate Terminated(b: Block)
  {
    b != [] && b[|b| - 1].IsTerminator() && Unterminated(b[..|b| - 1])
  }

  /** The shape the generator keeps: the insertion block and the exit
      blocks of open loops (all distinct) have no terminator yet, every
      other block ends in exactly one, and all branches stay in the graph. */
  predicate WellFormed(c: Cfg)
  {
    && InRange(c)
    && c.current !in Ends(c.loops)
    && (forall k, k' :: 0 <= k < k' < |c.loops| ==> c.loops[k].end < c.loops[k'].end)
    && (forall j :: 0 <= j < |c.blocks| ==>
          if j == c.current || j in Ends(c.loops) then Unterminated(c.blocks[j])
          else Terminated(c.blocks[j]))
    && (forall j, i :: 0 <= j < |c.blocks| && 0 <= i < |c.blocks[j]| ==>
          c.blocks[j][i].TargetsBelow(|c.blocks|))
  }
}
