# bf-llvm core, modelled in Dafny

bf-llvm compiles the classic eight-symbol tape language (`>` `<` `+` `-` `.`
`,` `[` `]`) to native code. A lexer turns the source text into a flat
sequence of instructions (`Op`), folding each run of identical `>` `<` `+` `-`
into one counted instruction. A code generator then walks that sequence
once. It appends IR instructions at a moving insertion point and keeps a
stack of loop frames `(cond, end)` to wire each `]` back to its `[`.

This project models both stages in Dafny:

- `ops.dfy` (module `Ops`) holds the eight-variant `Op`, an `Option` type for
  the failure paths, and the bracket counts `Depth` and `NeverUnderflows`.
- `lexer.dfy` (module `Lexing`) holds the reference lexer `Lex` and the
  `Lexer` class. The class is a buffer plus a cursor `ptr` with
  `Peek`/`Eat`/`EatWhileSame`/`Run`, and `Run` is proved equal to `Lex`.
- `lexer_props.dfy` (module `LexingProperties`) holds what lexing
  guarantees. Lexing succeeds exactly on legal text. Counts are positive and
  runs are maximal. Lexing round-trips in both directions with a spelling
  function.
- `controlflow.dfy` (module `ControlFlow`) replaces the LLVM builder with an
  abstract control-flow graph. Blocks are numbered in creation order, and a
  block is the list of instructions appended to it, terminators included.
  `Step`, `Generate` and `Compile` give the effect of one op, a whole
  sequence, and the final `return 0`. `OpenLoops` is a reference bracket
  matcher that does not refer to blocks.
- `controlflow_props.dfy` (module `ControlFlowProperties`) holds what
  generation guarantees. It panics exactly on an unmatched `]`. The stack
  pairs brackets LIFO, and the k-th loop gets blocks 1+3k, 2+3k and 3+3k.
  The insertion block never has a terminator yet. A program whose loops all
  close gives a complete graph. A loop left open leaves an exit block
  without a terminator.
- `codegen.dfy` (module `CodeGeneration`) holds the `CodeGen` class. It has
  the fields `blocks`, `loops` (the frame stack) and `current` (the
  insertion block), and one method per emitter. `Run` is proved to build
  exactly `Compile(ast)`.

A panic in the original (`unimplemented!()` on an illegal character,
`pop_back().unwrap()` on an unmatched `]`) becomes `None` or `ok == false`.

The model follows src/main.rs throughout:
- `Op` has exactly the eight variants of src/main.rs:17-26.
- Every character outside the eight symbols and space, tab, CR and LF
  aborts lexing (src/main.rs:104), whether or not it is alphanumeric.

## Model

| member | source | states |
|---|---|---|
| `Lexing.RunLength` | src/main.rs:52-61 | the count is the length of the maximal run of `c` at the front: every counted character is `c`, and the next one, if any, is not |
| `Lexing.Lexer.constructor` | src/main.rs:35-40 | a new lexer holds the source buffer with the cursor at 0 |
| `Lexing.Lexer.Peek` | src/main.rs:42-44 | returns the first unconsumed character, or nothing when the cursor is at or past the end |
| `Lexing.Lexer.Eat` | src/main.rs:46-50 | the cursor always advances by one, even past the end; returns the character that was under it, if any |
| `Lexing.Lexer.EatWhileSame` | src/main.rs:52-69 | consumes exactly the maximal run of `c` and returns the counted op for `c` with that run length; only `>` `<` `+` `-` may be passed (the `unreachable!` arm) |
| `Lexing.Lexer.Run` | src/main.rs:72-108 | the loop's result equals the reference lexer `Lex` on the unconsumed text; on success the cursor ends exactly at the end of the buffer |
| `Lexing.Tokenize` | src/main.rs:282-283 | a fresh lexer run on a source text yields exactly `Lex(source)` |
| `LexingProperties.LexSucceedsIff` | src/main.rs:80-104 | lexing succeeds if and only if every character is one of the eight symbols or space, tab, CR, LF; any other character makes it fail |
| `LexingProperties.LexCountsPositive` | src/main.rs:53-57 | every counted op the lexer emits has count >= 1, because a run starts only where `peek` already shows its character |
| `LexingProperties.LexSpellsInput` | src/main.rs:72-108 | spelling the output back (k copies of the character per counted op, one per other op) gives the input with whitespace removed: order kept, nothing lost |
| `LexingProperties.LexRunsMaximal` | src/main.rs:54-60 | on whitespace-free text no counted op is followed by another of the same kind: a run never stops early and never spans a differing character |
| `LexingProperties.LexOfSpelling` | src/main.rs:72-108 | every sequence of positive-count, maximal ops is what lexing its spelling returns (inverse round trip) |
| `LexingProperties.SingleRun` | src/main.rs:81-84 | k >= 1 copies of one of `>` `<` `+` `-` lex to exactly one op `PointerInc(k)`/`PointerDec(k)`/`ValueInc(k)`/`ValueDec(k)` |
| `LexingProperties.AdjacentRuns` | src/main.rs:54-60 | k1 copies of c1 followed by k2 copies of a different c2 lex to two ops, never merged |
| `LexingProperties.PlusPlusMinusMinus` | src/main.rs:54-60 | `++--` lexes to `[ValueInc(2), ValueDec(2)]` |
| `ControlFlow.Step` | src/main.rs:219-245 | one op fails exactly when it is `]` with an empty loop stack; otherwise the insertion block and all frames stay inside the graph, and no block is removed |
| `ControlFlow.Generate` | src/main.rs:219-246 | after any op sequence that does not panic, the insertion block and all frames name existing blocks |
| `ControlFlowProperties.OpenLoopsDepth` | src/main.rs:182 | the reference matcher fails exactly when some prefix closes more loops than it opened; otherwise it keeps Depth(ops) loops open |
| `ControlFlowProperties.StepFollowsOpenLoops` | src/main.rs:164-185 | one generator step agrees with one matcher step: `[` adds three blocks and pushes the frame of the new loop, `]` pops the newest frame or fails on an empty stack, other ops leave blocks count and stack alone |
| `ControlFlowProperties.GenerateFollowsOpenLoops` | src/main.rs:164-185 | the generator fails exactly where the matcher does; its stack is the matcher's open loops, each as its frame (1+3k, 3+3k); it has created 1 + 3 * (number of `[`) blocks |
| `ControlFlowProperties.GenerateFailureIsFinal` | src/main.rs:182 | a panic ends generation: once a prefix fails, every extension fails |
| `ControlFlowProperties.CompileSucceedsIff` | src/main.rs:219-247 | generation completes without panic if and only if no prefix has more `]` than `[`; the stack then holds Depth(ops) frames |
| `ControlFlowProperties.LoopOpenWiring` | src/main.rs:164-179 | the k-th `[` appends cond, body, end as blocks 1+3k, 2+3k, 3+3k, branches current to cond, branches cond to body if the cell is nonzero and to end otherwise, pushes (cond, end) on an otherwise unchanged stack, and moves insertion to body |
| `ControlFlowProperties.LoopCloseWiring` | src/main.rs:181-185 | `]` fails exactly when no loop is open; otherwise it pops the frame of the most recently opened loop still open (LIFO), branches current back to that loop's cond block, moves insertion to its end block, and leaves the rest of the stack unchanged |
| `ControlFlowProperties.InitialWellFormed` | src/main.rs:197-207 | the bootstrap entry block is the insertion block and has no terminator |
| `ControlFlowProperties.AppendKeepsWellFormed` | src/main.rs:122-162 | appending the pointer, cell, output or input code keeps the graph well formed |
| `ControlFlowProperties.OpenLoopKeepsWellFormed` | src/main.rs:164-179 | opening a loop keeps the graph well formed: the old insertion block and cond end in exactly one terminator, body and end have none |
| `ControlFlowProperties.CloseLoopKeepsWellFormed` | src/main.rs:181-185 | closing a loop keeps the graph well formed: the old insertion block ends in exactly one terminator, the popped end block becomes the insertion block |
| `ControlFlowProperties.StepKeepsWellFormed` | src/main.rs:219-245 | every op that does not panic keeps the graph well formed |
| `ControlFlowProperties.GenerateWellFormed` | src/main.rs:218-246 | throughout generation the insertion block has no terminator and differs from every open loop's exit block, the exit blocks are distinct and have no terminator, every other block ends in exactly one terminator, and every branch targets an existing block |
| `ControlFlowProperties.ClosedProgramComplete` | src/main.rs:247 | when every `[` is closed, the final `return 0` completes the graph: every block ends in exactly one terminator and every branch targets an existing block |
| `ControlFlowProperties.UnclosedLoopLeavesOpenBlock` | src/main.rs:247 | `return 0` is emitted without checking the loop stack, so with a loop left open, the exit block 3+3k of the innermost open loop stays without a terminator |
| `CodeGeneration.CodeGen.constructor` | src/main.rs:187-216 | the entry block (block 0) allocates the tape-pointer slot, calls `calloc(1000, 1)` and stores the tape address; the loop stack is empty and insertion is at the entry block |
| `CodeGeneration.CodeGen.Emit` | src/main.rs:123-132 | the builder's append, through which every `build_*` call goes: the code lands at the end of the insertion block; the other blocks, the loop stack and the insertion point are unchanged |
| `CodeGeneration.CodeGen.PtrManipulate` | src/main.rs:122-133 | appends load pointer, offset by +count (or -count when `dec`), store pointer to the insertion block; nothing else changes |
| `CodeGeneration.CodeGen.ValManipulate` | src/main.rs:135-148 | appends load pointer, load cell, add (or subtract) count, store cell to the insertion block; nothing else changes |
| `CodeGeneration.CodeGen.Out` | src/main.rs:150-155 | appends load pointer, load cell, call `putchar` to the insertion block; nothing else changes |
| `CodeGeneration.CodeGen.Input` | src/main.rs:157-162 | appends load pointer, call `getchar`, store cell to the insertion block; nothing else changes |
| `CodeGeneration.CodeGen.LoopStart` | src/main.rs:164-179 | appends three fresh blocks cond, body, end in that order, pushes exactly (cond, end), branches current to cond, gives cond the test and the branch to body or end, and moves insertion to body |
| `CodeGeneration.CodeGen.LoopEnd` | src/main.rs:181-185 | fails, changing nothing, exactly on an empty stack; otherwise pops the newest frame, branches current to its cond block and moves insertion to its end block, leaving the rest of the stack as it was |
| `CodeGeneration.CodeGen.TranslateOp` | src/main.rs:220-245 | dispatching one op to its emitter has exactly the effect `Step` gives it, and fails exactly when `Step` does |
| `CodeGeneration.CodeGen.Run` | src/main.rs:218-248 | succeeds if and only if no prefix of the ops has more `]` than `[`; on success the blocks are exactly `Compile(ast)`, ending with `return 0` at the final insertion point |

## Left out

- LLVM itself is not modelled: types, `Context`, `Module`, value names and the declarations of `putchar`, `getchar`, `calloc` and `main` (src/main.rs:187-199). The `inkwell` library is not part of this model, so each builder call is an abstract instruction record appended to a block.
- `generate_machine_code` (src/main.rs:250-275) is left out. It does target setup, writes the object file and runs the `link` subprocess, all of which is I/O.
- `main` (src/main.rs:279-288) is left out apart from running the lexer on a source text (`Tokenize`). Reading the command-line argument and the file is I/O.
- The runtime meaning of the generated program is left out: the 1000-cell tape, unchecked pointer arithmetic, and the I/O of `putchar`/`getchar`.
- Cell arithmetic width is left out. `AddCell`/`SubCell` record the run length, and no wrap rule is claimed, because the code mixes an i64 constant with an i8 load.
- Counts are unbounded `nat`. The `usize` counter of `eat_while_same`, the `as u64` conversion and the i64 negation for `dec` (src/main.rs:124-127) can only overflow for runs longer than 2^63 characters, so they are not modelled. The same holds for the `usize` cursor `ptr`.
- A panic stops the whole process. Here it ends the operation with `None`/`false`, and the state left behind by a failing `Run` is unspecified. No error message is modelled.
- `CodeGeneration.CodeGen.Run` requires the state the constructor leaves. This matches the only call site (src/main.rs:285-286), and `Run` is not modelled from other states.
- `VecDeque` is modelled as a sequence used only at its back end (push and pop), which is all the code does with it.
