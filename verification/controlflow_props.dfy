/** Properties of the abstract code generator: when it panics, how its loop
    stack pairs `[` with `]`, which blocks each loop gets, and the shape of
    the finished graph. */
module ControlFlowProperties {
  import opened Ops
  import opened ControlFlow

  // ----------------------------------------------------------------------
  // Helpers
  // ----------------------------------------------------------------------

  lemma SnocParts(ops: seq<Op>, x: Op)
    ensures (ops + [x])[..|ops|] == ops && (ops + [x])[|ops|] == x && ops + [x] != []
  {
  }

  lemma {:induction false} NeverUnderflowsSnoc(ops: seq<Op>)
    requires ops != []
    ensures NeverUnderflows(ops) <==> NeverUnderflows(ops[..|ops| - 1]) && Depth(ops) >= 0
  {
    var init := ops[..|ops| - 1];
    assert forall n :: 0 <= n <= |init| ==> ops[..n] == init[..n];
    assert ops[..|ops|] == ops;
  }

  lemma EndsSnoc(loops: seq<Frame>, f: Frame)
    ensures Ends(loops + [f]) == Ends(loops) + {f.end}
  {
    var l := loops + [f];
    forall e | e in Ends(l) ensures e in Ends(loops) + {f.end} {
      var k :| 0 <= k < |l| && l[k].end == e;
      if k < |loops| {
        assert loops[k].end == e;
      }
    }
    forall e | e in Ends(loops) + {f.end} ensures e in Ends(l) {
      if e == f.end {
        assert l[|loops|].end == e;
      } else {
        var k :| 0 <= k < |loops| && loops[k].end == e;
        assert l[k].end == e;
      }
    }
  }

  lemma EndsBelow(loops: seq<Frame>, n: nat)
    requires forall k :: 0 <= k < |loops| ==> loops[k].end < n
    ensures forall e :: e in Ends(loops) ==> e < n
  {
  }

  lemma ConcatUnterminated(b: Block, code: seq<Instr>)
    requires Unterminated(b) && Unterminated(code)
    ensures Unterminated(b + code)
  {
    forall i | 0 <= i < |b + code| ensures !(b + code)[i].IsTerminator() {
      if i < |b| {
        assert (b + code)[i] == b[i];
      } else {
        assert (b + code)[i] == code[i - |b|];
      }
    }
  }

  lemma ConcatTargets(b: Block, code: seq<Instr>, n: nat)
    requires forall i :: 0 <= i < |b| ==> b[i].TargetsBelow(n)
    requires forall i :: 0 <= i < |code| ==> code[i].TargetsBelow(n)
    ensures forall i :: 0 <= i < |b + code| ==> (b + code)[i].TargetsBelow(n)
  {
    forall i | 0 <= i < |b + code| ensures (b + code)[i].TargetsBelow(n) {
      if i < |b| {
        assert (b + code)[i] == b[i];
      } else {
        assert (b + code)[i] == code[i - |b|];
      }
    }
  }

  lemma TerminateBlock(b: Block, t: Instr)
    requires Unterminated(b) && t.IsTerminator()
    ensures Terminated(b + [t])
  {
    assert (b + [t])[..|b|] == b;
  }

  // ----------------------------------------------------------------------
  // Bracket matching
  // ----------------------------------------------------------------------

  /** The reference matcher fails exactly when some prefix closes more loops
      than it opened, and otherwise keeps the nesting depth's worth of loops
      open. */
  lemma {:induction false} OpenLoopsDepth(ops: seq<Op>)
    ensures OpenLoops(ops).Some? <==> NeverUnderflows(ops)
    ensures OpenLoops(ops).Some? ==> |OpenLoops(ops).value| == Depth(ops)
    decreases |ops|
  {
    if ops == [] {
      assert forall n :: 0 <= n <= |ops| ==> ops[..n] == [];
    } else {
      var init := ops[..|ops| - 1];
      OpenLoopsDepth(init);
      NeverUnderflowsSnoc(ops);
      if NeverUnderflows(init) {
        assert init[..|init|] == init;
      }
    }
  }

  /** One step of the generator, against one step of the reference matcher. */
  lemma StepFollowsOpenLoops(c: Cfg, open: seq<nat>, started: nat, op: Op)
    requires InRange(c) && |c.blocks| == 1 + 3 * started && c.loops == Frames(open)
    ensures Step(c, op).Some? <==> (op.RLoop? ==> open != [])
    ensures Step(c, op).Some? ==>
      && |Step(c, op).value.blocks| == 1 + 3 * (started + if op.LLoop? then 1 else 0)
      && Step(c, op).value.loops ==
           if op.LLoop? then Frames(open + [started])
           else if op.RLoop? then Frames(open[..|open| - 1])
           else Frames(open)
  {
    if op.LLoop? {
      assert Frames(open + [started]) == Frames(open) + [FrameOf(started)];
    } else if op.RLoop? && open != [] {
      assert Frames(open[..|open| - 1]) == Frames(open)[..|open| - 1];
    }
  }

  /** The generator's loop stack is the reference matcher's stack of open
      loops, each as the frame of its blocks: it fails exactly where the
      matcher does, and after `ops` it has created 1 + 3 * (number of `[`)
      blocks. */
  lemma {:induction false} GenerateFollowsOpenLoops(ops: seq<Op>)
    ensures Generate(ops).Some? <==> OpenLoops(ops).Some?
    ensures Generate(ops).Some? ==>
      && |Generate(ops).value.blocks| == 1 + 3 * CountOpen(ops)
      && Generate(ops).value.loops == Frames(OpenLoops(ops).value)
    decreases |ops|
  {
    if ops != [] {
      var init := ops[..|ops| - 1];
      var last := ops[|ops| - 1];
      GenerateFollowsOpenLoops(init);
      if Generate(init).Some? {
        var c := Generate(init).value;
        var open := OpenLoops(init).value;
        assert Generate(ops) == Step(c, last);
        StepFollowsOpenLoops(c, open, CountOpen(init), last);
      }
    }
  }

  /** A panic is final: once a prefix fails, so does every extension. */
  lemma {:induction false} GenerateFailureIsFinal(ops: seq<Op>, n: nat)
    requires n <= |ops| && Generate(ops[..n]).None?
    ensures Generate(ops).None?
    decreases |ops| - n
  {
    if n < |ops| {
      var init := ops[..|ops| - 1];
      assert init[..n] == ops[..n];
      GenerateFailureIsFinal(init, n);
    } else {
      assert ops[..n] == ops;
    }
  }

  /** Code generation completes without panic exactly when no prefix of the
      instructions closes more loops than it opened; the loop stack then
      holds as many frames as loops are left open. */
  lemma CompileSucceedsIff(ops: seq<Op>)
    ensures Compile(ops).Some? <==> NeverUnderflows(ops)
    ensures Generate(ops).Some? ==> |Generate(ops).value.loops| == Depth(ops)
  {
    GenerateFollowsOpenLoops(ops);
    OpenLoopsDepth(ops);
  }

  /** `[` as the k-th loop opener: blocks 1+3k, 2+3k, 3+3k (cond, body, end)
      are appended, the insertion block branches to cond, cond branches to
      body or end on the cell, the frame (cond, end) is pushed on an
      otherwise unchanged stack, and insertion moves to body. */
  lemma LoopOpenWiring(ops: seq<Op>)
    requires Generate(ops).Some?
    ensures var c := Generate(ops).value;
      var k := CountOpen(ops);
      Generate(ops + [LLoop]) == Some(Cfg(
        c.blocks[c.current := c.blocks[c.current] + [Br(1 + 3 * k)]]
          + [CondCode(2 + 3 * k, 3 + 3 * k), [], []],
        c.loops + [FrameOf(k)],
        2 + 3 * k))
  {
    GenerateFollowsOpenLoops(ops);
    SnocParts(ops, LLoop);
  }

  /** `]` panics exactly when no loop is open. Otherwise it pairs with the
      most recently opened loop still open (the k-th): it branches from the
      insertion block back to that loop's cond block 1+3k, continues in its
      end block 3+3k, and pops just that frame. */
  lemma LoopCloseWiring(ops: seq<Op>)
    requires Generate(ops).Some?
    ensures OpenLoops(ops).Some? && |OpenLoops(ops).value| == Depth(ops)
    ensures Generate(ops + [RLoop]).None? <==> Depth(ops) == 0
    ensures Depth(ops) > 0 ==>
      var c := Generate(ops).value;
      var open := OpenLoops(ops).value;
      var k := open[|open| - 1];
      && OpenLoops(ops + [RLoop]) == Some(open[..|open| - 1])
      && Generate(ops + [RLoop]) == Some(Cfg(
           c.blocks[c.current := c.blocks[c.current] + [Br(1 + 3 * k)]],
           c.loops[..|c.loops| - 1],
           3 + 3 * k))
  {
    GenerateFollowsOpenLoops(ops);
    OpenLoopsDepth(ops);
    SnocParts(ops, RLoop);
  }

  // ----------------------------------------------------------------------
  // Shape of the graph
  // ----------------------------------------------------------------------

  lemma InitialWellFormed()
    ensures WellFormed(Initial())
  {
    assert Ends([]) == {};
  }

  lemma {:induction false} AppendKeepsWellFormed(c: Cfg, code: seq<Instr>)
    requires WellFormed(c)
    requires Unterminated(code)
    requires forall i :: 0 <= i < |code| ==> code[i].TargetsBelow(|c.blocks|)
    ensures WellFormed(Append(c, code))
  {
    var b := c.blocks[c.current];
    ConcatUnterminated(b, code);
    ConcatTargets(b, code, |c.blocks|);
  }

  lemma {:induction false} OpenLoopKeepsWellFormed(c: Cfg)
    requires WellFormed(c)
    ensures WellFormed(OpenLoop(c))
  {
    var n := |c.blocks|;
    var c' := OpenLoop(c);
    var b := c.blocks[c.current];
    EndsSnoc(c.loops, Frame(n, n + 2));
    EndsBelow(c.loops, n);
    TerminateBlock(b, Br(n));
    TerminateBlock(CondCode(n + 1, n + 2)[..3], CondBr(n + 1, n + 2));
    assert CondCode(n + 1, n + 2)[..3] + [CondBr(n + 1, n + 2)] == CondCode(n + 1, n + 2);
    ConcatTargets(b, [Br(n)], n + 3);
    forall j | 0 <= j < |c'.blocks|
      ensures if j == c'.current || j in Ends(c'.loops) then Unterminated(c'.blocks[j])
              else Terminated(c'.blocks[j])
    {
      if j < n {
        assert c'.blocks[j] == if j == c.current then b + [Br(n)] else c.blocks[j];
      }
    }
    forall j, i | 0 <= j < |c'.blocks| && 0 <= i < |c'.blocks[j]|
      ensures c'.blocks[j][i].TargetsBelow(n + 3)
    {
      if j < n && j != c.current {
        assert c'.blocks[j] == c.blocks[j];
      }
    }
  }

  lemma {:induction false} CloseLoopKeepsWellFormed(c: Cfg)
    requires WellFormed(c) && c.loops != []
    ensures WellFormed(CloseLoop(c).value)
  {
    var m := |c.loops|;
    var f := c.loops[m - 1];
    var rest := c.loops[..m - 1];
    var c' := CloseLoop(c).value;
    var b := c.blocks[c.current];
    assert c.loops == rest + [f];
    EndsSnoc(rest, f);
    EndsBelow(rest, f.end);
    TerminateBlock(b, Br(f.cond));
    ConcatTargets(b, [Br(f.cond)], |c.blocks|);
    forall j | 0 <= j < |c'.blocks|
      ensures if j == c'.current || j in Ends(c'.loops) then Unterminated(c'.blocks[j])
              else Terminated(c'.blocks[j])
    {
      assert c'.blocks[j] == if j == c.current then b + [Br(f.cond)] else c.blocks[j];
    }
    forall j, i | 0 <= j < |c'.blocks| && 0 <= i < |c'.blocks[j]|
      ensures c'.blocks[j][i].TargetsBelow(|c'.blocks|)
    {
      if j != c.current {
        assert c'.blocks[j] == c.blocks[j];
      }
    }
  }

  lemma StepKeepsWellFormed(c: Cfg, op: Op)
    requires WellFormed(c) && Step(c, op).Some?
    ensures WellFormed(Step(c, op).value)
  {
    match op
    case PointerInc(n) => AppendKeepsWellFormed(c, PointerCode(n, false));
    case PointerDec(n) => AppendKeepsWellFormed(c, PointerCode(n, true));
    case ValueInc(n) => AppendKeepsWellFormed(c, ValueCode(n, false));
    case ValueDec(n) => AppendKeepsWellFormed(c, ValueCode(n, true));
    case Output => AppendKeepsWellFormed(c, OutputCode());
    case Input => AppendKeepsWellFormed(c, InputCode());
    case LLoop => OpenLoopKeepsWellFormed(c);
    case RLoop => CloseLoopKeepsWellFormed(c);
  }

  /** Throughout generation the insertion point is a block without a
      terminator, distinct from the exit blocks of the open loops (which
      have none either); every other block ends in exactly one terminator. */
  lemma {:induction false} GenerateWellFormed(ops: seq<Op>)
    requires Generate(ops).Some?
    ensures WellFormed(Generate(ops).value)
    decreases |ops|
  {
    if ops == [] {
      InitialWellFormed();
    } else {
      GenerateWellFormed(ops[..|ops| - 1]);
      StepKeepsWellFormed(Generate(ops[..|ops| - 1]).value, ops[|ops| - 1]);
    }
  }

  /** A program whose loops all close compiles to a complete graph: every
      block ends in exactly one terminator and every branch targets an
      existing block. */
  lemma ClosedProgramComplete(ops: seq<Op>)
    requires NeverUnderflows(ops) && Depth(ops) == 0
    ensures Compile(ops).Some?
    ensures var blocks := Compile(ops).value;
      && (forall j :: 0 <= j < |blocks| ==> Terminated(blocks[j]))
      && (forall j, i :: 0 <= j < |blocks| && 0 <= i < |blocks[j]| ==> blocks[j][i].TargetsBelow(|blocks|))
  {
    CompileSucceedsIff(ops);
    GenerateWellFormed(ops);
    var c := Generate(ops).value;
    var b := c.blocks[c.current];
    assert c.loops == [];
    assert Ends(c.loops) == {};
    TerminateBlock(b, Ret(0));
    ConcatTargets(b, [Ret(0)], |c.blocks|);
    var blocks := Finish(c);
    forall j | 0 <= j < |blocks| ensures Terminated(blocks[j]) {
      assert blocks[j] == if j == c.current then b + [Ret(0)] else c.blocks[j];
    }
    forall j, i | 0 <= j < |blocks| && 0 <= i < |blocks[j]| ensures blocks[j][i].TargetsBelow(|blocks|) {
      if j != c.current {
        assert blocks[j] == c.blocks[j];
      }
    }
  }

  /** The final `return 0` is emitted without checking the loop stack: when
      a loop is left open, the exit block of the innermost open loop (the
      k-th) still has no terminator in the finished graph. */
  lemma UnclosedLoopLeavesOpenBlock(ops: seq<Op>)
    requires NeverUnderflows(ops) && Depth(ops) > 0
    ensures Compile(ops).Some? && OpenLoops(ops).Some? && OpenLoops(ops).value != []
    ensures var open := OpenLoops(ops).value;
      var k := open[|open| - 1];
      3 + 3 * k < |Compile(ops).value| && Unterminated(Compile(ops).value[3 + 3 * k])
  {
    CompileSucceedsIff(ops);
    OpenLoopsDepth(ops);
    GenerateFollowsOpenLoops(ops);
    GenerateWellFormed(ops);
    var c := Generate(ops).value;
    var m := |c.loops|;
    assert c.loops[m - 1].end in Ends(c.loops);
  }
}
