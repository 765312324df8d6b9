/** Properties of the reference lexer `Lexing.Lex`: which inputs it accepts,
    that its output spells the input back, and that its runs are maximal. */
module LexingProperties {
  import opened Ops
  import opened Lexing

  /** The source character an instruction stands for. */
  function OpChar(op: Op): char
  {
    match op
    case PointerInc(_) => '>'
    case PointerDec(_) => '<'
    case ValueInc(_) => '+'
    case ValueDec(_) => '-'
    case Output => '.'
    case Input => ','
    case LLoop => '['
    case RLoop => ']'
  }

  function Repeat(c: char, k: nat): seq<char>
  {
    seq(k, _ => c)
  }

  /** The characters one instruction was folded from. */
  function Spell(op: Op): seq<char>
  {
    if op.IsCounted() then Repeat(OpChar(op), op.count) else [OpChar(op)]
  }

  /** The characters an instruction sequence was folded from: the inverse
      of lexing on whitespace-free text. */
  function SpellAll(ops: seq<Op>): seq<char>
  {
    if ops == [] then [] else Spell(ops[0]) + SpellAll(ops[1..])
  }

  /** `s` with its whitespace removed. */
  function Strip(s: seq<char>): seq<char>
  {
    if s == [] then []
    else (if IsWhitespace(s[0]) then [] else [s[0]]) + Strip(s[1..])
  }

  predicate NoWhitespace(s: seq<char>)
  {
    forall i :: 0 <= i < |s| ==> !IsWhitespace(s[i])
  }

  /** Every counted instruction has a positive count. */
  predicate CountsPositive(ops: seq<Op>)
  {
    forall i :: 0 <= i < |ops| ==> ops[i].IsCounted() ==> ops[i].count >= 1
  }

  /** No counted instruction is followed by another of the same kind. */
  predicate RunsMaximal(ops: seq<Op>)
  {
    forall i :: 0 <= i < |ops| - 1 ==> ops[i].IsCounted() ==> OpChar(ops[i]) != OpChar(ops[i + 1])
  }

  /** The shape of every output of the lexer on whitespace-free text. */
  predicate Folded(ops: seq<Op>)
  {
    CountsPositive(ops) && RunsMaximal(ops)
  }

  // --------------------------------------------------------------------
  // Helpers
  // --------------------------------------------------------------------

  lemma RunOpChar(c: char, k: nat)
    requires IsRunChar(c)
    ensures RunOp(c, k).IsCounted() && OpChar(RunOp(c, k)) == c && RunOp(c, k).count == k
  {
  }

  lemma {:induction false} StripConcat(a: seq<char>, b: seq<char>)
    ensures Strip(a + b) == Strip(a) + Strip(b)
  {
    if a == [] {
      assert a + b == b;
    } else {
      assert (a + b)[1..] == a[1..] + b;
      StripConcat(a[1..], b);
    }
  }

  lemma {:induction false} StripIdentity(s: seq<char>)
    requires NoWhitespace(s)
    ensures Strip(s) == s
  {
    if s != [] {
      StripIdentity(s[1..]);
    }
  }

  lemma RunLengthExact(s: seq<char>, c: char, k: nat)
    requires k <= |s|
    requires forall i :: 0 <= i < k ==> s[i] == c
    requires k == |s| || s[k] != c
    ensures RunLength(s, c) == k
  {
  }

  /** The first instruction of a lexed text stands for its first character. */
  lemma LexHead(t: seq<char>)
    requires t != [] && !IsWhitespace(t[0]) && Lex(t).Some?
    ensures Lex(t).value != [] && OpChar(Lex(t).value[0]) == t[0]
  {
    if IsRunChar(t[0]) {
      RunOpChar(t[0], RunLength(t, t[0]));
    }
  }

  // --------------------------------------------------------------------
  // Properties
  // --------------------------------------------------------------------

  /** Lexing succeeds exactly when every character is one of the twelve
      accepted ones; any other character makes it fail. */
  lemma {:induction false} LexSucceedsIff(s: seq<char>)
    ensures Lex(s).Some? <==> forall i :: 0 <= i < |s| ==> IsLegal(s[i])
    decreases |s|
  {
    if s == [] {
    } else if IsRunChar(s[0]) {
      var k := RunLength(s, s[0]);
      LexSucceedsIff(s[k..]);
      assert forall i :: k <= i < |s| ==> s[i] == s[k..][i - k];
    } else if IsSingleChar(s[0]) || IsWhitespace(s[0]) {
      LexSucceedsIff(s[1..]);
      assert forall i :: 1 <= i < |s| ==> s[i] == s[1..][i - 1];
    } else {
      assert !IsLegal(s[0]);
    }
  }

  /** Every counted instruction the lexer emits has a count of at least one. */
  lemma {:induction false} LexCountsPositive(s: seq<char>)
    requires Lex(s).Some?
    ensures CountsPositive(Lex(s).value)
    decreases |s|
  {
    if s == [] {
    } else if IsRunChar(s[0]) {
      var k := RunLength(s, s[0]);
      LexCountsPositive(s[k..]);
      RunOpChar(s[0], k);
      assert Lex(s).value == [RunOp(s[0], k)] + Lex(s[k..]).value;
    } else if IsSingleChar(s[0]) {
      LexCountsPositive(s[1..]);
      assert Lex(s).value == [SingleOp(s[0])] + Lex(s[1..]).value;
    } else {
      LexCountsPositive(s[1..]);
    }
  }

  /** Round trip, text to instructions to text: spelling the lexer's output
      back gives the input without its whitespace. So the output keeps the
      input's order and loses no character. */
  lemma {:induction false} LexSpellsInput(s: seq<char>)
    requires Lex(s).Some?
    ensures SpellAll(Lex(s).value) == Strip(s)
    decreases |s|
  {
    if s == [] {
    } else if IsRunChar(s[0]) {
      var c := s[0];
      var k := RunLength(s, c);
      var rest := Lex(s[k..]).value;
      LexSpellsInput(s[k..]);
      RunOpChar(c, k);
      var ops := [RunOp(c, k)] + rest;
      assert Lex(s).value == ops;
      assert ops[0] == RunOp(c, k) && ops[1..] == rest;
      assert s[..k] == Repeat(c, k);
      StripIdentity(s[..k]);
      assert s == s[..k] + s[k..];
      StripConcat(s[..k], s[k..]);
    } else if IsSingleChar(s[0]) {
      var rest := Lex(s[1..]).value;
      LexSpellsInput(s[1..]);
      var ops := [SingleOp(s[0])] + rest;
      assert Lex(s).value == ops;
      assert ops[0] == SingleOp(s[0]) && ops[1..] == rest;
    } else {
      LexSpellsInput(s[1..]);
    }
  }

  /** On whitespace-free text, the lexer's output is folded: positive counts,
      and a run is never followed by another run of the same character. */
  lemma {:induction false} LexRunsMaximal(s: seq<char>)
    requires NoWhitespace(s) && Lex(s).Some?
    ensures Folded(Lex(s).value)
    decreases |s|
  {
    LexCountsPositive(s);
    if s == [] {
    } else if IsRunChar(s[0]) {
      var c := s[0];
      var k := RunLength(s, c);
      var t := s[k..];
      var rest := Lex(t).value;
      assert NoWhitespace(t) by {
        assert forall i :: 0 <= i < |t| ==> t[i] == s[k + i];
      }
      LexRunsMaximal(t);
      RunOpChar(c, k);
      var ops := [RunOp(c, k)] + rest;
      assert Lex(s).value == ops;
      if t != [] {
        LexHead(t);
        assert OpChar(ops[1]) == s[k] != c;
      }
      assert forall i :: 1 <= i < |ops| - 1 ==> ops[i] == rest[i - 1] && ops[i + 1] == rest[i];
    } else if IsSingleChar(s[0]) {
      var t := s[1..];
      var rest := Lex(t).value;
      assert NoWhitespace(t) by {
        assert forall i :: 0 <= i < |t| ==> t[i] == s[1 + i];
      }
      LexRunsMaximal(t);
      var ops := [SingleOp(s[0])] + rest;
      assert Lex(s).value == ops;
      assert !ops[0].IsCounted();
      assert forall i :: 1 <= i < |ops| - 1 ==> ops[i] == rest[i - 1] && ops[i + 1] == rest[i];
    }
  }

  /** Round trip, instructions to text to instructions: every folded sequence
      is given back by lexing its spelling. */
  lemma {:induction false} LexOfSpelling(ops: seq<Op>)
    requires Folded(ops)
    ensures Lex(SpellAll(ops)) == Some(ops)
    decreases |ops|
  {
    if ops != [] {
      var op := ops[0];
      var tail := ops[1..];
      assert Folded(tail) by {
        assert forall i :: 0 <= i < |tail| ==> tail[i] == ops[i + 1];
      }
      LexOfSpelling(tail);
      var t := SpellAll(tail);
      var s := SpellAll(ops);
      assert s == Spell(op) + t;
      if op.IsCounted() {
        var c := OpChar(op);
        var k := op.count;
        assert k >= 1;
        assert s[0] == c && IsRunChar(c);
        if tail != [] {
          var t' := SpellAll(tail[1..]);
          assert t == Spell(tail[0]) + t';
          assert t[0] == OpChar(tail[0]) by {
            if tail[0].IsCounted() {
              assert ops[1] == tail[0];
              assert tail[0].count >= 1;
            }
          }
          assert OpChar(ops[0]) != OpChar(ops[1]);
        }
        RunLengthExact(s, c, k);
        assert s[k..] == t;
        RunOpChar(c, k);
        assert RunOp(c, k) == op;
        assert ops == [op] + tail;
      } else {
        assert s[0] == OpChar(op) && s[1..] == t;
        assert IsSingleChar(s[0]) && !IsRunChar(s[0]);
        assert SingleOp(OpChar(op)) == op;
        assert ops == [op] + tail;
      }
    }
  }

  /** A maximal run of k >= 1 identical characters from `>` `<` `+` `-`
      lexes to exactly one counted instruction carrying k. */
  lemma SingleRun(c: char, k: nat)
    requires IsRunChar(c) && k >= 1
    ensures Lex(Repeat(c, k)) == Some([RunOp(c, k)])
  {
    RunOpChar(c, k);
    var ops := [RunOp(c, k)];
    assert SpellAll(ops) == Repeat(c, k) by {
      assert SpellAll(ops[1..]) == [];
    }
    LexOfSpelling(ops);
  }

  /** Runs never span a differing character: two adjacent runs of distinct
      characters give two instructions, never one. */
  lemma AdjacentRuns(c1: char, k1: nat, c2: char, k2: nat)
    requires IsRunChar(c1) && IsRunChar(c2) && c1 != c2 && k1 >= 1 && k2 >= 1
    ensures Lex(Repeat(c1, k1) + Repeat(c2, k2)) == Some([RunOp(c1, k1), RunOp(c2, k2)])
  {
    RunOpChar(c1, k1);
    RunOpChar(c2, k2);
    var ops := [RunOp(c1, k1), RunOp(c2, k2)];
    assert SpellAll(ops) == Repeat(c1, k1) + Repeat(c2, k2) by {
      assert ops[1..] == [RunOp(c2, k2)];
      assert SpellAll(ops[1..][1..]) == [];
    }
    LexOfSpelling(ops);
  }

  /** The example `++--`: two instructions, each with count 2. */
  lemma PlusPlusMinusMinus()
    ensures Lex("++--") == Some([ValueInc(2), ValueDec(2)])
  {
    assert "++--" == Repeat('+', 2) + Repeat('-', 2);
    AdjacentRuns('+', 2, '-', 2);
  }
}
