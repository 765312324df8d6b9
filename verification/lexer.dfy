/** The lexer: a cursor over a character buffer that folds runs of
    `>` `<` `+` `-` into counted instructions. `Lex` is the reference
    definition; `Lexer.Run` is the scanning loop, proved equal to it. */
module Lexing {
  import opened Ops

  predicate IsWhitespace(c: char) {
    c == '\n' || c == '\r' || c == ' ' || c == '\t'
  }

  /** Characters that are folded into a counted instruction. */
  predicate IsRunChar(c: char) {
    c == '>' || c == '<' || c == '+' || c == '-'
  }

  /** Characters that stand for exactly one instruction. */
  predicate IsSingleChar(c: char) {
    c == '.' || c == ',' || c == '[' || c == ']'
  }

  /** The twelve characters the lexer accepts. */
  predicate IsLegal(c: char) {
    IsRunChar(c) || IsSingleChar(c) || IsWhitespace(c)
  }

  /** The counted instruction for a run of `k` copies of `c`. */
  function RunOp(c: char, k: nat): Op
    requires IsRunChar(c)
  {
    if c == '>' then PointerInc(k)
    else if c == '<' then PointerDec(k)
    else if c == '+' then ValueInc(k)
    else ValueDec(k)
  }

  /** The instruction for one of `.` `,` `[` `]`. */
  function SingleOp(c: char): Op
    requires IsSingleChar(c)
  {
    if c == '.' then Output
    else if c == ',' then Input
    else if c == '[' then LLoop
    else RLoop
  }

  /** Length of the maximal run of `c` at the front of `s`. */
  function RunLength(s: seq<char>, c: char): (k: nat)
    ensures k <= |s|
    ensures forall i :: 0 <= i < k ==> s[i] == c
    ensures k < |s| ==> s[k] != c
  {
    if s != [] && s[0] == c then 1 + RunLength(s[1..], c) else 0
  }

  /** `Some(xs + ys)` when the rest lexed to `Some(ys)`; failure propagates. */
  function Prepend(xs: seq<Op>, r: Option<seq<Op>>): Option<seq<Op>>
  {
    match r
    case None => None
    case Some(ys) => Some(xs + ys)
  }

  lemma PrependConcat(xs: seq<Op>, ys: seq<Op>, r: Option<seq<Op>>)
    ensures Prepend(xs, Prepend(ys, r)) == Prepend(xs + ys, r)
    ensures Prepend([], r) == r
  {
    match r
    case None =>
    case Some(zs) => assert xs + (ys + zs) == xs + ys + zs; assert [] + zs == zs;
  }

  /** Reference lexer: the instruction sequence of `s`, or `None` when `s`
      holds a character outside the twelve accepted ones. */
  function Lex(s: seq<char>): Option<seq<Op>>
    decreases |s|
  {
    if s == [] then Some([])
    else if IsRunChar(s[0]) then
      var k := RunLength(s, s[0]);
      Prepend([RunOp(s[0], k)], Lex(s[k..]))
    else if IsSingleChar(s[0]) then Prepend([SingleOp(s[0])], Lex(s[1..]))
    else if IsWhitespace(s[0]) then Lex(s[1..])
    else None
  }

  // ---------------------------------------------------------------------
  // The scanner as the original writes it: a buffer and a moving cursor.
  // ---------------------------------------------------------------------

  class Lexer {
    const buffer: seq<char>
    var ptr: nat

    constructor (source: seq<char>)
      ensures buffer == source && ptr == 0
    {
      buffer := source;
      ptr := 0;
    }

    /** The characters not yet consumed (none once the cursor is past the end). */
    ghost function Rest(): seq<char>
      reads this
    {
      if ptr <= |buffer| then buffer[ptr..] else []
    }

    /** The next character, without consuming it. */
    method Peek() returns (c: Option<char>)
      ensures c.Some? <==> Rest() != []
      ensures c.Some? ==> c.value == Rest()[0]
    {
      if ptr < |buffer| {
        c := Some(buffer[ptr]);
      } else {
        c := None;
      }
    }

    /** Consumes one position (even past the end) and returns the character
        that was there, if any. */
    method Eat() returns (c: Option<char>)
      modifies this
      ensures ptr == old(ptr) + 1
      ensures c.Some? <==> old(Rest()) != []
      ensures c.Some? ==> c.value == old(Rest())[0] && Rest() == old(Rest())[1..]
      ensures c.None? ==> Rest() == []
    {
      var at := ptr;
      ptr := ptr + 1;
      if at < |buffer| {
        c := Some(buffer[at]);
      } else {
        c := None;
      }
    }

    /** Consumes the maximal run of `c` at the cursor and folds it into one
        counted instruction. */
    method EatWhileSame(c: char) returns (op: Op)
      requires IsRunChar(c)
      modifies this
      ensures var k := RunLength(old(Rest()), c);
        op == RunOp(c, k) && ptr == old(ptr) + k && Rest() == old(Rest())[k..]
    {
      ghost var s := Rest();
      var count := 0;
      while true
        invariant count <= |s| && Rest() == s[count..]
        invariant ptr == old(ptr) + count
        invariant forall i :: 0 <= i < count ==> s[i] == c
        decreases |Rest()|
      {
        var ch := Peek();
        if ch.None? || ch.value != c {
          break;
        }
        var _ := Eat();
        count := count + 1;
      }
      assert count == |s| || s[count] != c;
      op := RunOp(c, count);
    }

    /** Lexes everything from the cursor to the end of the buffer; `None`
        when an illegal character is met. */
    method Run() returns (ops: Option<seq<Op>>)
      modifies this
      ensures ops == Lex(old(Rest()))
      ensures ops.Some? && old(ptr) <= |buffer| ==> ptr == |buffer|
    {
      ghost var start := Rest();
      var vec: seq<Op> := [];
      PrependConcat([], [], Lex(start));
      while true
        invariant Lex(start) == Prepend(vec, Lex(Rest()))
        invariant old(ptr) <= |buffer| ==> ptr <= |buffer|
        decreases |Rest()|
      {
        var next := Peek();
        if next.None? {
          break;
        }
        var c := next.value;
        ghost var rest := Rest();
        if IsRunChar(c) {
          var op := EatWhileSame(c);
          assert rest[RunLength(rest, c)..] == Rest();
          PrependConcat(vec, [op], Lex(Rest()));
          vec := vec + [op];
        } else if IsSingleChar(c) {
          var _ := Eat();
          PrependConcat(vec, [SingleOp(c)], Lex(Rest()));
          vec := vec + [SingleOp(c)];
        } else if IsWhitespace(c) {
          var _ := Eat();
        } else {
          return None;
        }
      }
      assert Lex(Rest()) == Some([]);
      PrependConcat(vec, [], Some([]));
      assert vec + [] == vec;
      ops := Some(vec);
    }
  }

  /** Lexes a whole source text, as the driver does: a fresh lexer at
      position 0, run to the end. */
  method Tokenize(source: seq<char>) returns (ops: Option<seq<Op>>)
    ensures ops == Lex(source)
  {
    var lexer := new Lexer(source);
    ops := lexer.Run();
  }
}
