/**
  Reading a printed expression back: precedence climbing with a table of levels, left
  associative, where a complement is the only prefix operator.
*/
module Parsing {
  import opened Printing

  /** The levels a reader goes by; a smaller number binds tighter. */
  datatype Table = Table(neg: nat, bin: BinOp -> nat)

  function CodeTable(): Table {
    Table(NEG_PRECEDENCE, op => BinPrecedence(op))
  }

  const LOOSEST: nat := 20

  datatype Parsed = Parsed(e: Expr, rest: seq<Token>) | Rejected

  // ---------- The reader ----------

  function ParseExpr(t: Table, ts: seq<Token>, level: nat): (r: Parsed)
    ensures r.Parsed? ==> |r.rest| < |ts|
    decreases |ts|, 2
  {
    var operand := ParseOperand(t, ts, level);
    if operand.Rejected? then Rejected else ParseTail(t, operand.e, operand.rest, level)
  }

  /** Concatenations and slices are written with braces and indexes. */
  predicate Infix(op: BinOp) {
    op != Concat && op != Slice
  }

  /** Binary operators that bind at least as tight as `level`, from left to right. */
  function ParseTail(t: Table, left: Expr, ts: seq<Token>, level: nat): (r: Parsed)
    ensures r.Parsed? ==> |r.rest| <= |ts|
    decreases |ts|, 0
  {
    if ts != [] && ts[0].TOp? && Infix(ts[0].op) && 0 < t.bin(ts[0].op) <= level then
      var right := ParseExpr(t, ts[1..], t.bin(ts[0].op) - 1);
      if right.Rejected? then Rejected else ParseTail(t, Bin(ts[0].op, left, right.e), right.rest, level)
    else Parsed(left, ts)
  }

  function ParseOperand(t: Table, ts: seq<Token>, level: nat): (r: Parsed)
    ensures r.Parsed? ==> |r.rest| < |ts|
    decreases |ts|, 1
  {
    if ts != [] && ts[0] == Tilde && 0 < t.neg <= level then
      var arg := ParseExpr(t, ts[1..], t.neg - 1);
      if arg.Rejected? then Rejected else Parsed(Un(Neg, arg.e), arg.rest)
    else
      var primary := ParsePrimary(t, ts);
      if primary.Rejected? then Rejected else ParseIndexes(t, primary.e, primary.rest)
  }

  function ParsePrimary(t: Table, ts: seq<Token>): (r: Parsed)
    ensures r.Parsed? ==> |r.rest| < |ts|
    decreases |ts|, 0
  {
    if ts == [] then Rejected
    else match ts[0]
      case TAtom(n) => Parsed(Atom(n), ts[1..])
      case OpenParen =>
        var inner := ParseExpr(t, ts[1..], LOOSEST);
        if inner.Parsed? && inner.rest != [] && inner.rest[0] == CloseParen
        then Parsed(inner.e, inner.rest[1..]) else Rejected
      case OpenBrace =>
        var left := ParseExpr(t, ts[1..], LOOSEST);
        if left.Rejected? || left.rest == [] || left.rest[0] != Comma then Rejected else
          var right := ParseExpr(t, left.rest[1..], LOOSEST);
          if right.Parsed? && right.rest != [] && right.rest[0] == CloseBrace
          then Parsed(Bin(Concat, left.e, right.e), right.rest[1..]) else Rejected
      case _ => Rejected
  }

  function ParseIndexes(t: Table, base: Expr, ts: seq<Token>): (r: Parsed)
    ensures r.Parsed? ==> |r.rest| <= |ts|
    decreases |ts|, 0
  {
    if ts != [] && ts[0] == OpenIndex then
      var index := ParseExpr(t, ts[1..], LOOSEST);
      if index.Parsed? && index.rest != [] && index.rest[0] == CloseIndex
      then ParseIndexes(t, Bin(Slice, base, index.e), index.rest[1..]) else Rejected
    else Parsed(base, ts)
  }

  /** A whole text is one expression with nothing left over. */
  function Parse(t: Table, ts: seq<Token>): Result<Expr> {
    var r := ParseExpr(t, ts, LOOSEST);
    if r.Parsed? && r.rest == [] then Fine(r.e) else Stopped(UnsupportedOperator)
  }

  // ---------- Printed texts a table reads back ----------

  /** The level of an expression as an operand; brackets, braces and indexes close it off. */
  function LevelOf(t: Table, e: Expr): nat {
    match e
    case Atom(_) => 0
    case Un(_, _) => t.neg
    case Bin(Concat, _, _) => 0
    case Bin(Slice, _, _) => 0
    case Bin(op, _, _) => t.bin(op)
  }

  predicate SaneTable(t: Table) {
    0 < t.neg <= LOOSEST && forall op :: 0 < t.bin(op) <= LOOSEST
  }

  /** Wherever the printer leaves brackets out, the reader's table does not need them. */
  predicate Readable(t: Table, e: Expr)
    requires Printable(e)
  {
    match e
    case Atom(_) => true
    case Un(_, arg) =>
      Readable(t, arg) && (OnlyBrackets(arg, NEG_PRECEDENCE) == Fine(true) || LevelOf(t, arg) < t.neg)
    case Bin(op, left, right) =>
      && Readable(t, left) && Readable(t, right)
      && (Infix(op) ==>
            && (LeftBrackets(left, BinPrecedence(op), right) == Fine(true) || LevelOf(t, left) <= t.bin(op))
            && (SecondBrackets(op, left, right) == Fine(true) || LevelOf(t, right) < t.bin(op)))
  }

  /** What follows an expression does not belong to it. */
  predicate Stops(t: Table, e: Expr, rest: seq<Token>) {
    rest == [] || (rest[0] != OpenIndex && (rest[0].TOp? ==> t.bin(rest[0].op) >= LevelOf(t, e)))
  }

  /** Nothing that follows is an operator tight enough for `level`. */
  predicate Ends(t: Table, rest: seq<Token>, level: nat) {
    rest == [] || (rest[0] != OpenIndex && (rest[0].TOp? ==> t.bin(rest[0].op) > level))
  }

  function Tokens(e: Expr): seq<Token>
    requires Printable(e)
  {
    PrintsExactly(e);
    Print(e).value
  }

  // ---------- Reading back ----------

  lemma TailEnds(t: Table, e: Expr, rest: seq<Token>, level: nat)
    requires Ends(t, rest, level)
    ensures ParseTail(t, e, rest, level) == Parsed(e, rest)
  {
  }

  /** A text that starts with an operand, once the operand is known. */
  lemma FromOperand(t: Table, ts: seq<Token>, level: nat, e: Expr, rest: seq<Token>)
    requires ParseOperand(t, ts, level) == Parsed(e, rest)
    ensures ParseExpr(t, ts, level) == ParseTail(t, e, rest, level)
  {
  }

  lemma FromPrimary(t: Table, ts: seq<Token>, level: nat, e: Expr, rest: seq<Token>)
    requires ts != [] && ts[0] != Tilde && ParsePrimary(t, ts) == Parsed(e, rest)
    requires rest == [] || rest[0] != OpenIndex
    ensures ParseExpr(t, ts, level) == ParseTail(t, e, rest, level)
  {
    assert ParseIndexes(t, e, rest) == Parsed(e, rest);
    assert ParseOperand(t, ts, level) == Parsed(e, rest);
  }

  /** An expression in brackets is a primary. */
  lemma BracketedPrimary(t: Table, e: Expr, inner: seq<Token>, rest: seq<Token>)
    requires ParseExpr(t, inner + ([CloseParen] + rest), LOOSEST) == Parsed(e, [CloseParen] + rest)
    ensures ParsePrimary(t, Wrap(true, inner) + rest) == Parsed(e, rest)
  {
    var ts := Wrap(true, inner) + rest;
    assert ts[1..] == inner + ([CloseParen] + rest);
    assert ([CloseParen] + rest)[1..] == rest;
  }

  lemma StopsThenEnds(t: Table, e: Expr, rest: seq<Token>)
    requires SaneTable(t) && (rest == [] || (rest[0] != OpenIndex && !rest[0].TOp?))
    ensures Stops(t, e, rest) && Ends(t, rest, LOOSEST)
  {
  }

  lemma LevelBounded(t: Table, e: Expr)
    requires SaneTable(t)
    ensures LevelOf(t, e) <= LOOSEST
  {
  }

  /** An operand as printed, bracketed or not, in front of a rest that does not belong to it. */
  lemma {:induction false} ReadsOperand(t: Table, e: Expr, brackets: bool, rest: seq<Token>, level: nat)
    requires SaneTable(t) && Printable(e) && Readable(t, e)
    requires rest == [] || rest[0] != OpenIndex
    requires !brackets ==> LevelOf(t, e) <= level && Stops(t, e, rest)
    ensures ParseExpr(t, Wrap(brackets, Tokens(e)) + rest, level) == ParseTail(t, e, rest, level)
    decreases e, 2
  {
    if brackets {
      ReadsPrimary(t, e, rest);
      FromPrimary(t, Wrap(true, Tokens(e)) + rest, level, e, rest);
    } else {
      Reads(t, e, rest, level);
    }
  }

  lemma {:induction false} ReadsPrimary(t: Table, e: Expr, rest: seq<Token>)
    requires SaneTable(t) && Printable(e) && Readable(t, e)
    ensures ParsePrimary(t, Wrap(true, Tokens(e)) + rest) == Parsed(e, rest)
    decreases e, 1
  {
    var after := [CloseParen] + rest;
    StopsThenEnds(t, e, after);
    LevelBounded(t, e);
    Reads(t, e, after, LOOSEST);
    TailEnds(t, e, after, LOOSEST);
    BracketedPrimary(t, e, Tokens(e), rest);
  }

  /** Up to a token that closes something, an operand reads as itself. */
  lemma {:induction false} ReadsWhole(t: Table, e: Expr, brackets: bool, rest: seq<Token>)
    requires SaneTable(t) && Printable(e) && Readable(t, e)
    requires rest == [] || (rest[0] != OpenIndex && !rest[0].TOp?)
    ensures ParseExpr(t, Wrap(brackets, Tokens(e)) + rest, LOOSEST) == Parsed(e, rest)
    decreases e, 3
  {
    StopsThenEnds(t, e, rest);
    LevelBounded(t, e);
    ReadsOperand(t, e, brackets, rest, LOOSEST);
    TailEnds(t, e, rest, LOOSEST);
  }

  lemma {:induction false} Reads(t: Table, e: Expr, rest: seq<Token>, level: nat)
    requires SaneTable(t) && Printable(e) && Readable(t, e)
    requires LevelOf(t, e) <= level && Stops(t, e, rest)
    ensures ParseExpr(t, Tokens(e) + rest, level) == ParseTail(t, e, rest, level)
    decreases e, 0
  {
    match e
    case Atom(n) =>
      assert (Tokens(e) + rest)[1..] == rest;
      FromPrimary(t, Tokens(e) + rest, level, e, rest);
    case Un(_, arg) => ReadsComplement(t, e, rest, level);
    case Bin(op, _, _) =>
      if op == Concat {
        ReadsConcat(t, e, rest, level);
      } else if op == Slice {
        ReadsSlice(t, e, rest, level);
      } else {
        ReadsBinary(t, e, rest, level);
      }
  }

  // The steps of the reader over the four printed shapes.

  lemma ComplementStep(t: Table, x: Expr, w: seq<Token>, rest: seq<Token>, level: nat)
    requires 0 < t.neg <= level && ParseExpr(t, w + rest, t.neg - 1) == Parsed(x, rest)
    ensures ParseExpr(t, [Tilde] + w + rest, level) == ParseTail(t, Un(Neg, x), rest, level)
  {
    var ts := [Tilde] + w + rest;
    assert ts[1..] == w + rest;
    FromOperand(t, ts, level, Un(Neg, x), rest);
  }

  lemma BinaryStep(t: Table, op: BinOp, x: Expr, y: Expr, w1: seq<Token>, w2: seq<Token>, rest: seq<Token>, level: nat)
    requires Infix(op) && 0 < t.bin(op) <= level
    requires ParseExpr(t, w1 + ([TOp(op)] + (w2 + rest)), level) == ParseTail(t, x, [TOp(op)] + (w2 + rest), level)
    requires ParseExpr(t, w2 + rest, t.bin(op) - 1) == Parsed(y, rest)
    ensures ParseExpr(t, w1 + [TOp(op)] + w2 + rest, level) == ParseTail(t, Bin(op, x, y), rest, level)
  {
    var after := [TOp(op)] + (w2 + rest);
    assert w1 + [TOp(op)] + w2 + rest == w1 + after;
    assert after[1..] == w2 + rest;
  }

  lemma ConcatStep(t: Table, x: Expr, y: Expr, w1: seq<Token>, w2: seq<Token>, rest: seq<Token>, level: nat)
    requires ParseExpr(t, w1 + ([Comma] + (w2 + ([CloseBrace] + rest))), LOOSEST)
        == Parsed(x, [Comma] + (w2 + ([CloseBrace] + rest)))
    requires ParseExpr(t, w2 + ([CloseBrace] + rest), LOOSEST) == Parsed(y, [CloseBrace] + rest)
    requires rest == [] || rest[0] != OpenIndex
    ensures ParseExpr(t, [OpenBrace] + w1 + [Comma] + w2 + [CloseBrace] + rest, level)
        == ParseTail(t, Bin(Concat, x, y), rest, level)
  {
    var close := [CloseBrace] + rest;
    var after := [Comma] + (w2 + close);
    var ts := [OpenBrace] + w1 + [Comma] + w2 + [CloseBrace] + rest;
    assert ts[1..] == w1 + after && after[1..] == w2 + close && close[1..] == rest;
    FromPrimary(t, ts, level, Bin(Concat, x, y), rest);
  }

  lemma SliceStep(t: Table, x: Expr, y: Expr, w1: seq<Token>, w2: seq<Token>, rest: seq<Token>, level: nat)
    requires w1 != [] && w1[0] != Tilde
    requires ParsePrimary(t, w1 + ([OpenIndex] + (w2 + ([CloseIndex] + rest))))
        == Parsed(x, [OpenIndex] + (w2 + ([CloseIndex] + rest)))
    requires ParseExpr(t, w2 + ([CloseIndex] + rest), LOOSEST) == Parsed(y, [CloseIndex] + rest)
    requires rest == [] || rest[0] != OpenIndex
    ensures ParseExpr(t, w1 + [OpenIndex] + w2 + [CloseIndex] + rest, level)
        == ParseTail(t, Bin(Slice, x, y), rest, level)
  {
    var close := [CloseIndex] + rest;
    var after := [OpenIndex] + (w2 + close);
    var ts := w1 + [OpenIndex] + w2 + [CloseIndex] + rest;
    assert ts == w1 + after && after[1..] == w2 + close && close[1..] == rest;
    assert ParseIndexes(t, Bin(Slice, x, y), rest) == Parsed(Bin(Slice, x, y), rest);
    assert ParseIndexes(t, x, after) == Parsed(Bin(Slice, x, y), rest);
    assert ParseOperand(t, ts, level) == Parsed(Bin(Slice, x, y), rest);
  }

  /** The printed text of an operation in terms of those of its operands. */
  lemma Shape(e: Expr)
    requires Printable(e)
    ensures match e
      case Atom(n) => Tokens(e) == [TAtom(n)]
      case Un(_, arg) =>
        OnlyBrackets(arg, NEG_PRECEDENCE).Fine?
        && Tokens(e) == [Tilde] + Wrap(OnlyBrackets(arg, NEG_PRECEDENCE).value, Tokens(arg))
      case Bin(op, l, r) =>
        && LeftBrackets(l, BinPrecedence(op), r).Fine? && SecondBrackets(op, l, r).Fine? && AlwaysBrackets(l).Fine?
        && Tokens(e) ==
          var w1, w2 := Wrap(LeftBrackets(l, BinPrecedence(op), r).value, Tokens(l)),
              Wrap(SecondBrackets(op, l, r).value, Tokens(r));
          if op == Concat then [OpenBrace] + w1 + [Comma] + w2 + [CloseBrace]
          else if op == Slice then Wrap(AlwaysBrackets(l).value, Tokens(l)) + [OpenIndex] + Tokens(r) + [CloseIndex]
          else w1 + [TOp(op)] + w2
  {
    PrintsExactly(e);
    if e.Un? {
      PrintsExactly(e.arg);
    } else if e.Bin? {
      PrintsExactly(e.left);
      PrintsExactly(e.right);
    }
  }

  lemma {:induction false} ReadsComplement(t: Table, e: Expr, rest: seq<Token>, level: nat)
    requires SaneTable(t) && Printable(e) && Readable(t, e) && e.Un?
    requires LevelOf(t, e) <= level && Stops(t, e, rest)
    ensures ParseExpr(t, Tokens(e) + rest, level) == ParseTail(t, e, rest, level)
    decreases e, 0, 0
  {
    Shape(e);
    var b := OnlyBrackets(e.arg, NEG_PRECEDENCE).value;
    ReadsOperand(t, e.arg, b, rest, t.neg - 1);
    TailEnds(t, e.arg, rest, t.neg - 1);
    ComplementStep(t, e.arg, Wrap(b, Tokens(e.arg)), rest, level);
  }

  /** The two operands of a printed operation, and where brackets may be missing. */
  lemma ShapeBinary(t: Table, e: Expr, b1: bool, b2: bool)
    requires Printable(e) && Readable(t, e) && e.Bin? && Infix(e.bop)
    requires LeftBrackets(e.left, BinPrecedence(e.bop), e.right) == Fine(b1)
        && SecondBrackets(e.bop, e.left, e.right) == Fine(b2)
    ensures Tokens(e) == Wrap(b1, Tokens(e.left)) + [TOp(e.bop)] + Wrap(b2, Tokens(e.right))
    ensures b1 || LevelOf(t, e.left) <= t.bin(e.bop)
    ensures b2 || LevelOf(t, e.right) < t.bin(e.bop)
    ensures LevelOf(t, e) == t.bin(e.bop)
  {
    Shape(e);
  }

  lemma BothDecided(e: Expr)
    requires Printable(e) && e.Bin?
    ensures LeftBrackets(e.left, BinPrecedence(e.bop), e.right).Fine? && SecondBrackets(e.bop, e.left, e.right).Fine?
  {
    Shape(e);
  }

  lemma {:induction false} ReadsBinary(t: Table, e: Expr, rest: seq<Token>, level: nat)
    requires SaneTable(t) && Printable(e) && Readable(t, e) && e.Bin? && Infix(e.bop)
    requires LevelOf(t, e) <= level && Stops(t, e, rest)
    ensures ParseExpr(t, Tokens(e) + rest, level) == ParseTail(t, e, rest, level)
    decreases e, 0, 1
  {
    BothDecided(e);
    var b1, b2 := LeftBrackets(e.left, BinPrecedence(e.bop), e.right).value,
        SecondBrackets(e.bop, e.left, e.right).value;
    ShapeBinary(t, e, b1, b2);
    ReadsPair(t, e.bop, e.left, e.right, b1, b2, rest, level);
  }

  /** Two operands around an operator, bracketed where the table needs it. */
  lemma {:induction false} ReadsPair(t: Table, op: BinOp, l: Expr, r: Expr, b1: bool, b2: bool, rest: seq<Token>,
      level: nat)
    requires SaneTable(t) && Printable(l) && Readable(t, l) && Printable(r) && Readable(t, r)
    requires Infix(op) && t.bin(op) <= level
    requires (b1 || LevelOf(t, l) <= t.bin(op)) && (b2 || LevelOf(t, r) < t.bin(op))
    requires rest == [] || (rest[0] != OpenIndex && (rest[0].TOp? ==> t.bin(rest[0].op) >= t.bin(op)))
    ensures ParseExpr(t, Wrap(b1, Tokens(l)) + [TOp(op)] + Wrap(b2, Tokens(r)) + rest, level)
        == ParseTail(t, Bin(op, l, r), rest, level)
    decreases Bin(op, l, r), 0, 0
  {
    var w1, w2 := Wrap(b1, Tokens(l)), Wrap(b2, Tokens(r));
    ReadsOperand(t, l, b1, [TOp(op)] + (w2 + rest), level);
    ReadsOperand(t, r, b2, rest, t.bin(op) - 1);
    TailEnds(t, r, rest, t.bin(op) - 1);
    BinaryStep(t, op, l, r, w1, w2, rest, level);
  }

  lemma {:induction false} ReadsConcat(t: Table, e: Expr, rest: seq<Token>, level: nat)
    requires SaneTable(t) && Printable(e) && Readable(t, e) && e.Bin? && e.bop == Concat
    requires Stops(t, e, rest)
    ensures ParseExpr(t, Tokens(e) + rest, level) == ParseTail(t, e, rest, level)
    decreases e, 0, 0
  {
    Shape(e);
    var b1, b2 := LeftBrackets(e.left, BinPrecedence(Concat), e.right).value,
        SecondBrackets(Concat, e.left, e.right).value;
    var w1, w2 := Wrap(b1, Tokens(e.left)), Wrap(b2, Tokens(e.right));
    ReadsWhole(t, e.left, b1, [Comma] + (w2 + ([CloseBrace] + rest)));
    ReadsWhole(t, e.right, b2, [CloseBrace] + rest);
    ConcatStep(t, e.left, e.right, w1, w2, rest, level);
  }

  lemma {:induction false} ReadsSlice(t: Table, e: Expr, rest: seq<Token>, level: nat)
    requires SaneTable(t) && Printable(e) && Readable(t, e) && e.Bin? && e.bop == Slice
    requires Stops(t, e, rest)
    ensures ParseExpr(t, Tokens(e) + rest, level) == ParseTail(t, e, rest, level)
    decreases e, 0, 0
  {
    Shape(e);
    var w1 := Wrap(AlwaysBrackets(e.left).value, Tokens(e.left));
    var after := [OpenIndex] + (Tokens(e.right) + ([CloseIndex] + rest));
    if e.left.Atom? {
      Shape(e.left);
      assert (w1 + after)[1..] == after;
    } else {
      ReadsPrimary(t, e.left, after);
    }
    ReadsWhole(t, e.right, false, [CloseIndex] + rest);
    SliceStep(t, e.left, e.right, w1, Tokens(e.right), rest, level);
  }

  /** Any table that needs no brackets where the printer leaves them out reads the text back. */
  lemma ReadableReadsBack(t: Table, e: Expr)
    requires SaneTable(t) && Printable(e) && Readable(t, e)
    ensures Parse(t, Tokens(e)) == Fine(e)
  {
    ReadsWhole(t, e, false, []);
    assert Wrap(false, Tokens(e)) + [] == Tokens(e);
  }

  /** The printer's own table is such a table for every expression that prints. */
  lemma {:induction false} CodeTableReadable(e: Expr)
    requires Printable(e)
    ensures Readable(CodeTable(), e)
  {
    match e
    case Atom(_) =>
    case Un(_, arg) => CodeTableReadable(arg);
    case Bin(_, left, right) =>
      PrintsExactly(e);
      CodeTableReadable(left);
      CodeTableReadable(right);
  }

  /** What is printed at all reads back, by the printer's own table, as the tree it was printed from. */
  lemma RoundTrip(e: Expr)
    requires Print(e).Fine?
    ensures Parse(CodeTable(), Print(e).value) == Fine(e)
  {
    PrintsExactly(e);
    CodeTableReadable(e);
    ReadableReadsBack(CodeTable(), e);
  }

  /** Two expressions never print the same. */
  lemma PrintInjective(a: Expr, b: Expr)
    requires Print(a).Fine? && Print(a) == Print(b)
    ensures a == b
  {
    RoundTrip(a);
    RoundTrip(b);
  }

  // ---------- The language's own table ----------

  /** Levels of the operators in section 4.1.2 of IEEE 1364-2001; a range is looser than all of them. */
  function StandardTable(): Table {
    Table(1, (op: BinOp) => match op
      case Mul => 3
      case Div => 3
      case Add => 4
      case Sub => 4
      case Lt => 6
      case LE => 6
      case Gt => 6
      case GE => 6
      case Eq => 7
      case Neq => 7
      case And => 8
      case Xor => 9
      case Or => 10
      case _ => 15)
  }

  lemma OfAtoms(op: BinOp, a: nat, b: nat)
    requires Infix(op)
    ensures Printable(Bin(op, Atom(a), Atom(b)))
    ensures Tokens(Bin(op, Atom(a), Atom(b))) == [TAtom(a), TOp(op), TAtom(b)]
  {
    Shape(Bin(op, Atom(a), Atom(b)));
    Shape(Atom(a));
    Shape(Atom(b));
  }

  /** The complement of a product prints without brackets and reads as a product, by the language's table. */
  lemma StandardMisreadsComplement(a: nat, b: nat)
    ensures
      var e := Un(Neg, Bin(Mul, Atom(a), Atom(b)));
      Printable(e) && Parse(StandardTable(), Tokens(e)) == Fine(Bin(Mul, Un(Neg, Atom(a)), Atom(b)))
  {
    var t := StandardTable();
    var e := Un(Neg, Bin(Mul, Atom(a), Atom(b)));
    OfAtoms(Mul, a, b);
    Shape(e);
    var product := [TOp(Mul), TAtom(b)];
    assert Tokens(e) == [Tilde] + [TAtom(a)] + product;
    Reads(t, Atom(a), product, 0);
    TailEnds(t, Atom(a), product, 0);
    ComplementStep(t, Atom(a), [TAtom(a)], product, LOOSEST);
    AtomLast(t, Mul, Un(Neg, Atom(a)), b, LOOSEST);
  }

  lemma QuotientTokens(a: nat, b: nat, c: nat)
    ensures var e := Bin(Div, Atom(a), Bin(Mul, Atom(b), Atom(c)));
      Printable(e) && Tokens(e) == [TAtom(a)] + [TOp(Div)] + [TAtom(b)] + [TOp(Mul), TAtom(c)]
  {
    var e := Bin(Div, Atom(a), Bin(Mul, Atom(b), Atom(c)));
    OfAtoms(Mul, b, c);
    Shape(Atom(a));
    Shape(e);
  }

  /** So does a quotient by a product. */
  lemma StandardMisreadsQuotient(a: nat, b: nat, c: nat)
    ensures
      var e := Bin(Div, Atom(a), Bin(Mul, Atom(b), Atom(c)));
      Printable(e) && Parse(StandardTable(), Tokens(e)) == Fine(Bin(Mul, Bin(Div, Atom(a), Atom(b)), Atom(c)))
  {
    var t := StandardTable();
    QuotientTokens(a, b, c);
    var product := [TOp(Mul), TAtom(c)];
    FirstAtom(t, a, [TOp(Div)] + ([TAtom(b)] + product), LOOSEST);
    FirstAtom(t, b, product, 2);
    TailEnds(t, Atom(b), product, 2);
    BinaryStep(t, Div, Atom(a), Atom(b), [TAtom(a)], [TAtom(b)], product, LOOSEST);
    AtomLast(t, Mul, Bin(Div, Atom(a), Atom(b)), c, LOOSEST);
  }

  lemma RangeTokens(a: nat, b: nat, c: nat)
    ensures var e := Bin(Add, Bin(Downto, Atom(a), Atom(b)), Atom(c));
      Printable(e) && Tokens(e) == [TAtom(a)] + [TOp(Downto)] + ([TAtom(b)] + [TOp(Add), TAtom(c)])
  {
    var e := Bin(Add, Bin(Downto, Atom(a), Atom(b)), Atom(c));
    OfAtoms(Downto, a, b);
    Shape(Atom(c));
    Shape(e);
  }

  /** And a range as the operand of a sum. */
  lemma StandardMisreadsRange(a: nat, b: nat, c: nat)
    ensures
      var e := Bin(Add, Bin(Downto, Atom(a), Atom(b)), Atom(c));
      Printable(e) && Parse(StandardTable(), Tokens(e)) == Fine(Bin(Downto, Atom(a), Bin(Add, Atom(b), Atom(c))))
  {
    var t := StandardTable();
    RangeTokens(a, b, c);
    var sum := [TAtom(b)] + [TOp(Add), TAtom(c)];
    FirstAtom(t, b, [TOp(Add), TAtom(c)], 14);
    AtomLast(t, Add, Atom(b), c, 14);
    FirstAtom(t, a, [TOp(Downto)] + (sum + []), LOOSEST);
    assert sum + [] == sum;
    var right := Bin(Add, Atom(b), Atom(c));
    BinaryStep(t, Downto, Atom(a), right, [TAtom(a)], sum, [], LOOSEST);
    TailEnds(t, Bin(Downto, Atom(a), right), [], LOOSEST);
    assert [TAtom(a)] + [TOp(Downto)] + sum + [] == [TAtom(a)] + [TOp(Downto)] + sum;
  }

  lemma FirstAtom(t: Table, a: nat, rest: seq<Token>, level: nat)
    requires SaneTable(t) && Stops(t, Atom(a), rest)
    ensures ParseExpr(t, [TAtom(a)] + rest, level) == ParseTail(t, Atom(a), rest, level)
  {
    Shape(Atom(a));
    Reads(t, Atom(a), rest, level);
  }

  /** One operator and an atom end a text. */
  lemma AtomLast(t: Table, op: BinOp, left: Expr, b: nat, level: nat)
    requires SaneTable(t) && Infix(op) && t.bin(op) <= level
    ensures ParseTail(t, left, [TOp(op), TAtom(b)], level) == Parsed(Bin(op, left, Atom(b)), [])
  {
    var ts := [TOp(op), TAtom(b)];
    Reads(t, Atom(b), [], t.bin(op) - 1);
    assert ts[1..] == Tokens(Atom(b)) + [];
    TailEnds(t, Atom(b), [], t.bin(op) - 1);
    TailEnds(t, Bin(op, left, Atom(b)), [], level);
  }
}
