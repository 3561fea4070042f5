/**
  Printing of expressions as Verilog (serializer.cpp, verilog_ops.cpp, verilog_constants.cpp),
  token by token.

  Expressions are trees: calls are shared whenever operator and operands are the same nets,
  so two operands are the same net exactly when they are the same tree.  An atom is what
  prints as one name or one literal.
*/
module Printing {
  datatype UnOp = Neg | UnMinus | Rising | Falling
  datatype BinOp = And | Or | Xor | LE | GE | Gt | Lt | Eq | Neq | Add | Sub | Div | Mul | Downto | Concat | Slice

  datatype Expr = Atom(net: nat) | Un(op: UnOp, arg: Expr) | Bin(bop: BinOp, left: Expr, right: Expr)

  datatype Token =
    | TAtom(net: nat) | TOp(op: BinOp) | Tilde | OpenParen | CloseParen
    | OpenBrace | Comma | CloseBrace | OpenIndex | CloseIndex

  /** The operator table; a smaller number binds tighter. */
  function BinPrecedence(op: BinOp): (p: nat)
    ensures 1 <= p <= 13
  {
    match op
    case Div => 6
    case Add => 7
    case Sub => 7
    case Mul => 3
    case Eq => 10
    case Neq => 10
    case And => 11
    case Xor => 12
    case Or => 13
    case Downto => 2
    case Gt => 9
    case Lt => 9
    case GE => 9
    case LE => 9
    case Concat => 5
    case Slice => 1
  }

  const NEG_PRECEDENCE: nat := 5

  datatype Precedence = NoExpression | Level(p: nat) | Missing

  /** What the table says about the operator of an expression; two unary operators are not in it. */
  function PrecedenceOf(e: Expr): Precedence {
    match e
    case Atom(_) => NoExpression
    case Un(Neg, _) => Level(NEG_PRECEDENCE)
    case Un(Rising, _) => Level(0)
    case Un(_, _) => Missing
    case Bin(op, _, _) => Level(BinPrecedence(op))
  }

  datatype Why = UnsupportedOperator | MissingPrecedence | NullDereference

  datatype Result<+T> = Fine(value: T) | Stopped(why: Why) {
    predicate IsFailure() { Stopped? }
    function PropagateFailure<U>(): Result<U> requires Stopped? { Stopped(why) }
    function Extract(): T requires Fine? { value }
  }

  // ---------- What is printed ----------

  /** Brackets around an operand that is compared as the right one: unless it binds tighter. */
  function RightBrackets(operand: Expr, parent: nat): Result<bool> {
    match PrecedenceOf(operand)
    case NoExpression => Fine(false)
    case Missing => Stopped(MissingPrecedence)
    case Level(p) => Fine(p >= parent)
  }

  /** Around a left one: if it binds weaker, or as strong as both its parent and its right neighbour. */
  function LeftBrackets(operand: Expr, parent: nat, right: Expr): Result<bool> {
    match PrecedenceOf(operand)
    case NoExpression => Fine(false)
    case Missing => Stopped(MissingPrecedence)
    case Level(p) =>
      if p != parent then Fine(p > parent)
      else if PrecedenceOf(right) == Missing then Stopped(MissingPrecedence)
      else Fine(PrecedenceOf(right) == Level(p))
  }

  /** The operand of a unary operator has no right neighbour to look at. */
  function OnlyBrackets(operand: Expr, parent: nat): Result<bool> {
    match PrecedenceOf(operand)
    case NoExpression => Fine(false)
    case Missing => Stopped(MissingPrecedence)
    case Level(p) => if p == parent then Stopped(NullDereference) else Fine(p > parent)
  }

  /** An operand that is an expression is bracketed whatever it is. */
  function AlwaysBrackets(operand: Expr): Result<bool> {
    match PrecedenceOf(operand)
    case NoExpression => Fine(false)
    case Missing => Stopped(MissingPrecedence)
    case Level(_) => Fine(true)
  }

  function Wrap(brackets: bool, tokens: seq<Token>): seq<Token> {
    if brackets then [OpenParen] + tokens + [CloseParen] else tokens
  }

  /** The second operand is taken for the first one when both are the same net. */
  function SecondBrackets(op: BinOp, left: Expr, right: Expr): Result<bool> {
    if left == right then LeftBrackets(right, BinPrecedence(op), right) else RightBrackets(right, BinPrecedence(op))
  }

  function Print(e: Expr): Result<seq<Token>> {
    match e
    case Atom(n) => Fine([TAtom(n)])
    case Un(Neg, arg) =>
      var brackets :- OnlyBrackets(arg, NEG_PRECEDENCE);
      var t :- Print(arg);
      Fine([Tilde] + Wrap(brackets, t))
    case Un(_, _) => Stopped(UnsupportedOperator)
    case Bin(Concat, left, right) =>
      var b1 :- LeftBrackets(left, BinPrecedence(Concat), right);
      var t1 :- Print(left);
      var b2 :- SecondBrackets(Concat, left, right);
      var t2 :- Print(right);
      Fine([OpenBrace] + Wrap(b1, t1) + [Comma] + Wrap(b2, t2) + [CloseBrace])
    case Bin(Slice, left, right) =>
      var b1 :- AlwaysBrackets(left);
      var t1 :- Print(left);
      var t2 :- Print(right);
      Fine(Wrap(b1, t1) + [OpenIndex] + t2 + [CloseIndex])
    case Bin(op, left, right) =>
      var b1 :- LeftBrackets(left, BinPrecedence(op), right);
      var t1 :- Print(left);
      var b2 :- SecondBrackets(op, left, right);
      var t2 :- Print(right);
      Fine(Wrap(b1, t1) + [TOp(op)] + Wrap(b2, t2))
  }

  // ---------- What can be printed ----------

  /** Event operators and unary minus are not printed, nor is a complement of a complement or of a concatenation. */
  predicate Printable(e: Expr) {
    match e
    case Atom(_) => true
    case Un(op, arg) => op == Neg && Printable(arg) && PrecedenceOf(arg) != Level(NEG_PRECEDENCE)
    case Bin(_, left, right) => Printable(left) && Printable(right)
  }

  lemma {:induction false} PrintsExactly(e: Expr)
    ensures Print(e).Fine? <==> Printable(e)
  {
    match e
    case Atom(_) =>
    case Un(_, arg) => PrintsExactly(arg);
    case Bin(op, left, right) =>
      PrintsExactly(left);
      PrintsExactly(right);
  }

  /** The shape that has no right neighbour to compare with. */
  lemma ComplementTwiceFails(n: nat)
    ensures Print(Un(Neg, Un(Neg, Atom(n)))) == Stopped(NullDereference)
  {
  }

  // ---------- The printer ----------

  /** An operation that was given its operand list, as the printer sees it. */
  function Args(oper: Expr): seq<Expr> {
    match oper
    case Atom(_) => []
    case Un(_, arg) => [arg]
    case Bin(_, left, right) => [left, right]
  }

  /** The bracket decision for the operand at position `k`. */
  function Brackets(oper: Expr, k: nat, requiresBrackets: bool): Result<bool>
    requires k < |Args(oper)| && PrecedenceOf(oper).Level?
  {
    if requiresBrackets then AlwaysBrackets(Args(oper)[k])
    else if oper.Un? then OnlyBrackets(oper.arg, PrecedenceOf(oper).p)
    else if k == 0 then LeftBrackets(oper.left, PrecedenceOf(oper).p, oper.right)
    else SecondBrackets(oper.bop, oper.left, oper.right)
  }

  /** The first half of serialize_operand; which operand it has is found by comparing nets. */
  method ResolveBrackets(oper: Expr, k: nat, requiresBrackets: bool) returns (r: Result<bool>)
    requires k < |Args(oper)| && PrecedenceOf(oper).Level?
    ensures r == Brackets(oper, k, requiresBrackets)
  {
    var args := Args(oper);
    var operand := args[k];
    var mine := PrecedenceOf(operand);
    if mine == Missing {
      return Stopped(MissingPrecedence);
    }
    if mine == NoExpression {
      return Fine(false);
    }
    if requiresBrackets {
      return Fine(true);
    }
    var parent := PrecedenceOf(oper).p;
    if |args| == 2 && args[0] != operand {
      return Fine(mine.p >= parent);
    }
    if mine.p != parent {
      return Fine(mine.p > parent);
    }
    if |args| == 1 {
      return Stopped(NullDereference);
    }
    var other := PrecedenceOf(args[1]);
    if other == Missing {
      return Stopped(MissingPrecedence);
    }
    return Fine(other == mine);
  }

  /** The text is appended to the output, or printing ended with the text's exception. */
  predicate Wrote(before: seq<Token>, after: seq<Token>, r: Result<()>, text: Result<seq<Token>>) {
    match text
    case Stopped(why) => r == Stopped(why)
    case Fine(t) => r.Fine? && after == before + t
  }

  class Serializer {
    var out: seq<Token>

    constructor ()
      ensures out == []
    {
      out := [];
    }

    method Write(t: Token)
      modifies this
      ensures out == old(out) + [t]
    {
      out := out + [t];
    }

    method SerializeOperand(oper: Expr, k: nat, requiresBrackets: bool, cancelBrackets: bool) returns (r: Result<()>)
      requires k < |Args(oper)| && PrecedenceOf(oper).Level?
      modifies this
      ensures Wrote(old(out), out, r, OperandText(oper, k, requiresBrackets, cancelBrackets))
      decreases oper, 0
    {
      var useBrackets := Fine(false);
      if !cancelBrackets {
        useBrackets := ResolveBrackets(oper, k, requiresBrackets);
        if useBrackets.Stopped? {
          return Stopped(useBrackets.why);
        }
      }
      r := SerializeWrapped(oper, Args(oper)[k], useBrackets.value);
    }

    /** The second half: the operand between brackets, or without. */
    method SerializeWrapped(ghost oper: Expr, operand: Expr, useBrackets: bool) returns (r: Result<()>)
      requires operand in Args(oper)
      modifies this
      ensures match Print(operand)
        case Stopped(why) => r == Stopped(why)
        case Fine(t) => r.Fine? && out == old(out) + Wrap(useBrackets, t)
      decreases operand, 4
    {
      if useBrackets {
        Write(OpenParen);
      }
      r := SerializeNetUsage(operand);
      if r.Fine? && useBrackets {
        Write(CloseParen);
      }
    }

    method SerializeNetUsage(e: Expr) returns (r: Result<()>)
      modifies this
      ensures Wrote(old(out), out, r, Print(e))
      decreases e, 3
    {
      if e.Atom? {
        Write(TAtom(e.net));
        return Fine(());
      }
      r := SerializeCall(e);
    }

    method SerializeCall(e: Expr) returns (r: Result<()>)
      requires !e.Atom?
      modifies this
      ensures Wrote(old(out), out, r, Print(e))
      decreases e, 2
    {
      if e.Un? {
        if e.op != Neg {
          return Stopped(UnsupportedOperator);
        }
        Write(Tilde);
        r := SerializeOperand(e, 0, false, false);
      } else if e.bop == Concat {
        r := SerializeConcat(e);
      } else if e.bop == Slice {
        r := SerializeSlice(e);
      } else {
        r := SerializeGenericBinOp(e);
      }
    }

    method SerializeGenericBinOp(e: Expr) returns (r: Result<()>)
      requires e.Bin? && e.bop != Concat && e.bop != Slice
      modifies this
      ensures Wrote(old(out), out, r, Print(e))
      decreases e, 1
    {
      r := SerializeOperand(e, 0, false, false);
      if r.Fine? {
        Write(TOp(e.bop));
        r := SerializeOperand(e, 1, false, false);
      }
    }

    method SerializeConcat(e: Expr) returns (r: Result<()>)
      requires e.Bin? && e.bop == Concat
      modifies this
      ensures Wrote(old(out), out, r, Print(e))
      decreases e, 1
    {
      Write(OpenBrace);
      r := SerializeOperand(e, 0, false, false);
      if r.Fine? {
        Write(Comma);
        r := SerializeOperand(e, 1, false, false);
        if r.Fine? {
          Write(CloseBrace);
        }
      }
    }

    method SerializeSlice(e: Expr) returns (r: Result<()>)
      requires e.Bin? && e.bop == Slice
      modifies this
      ensures Wrote(old(out), out, r, Print(e))
      decreases e, 1
    {
      r := SerializeOperand(e, 0, true, false);
      if r.Fine? {
        Write(OpenIndex);
        r := SerializeOperand(e, 1, false, true);
        if r.Fine? {
          Write(CloseIndex);
        }
      }
    }
  }

  /** An operand with its brackets. */
  function OperandText(oper: Expr, k: nat, requiresBrackets: bool, cancelBrackets: bool): Result<seq<Token>>
    requires k < |Args(oper)| && PrecedenceOf(oper).Level?
  {
    var b :- if cancelBrackets then Fine(false) else Brackets(oper, k, requiresBrackets);
    var t :- Print(Args(oper)[k]);
    Fine(Wrap(b, t))
  }
}
