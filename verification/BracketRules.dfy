/**
  Where the printer puts brackets (serialize_operand in serializer.cpp), told by how operators
  bind instead of by the numbers of the table.
*/
module BracketRules {
  import opened Lists
  import opened Printing
  import opened Parsing

  /** From the tightest to the weakest; a complement binds like a concatenation. */
  const BINDING: seq<set<BinOp>> :=
    [{Slice}, {Downto}, {Mul}, {Concat}, {Div}, {Add, Sub}, {Gt, Lt, GE, LE}, {Eq, Neq}, {And}, {Xor}, {Or}]

  const LEVELS: seq<nat> := [1, 2, 3, 5, 6, 7, 9, 10, 11, 12, 13]

  ghost predicate Tighter(a: BinOp, b: BinOp) {
    exists i, j :: 0 <= i < j < |BINDING| && a in BINDING[i] && b in BINDING[j]
  }

  /** The operator as which an operand binds; names and literals have none. */
  function Binds(e: Expr): Option<BinOp> {
    match e
    case Atom(_) => None
    case Un(_, _) => Some(Concat)
    case Bin(op, _, _) => Some(op)
  }

  lemma ClassOf(op: BinOp) returns (i: nat)
    ensures i < |BINDING| == |LEVELS| && op in BINDING[i] && BinPrecedence(op) == LEVELS[i]
  {
    i := match op
      case Slice => 0
      case Downto => 1
      case Mul => 2
      case Concat => 3
      case Div => 4
      case Add => 5
      case Sub => 5
      case Gt => 6
      case Lt => 6
      case GE => 6
      case LE => 6
      case Eq => 7
      case Neq => 7
      case And => 8
      case Xor => 9
      case Or => 10;
  }

  lemma LevelsRise()
    ensures forall i, j :: 0 <= i < j < |LEVELS| ==> LEVELS[i] < LEVELS[j]
  {
  }

  /** The numbers of the table say no more than this order. */
  lemma TableOrder(a: BinOp, b: BinOp)
    ensures BinPrecedence(a) < BinPrecedence(b) <==> Tighter(a, b)
  {
    var i := ClassOf(a);
    var j := ClassOf(b);
    LevelsRise();
    if Tighter(a, b) {
      var k, n :| 0 <= k < n < |BINDING| && a in BINDING[k] && b in BINDING[n];
      OneClass(a, i, k);
      OneClass(b, j, n);
    }
  }

  lemma OneClass(op: BinOp, i: nat, k: nat)
    requires i < |BINDING| && k < |BINDING| && op in BINDING[i] && op in BINDING[k]
    ensures i == k
  {
  }

  /** A right operand: an expression that does not bind tighter. */
  ghost predicate RightNeeds(op: BinOp, r: Expr) {
    Binds(r).Some? && !Tighter(Binds(r).value, op)
  }

  /**
    A left operand: an expression that binds weaker, or one that binds the same as its parent when the
    right one does too.
  */
  ghost predicate LeftNeeds(op: BinOp, l: Expr, r: Expr) {
    Binds(l).Some? && (Tighter(op, Binds(l).value) || (Alike(l, op) && Alike(r, op)))
  }

  ghost predicate Alike(e: Expr, op: BinOp) {
    Binds(e).Some? && !Tighter(Binds(e).value, op) && !Tighter(op, Binds(e).value)
  }

  /** The operand of a complement: an expression that binds weaker. */
  ghost predicate OnlyNeeds(e: Expr) {
    Binds(e).Some? && Tighter(Concat, Binds(e).value)
  }

  lemma Ordered(e: Expr, op: BinOp)
    requires Printable(e)
    ensures PrecedenceOf(e) == if Binds(e).Some? then Level(BinPrecedence(Binds(e).value)) else NoExpression
    ensures Binds(e).Some? ==>
      && (Tighter(Binds(e).value, op) <==> BinPrecedence(Binds(e).value) < BinPrecedence(op))
      && (Tighter(op, Binds(e).value) <==> BinPrecedence(op) < BinPrecedence(Binds(e).value))
  {
    if Binds(e).Some? {
      TableOrder(Binds(e).value, op);
      TableOrder(op, Binds(e).value);
    }
  }

  lemma OnlyMeans(arg: Expr)
    requires Printable(Un(Neg, arg))
    ensures OnlyBrackets(arg, NEG_PRECEDENCE) == Fine(OnlyNeeds(arg))
  {
    Ordered(arg, Concat);
  }

  lemma LeftMeans(op: BinOp, l: Expr, r: Expr)
    requires Printable(l) && Printable(r)
    ensures LeftBrackets(l, BinPrecedence(op), r) == Fine(LeftNeeds(op, l, r))
  {
    Ordered(l, op);
    Ordered(r, op);
  }

  /** Taking the second operand for the first one, when both are the same net, makes no difference. */
  lemma RightMeans(op: BinOp, l: Expr, r: Expr)
    requires Printable(l) && Printable(r)
    ensures SecondBrackets(op, l, r) == Fine(RightNeeds(op, r))
  {
    Ordered(r, op);
  }

  /** The text of an operation is that of its operands, with brackets just around those that need them. */
  lemma BracketsExactly(e: Expr)
    requires Printable(e)
    ensures match e
      case Atom(n) => Tokens(e) == [TAtom(n)]
      case Un(_, arg) => Tokens(e) == [Tilde] + Wrap(OnlyNeeds(arg), Tokens(arg))
      case Bin(op, l, r) =>
        var first, second := Wrap(LeftNeeds(op, l, r), Tokens(l)), Wrap(RightNeeds(op, r), Tokens(r));
        Tokens(e) ==
          if op == Concat then [OpenBrace] + first + [Comma] + second + [CloseBrace]
          else if op == Slice then Wrap(!l.Atom?, Tokens(l)) + [OpenIndex] + Tokens(r) + [CloseIndex]
          else first + [TOp(op)] + second
  {
    Shape(e);
    match e
    case Atom(_) =>
    case Un(_, arg) => OnlyMeans(arg);
    case Bin(op, l, r) =>
      LeftMeans(op, l, r);
      RightMeans(op, l, r);
  }

  // ---------- How printing ends ----------

  /** Unary minus and the falling edge are not in the table of the printer. */
  predicate NotInTable(e: Expr) {
    e.Un? && (e.op == UnMinus || e.op == Falling)
  }

  /** Before the left operand is printed the right one is looked at when the left one binds the same as its parent. */
  ghost predicate LooksRight(op: BinOp, l: Expr) {
    op != Slice && ((l.Bin? && Alike(l, op)) || (l.Un? && l.op == Neg && op == Concat))
  }

  /** The first thing that stops the printer, in the order in which it looks at operands and prints them. */
  ghost function FirstStop(e: Expr): Option<Why> {
    match e
    case Atom(_) => None
    case Un(op, arg) =>
      if op != Neg then Some(UnsupportedOperator)
      else if NotInTable(arg) then Some(MissingPrecedence)
      else if (arg.Un? && arg.op == Neg) || (arg.Bin? && arg.bop == Concat) then Some(NullDereference)
      else FirstStop(arg)
    case Bin(op, l, r) =>
      if NotInTable(l) || (LooksRight(op, l) && NotInTable(r)) then Some(MissingPrecedence)
      else if FirstStop(l).Some? then FirstStop(l)
      else if op != Slice && NotInTable(r) then Some(MissingPrecedence)
      else FirstStop(r)
  }

  lemma BindsAlike(l: Expr, op: BinOp)
    ensures l.Bin? ==> (Alike(l, op) <==> BinPrecedence(l.bop) == BinPrecedence(op))
    ensures BinPrecedence(op) == NEG_PRECEDENCE <==> op == Concat
    ensures BinPrecedence(op) != 0
  {
    if l.Bin? {
      TableOrder(l.bop, op);
      TableOrder(op, l.bop);
    }
  }

  /** What is known of the operands decides it for the operation. */
  lemma StopsBinary(op: BinOp, l: Expr, r: Expr)
    requires match FirstStop(l) case None => Print(l).Fine? case Some(why) => Print(l) == Stopped(why)
    requires match FirstStop(r) case None => Print(r).Fine? case Some(why) => Print(r) == Stopped(why)
    ensures match FirstStop(Bin(op, l, r))
      case None => Print(Bin(op, l, r)).Fine?
      case Some(why) => Print(Bin(op, l, r)) == Stopped(why)
  {
    BindsAlike(l, op);
  }

  /** Printing ends with an exception or a fault exactly when something stops it, and the first one decides which. */
  lemma {:induction false} StopsExactly(e: Expr)
    ensures match FirstStop(e) case None => Print(e).Fine? case Some(why) => Print(e) == Stopped(why)
  {
    match e
    case Atom(_) =>
    case Un(_, arg) =>
      StopsExactly(arg);
      if arg.Bin? {
        BindsAlike(arg, arg.bop);
      }
    case Bin(op, l, r) =>
      StopsExactly(l);
      StopsExactly(r);
      StopsBinary(op, l, r);
  }
}
