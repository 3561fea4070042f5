/**
  Which printed texts a reader takes for the expression they were printed from.  A reading keeps
  the brackets it came across: whatever the reader of `Parsing` returns has one, and a text has
  only one reading for an expression.  So a text reads back exactly when the brackets the printer
  put are those the reader's table needs.
*/
module Readings {
  import opened Printing
  import opened Parsing

  // ---------- Readings ----------

  /** An expression with the brackets of its text. */
  datatype Reading =
    | ReadAtom(net: nat)
    | Complement(arg: Reading)
    | Pair(op: BinOp, left: Reading, right: Reading)
    | Bracketed(inner: Reading)

  function Erase(m: Reading): Expr {
    match m
    case ReadAtom(n) => Atom(n)
    case Complement(a) => Un(Neg, Erase(a))
    case Pair(op, l, r) => Bin(op, Erase(l), Erase(r))
    case Bracketed(i) => Erase(i)
  }

  function Text(m: Reading): (r: seq<Token>)
    ensures r != []
  {
    match m
    case ReadAtom(n) => [TAtom(n)]
    case Complement(a) => [Tilde] + Text(a)
    case Pair(Concat, l, r) => [OpenBrace] + (Text(l) + ([Comma] + (Text(r) + [CloseBrace])))
    case Pair(Slice, l, r) => Text(l) + ([OpenIndex] + (Text(r) + [CloseIndex]))
    case Pair(op, l, r) => Text(l) + ([TOp(op)] + Text(r))
    case Bracketed(i) => [OpenParen] + (Text(i) + [CloseParen])
  }

  /** The level at which a reading can stand; brackets close it off. */
  function Bound(t: Table, m: Reading): nat {
    if m.Bracketed? then 0 else LevelOf(t, Erase(m))
  }

  /** Every operand binds as tight as the table demands of its place, or is bracketed. */
  predicate Legal(t: Table, m: Reading) {
    match m
    case ReadAtom(_) => true
    case Complement(a) => Legal(t, a) && Bound(t, a) < t.neg
    case Pair(op, l, r) =>
      && Legal(t, l) && Legal(t, r)
      && (op == Slice ==> Bound(t, l) == 0)
      && (Infix(op) ==> Bound(t, l) <= t.bin(op) && Bound(t, r) < t.bin(op))
    case Bracketed(i) => Legal(t, i)
  }

  // ---------- Everything the reader returns has a legal reading ----------

  predicate Operator(ts: seq<Token>) {
    ts != [] && ts[0].TOp? && Infix(ts[0].op)
  }

  /** What is left does not start with an operator the level would take. */
  predicate Ended(t: Table, rest: seq<Token>, level: nat) {
    Operator(rest) ==> t.bin(rest[0].op) > level
  }

  /** An operator that follows binds no tighter than the reading. */
  predicate Tight(t: Table, m: Reading, rest: seq<Token>) {
    Operator(rest) ==> t.bin(rest[0].op) >= Bound(t, m)
  }

  /** A reading of what was taken off the text. */
  predicate Covers(t: Table, ts: seq<Token>, m: Reading, r: Parsed) {
    r.Parsed? && ts == Text(m) + r.rest && Erase(m) == r.e && Legal(t, m)
  }

  lemma {:induction false} SoundExpr(t: Table, ts: seq<Token>, level: nat) returns (m: Reading)
    requires SaneTable(t) && ParseExpr(t, ts, level).Parsed?
    ensures var r := ParseExpr(t, ts, level); Covers(t, ts, m, r) && Bound(t, m) <= level && Ended(t, r.rest, level)
    decreases |ts|, 3
  {
    var first := SoundOperand(t, ts, level);
    m := SoundTail(t, first, ParseOperand(t, ts, level).rest, level);
  }

  lemma {:induction false} SoundTail(t: Table, left: Reading, ts: seq<Token>, level: nat) returns (m: Reading)
    requires SaneTable(t) && ParseTail(t, Erase(left), ts, level).Parsed?
    requires Legal(t, left) && Bound(t, left) <= level && Tight(t, left, ts)
    ensures var r := ParseTail(t, Erase(left), ts, level);
      Covers(t, Text(left) + ts, m, r) && Bound(t, m) <= level && Ended(t, r.rest, level)
    decreases |ts|, 1
  {
    if Operator(ts) && t.bin(ts[0].op) <= level {
      var op := ts[0].op;
      var right := ParseExpr(t, ts[1..], t.bin(op) - 1);
      var second := SoundExpr(t, ts[1..], t.bin(op) - 1);
      PairFits(t, op, left, second, ts, right, level);
      m := SoundTail(t, Pair(op, left, second), right.rest, level);
    } else {
      m := left;
    }
  }

  /** The pair made of what was read on both sides of an operator. */
  lemma PairFits(t: Table, op: BinOp, left: Reading, second: Reading, ts: seq<Token>, right: Parsed, level: nat)
    requires SaneTable(t) && Infix(op) && ts != [] && ts[0] == TOp(op) && t.bin(op) <= level
    requires Legal(t, left) && Tight(t, left, ts)
    requires Covers(t, ts[1..], second, right) && Bound(t, second) < t.bin(op) && Ended(t, right.rest, t.bin(op) - 1)
    ensures var m := Pair(op, left, second);
      && Legal(t, m) && Erase(m) == Bin(op, Erase(left), right.e) && Bound(t, m) <= level && Tight(t, m, right.rest)
      && Text(left) + ts == Text(m) + right.rest
  {
    PairText(op, left, second, ts, right.rest);
  }

  lemma PairText(op: BinOp, left: Reading, right: Reading, ts: seq<Token>, rest: seq<Token>)
    requires Infix(op) && ts != [] && ts[0] == TOp(op) && ts[1..] == Text(right) + rest
    ensures Text(left) + ts == Text(Pair(op, left, right)) + rest
  {
    assert ts == [TOp(op)] + ts[1..];
    assert Text(Pair(op, left, right)) == Text(left) + ([TOp(op)] + Text(right));
  }

  lemma {:induction false} SoundOperand(t: Table, ts: seq<Token>, level: nat) returns (m: Reading)
    requires SaneTable(t) && ParseOperand(t, ts, level).Parsed?
    ensures var r := ParseOperand(t, ts, level); Covers(t, ts, m, r) && Bound(t, m) <= level && Tight(t, m, r.rest)
    decreases |ts|, 2
  {
    if ts != [] && ts[0] == Tilde && t.neg <= level {
      var arg := SoundExpr(t, ts[1..], t.neg - 1);
      m := Complement(arg);
      assert ts == [Tilde] + ts[1..];
    } else {
      var primary := ParsePrimary(t, ts);
      var base := SoundPrimary(t, ts);
      m := SoundIndexes(t, base, primary.rest);
    }
  }

  lemma {:induction false} SoundPrimary(t: Table, ts: seq<Token>) returns (m: Reading)
    requires SaneTable(t) && ParsePrimary(t, ts).Parsed?
    ensures Covers(t, ts, m, ParsePrimary(t, ts)) && Bound(t, m) == 0
    decreases |ts|, 1
  {
    match ts[0]
    case TAtom(n) =>
      m := ReadAtom(n);
    case OpenParen =>
      var inner := ParseExpr(t, ts[1..], LOOSEST);
      var i := SoundExpr(t, ts[1..], LOOSEST);
      m := Bracketed(i);
      EnclosedText(ts, OpenParen, i, inner.rest, CloseParen);
    case OpenBrace =>
      var left := ParseExpr(t, ts[1..], LOOSEST);
      var right := ParseExpr(t, left.rest[1..], LOOSEST);
      var l := SoundExpr(t, ts[1..], LOOSEST);
      var r := SoundExpr(t, left.rest[1..], LOOSEST);
      m := Pair(Concat, l, r);
      ConcatText(ts, l, left.rest, r, right.rest);
  }

  lemma EnclosedText(ts: seq<Token>, opening: Token, m: Reading, rest: seq<Token>, closing: Token)
    requires ts != [] && ts[0] == opening && ts[1..] == Text(m) + rest && rest != [] && rest[0] == closing
    ensures ts == [opening] + (Text(m) + [closing]) + rest[1..]
  {
    assert ts == [opening] + ts[1..] && rest == [closing] + rest[1..];
  }

  lemma IndexText(ts: seq<Token>, base: Reading, index: Reading, rest: seq<Token>)
    requires ts != [] && ts[0] == OpenIndex && ts[1..] == Text(index) + rest && rest != [] && rest[0] == CloseIndex
    ensures Text(base) + ts == Text(Pair(Slice, base, index)) + rest[1..]
  {
    EnclosedText(ts, OpenIndex, index, rest, CloseIndex);
  }

  lemma ConcatText(ts: seq<Token>, l: Reading, after: seq<Token>, r: Reading, rest: seq<Token>)
    requires ts != [] && ts[0] == OpenBrace && ts[1..] == Text(l) + after
    requires after != [] && after[0] == Comma && after[1..] == Text(r) + rest
    requires rest != [] && rest[0] == CloseBrace
    ensures ts == Text(Pair(Concat, l, r)) + rest[1..]
  {
    var x, y, tail := Text(l), Text(r), rest[1..];
    EnclosedText(after, Comma, r, rest, CloseBrace);
    assert x + ([Comma] + (y + [CloseBrace]) + tail) == (x + ([Comma] + (y + [CloseBrace]))) + tail;
    PutInFront(ts, OpenBrace, x + ([Comma] + (y + [CloseBrace])), tail);
  }

  lemma PutInFront(ts: seq<Token>, first: Token, middle: seq<Token>, tail: seq<Token>)
    requires ts != [] && ts[0] == first && ts[1..] == middle + tail
    ensures ts == [first] + middle + tail
  {
    assert ts == [first] + ts[1..];
  }

  lemma {:induction false} SoundIndexes(t: Table, base: Reading, ts: seq<Token>) returns (m: Reading)
    requires SaneTable(t) && ParseIndexes(t, Erase(base), ts).Parsed? && Legal(t, base) && Bound(t, base) == 0
    ensures Covers(t, Text(base) + ts, m, ParseIndexes(t, Erase(base), ts)) && Bound(t, m) == 0
    decreases |ts|, 1
  {
    if ts != [] && ts[0] == OpenIndex {
      var index := ParseExpr(t, ts[1..], LOOSEST);
      var i := SoundExpr(t, ts[1..], LOOSEST);
      IndexText(ts, base, i, index.rest);
      m := SoundIndexes(t, Pair(Slice, base, i), index.rest[1..]);
    } else {
      m := base;
    }
  }

  // ---------- Brackets balance ----------

  function Depth(ts: seq<Token>): int {
    if ts == [] then 0
    else (if ts[0] == OpenParen then 1 else if ts[0] == CloseParen then -1 else 0) + Depth(ts[1..])
  }

  lemma {:induction false} DepthConcat(a: seq<Token>, b: seq<Token>)
    ensures Depth(a + b) == Depth(a) + Depth(b)
  {
    if a == [] {
      assert a + b == b;
    } else {
      assert (a + b)[1..] == a[1..] + b;
      DepthConcat(a[1..], b);
    }
  }

  /** As many round brackets are closed as are opened, and none before it is opened. */
  ghost predicate Balanced(ts: seq<Token>) {
    Depth(ts) == 0 && forall k :: 0 <= k <= |ts| ==> Depth(ts[..k]) >= 0
  }

  lemma BalancedConcat(a: seq<Token>, b: seq<Token>)
    requires Balanced(a) && Balanced(b)
    ensures Balanced(a + b)
  {
    DepthConcat(a, b);
    forall k | 0 <= k <= |a + b| ensures Depth((a + b)[..k]) >= 0 {
      if k <= |a| {
        assert (a + b)[..k] == a[..k];
      } else {
        assert (a + b)[..k] == a + b[..k - |a|];
        DepthConcat(a, b[..k - |a|]);
      }
    }
  }

  lemma BalancedToken(x: Token)
    requires x != OpenParen && x != CloseParen
    ensures Balanced([x])
  {
    assert [x][1..] == [];
    forall k | 0 <= k <= 1 ensures Depth([x][..k]) >= 0 {
      assert [x][..k] == if k == 0 then [] else [x];
    }
  }

  /** Inside a pair of brackets the depth stays above zero. */
  lemma InsideBrackets(ts: seq<Token>, k: nat)
    requires Balanced(ts) && 0 < k <= |ts| + 1
    ensures Depth(([OpenParen] + (ts + [CloseParen]))[..k]) > 0
  {
    var all := [OpenParen] + (ts + [CloseParen]);
    assert all[..k] == [OpenParen] + ts[..k - 1];
    DepthConcat([OpenParen], ts[..k - 1]);
    assert [OpenParen][1..] == [];
  }

  lemma BalancedBrackets(ts: seq<Token>)
    requires Balanced(ts)
    ensures Balanced([OpenParen] + (ts + [CloseParen]))
  {
    var all := [OpenParen] + (ts + [CloseParen]);
    DepthConcat([OpenParen], ts + [CloseParen]);
    DepthConcat(ts, [CloseParen]);
    assert [OpenParen][1..] == [] && [CloseParen][1..] == [];
    forall k | 0 <= k <= |all| ensures Depth(all[..k]) >= 0 {
      if 0 < k <= |ts| + 1 {
        InsideBrackets(ts, k);
      } else if k > 0 {
        assert all[..k] == all;
      }
    }
  }

  lemma {:induction false} TextBalanced(m: Reading)
    ensures Balanced(Text(m))
  {
    match m
    case ReadAtom(n) => BalancedToken(TAtom(n));
    case Complement(a) =>
      TextBalanced(a);
      BalancedToken(Tilde);
      BalancedConcat([Tilde], Text(a));
    case Pair(op, l, r) =>
      TextBalanced(l);
      TextBalanced(r);
      PairBalanced(op, Text(l), Text(r));
    case Bracketed(i) =>
      TextBalanced(i);
      BalancedBrackets(Text(i));
  }

  lemma PairBalanced(op: BinOp, l: seq<Token>, r: seq<Token>)
    requires Balanced(l) && Balanced(r)
    ensures Balanced([OpenBrace] + (l + ([Comma] + (r + [CloseBrace]))))
    ensures Balanced(l + ([OpenIndex] + (r + [CloseIndex])))
    ensures Balanced(l + ([TOp(op)] + r))
  {
    AroundBalanced(Comma, r, CloseBrace);
    BalancedConcat(l, [Comma] + (r + [CloseBrace]));
    BalancedToken(OpenBrace);
    BalancedConcat([OpenBrace], l + ([Comma] + (r + [CloseBrace])));
    AroundBalanced(OpenIndex, r, CloseIndex);
    BalancedConcat(l, [OpenIndex] + (r + [CloseIndex]));
    BalancedToken(TOp(op));
    BalancedConcat([TOp(op)], r);
    BalancedConcat(l, [TOp(op)] + r);
  }

  lemma AroundBalanced(x: Token, ts: seq<Token>, y: Token)
    requires Balanced(ts) && x != OpenParen && x != CloseParen && y != OpenParen && y != CloseParen
    ensures Balanced([x] + (ts + [y]))
  {
    BalancedToken(y);
    BalancedConcat(ts, [y]);
    BalancedToken(x);
    BalancedConcat([x], ts + [y]);
  }

  // ---------- Where an operand ends ----------

  function Atoms(ts: seq<Token>): nat {
    if ts == [] then 0 else (if ts[0].TAtom? then 1 else 0) + Atoms(ts[1..])
  }

  function AtomCount(e: Expr): nat {
    match e
    case Atom(_) => 1
    case Un(_, a) => AtomCount(a)
    case Bin(_, l, r) => AtomCount(l) + AtomCount(r)
  }

  lemma {:induction false} AtomsConcat(a: seq<Token>, b: seq<Token>)
    ensures Atoms(a + b) == Atoms(a) + Atoms(b)
  {
    if a == [] {
      assert a + b == b;
    } else {
      assert (a + b)[1..] == a[1..] + b;
      AtomsConcat(a[1..], b);
    }
  }

  lemma AtomsOne(x: Token, ts: seq<Token>)
    requires !x.TAtom?
    ensures Atoms([x] + ts) == Atoms(ts) && Atoms(ts + [x]) == Atoms(ts)
  {
    assert ([x] + ts)[1..] == ts && [x][1..] == [];
    AtomsConcat(ts, [x]);
  }

  /** A reading has the atoms of its expression. */
  lemma {:induction false} TextAtoms(m: Reading)
    ensures Atoms(Text(m)) == AtomCount(Erase(m))
  {
    match m
    case ReadAtom(n) => assert [TAtom(n)][1..] == [];
    case Complement(a) =>
      TextAtoms(a);
      AtomsOne(Tilde, Text(a));
    case Pair(op, l, r) =>
      TextAtoms(l);
      TextAtoms(r);
      PairAtoms(op, Text(l), Text(r));
    case Bracketed(i) =>
      TextAtoms(i);
      AtomsOne(CloseParen, Text(i));
      AtomsOne(OpenParen, Text(i) + [CloseParen]);
  }

  lemma PairAtoms(op: BinOp, l: seq<Token>, r: seq<Token>)
    ensures Atoms([OpenBrace] + (l + ([Comma] + (r + [CloseBrace])))) == Atoms(l) + Atoms(r)
    ensures Atoms(l + ([OpenIndex] + (r + [CloseIndex]))) == Atoms(l) + Atoms(r)
    ensures Atoms(l + ([TOp(op)] + r)) == Atoms(l) + Atoms(r)
  {
    AtomsOne(CloseBrace, r);
    AtomsOne(Comma, r + [CloseBrace]);
    AtomsConcat(l, [Comma] + (r + [CloseBrace]));
    AtomsOne(OpenBrace, l + ([Comma] + (r + [CloseBrace])));
    AtomsOne(CloseIndex, r);
    AtomsOne(OpenIndex, r + [CloseIndex]);
    AtomsConcat(l, [OpenIndex] + (r + [CloseIndex]));
    AtomsOne(TOp(op), r);
    AtomsConcat(l, [TOp(op)] + r);
  }

  predicate Closer(x: Token) {
    x == CloseParen || x == CloseBrace || x == CloseIndex
  }

  /** After the last atom there are only closing tokens. */
  ghost predicate LastAtom(ts: seq<Token>, k: nat) {
    k < |ts| && ts[k].TAtom? && forall j :: k < j < |ts| ==> Closer(ts[j])
  }

  /** Something in front, and only closing tokens behind. */
  lemma CloseWithin(front: seq<Token>, ts: seq<Token>, back: seq<Token>, k: nat)
    requires LastAtom(ts, k) && forall j :: 0 <= j < |back| ==> Closer(back[j])
    ensures LastAtom(front + (ts + back), |front| + k)
  {
    var all := front + (ts + back);
    forall j | |front| + k < j < |all| ensures Closer(all[j]) {
      if j < |front| + |ts| {
        assert all[j] == ts[j - |front|];
      } else {
        assert all[j] == back[j - |front| - |ts|];
      }
    }
  }

  lemma {:induction false} TextCloses(m: Reading) returns (k: nat)
    ensures LastAtom(Text(m), k)
  {
    match m
    case ReadAtom(n) => k := 0;
    case Complement(a) =>
      var i := TextCloses(a);
      CloseWithin([Tilde], Text(a), [], i);
      assert Text(a) + [] == Text(a);
      k := 1 + i;
    case Pair(op, l, r) =>
      var i := TextCloses(r);
      k := PairCloses(m, i);
    case Bracketed(i) =>
      var j := TextCloses(i);
      CloseWithin([OpenParen], Text(i), [CloseParen], j);
      k := 1 + j;
  }

  lemma PairCloses(m: Reading, i: nat) returns (k: nat)
    requires m.Pair? && LastAtom(Text(m.right), i)
    ensures LastAtom(Text(m), k)
  {
    var l, r := Text(m.left), Text(m.right);
    if m.op == Concat {
      CloseWithin([OpenBrace] + (l + [Comma]), r, [CloseBrace], i);
      assert Text(m) == [OpenBrace] + (l + [Comma]) + (r + [CloseBrace]);
      k := |[OpenBrace] + (l + [Comma])| + i;
    } else if m.op == Slice {
      CloseWithin(l + [OpenIndex], r, [CloseIndex], i);
      assert Text(m) == l + [OpenIndex] + (r + [CloseIndex]);
      k := |l| + 1 + i;
    } else {
      CloseWithin(l + [TOp(m.op)], r, [], i);
      assert r + [] == r && Text(m) == l + [TOp(m.op)] + r;
      k := |l| + 1 + i;
    }
  }

  lemma {:induction false} SomeAtom(ts: seq<Token>, k: nat)
    requires k < |ts| && ts[k].TAtom?
    ensures Atoms(ts) > 0
  {
    if k > 0 {
      SomeAtom(ts[1..], k - 1);
    }
  }

  /** Two texts of one expression, each followed by the same separator, end at the same place. */
  lemma NotShorter(a: Reading, b: Reading, s: Token, x: seq<Token>, y: seq<Token>)
    requires Erase(a) == Erase(b) && !Closer(s) && Text(a) + ([s] + x) == Text(b) + y
    ensures |Text(a)| >= |Text(b)|
  {
    var n, all := |Text(a)|, Text(b);
    if n < |all| {
      assert all[..n] == (Text(b) + y)[..n] == Text(a);
      assert all[n] == (Text(b) + y)[n] == s;
      TextAtoms(a);
      TextAtoms(b);
      AtomsConcat(all[..n], all[n..]);
      assert all == all[..n] + all[n..];
      var k := TextCloses(b);
      if k >= n {
        SomeAtom(all[n..], k - n);
      }
    }
  }

  lemma SameSplit(a: Reading, b: Reading, s: Token, x: seq<Token>, y: seq<Token>)
    requires Erase(a) == Erase(b) && !Closer(s) && Text(a) + ([s] + x) == Text(b) + ([s] + y)
    ensures Text(a) == Text(b) && x == y
  {
    NotShorter(a, b, s, x, [s] + y);
    NotShorter(b, a, s, y, [s] + x);
    var all := Text(a) + ([s] + x);
    assert all[..|Text(a)|] == Text(a) && all[..|Text(b)|] == Text(b);
    assert all[|Text(a)| + 1..] == x && all[|Text(b)| + 1..] == y;
  }

  // ---------- A text has one reading for an expression ----------

  /** The separator behind the first operand of an infix operator or a slice. */
  function Separator(op: BinOp): (s: Token)
    requires op != Concat
    ensures !Closer(s)
  {
    if op == Slice then OpenIndex else TOp(op)
  }

  lemma PairStarts(m: Reading)
    requires m.Pair? && m.op != Concat
    ensures Text(m) == Text(m.left)
        + ([Separator(m.op)] + if m.op == Slice then Text(m.right) + [CloseIndex] else Text(m.right))
  {
  }

  /** Brackets around the whole cannot be taken for brackets inside. */
  lemma BracketsDecided(a: Reading, b: Reading)
    requires a.Bracketed? && !b.Bracketed?
    ensures Text(a) != Text(b)
  {
    if b.Pair? && b.op != Concat {
      PairStarts(b);
      var n := |Text(b.left)|;
      TextBalanced(a.inner);
      TextBalanced(b.left);
      if Text(a) == Text(b) {
        assert Text(b)[..n] == Text(b.left);
        InsideBrackets(Text(a.inner), n);
      }
    } else {
      assert Text(a)[0] == OpenParen && Text(b)[0] != OpenParen;
    }
  }

  lemma {:induction false} OneReading(a: Reading, b: Reading)
    requires Text(a) == Text(b) && Erase(a) == Erase(b)
    ensures a == b
    decreases a
  {
    if a.Bracketed? && b.Bracketed? {
      assert Text(a)[1..] == Text(a.inner) + [CloseParen] && Text(b)[1..] == Text(b.inner) + [CloseParen];
      SameInner(Text(a.inner), Text(b.inner), CloseParen);
      OneReading(a.inner, b.inner);
    } else if a.Bracketed? {
      BracketsDecided(a, b);
    } else if b.Bracketed? {
      BracketsDecided(b, a);
    } else if a.Complement? {
      assert Text(a)[1..] == Text(a.arg) && Text(b)[1..] == Text(b.arg);
      OneReading(a.arg, b.arg);
    } else if a.Pair? {
      OnePair(a, b);
      OneReading(a.left, b.left);
      OneReading(a.right, b.right);
    }
  }

  lemma SameInner(x: seq<Token>, y: seq<Token>, s: Token)
    requires x + [s] == y + [s]
    ensures x == y
  {
    assert (x + [s])[..|x|] == x && (y + [s])[..|y|] == y;
  }

  lemma OnePair(a: Reading, b: Reading)
    requires a.Pair? && b.Pair? && Text(a) == Text(b) && Erase(a) == Erase(b)
    ensures Text(a.left) == Text(b.left) && Text(a.right) == Text(b.right)
  {
    if a.op == Concat {
      var x, y := Text(a.right) + [CloseBrace], Text(b.right) + [CloseBrace];
      assert Text(a)[1..] == Text(a.left) + ([Comma] + x) && Text(b)[1..] == Text(b.left) + ([Comma] + y);
      SameSplit(a.left, b.left, Comma, x, y);
      SameInner(Text(a.right), Text(b.right), CloseBrace);
    } else {
      PairStarts(a);
      PairStarts(b);
      SameSplit(a.left, b.left, Separator(a.op), if a.op == Slice then Text(a.right) + [CloseIndex] else Text(a.right),
                if a.op == Slice then Text(b.right) + [CloseIndex] else Text(b.right));
      if a.op == Slice {
        SameInner(Text(a.right), Text(b.right), CloseIndex);
      }
    }
  }

  // ---------- The printer's reading ----------

  function Around(brackets: bool, m: Reading): Reading {
    if brackets then Bracketed(m) else m
  }

  /** The brackets the printer puts. */
  function Printed(e: Expr): (m: Reading)
    requires Printable(e)
    ensures Erase(m) == e && !m.Bracketed?
  {
    match e
    case Atom(n) => ReadAtom(n)
    case Un(_, arg) =>
      Shape(e);
      Complement(Around(OnlyBrackets(arg, NEG_PRECEDENCE).value, Printed(arg)))
    case Bin(op, l, r) =>
      Shape(e);
      if op == Slice then Pair(Slice, Around(AlwaysBrackets(l).value, Printed(l)), Printed(r))
      else Pair(op, Around(LeftBrackets(l, BinPrecedence(op), r).value, Printed(l)),
                Around(SecondBrackets(op, l, r).value, Printed(r)))
  }

  lemma AroundText(brackets: bool, m: Reading, ts: seq<Token>)
    requires Text(m) == ts
    ensures Text(Around(brackets, m)) == Wrap(brackets, ts)
  {
    assert [OpenParen] + (ts + [CloseParen]) == [OpenParen] + ts + [CloseParen];
  }

  lemma {:induction false} PrintedText(e: Expr)
    requires Printable(e)
    ensures Text(Printed(e)) == Tokens(e)
  {
    match e
    case Atom(_) => Shape(e);
    case Un(_, arg) =>
      Shape(e);
      PrintedText(arg);
      AroundText(OnlyBrackets(arg, NEG_PRECEDENCE).value, Printed(arg), Tokens(arg));
    case Bin(op, l, r) =>
      PrintedText(l);
      PrintedText(r);
      if op == Slice {
        PrintedSlice(e);
      } else {
        PrintedPair(e);
      }
  }

  lemma PrintedSlice(e: Expr)
    requires Printable(e) && e.Bin? && e.bop == Slice
    requires Text(Printed(e.left)) == Tokens(e.left) && Text(Printed(e.right)) == Tokens(e.right)
    ensures Text(Printed(e)) == Tokens(e)
  {
    Shape(e);
    AroundText(AlwaysBrackets(e.left).value, Printed(e.left), Tokens(e.left));
    SliceLayout(Around(AlwaysBrackets(e.left).value, Printed(e.left)), Printed(e.right));
  }

  lemma SliceLayout(l: Reading, r: Reading)
    ensures Text(Pair(Slice, l, r)) == Text(l) + [OpenIndex] + Text(r) + [CloseIndex]
  {
    var x, y := Text(l), Text(r);
    assert x + ([OpenIndex] + (y + [CloseIndex])) == x + [OpenIndex] + y + [CloseIndex];
  }

  lemma PrintedPair(e: Expr)
    requires Printable(e) && e.Bin? && e.bop != Slice
    requires Text(Printed(e.left)) == Tokens(e.left) && Text(Printed(e.right)) == Tokens(e.right)
    ensures Text(Printed(e)) == Tokens(e)
  {
    Shape(e);
    var b1 := LeftBrackets(e.left, BinPrecedence(e.bop), e.right).value;
    var b2 := SecondBrackets(e.bop, e.left, e.right).value;
    AroundText(b1, Printed(e.left), Tokens(e.left));
    AroundText(b2, Printed(e.right), Tokens(e.right));
    PairLayout(e.bop, Around(b1, Printed(e.left)), Around(b2, Printed(e.right)));
  }

  lemma PairLayout(op: BinOp, l: Reading, r: Reading)
    requires op != Slice
    ensures Text(Pair(op, l, r)) ==
      if op == Concat then [OpenBrace] + Text(l) + [Comma] + Text(r) + [CloseBrace] else Text(l) + [TOp(op)] + Text(r)
  {
    var x, y := Text(l), Text(r);
    assert [OpenBrace] + (x + ([Comma] + (y + [CloseBrace]))) == [OpenBrace] + x + [Comma] + y + [CloseBrace];
    assert x + ([TOp(op)] + y) == x + [TOp(op)] + y;
  }

  /** The printer's brackets are legal by a table only if the table needs none where they are missing. */
  lemma {:induction false} LegalMeansReadable(t: Table, e: Expr)
    requires Printable(e) && Legal(t, Printed(e))
    ensures Readable(t, e)
  {
    match e
    case Atom(_) =>
    case Un(_, arg) =>
      Shape(e);
      LegalMeansReadable(t, arg);
    case Bin(op, l, r) =>
      Shape(e);
      LegalMeansReadable(t, l);
      LegalMeansReadable(t, r);
  }

  /**
    A printed text reads back by a table exactly when the printer leaves no brackets out that
    the table needs.  Where one is missing, the text is rejected or reads as something else.
  */
  lemma ReadsBackExactly(t: Table, e: Expr)
    requires SaneTable(t) && Printable(e)
    ensures Parse(t, Tokens(e)) == Fine(e) <==> Readable(t, e)
  {
    if Readable(t, e) {
      ReadableReadsBack(t, e);
    }
    if Parse(t, Tokens(e)) == Fine(e) {
      var m := SoundExpr(t, Tokens(e), LOOSEST);
      assert Text(m) + [] == Text(m);
      PrintedText(e);
      OneReading(m, Printed(e));
      LegalMeansReadable(t, e);
    }
  }

  // ---------- The language's own table ----------

  predicate IsOp(e: Expr, op: BinOp) {
    e.Bin? && e.bop == op
  }

  /**
    None of three shapes occurs: a complement over a product or a range, a quotient with a
    product on the right, a range as the operand of an infix operator other than a range.
  */
  predicate StandardShape(e: Expr) {
    match e
    case Atom(_) => true
    case Un(_, arg) => StandardShape(arg) && !IsOp(arg, Mul) && !IsOp(arg, Downto)
    case Bin(op, l, r) =>
      && StandardShape(l) && StandardShape(r)
      && !(op == Div && IsOp(r, Mul))
      && (Infix(op) && op != Downto ==> !IsOp(l, Downto) && !IsOp(r, Downto))
  }

  lemma {:induction false} StandardReadable(e: Expr)
    requires Printable(e)
    ensures Readable(StandardTable(), e) <==> StandardShape(e)
  {
    match e
    case Atom(_) =>
    case Un(_, arg) =>
      Shape(e);
      StandardReadable(arg);
      StandardComplement(arg);
    case Bin(op, l, r) =>
      Shape(e);
      StandardReadable(l);
      StandardReadable(r);
      if Infix(op) {
        StandardLeft(op, l, r);
        StandardRight(op, l, r);
      }
  }

  lemma StandardComplement(arg: Expr)
    requires Printable(arg) && OnlyBrackets(arg, NEG_PRECEDENCE).Fine?
    ensures OnlyBrackets(arg, NEG_PRECEDENCE) == Fine(true) || LevelOf(StandardTable(), arg) < StandardTable().neg
       <==> !IsOp(arg, Mul) && !IsOp(arg, Downto)
  {
  }

  lemma StandardLeft(op: BinOp, l: Expr, r: Expr)
    requires Infix(op) && Printable(l) && LeftBrackets(l, BinPrecedence(op), r).Fine?
    ensures LeftBrackets(l, BinPrecedence(op), r) == Fine(true)
        || LevelOf(StandardTable(), l) <= StandardTable().bin(op)
       <==> op == Downto || !IsOp(l, Downto)
  {
  }

  lemma StandardRight(op: BinOp, l: Expr, r: Expr)
    requires Infix(op) && Printable(r) && SecondBrackets(op, l, r).Fine?
    ensures SecondBrackets(op, l, r) == Fine(true) || LevelOf(StandardTable(), r) < StandardTable().bin(op)
       <==> (op == Downto || !IsOp(r, Downto)) && !(op == Div && IsOp(r, Mul))
  {
  }

  /** By the language's table a text reads back exactly when its expression has none of the three shapes. */
  lemma StandardReadsBack(e: Expr)
    requires Printable(e)
    ensures Parse(StandardTable(), Tokens(e)) == Fine(e) <==> StandardShape(e)
  {
    ReadsBackExactly(StandardTable(), e);
    StandardReadable(e);
  }
}
