/**
  Structural comparison of statements (query_structural_cmp.cpp).

  As written, two different constant nets make the comparison throw: their values are
  compared with an operator that the integer value class never overrides.  Reading an
  else-if or an index that the other statement does not have leaves its vector.  Both
  outcomes are verdicts of their own.  The header asks for constant nets of equal value
  to be the same, and for a size check on every vector.
*/
module StructuralCmp {
  import opened Statements

  datatype Verdict = Same | Different | Throws | OutOfRange

  /** The comparison as the repository has it, or as its header asks for. */
  datatype Version = AsWritten | Intended

  /** The constant nets, with their values. */
  type Consts = map<Net, Value>

  function SameNet(v: Version, consts: Consts, a: Net, b: Net): Verdict {
    if a == b then Same
    else if a in consts && b in consts then
      match v
      case AsWritten => Throws
      case Intended => if consts[a] == consts[b] then Same else Different
    else Different
  }

  /** The loop over two index vectors; the size check compares the first vector with itself. */
  function SameNets(v: Version, consts: Consts, a: seq<Net>, b: seq<Net>): Verdict {
    if v.Intended? && |a| != |b| then Different else SameNetsFrom(v, consts, a, b)
  }

  function SameNetsFrom(v: Version, consts: Consts, a: seq<Net>, b: seq<Net>): Verdict {
    if a == [] then Same
    else if b == [] then OutOfRange
    else
      var first := SameNet(v, consts, a[0], b[0]);
      if first != Same then first else SameNetsFrom(v, consts, a[1..], b[1..])
  }

  /** The sizes that let two ifs be told apart before their statements are looked at. */
  predicate SizesDiffer(v: Version, a: Stm, b: Stm)
    requires a.If? && b.If?
  {
    match v
    case AsWritten =>
      && |a.ifTrue| != |b.ifTrue|
      && a.falseSpecified != b.falseSpecified
      && |a.ifFalse| != |b.ifFalse|
      && |a.elseIf| != |b.elseIf|
    case Intended =>
      || |a.ifTrue| != |b.ifTrue|
      || a.falseSpecified != b.falseSpecified
      || |a.ifFalse| != |b.ifFalse|
      || |a.elseIf| != |b.elseIf|
  }

  function IsSame(v: Version, consts: Consts, a: Stm, b: Stm): Verdict
    decreases a, 1
  {
    match (a, b)
    case (Assign(aDst, aIndex, aSrc), Assign(bDst, bIndex, bSrc)) =>
      var dst := SameNet(v, consts, aDst, bDst);
      if dst != Same then dst else
        var src := SameNet(v, consts, aSrc, bSrc);
        if src != Same then src else SameNets(v, consts, aIndex, bIndex)
    case (If(aCond, aTrue, aElse, _, aFalse, aRank), If(bCond, bTrue, bElse, _, bFalse, bRank)) =>
      if aRank != bRank then Different else
        var cond := SameNet(v, consts, aCond, bCond);
        if cond != Same then cond else
          if SizesDiffer(v, a, b) then Different else
            var t := IsSameList(v, consts, aTrue, bTrue);
            if t != Same then t else
              var f := IsSameList(v, consts, aFalse, bFalse);
              if f != Same then f else IsSameElifs(v, consts, aElse, bElse)
    case _ => Different
  }

  function IsSameList(v: Version, consts: Consts, a: seq<Stm>, b: seq<Stm>): Verdict
    decreases a, 1
  {
    if |a| != |b| then Different else IsSameFrom(v, consts, a, b)
  }

  function IsSameFrom(v: Version, consts: Consts, a: seq<Stm>, b: seq<Stm>): Verdict
    requires |a| == |b|
    decreases a, 0
  {
    if a == [] then Same else
      var first := IsSame(v, consts, a[0], b[0]);
      if first != Same then first else IsSameFrom(v, consts, a[1..], b[1..])
  }

  /** The loop over the else-ifs of the first statement; it never looks at how many the second has. */
  function IsSameElifs(v: Version, consts: Consts, a: seq<Branch>, b: seq<Branch>): Verdict
    decreases a
  {
    if a == [] then Same
    else if b == [] then OutOfRange
    else
      var cond := SameNet(v, consts, a[0].cond, b[0].cond);
      if cond != Same then cond else
        var body := IsSameList(v, consts, a[0].body, b[0].body);
        if body != Same then body else IsSameElifs(v, consts, a[1..], b[1..])
  }

  // ---------- The loops of the source ----------

  /** The index loop of `is_same_net_vec`. */
  method CompareNets(v: Version, consts: Consts, a: seq<Net>, b: seq<Net>) returns (r: Verdict)
    ensures r == SameNets(v, consts, a, b)
  {
    if v.Intended? && |a| != |b| {
      return Different;
    }
    for i := 0 to |a|
      invariant i <= |b|
      invariant SameNetsFrom(v, consts, a, b) == SameNetsFrom(v, consts, a[i..], b[i..])
    {
      if i == |b| {
        return OutOfRange;
      }
      var net := SameNet(v, consts, a[i], b[i]);
      if net != Same {
        return net;
      }
      assert a[i..][1..] == a[i + 1..] && b[i..][1..] == b[i + 1..];
    }
    return Same;
  }

  /** The index loop of `is_same_statement_vec`. */
  method CompareLists(v: Version, consts: Consts, a: seq<Stm>, b: seq<Stm>) returns (r: Verdict)
    ensures r == IsSameList(v, consts, a, b)
  {
    if |a| != |b| {
      return Different;
    }
    for i := 0 to |a|
      invariant IsSameFrom(v, consts, a, b) == IsSameFrom(v, consts, a[i..], b[i..])
    {
      var stm := IsSame(v, consts, a[i], b[i]);
      if stm != Same {
        return stm;
      }
      assert a[i..][1..] == a[i + 1..] && b[i..][1..] == b[i + 1..];
    }
    return Same;
  }

  /** The comparison of two ifs, with its loop over the else-ifs of the first. */
  method CompareIfs(v: Version, consts: Consts, a: Stm, b: Stm) returns (r: Verdict)
    requires a.If? && b.If?
    ensures r == IsSame(v, consts, a, b)
  {
    if a.rank != b.rank {
      return Different;
    }
    r := SameNet(v, consts, a.cond, b.cond);
    if r != Same {
      return;
    }
    if SizesDiffer(v, a, b) {
      return Different;
    }
    r := CompareLists(v, consts, a.ifTrue, b.ifTrue);
    if r != Same {
      return;
    }
    r := CompareLists(v, consts, a.ifFalse, b.ifFalse);
    if r != Same {
      return;
    }
    for i := 0 to |a.elseIf|
      invariant r == Same && i <= |b.elseIf|
      invariant IsSame(v, consts, a, b) == IsSameElifs(v, consts, a.elseIf[i..], b.elseIf[i..])
    {
      if i == |b.elseIf| {
        return OutOfRange;
      }
      r := SameNet(v, consts, a.elseIf[i].cond, b.elseIf[i].cond);
      if r != Same {
        return;
      }
      r := CompareLists(v, consts, a.elseIf[i].body, b.elseIf[i].body);
      if r != Same {
        return;
      }
      assert a.elseIf[i..][1..] == a.elseIf[i + 1..] && b.elseIf[i..][1..] == b.elseIf[i + 1..];
    }
  }

  // ---------- What the verdict is worth ----------

  /**
    Two statements have the same counts wherever both have a vector of indexes or
    else-ifs, and the same else flags.
  */
  predicate CountsAgree(a: Stm, b: Stm)
    decreases a, 1
  {
    match (a, b)
    case (Assign(_, aIndex, _), Assign(_, bIndex, _)) => |aIndex| == |bIndex|
    case (If(_, aTrue, aElse, aSpec, aFalse, _), If(_, bTrue, bElse, bSpec, bFalse, _)) =>
      && aSpec == bSpec
      && CountsAgreeList(aTrue, bTrue) && CountsAgreeElifs(aElse, bElse) && CountsAgreeList(aFalse, bFalse)
    case _ => true
  }

  predicate CountsAgreeList(a: seq<Stm>, b: seq<Stm>)
    decreases a, 0
  {
    if a == [] || b == [] then a == b else CountsAgree(a[0], b[0]) && CountsAgreeList(a[1..], b[1..])
  }

  predicate CountsAgreeElifs(a: seq<Branch>, b: seq<Branch>)
    decreases a, 0
  {
    if a == [] || b == [] then a == b
    else CountsAgreeList(a[0].body, b[0].body) && CountsAgreeElifs(a[1..], b[1..])
  }

  /** As written, "same" is equality exactly when the counts agree. */
  lemma {:induction false} SameAsWritten(consts: Consts, a: Stm, b: Stm)
    ensures a == b <==> IsSame(AsWritten, consts, a, b) == Same && CountsAgree(a, b)
    decreases a, 1
  {
    match (a, b)
    case (Assign(_, aIndex, _), Assign(_, bIndex, _)) =>
      SameNetsAsWritten(consts, aIndex, bIndex);
    case (If(_, aTrue, aElse, _, aFalse, _), If(_, bTrue, bElse, _, bFalse, _)) =>
      SameListAsWritten(consts, aTrue, bTrue);
      SameListAsWritten(consts, aFalse, bFalse);
      SameElifsAsWritten(consts, aElse, bElse);
    case _ =>
  }

  lemma {:induction false} SameNetsAsWritten(consts: Consts, a: seq<Net>, b: seq<Net>)
    ensures a == b <==> SameNetsFrom(AsWritten, consts, a, b) == Same && |a| == |b|
  {
    if a != [] && b != [] {
      SameNetsAsWritten(consts, a[1..], b[1..]);
      assert a == [a[0]] + a[1..] && b == [b[0]] + b[1..];
    }
  }

  lemma {:induction false} SameListAsWritten(consts: Consts, a: seq<Stm>, b: seq<Stm>)
    ensures a == b <==> IsSameList(AsWritten, consts, a, b) == Same && CountsAgreeList(a, b)
    decreases a, 0
  {
    if |a| == |b| != 0 {
      SameAsWritten(consts, a[0], b[0]);
      SameListAsWritten(consts, a[1..], b[1..]);
      assert a == [a[0]] + a[1..] && b == [b[0]] + b[1..];
    }
  }

  lemma {:induction false} SameElifsAsWritten(consts: Consts, a: seq<Branch>, b: seq<Branch>)
    ensures a == b <==> IsSameElifs(AsWritten, consts, a, b) == Same && CountsAgreeElifs(a, b)
    decreases a, 0
  {
    if a != [] && b != [] {
      SameListAsWritten(consts, a[0].body, b[0].body);
      SameElifsAsWritten(consts, a[1..], b[1..]);
      assert a == [a[0]] + a[1..] && b == [b[0]] + b[1..];
    }
  }

  /**
    The same to the comparison as written: else flags, and indexes and else-ifs that only the second
    has, do not count.
  */
  predicate Resembles(a: Stm, b: Stm)
    decreases a, 1
  {
    match (a, b)
    case (Assign(aDst, aIndex, aSrc), Assign(bDst, bIndex, bSrc)) => aDst == bDst && aSrc == bSrc && aIndex <= bIndex
    case (If(aCond, aTrue, aElse, _, aFalse, aRank), If(bCond, bTrue, bElse, _, bFalse, bRank)) =>
      && aCond == bCond && aRank == bRank
      && ResemblesList(aTrue, bTrue) && ResemblesList(aFalse, bFalse) && ResemblesElifs(aElse, bElse)
    case _ => false
  }

  predicate ResemblesList(a: seq<Stm>, b: seq<Stm>)
    decreases a, 0
  {
    |a| == |b| && forall i :: 0 <= i < |a| ==> Resembles(a[i], b[i])
  }

  predicate ResemblesElifs(a: seq<Branch>, b: seq<Branch>)
    decreases a, 0
  {
    |a| <= |b| && forall i :: 0 <= i < |a| ==> a[i].cond == b[i].cond && ResemblesList(a[i].body, b[i].body)
  }

  /** What "same" means as written. */
  lemma {:induction false} SameIsResembling(consts: Consts, a: Stm, b: Stm)
    ensures IsSame(AsWritten, consts, a, b) == Same <==> Resembles(a, b)
    decreases a, 1
  {
    match (a, b)
    case (Assign(_, aIndex, _), Assign(_, bIndex, _)) =>
      SameNetsIsPrefix(consts, aIndex, bIndex);
    case (If(_, aTrue, aElse, _, aFalse, _), If(_, bTrue, bElse, _, bFalse, _)) =>
      SameListIsResembling(consts, aTrue, bTrue);
      SameListIsResembling(consts, aFalse, bFalse);
      SameElifsIsResembling(consts, aElse, bElse);
    case _ =>
  }

  lemma {:induction false} SameNetsIsPrefix(consts: Consts, a: seq<Net>, b: seq<Net>)
    ensures SameNetsFrom(AsWritten, consts, a, b) == Same <==> a <= b
  {
    if a != [] && b != [] {
      SameNetsIsPrefix(consts, a[1..], b[1..]);
      assert a == [a[0]] + a[1..] && b == [b[0]] + b[1..];
    }
  }

  lemma {:induction false} SameListIsResembling(consts: Consts, a: seq<Stm>, b: seq<Stm>)
    ensures IsSameList(AsWritten, consts, a, b) == Same <==> ResemblesList(a, b)
    decreases a, 0
  {
    if |a| == |b| != 0 {
      SameIsResembling(consts, a[0], b[0]);
      SameListIsResembling(consts, a[1..], b[1..]);
      assert ResemblesList(a, b) <==> Resembles(a[0], b[0]) && ResemblesList(a[1..], b[1..]) by {
        assert forall i :: 0 < i < |a| ==> a[i] == a[1..][i - 1] && b[i] == b[1..][i - 1];
        assert forall i :: 0 <= i < |a| - 1 ==> a[1..][i] == a[i + 1] && b[1..][i] == b[i + 1];
      }
    }
  }

  lemma {:induction false} SameElifsIsResembling(consts: Consts, a: seq<Branch>, b: seq<Branch>)
    ensures IsSameElifs(AsWritten, consts, a, b) == Same <==> ResemblesElifs(a, b)
    decreases a, 0
  {
    if a != [] && b != [] {
      SameListIsResembling(consts, a[0].body, b[0].body);
      SameElifsIsResembling(consts, a[1..], b[1..]);
      assert ResemblesElifs(a, b)
        <==> a[0].cond == b[0].cond && ResemblesList(a[0].body, b[0].body) && ResemblesElifs(a[1..], b[1..]) by {
        assert forall i :: 0 < i < |a| ==> a[i] == a[1..][i - 1] && (i < |b| ==> b[i] == b[1..][i - 1]);
        assert forall i :: 0 <= i < |a| - 1 ==> a[1..][i] == a[i + 1] && (i < |b| - 1 ==> b[1..][i] == b[i + 1]);
      }
    }
  }

  /** An explicit empty else against one more else-if: equal ranks, "same" as written, different writes. */
  lemma SameAsWrittenFails()
    ensures
      var a := If(0, [], [], true, [], 2);
      var b := If(0, [], [Branch(1, [Assign(2, [], 3)])], false, [], 2);
      IsSame(AsWritten, map[], a, b) == Same && IsSame(Intended, map[], a, b) == Different &&
      IsSame(AsWritten, map[], b, a) == OutOfRange &&
      Exec(a, net => net) != Exec(b, net => net)
  {
    var env: Env := net => net;
    var a := If(0, [], [], true, [], 2);
    var b := If(0, [], [Branch(1, [Assign(2, [], 3)])], false, [], 2);
    assert Taken(b, env) == [Assign(2, [], 3)];
    assert 2 in Exec(b, env) && 2 !in Exec(a, env);
  }

  // ---------- Equality up to constants of equal value ----------

  predicate AlikeNet(consts: Consts, a: Net, b: Net) {
    a == b || (a in consts && b in consts && consts[a] == consts[b])
  }

  predicate AlikeNets(consts: Consts, a: seq<Net>, b: seq<Net>) {
    |a| == |b| && forall i :: 0 <= i < |a| ==> AlikeNet(consts, a[i], b[i])
  }

  /** The same tree, except that a constant net may stand for another of its value. */
  predicate Alike(consts: Consts, a: Stm, b: Stm)
    decreases a, 1
  {
    match (a, b)
    case (Assign(aDst, aIndex, aSrc), Assign(bDst, bIndex, bSrc)) =>
      AlikeNet(consts, aDst, bDst) && AlikeNets(consts, aIndex, bIndex) && AlikeNet(consts, aSrc, bSrc)
    case (If(aCond, aTrue, aElse, aSpec, aFalse, aRank), If(bCond, bTrue, bElse, bSpec, bFalse, bRank)) =>
      && AlikeNet(consts, aCond, bCond) && aSpec == bSpec && aRank == bRank
      && AlikeList(consts, aTrue, bTrue) && AlikeElifs(consts, aElse, bElse) && AlikeList(consts, aFalse, bFalse)
    case _ => false
  }

  predicate AlikeList(consts: Consts, a: seq<Stm>, b: seq<Stm>)
    decreases a, 0
  {
    if a == [] || b == [] then a == b else Alike(consts, a[0], b[0]) && AlikeList(consts, a[1..], b[1..])
  }

  predicate AlikeElifs(consts: Consts, a: seq<Branch>, b: seq<Branch>)
    decreases a, 0
  {
    if a == [] || b == [] then a == b else
      && AlikeNet(consts, a[0].cond, b[0].cond) && AlikeList(consts, a[0].body, b[0].body)
      && AlikeElifs(consts, a[1..], b[1..])
  }

  /** As the header asks for it, the comparison answers, and "same" is equality up to constants of equal value. */
  lemma {:induction false} SameIntended(consts: Consts, a: Stm, b: Stm)
    ensures Alike(consts, a, b) <==> IsSame(Intended, consts, a, b) == Same
    ensures IsSame(Intended, consts, a, b) in {Same, Different}
    decreases a, 1
  {
    match (a, b)
    case (Assign(_, aIndex, _), Assign(_, bIndex, _)) =>
      SameNetsIntended(consts, aIndex, bIndex);
    case (If(_, aTrue, aElse, _, aFalse, _), If(_, bTrue, bElse, _, bFalse, _)) =>
      SameListIntended(consts, aTrue, bTrue);
      SameListIntended(consts, aFalse, bFalse);
      SameElifsIntended(consts, aElse, bElse);
    case _ =>
  }

  lemma {:induction false} SameNetsIntended(consts: Consts, a: seq<Net>, b: seq<Net>)
    ensures |a| == |b| ==> SameNetsFrom(Intended, consts, a, b) in {Same, Different}
    ensures |a| == |b| ==> (AlikeNets(consts, a, b) <==> SameNetsFrom(Intended, consts, a, b) == Same)
  {
    if |a| == |b| != 0 {
      SameNetsIntended(consts, a[1..], b[1..]);
      assert forall i :: 0 < i < |a| ==> a[i] == a[1..][i - 1] && b[i] == b[1..][i - 1];
      assert AlikeNets(consts, a, b) <==> AlikeNet(consts, a[0], b[0]) && AlikeNets(consts, a[1..], b[1..]);
    }
  }

  lemma {:induction false} SameListIntended(consts: Consts, a: seq<Stm>, b: seq<Stm>)
    ensures AlikeList(consts, a, b) <==> IsSameList(Intended, consts, a, b) == Same
    ensures IsSameList(Intended, consts, a, b) in {Same, Different}
    ensures AlikeList(consts, a, b) ==> |a| == |b|
    decreases a, 0
  {
    if a != [] && b != [] {
      SameListIntended(consts, a[1..], b[1..]);
      if |a| == |b| {
        SameIntended(consts, a[0], b[0]);
      }
    }
  }

  lemma {:induction false} SameElifsIntended(consts: Consts, a: seq<Branch>, b: seq<Branch>)
    ensures AlikeElifs(consts, a, b) ==> |a| == |b|
    ensures |a| == |b| ==> (AlikeElifs(consts, a, b) <==> IsSameElifs(Intended, consts, a, b) == Same)
    ensures |a| == |b| ==> IsSameElifs(Intended, consts, a, b) in {Same, Different}
    decreases a, 0
  {
    if a != [] && b != [] {
      SameListIntended(consts, a[0].body, b[0].body);
      SameElifsIntended(consts, a[1..], b[1..]);
    }
  }

  lemma {:induction false} AlikeToItself(consts: Consts, a: Stm)
    ensures Alike(consts, a, a)
    decreases a, 1
  {
    SameIntended(consts, a, a);
    if a.If? {
      AlikeListToItself(consts, a.ifTrue);
      AlikeListToItself(consts, a.ifFalse);
      AlikeElifsToItself(consts, a.elseIf);
    }
  }

  lemma {:induction false} AlikeListToItself(consts: Consts, l: seq<Stm>)
    ensures AlikeList(consts, l, l)
    decreases l, 0
  {
    if l != [] {
      AlikeToItself(consts, l[0]);
      AlikeListToItself(consts, l[1..]);
    }
  }

  lemma {:induction false} AlikeElifsToItself(consts: Consts, bs: seq<Branch>)
    ensures AlikeElifs(consts, bs, bs)
    decreases bs, 0
  {
    if bs != [] {
      AlikeListToItself(consts, bs[0].body);
      AlikeElifsToItself(consts, bs[1..]);
    }
  }

  // ---------- Statements that are alike mean the same ----------

  /** Every constant net holds its value. */
  ghost predicate Holds(consts: Consts, env: Env) {
    forall n: Net :: n in consts ==> env(n) == consts[n]
  }

  lemma AlikeNetsValues(consts: Consts, a: seq<Net>, b: seq<Net>, env: Env)
    requires AlikeNets(consts, a, b) && Holds(consts, env)
    ensures Values(a, env) == Values(b, env)
  {
    assert forall i :: 0 <= i < |a| ==> AlikeNet(consts, a[i], b[i]) && env(a[i]) == env(b[i]);
  }

  lemma {:induction false} AlikeOutputs(consts: Consts, a: Stm, b: Stm)
    requires Alike(consts, a, b) && Outputs(a) !! consts.Keys
    ensures Outputs(a) == Outputs(b)
    decreases a, 1
  {
    if a.If? {
      AlikeListOutputs(consts, a.ifTrue, b.ifTrue);
      AlikeElifsOutputs(consts, a.elseIf, b.elseIf);
      AlikeListOutputs(consts, a.ifFalse, b.ifFalse);
    }
  }

  lemma {:induction false} AlikeListOutputs(consts: Consts, a: seq<Stm>, b: seq<Stm>)
    requires AlikeList(consts, a, b) && OutputsOfList(a) !! consts.Keys
    ensures OutputsOfList(a) == OutputsOfList(b)
    decreases a, 0
  {
    if a != [] {
      AlikeOutputs(consts, a[0], b[0]);
      AlikeListOutputs(consts, a[1..], b[1..]);
    }
  }

  lemma {:induction false} AlikeElifsOutputs(consts: Consts, a: seq<Branch>, b: seq<Branch>)
    requires AlikeElifs(consts, a, b) && OutputsOfBranches(a) !! consts.Keys
    ensures OutputsOfBranches(a) == OutputsOfBranches(b)
    decreases a, 0
  {
    if a != [] {
      AlikeListOutputs(consts, a[0].body, b[0].body);
      AlikeElifsOutputs(consts, a[1..], b[1..]);
    }
  }

  /** Alike statements drive the same nets with the same values wherever the constants hold theirs. */
  lemma {:induction false} AlikeMeaning(consts: Consts, a: Stm, b: Stm, env: Env)
    requires Alike(consts, a, b) && Outputs(a) !! consts.Keys && Holds(consts, env)
    ensures Exec(a, env) == Exec(b, env)
    decreases a, 1
  {
    match a
    case Assign(_, aIndex, _) =>
      AlikeNetsValues(consts, aIndex, b.index, env);
    case If(_, _, _, _, _, _) =>
      TakenOutputs(a, env);
      AlikeTaken(consts, a, b, env);
      var taken := Taken(a, env);
      assert taken == a.ifTrue || taken == a.ifFalse || exists i :: 0 <= i < |a.elseIf| && taken == a.elseIf[i].body;
      AlikeListMeaning(consts, Taken(a, env), Taken(b, env), env);
  }

  lemma AlikeTaken(consts: Consts, a: Stm, b: Stm, env: Env)
    requires a.If? && Alike(consts, a, b) && Holds(consts, env)
    ensures AlikeList(consts, Taken(a, env), Taken(b, env))
  {
    AlikeSelect(consts, a.elseIf, b.elseIf, a.ifFalse, b.ifFalse, env);
  }

  lemma {:induction false} AlikeSelect(consts: Consts, a: seq<Branch>, b: seq<Branch>, aElse: seq<Stm>,
                                       bElse: seq<Stm>, env: Env)
    requires AlikeElifs(consts, a, b) && AlikeList(consts, aElse, bElse) && Holds(consts, env)
    ensures AlikeList(consts, Select(a, aElse, env), Select(b, bElse, env))
  {
    if a != [] && env(a[0].cond) == 0 {
      AlikeSelect(consts, a[1..], b[1..], aElse, bElse, env);
    }
  }

  lemma {:induction false} AlikeListMeaning(consts: Consts, a: seq<Stm>, b: seq<Stm>, env: Env)
    requires AlikeList(consts, a, b) && OutputsOfList(a) !! consts.Keys && Holds(consts, env)
    ensures ExecList(a, env) == ExecList(b, env)
    decreases a, 0
  {
    if a != [] {
      AlikeMeaning(consts, a[0], b[0], env);
      AlikeListMeaning(consts, a[1..], b[1..], env);
    }
  }

  /** Two constants of one value as destinations: the same for the header, yet different nets are driven. */
  lemma ConstDestinationsDiffer()
    ensures
      var (a, b) := (Assign(2, [], 5), Assign(3, [], 5));
      var env: Env := _ => 0;
      IsSame(Intended, map[2 := 0, 3 := 0], a, b) == Same && Exec(a, env) != Exec(b, env)
  {
    var env: Env := _ => 0;
    assert 2 in Exec(Assign(2, [], 5), env) && 2 !in Exec(Assign(3, [], 5), env);
  }

  // ---------- When the comparison throws ----------

  /** One check on the way through two statements: two nets, or a condition and what its failure means. */
  datatype Check = Nets(a: Net, b: Net) | Guard(holds: bool, otherwise: Verdict)

  predicate Passes(c: Check) {
    match c
    case Nets(a, b) => a == b
    case Guard(holds, _) => holds
  }

  /** Two different nets, both constant. */
  predicate Clashes(consts: Consts, c: Check) {
    c.Nets? && c.a != c.b && c.a in consts && c.b in consts
  }

  /**
    The checks of the comparison as written, in the order in which they are made when all before
    them pass.  The size test of two ifs is not among them: it never decides.
  */
  function Checks(a: Stm, b: Stm): seq<Check>
    decreases a, 1
  {
    match (a, b)
    case (Assign(aDst, aIndex, aSrc), Assign(bDst, bIndex, bSrc)) =>
      [Nets(aDst, bDst)] + ([Nets(aSrc, bSrc)] + ChecksOfNets(aIndex, bIndex))
    case (If(aCond, aTrue, aElse, _, aFalse, aRank), If(bCond, bTrue, bElse, _, bFalse, bRank)) =>
      [Guard(aRank == bRank, Different)] + ([Nets(aCond, bCond)]
      + (ChecksOfList(aTrue, bTrue) + (ChecksOfList(aFalse, bFalse) + ChecksOfElifs(aElse, bElse))))
    case _ => [Guard(false, Different)]
  }

  function ChecksOfNets(a: seq<Net>, b: seq<Net>): seq<Check> {
    if a == [] then []
    else if b == [] then [Guard(false, OutOfRange)]
    else [Nets(a[0], b[0])] + ChecksOfNets(a[1..], b[1..])
  }

  function ChecksOfList(a: seq<Stm>, b: seq<Stm>): seq<Check>
    decreases a, 1
  {
    if |a| != |b| then [Guard(false, Different)] else ChecksOfEach(a, b)
  }

  function ChecksOfEach(a: seq<Stm>, b: seq<Stm>): seq<Check>
    requires |a| == |b|
    decreases a, 0
  {
    if a == [] then [] else Checks(a[0], b[0]) + ChecksOfEach(a[1..], b[1..])
  }

  function ChecksOfElifs(a: seq<Branch>, b: seq<Branch>): seq<Check>
    decreases a
  {
    if a == [] then []
    else if b == [] then [Guard(false, OutOfRange)]
    else [Nets(a[0].cond, b[0].cond)] + (ChecksOfList(a[0].body, b[0].body) + ChecksOfElifs(a[1..], b[1..]))
  }

  /** The verdict of one check. */
  function VerdictOf(consts: Consts, c: Check): (r: Verdict)
    ensures r == Same <==> Passes(c) || (c.Guard? && c.otherwise == Same)
    ensures c.Nets? || c.otherwise != Throws ==> (r == Throws <==> Clashes(consts, c))
  {
    match c
    case Nets(a, b) => SameNet(AsWritten, consts, a, b)
    case Guard(holds, otherwise) => if holds then Same else otherwise
  }

  /** The verdict of the first check that does not pass. */
  function FirstVerdict(consts: Consts, cs: seq<Check>): Verdict {
    if cs == [] then Same else
      var first := VerdictOf(consts, cs[0]);
      if first != Same then first else FirstVerdict(consts, cs[1..])
  }

  lemma {:induction false} FirstOfConcat(consts: Consts, a: seq<Check>, b: seq<Check>)
    ensures FirstVerdict(consts, a + b)
         == if FirstVerdict(consts, a) != Same then FirstVerdict(consts, a) else FirstVerdict(consts, b)
  {
    if a == [] {
      assert a + b == b;
    } else {
      assert (a + b)[1..] == a[1..] + b;
      FirstOfConcat(consts, a[1..], b);
    }
  }

  lemma FirstStep(consts: Consts, c: Check, cs: seq<Check>)
    ensures FirstVerdict(consts, [c] + cs)
         == if VerdictOf(consts, c) != Same then VerdictOf(consts, c) else FirstVerdict(consts, cs)
  {
    assert ([c] + cs)[1..] == cs;
  }

  /** The verdict as written is that of the first check that does not pass. */
  lemma {:induction false} FirstOfChecks(consts: Consts, a: Stm, b: Stm)
    ensures IsSame(AsWritten, consts, a, b) == FirstVerdict(consts, Checks(a, b))
    decreases a, 1
  {
    match (a, b)
    case (Assign(_, aIndex, aSrc), Assign(_, bIndex, bSrc)) =>
      FirstOfNets(consts, aIndex, bIndex);
      FirstStep(consts, Nets(aSrc, bSrc), ChecksOfNets(aIndex, bIndex));
      FirstStep(consts, Nets(a.dst, b.dst), [Nets(aSrc, bSrc)] + ChecksOfNets(aIndex, bIndex));
    case (If(aCond, aTrue, aElse, _, aFalse, _), If(bCond, bTrue, bElse, _, bFalse, _)) =>
      FirstOfList(consts, aTrue, bTrue);
      FirstOfList(consts, aFalse, bFalse);
      FirstOfElifs(consts, aElse, bElse);
      var t, f, e := ChecksOfList(aTrue, bTrue), ChecksOfList(aFalse, bFalse), ChecksOfElifs(aElse, bElse);
      FirstOfConcat(consts, f, e);
      FirstOfConcat(consts, t, f + e);
      FirstStep(consts, Nets(aCond, bCond), t + (f + e));
      FirstStep(consts, Guard(a.rank == b.rank, Different), [Nets(aCond, bCond)] + (t + (f + e)));
    case _ =>
  }

  lemma {:induction false} FirstOfNets(consts: Consts, a: seq<Net>, b: seq<Net>)
    ensures SameNetsFrom(AsWritten, consts, a, b) == FirstVerdict(consts, ChecksOfNets(a, b))
  {
    if a != [] && b != [] {
      FirstOfNets(consts, a[1..], b[1..]);
      assert ChecksOfNets(a, b)[1..] == ChecksOfNets(a[1..], b[1..]);
    }
  }

  lemma {:induction false} FirstOfList(consts: Consts, a: seq<Stm>, b: seq<Stm>)
    ensures IsSameList(AsWritten, consts, a, b) == FirstVerdict(consts, ChecksOfList(a, b))
    decreases a, 0
  {
    if |a| == |b| != 0 {
      FirstOfChecks(consts, a[0], b[0]);
      FirstOfList(consts, a[1..], b[1..]);
      FirstOfConcat(consts, Checks(a[0], b[0]), ChecksOfEach(a[1..], b[1..]));
    }
  }

  lemma {:induction false} FirstOfElifs(consts: Consts, a: seq<Branch>, b: seq<Branch>)
    ensures IsSameElifs(AsWritten, consts, a, b) == FirstVerdict(consts, ChecksOfElifs(a, b))
    decreases a, 0
  {
    if a != [] && b != [] {
      FirstOfList(consts, a[0].body, b[0].body);
      FirstOfElifs(consts, a[1..], b[1..]);
      var body, others := ChecksOfList(a[0].body, b[0].body), ChecksOfElifs(a[1..], b[1..]);
      FirstOfConcat(consts, body, others);
      assert ChecksOfElifs(a, b)[1..] == body + others;
    }
  }

  /** Some check meets two different constants, and every check before it passes. */
  ghost predicate MeetsConstants(consts: Consts, cs: seq<Check>) {
    exists k :: 0 <= k < |cs| && Clashes(consts, cs[k]) && forall j :: 0 <= j < k ==> Passes(cs[j])
  }

  /** No guard stands for "same" or for throwing. */
  predicate Plain(cs: seq<Check>) {
    forall c :: c in cs && c.Guard? ==> c.otherwise in {Different, OutOfRange}
  }

  lemma MeetsFirst(consts: Consts, cs: seq<Check>)
    requires cs != []
    ensures MeetsConstants(consts, cs)
       <==> Clashes(consts, cs[0]) || (Passes(cs[0]) && MeetsConstants(consts, cs[1..]))
  {
    if MeetsConstants(consts, cs) {
      var k :| 0 <= k < |cs| && Clashes(consts, cs[k]) && forall j :: 0 <= j < k ==> Passes(cs[j]);
      if k > 0 {
        assert Clashes(consts, cs[1..][k - 1]) && forall j :: 0 <= j < k - 1 ==> Passes(cs[1..][j]);
      }
    }
    if Passes(cs[0]) && MeetsConstants(consts, cs[1..]) {
      var k :| 0 <= k < |cs[1..]| && Clashes(consts, cs[1..][k]) && forall j :: 0 <= j < k ==> Passes(cs[1..][j]);
      assert Clashes(consts, cs[k + 1]);
      assert forall j :: 0 < j < k + 1 ==> Passes(cs[1..][j - 1]) && cs[j] == cs[1..][j - 1];
    }
  }

  lemma {:induction false} ThrowsOfChecks(consts: Consts, cs: seq<Check>)
    requires Plain(cs)
    ensures FirstVerdict(consts, cs) == Throws <==> MeetsConstants(consts, cs)
  {
    if cs != [] {
      MeetsFirst(consts, cs);
      assert cs[0] in cs;
      ThrowsOfChecks(consts, cs[1..]);
    }
  }

  lemma {:induction false} ChecksPlain(a: Stm, b: Stm)
    ensures Plain(Checks(a, b))
    decreases a, 1
  {
    match (a, b)
    case (Assign(_, aIndex, _), Assign(_, bIndex, _)) =>
      NetsPlain(aIndex, bIndex);
    case (If(_, aTrue, aElse, _, aFalse, _), If(_, bTrue, bElse, _, bFalse, _)) =>
      ListPlain(aTrue, bTrue);
      ListPlain(aFalse, bFalse);
      ElifsPlain(aElse, bElse);
    case _ =>
  }

  lemma {:induction false} NetsPlain(a: seq<Net>, b: seq<Net>)
    ensures Plain(ChecksOfNets(a, b))
  {
    if a != [] && b != [] {
      NetsPlain(a[1..], b[1..]);
    }
  }

  lemma {:induction false} ListPlain(a: seq<Stm>, b: seq<Stm>)
    ensures Plain(ChecksOfList(a, b))
    decreases a, 0
  {
    if |a| == |b| != 0 {
      ChecksPlain(a[0], b[0]);
      ListPlain(a[1..], b[1..]);
    }
  }

  lemma {:induction false} ElifsPlain(a: seq<Branch>, b: seq<Branch>)
    ensures Plain(ChecksOfElifs(a, b))
    decreases a, 0
  {
    if a != [] && b != [] {
      ListPlain(a[0].body, b[0].body);
      ElifsPlain(a[1..], b[1..]);
    }
  }

  /**
    As written, a comparison throws exactly when it reaches two different constant nets
    with everything before them the same.
  */
  lemma ThrowsExactly(consts: Consts, a: Stm, b: Stm)
    ensures IsSame(AsWritten, consts, a, b) == Throws <==> MeetsConstants(consts, Checks(a, b))
  {
    FirstOfChecks(consts, a, b);
    ChecksPlain(a, b);
    ThrowsOfChecks(consts, Checks(a, b));
  }
}
