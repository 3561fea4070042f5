/**
  When reduction (reduce_statement.cpp) succeeds and when it throws.  As the headers ask for it,
  it always succeeds and keeps the meaning.  As written, it throws on constants.
*/
module ReduceVerdict {
  import opened Statements
  import opened StructuralCmp
  import opened StructuralCompatible
  import opened Merging
  import opened Reduce

  // ---------- As the headers ask for it ----------

  lemma {:induction false} ColumnAnswer(consts: Consts, reference: Stm, stms: seq<Stm>)
    ensures StatementsAreSame(Intended, consts, reference, stms) in {Same, Different}
  {
    if stms != [] {
      SameIntended(consts, reference, stms[0]);
      ColumnAnswer(consts, reference, stms[1..]);
    }
  }

  lemma {:induction false} ColumnsAnswer(consts: Consts, s: Stm, i: nat)
    requires s.If? && SizesMatch(s) && i <= |s.ifTrue|
    ensures ColumnsAreSame(Intended, consts, s, i) in {Same, Different}
    decreases |s.ifTrue| - i
  {
    if i < |s.ifTrue| {
      ColumnAnswer(consts, s.ifTrue[i], Column(s, i));
      ColumnsAnswer(consts, s, i + 1);
    }
  }

  lemma {:induction false} AbsorbSucceeds(a: Stm, later: seq<Stm>)
    requires Rank(a) > 0 && Sound([a] + later)
    ensures Absorb(Intended, a, later).Done?
    decreases |later|
  {
    if later != [] {
      assert later == [later[0]] + later[1..];
      Cons(a, later);
      Cons(later[0], later[1..]);
      if Rank(later[0]) == Rank(a) && IsMergable(Intended, a, later[0]) {
        MergeIfKeeps(a, later[0]);
        Cons(MergeIf(a, later[0]), later[1..]);
        AbsorbSucceeds(MergeIf(a, later[0]), later[1..]);
      } else {
        Cons(a, later[1..]);
        AbsorbSucceeds(a, later[1..]);
      }
    }
  }

  lemma {:induction false} MergeSucceeds(l: seq<Stm>)
    requires Sound(l)
    ensures MergeStatements(Intended, l).Done?
    decreases |l|
  {
    if l != [] {
      assert l == [l[0]] + l[1..];
      Cons(l[0], l[1..]);
      if Rank(l[0]) == 0 {
        MergeSucceeds(l[1..]);
      } else {
        AbsorbSucceeds(l[0], l[1..]);
        IntendedAbsorbRight(l[0], l[1..]);
        AbsorbPreserves(Intended, map[], l[0], l[1..]);
        var a := Absorb(Intended, l[0], l[1..]).value;
        Cons(a.stm, a.rest);
        MergeSucceeds(a.rest);
      }
    }
  }

  /** Reduction as intended never throws and never leaves a vector. */
  lemma {:induction false} ReduceSucceeds(consts: Consts, s: Stm)
    requires OneDriver(s) && ElseGiven(s) && Outputs(s) !! consts.Keys
    ensures ReduceStm(Intended, consts, s).Done?
    decreases s, 1
  {
    if s.If? {
      ReduceListSucceeds(consts, s.ifTrue);
      ReduceElifsSucceeds(consts, s.elseIf);
      ReduceListSucceeds(consts, s.ifFalse);
      var s' := Rebuild(s, ReduceList(Intended, consts, s.ifTrue).value, ReduceElifs(Intended, consts, s.elseIf).value,
                        ReduceList(Intended, consts, s.ifFalse).value);
      if SizesMatch(s') {
        ColumnsAnswer(consts, s', 0);
      }
    }
  }

  lemma {:induction false} ReduceListSucceeds(consts: Consts, l: seq<Stm>)
    requires Sound(l) && OutputsOfList(l) !! consts.Keys
    ensures ReduceList(Intended, consts, l).Done?
    decreases l, 1
  {
    ReduceEachSucceeds(consts, l);
    IntendedEachIsRight(consts, l);
    ReduceEachPreserves(Intended, consts, l);
    MergeSucceeds(ReduceEach(Intended, consts, l).value);
  }

  lemma {:induction false} ReduceEachSucceeds(consts: Consts, l: seq<Stm>)
    requires Sound(l) && OutputsOfList(l) !! consts.Keys
    ensures ReduceEach(Intended, consts, l).Done?
    decreases l, 0
  {
    if l != [] {
      ReduceSucceeds(consts, l[0]);
      ReduceEachSucceeds(consts, l[1..]);
    }
  }

  lemma {:induction false} ReduceElifsSucceeds(consts: Consts, bs: seq<Branch>)
    requires OneDriverBranches(bs) && ElseGivenBranches(bs) && OutputsOfBranches(bs) !! consts.Keys
    ensures ReduceElifs(Intended, consts, bs).Done?
    decreases bs, 0
  {
    if bs != [] {
      ReduceListSucceeds(consts, bs[0].body);
      ReduceElifsSucceeds(consts, bs[1..]);
    }
  }

  /**
    Every statement that drives no constant is reduced, and what it is reduced to has its
    outputs, and its writes wherever the constant nets hold their values.
  */
  lemma IntendedReduces(consts: Consts, s: Stm)
    requires OneDriver(s) && ElseGiven(s) && Outputs(s) !! consts.Keys
    ensures ReduceStm(Intended, consts, s).Done?
    ensures Preserves(consts, [s], ReduceStm(Intended, consts, s).value)
  {
    ReduceSucceeds(consts, s);
    IntendedIsRight(consts, s);
    ReducePreserves(Intended, consts, s);
  }

  /** The same for a list of siblings, with those that have one condition tree merged. */
  lemma IntendedReducesList(consts: Consts, l: seq<Stm>)
    requires Sound(l) && OutputsOfList(l) !! consts.Keys
    ensures ReduceList(Intended, consts, l).Done?
    ensures Preserves(consts, l, ReduceList(Intended, consts, l).value.list)
  {
    ReduceListSucceeds(consts, l);
    IntendedListIsRight(consts, l);
    ReduceListPreserves(Intended, consts, l);
  }

  // ---------- As written: when it throws ----------

  function ColumnChecks(reference: Stm, stms: seq<Stm>): seq<Check> {
    if stms == [] then [] else Checks(reference, stms[0]) + ColumnChecks(reference, stms[1..])
  }

  function ColumnsChecks(s: Stm, i: nat): seq<Check>
    requires s.If? && SizesMatch(s) && i <= |s.ifTrue|
    decreases |s.ifTrue| - i
  {
    if i == |s.ifTrue| then [] else ColumnChecks(s.ifTrue[i], Column(s, i)) + ColumnsChecks(s, i + 1)
  }

  /** The checks made on the branches of an if, position by position, when all before them pass. */
  function BranchChecks(s: Stm): seq<Check>
    requires s.If?
  {
    if SizesMatch(s) then ColumnsChecks(s, 0) else [Guard(false, Different)]
  }

  lemma {:induction false} FirstOfColumn(consts: Consts, reference: Stm, stms: seq<Stm>)
    ensures StatementsAreSame(AsWritten, consts, reference, stms) == FirstVerdict(consts, ColumnChecks(reference, stms))
    ensures Plain(ColumnChecks(reference, stms))
  {
    if stms != [] {
      FirstOfChecks(consts, reference, stms[0]);
      ChecksPlain(reference, stms[0]);
      FirstOfColumn(consts, reference, stms[1..]);
      FirstOfConcat(consts, Checks(reference, stms[0]), ColumnChecks(reference, stms[1..]));
    }
  }

  lemma {:induction false} FirstOfColumns(consts: Consts, s: Stm, i: nat)
    requires s.If? && SizesMatch(s) && i <= |s.ifTrue|
    ensures ColumnsAreSame(AsWritten, consts, s, i) == FirstVerdict(consts, ColumnsChecks(s, i))
    ensures Plain(ColumnsChecks(s, i))
    decreases |s.ifTrue| - i
  {
    if i < |s.ifTrue| {
      FirstOfColumn(consts, s.ifTrue[i], Column(s, i));
      FirstOfColumns(consts, s, i + 1);
      FirstOfConcat(consts, ColumnChecks(s.ifTrue[i], Column(s, i)), ColumnsChecks(s, i + 1));
    }
  }

  /** Whether a condition has an effect cannot be told exactly when the branches first differ in two constants. */
  lemma BranchesThrow(consts: Consts, s: Stm)
    requires s.If?
    ensures BranchesAreSame(AsWritten, consts, s) == Throws <==> MeetsConstants(consts, BranchChecks(s))
  {
    if SizesMatch(s) {
      FirstOfColumns(consts, s, 0);
      ThrowsOfChecks(consts, ColumnsChecks(s, 0));
    }
  }

  predicate AllIfs(l: seq<Stm>) {
    forall k :: 0 <= k < |l| ==> l[k].If?
  }

  /** What the pass compares first, and next unless it has failed by then. */
  function Next(first: seq<Stm>, failed: bool, next: seq<Stm>): (r: seq<Stm>)
    ensures AllIfs(first) && AllIfs(next) ==> AllIfs(r)
  {
    first + (if failed then [] else next)
  }

  /** The ifs whose rewritten branches the pass compares, in order, up to where it stops. */
  function Compared(consts: Consts, s: Stm): (r: seq<Stm>)
    ensures AllIfs(r)
    decreases s, 1
  {
    if s.Assign? then [] else
      var (t, e, f) := (ReduceList(AsWritten, consts, s.ifTrue), ReduceElifs(AsWritten, consts, s.elseIf),
                        ReduceList(AsWritten, consts, s.ifFalse));
      Next(ComparedEach(consts, s.ifTrue), t.Failed?,
           Next(ComparedElifs(consts, s.elseIf), e.Failed?,
                Next(ComparedEach(consts, s.ifFalse), f.Failed?,
                     if t.Done? && e.Done? && f.Done? then [Rebuild(s, t.value, e.value, f.value)] else [])))
  }

  function ComparedEach(consts: Consts, l: seq<Stm>): (r: seq<Stm>)
    ensures AllIfs(r)
    decreases l, 0
  {
    if l == [] then []
    else Next(Compared(consts, l[0]), ReduceStm(AsWritten, consts, l[0]).Failed?, ComparedEach(consts, l[1..]))
  }

  function ComparedElifs(consts: Consts, bs: seq<Branch>): (r: seq<Stm>)
    ensures AllIfs(r)
    decreases bs, 0
  {
    if bs == [] then []
    else Next(ComparedEach(consts, bs[0].body), ReduceList(AsWritten, consts, bs[0].body).Failed?,
              ComparedElifs(consts, bs[1..]))
  }

  /** The branches of one of these ifs first differ in two constant nets. */
  ghost predicate SomeMeets(consts: Consts, ifs: seq<Stm>)
    requires AllIfs(ifs)
  {
    exists k :: 0 <= k < |ifs| && MeetsConstants(consts, BranchChecks(ifs[k]))
  }

  lemma NextMeets(consts: Consts, first: seq<Stm>, failed: bool, next: seq<Stm>)
    requires AllIfs(first) && AllIfs(next)
    ensures SomeMeets(consts, Next(first, failed, next))
       <==> SomeMeets(consts, first) || (!failed && SomeMeets(consts, next))
  {
    var all := Next(first, failed, next);
    if SomeMeets(consts, first) {
      var k :| 0 <= k < |first| && MeetsConstants(consts, BranchChecks(first[k]));
      assert all[k] == first[k];
    }
    if !failed && SomeMeets(consts, next) {
      var k :| 0 <= k < |next| && MeetsConstants(consts, BranchChecks(next[k]));
      assert all[|first| + k] == next[k];
    }
  }

  lemma SomeMeetsOne(consts: Consts, s: Stm)
    requires s.If?
    ensures SomeMeets(consts, [s]) <==> BranchesAreSame(AsWritten, consts, s) == Throws
  {
    BranchesThrow(consts, s);
    assert [s][0] == s;
  }

  lemma {:induction false} MergeNeverThrows(l: seq<Stm>)
    ensures MergeStatements(AsWritten, l) != Failed(Throws)
    decreases |l|
  {
    if l != [] {
      if Rank(l[0]) == 0 {
        MergeNeverThrows(l[1..]);
      } else {
        AbsorbNeverThrows(l[0], l[1..]);
        var a := Absorb(AsWritten, l[0], l[1..]);
        if a.Done? {
          MergeNeverThrows(a.value.rest);
        }
      }
    }
  }

  lemma {:induction false} AbsorbNeverThrows(a: Stm, later: seq<Stm>)
    requires Rank(a) > 0
    ensures Absorb(AsWritten, a, later) != Failed(Throws)
    decreases |later|
  {
    if later != [] {
      if Rank(later[0]) == Rank(a) && IsMergable(AsWritten, a, later[0]) {
        if ElifsFit(a, later[0]) {
          AbsorbNeverThrows(MergeIf(a, later[0]), later[1..]);
        }
      } else {
        AbsorbNeverThrows(a, later[1..]);
      }
    }
  }

  /**
    As written, the pass throws exactly when it arrives at an if whose rewritten branches,
    position by position, first differ in two constant nets.
  */
  lemma {:induction false} PassThrows(consts: Consts, s: Stm)
    ensures ReduceStm(AsWritten, consts, s) == Failed(Throws) <==> SomeMeets(consts, Compared(consts, s))
    decreases s, 1
  {
    if s.If? {
      ListThrows(consts, s.ifTrue);
      ElifsThrow(consts, s.elseIf);
      ListThrows(consts, s.ifFalse);
      var (t, e, f) := (ReduceList(AsWritten, consts, s.ifTrue), ReduceElifs(AsWritten, consts, s.elseIf),
                        ReduceList(AsWritten, consts, s.ifFalse));
      IfThrows(consts, s, t, e, f);
      var last := if t.Done? && e.Done? && f.Done? then [Rebuild(s, t.value, e.value, f.value)] else [];
      var third := Next(ComparedEach(consts, s.ifFalse), f.Failed?, last);
      var second := Next(ComparedElifs(consts, s.elseIf), e.Failed?, third);
      NextMeets(consts, ComparedEach(consts, s.ifFalse), f.Failed?, last);
      NextMeets(consts, ComparedElifs(consts, s.elseIf), e.Failed?, third);
      NextMeets(consts, ComparedEach(consts, s.ifTrue), t.Failed?, second);
    }
  }

  /** The pass over one if, by what it makes of the branches. */
  lemma IfThrows(consts: Consts, s: Stm, t: Outcome<Rewritten>, e: Outcome<(seq<Branch>, nat)>, f: Outcome<Rewritten>)
    requires s.If? && t == ReduceList(AsWritten, consts, s.ifTrue) && e == ReduceElifs(AsWritten, consts, s.elseIf)
    requires f == ReduceList(AsWritten, consts, s.ifFalse)
    ensures ReduceStm(AsWritten, consts, s) == Failed(Throws)
       <==> (t == Failed(Throws)
             || (t.Done? && (e == Failed(Throws)
             || (e.Done? && (f == Failed(Throws)
             || (f.Done? && SomeMeets(consts, [Rebuild(s, t.value, e.value, f.value)])))))))
  {
    if t.Done? && e.Done? && f.Done? {
      SomeMeetsOne(consts, Rebuild(s, t.value, e.value, f.value));
    }
  }

  lemma {:induction false} ListThrows(consts: Consts, l: seq<Stm>)
    ensures ReduceList(AsWritten, consts, l) == Failed(Throws) <==> SomeMeets(consts, ComparedEach(consts, l))
    decreases l, 0, 1
  {
    EachThrows(consts, l);
    if ReduceEach(AsWritten, consts, l).Done? {
      MergeNeverThrows(ReduceEach(AsWritten, consts, l).value);
    }
  }

  lemma {:induction false} EachThrows(consts: Consts, l: seq<Stm>)
    ensures ReduceEach(AsWritten, consts, l) == Failed(Throws) <==> SomeMeets(consts, ComparedEach(consts, l))
    decreases l, 0, 0
  {
    if l != [] {
      PassThrows(consts, l[0]);
      EachThrows(consts, l[1..]);
      NextMeets(consts, Compared(consts, l[0]), ReduceStm(AsWritten, consts, l[0]).Failed?,
          ComparedEach(consts, l[1..]));
    }
  }

  lemma {:induction false} ElifsThrow(consts: Consts, bs: seq<Branch>)
    ensures ReduceElifs(AsWritten, consts, bs) == Failed(Throws) <==> SomeMeets(consts, ComparedElifs(consts, bs))
    decreases bs, 0
  {
    if bs != [] {
      ListThrows(consts, bs[0].body);
      ElifsThrow(consts, bs[1..]);
      NextMeets(consts, ComparedEach(consts, bs[0].body), ReduceList(AsWritten, consts, bs[0].body).Failed?,
                ComparedElifs(consts, bs[1..]));
    }
  }

  /** One net driven with two constants: as written the pass throws, as intended it keeps the if. */
  lemma ConstantsThrow()
    ensures
      var s := If(0, [Assign(1, [], 2)], [], true, [Assign(1, [], 3)], 2);
      && ReduceStm(AsWritten, map[2 := 1, 3 := 0], s) == Failed(Throws)
      && ReduceStm(Intended, map[2 := 1, 3 := 0], s) == Done([s])
      && ReduceStm(Intended, map[2 := 1, 3 := 1], s) == Done([Assign(1, [], 2)])
  {
    var a, b := Assign(1, [], 2), Assign(1, [], 3);
    var s := If(0, [a], [], true, [b], 2);
    OneAssignment(AsWritten, map[2 := 1, 3 := 0], a);
    OneAssignment(AsWritten, map[2 := 1, 3 := 0], b);
    OneAssignment(Intended, map[2 := 1, 3 := 0], a);
    OneAssignment(Intended, map[2 := 1, 3 := 0], b);
    OneAssignment(Intended, map[2 := 1, 3 := 1], a);
    OneAssignment(Intended, map[2 := 1, 3 := 1], b);
    assert Column(s, 0) == [b] && [b][1..] == [];
  }

  lemma OneAssignment(v: Version, consts: Consts, a: Stm)
    requires a.Assign?
    ensures ReduceList(v, consts, [a]) == Done(Rewritten([a], 0))
  {
    assert [a][1..] == [] && [a] + [] == [a];
    assert ReduceStm(v, consts, a) == Done([a]) && ReduceEach(v, consts, []) == Done([]);
    assert ReduceEach(v, consts, [a]) == Done([a]);
    assert MergeStatements(v, []) == Done(Rewritten([], 0));
  }
}
