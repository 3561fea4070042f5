/**
  Which processes of a group end up in one (reduce and tryToMerge in statement_to_hwprocess.cpp),
  told by what they are: their condition trees, the nets between them, and lone assignments.
*/
module GroupShape {
  import opened Statements
  import opened StructuralCmp
  import opened StructuralCompatible
  import opened Merging
  import opened Reduce
  import opened Sensitivity
  import opened HwProcesses

  /** The process is one assignment. */
  ghost predicate Lone(p: Proc) {
    exists dst, index, src :: p.statements == [Assign(dst, index, src)]
  }

  /** Some net is an output of one process and in the sensitivity list of the other. */
  ghost predicate Linked(a: Proc, b: Proc) {
    exists n :: (n in a.outputs && NetItem(n) in b.sensitivity) || (n in b.outputs && NetItem(n) in a.sensitivity)
  }

  /** What keeps two processes apart: one assignment alone, a net between them, or different condition trees. */
  ghost predicate KeptApart(v: Version, a: Proc, b: Proc) {
    Lone(a) || Lone(b) || Linked(a, b) || ForksOf(v, a.statements) != ForksOf(v, b.statements)
  }

  lemma LoneIsTooSimple(p: Proc)
    ensures Lone(p) <==> TooSimple(p)
  {
    if TooSimple(p) {
      var s := p.statements[0];
      assert p.statements == [Assign(s.dst, s.index, s.src)];
    }
  }

  /** A pair is merged exactly when nothing keeps it apart. */
  lemma MergedUnlessApart(v: Version, a: Proc, b: Proc)
    ensures Compatible(v, a, b) <==> !KeptApart(v, a, b)
  {
    LoneIsTooSimple(a);
    LoneIsTooSimple(b);
    ListMergableMeansForks(v, a.statements, b.statements);
  }

  // ---------- What taking in changes ----------

  lemma {:induction false} TakenInForks(v: Version, a: seq<Stm>, b: seq<Stm>)
    requires IsMergableList(v, a, b) && ElifsFitList(a, b)
    ensures ForksOf(v, TakenIn(a, b)) == ForksOf(v, a)
    decreases a, 0, b
  {
    var m := TakenIn(a, b);
    if SimpleFirst(a) {
      TakenInForks(v, a[1..], b);
      assert m[1..] == TakenIn(a[1..], b);
    } else if SimpleFirst(b) {
      TakenInForks(v, a, b[1..]);
    } else if a != [] {
      MergeIfSkeleton(v, a[0], b[0]);
      TakenInForks(v, a[1..], b[1..]);
      assert m[1..] == TakenIn(a[1..], b[1..]);
    }
  }

  /** What became of a process: it is the same, or was no lone assignment and lists more, with one condition tree. */
  ghost predicate Grown(v: Version, p: Proc, r: Proc) {
    || r == p
    || (!Lone(p) && p.outputs <= r.outputs && p.sensitivity <= r.sensitivity
        && ForksOf(v, r.statements) == ForksOf(v, p.statements))
  }

  lemma MergedGrown(v: Version, w: Version, a: Proc, b: Proc)
    requires Compatible(v, a, b) && ElifsFitList(a.statements, b.statements)
    ensures Grown(v, a, Merged(w, a, b)) && Grown(v, b, Merged(w, a, b)) && !Lone(a) && !Lone(b)
  {
    MergedUnlessApart(v, a, b);
    MergeListsForks(v, a.statements, b.statements);
    TakenInForks(v, a.statements, b.statements);
  }

  /** Growing brings nobody together. */
  lemma StillApart(v: Version, a: Proc, b: Proc, a': Proc, b': Proc)
    requires KeptApart(v, a, b) && Grown(v, a, a') && Grown(v, b, b')
    ensures KeptApart(v, a', b')
  {
    if Linked(a, b) {
      var n :| (n in a.outputs && NetItem(n) in b.sensitivity) || (n in b.outputs && NetItem(n) in a.sensitivity);
      assert (n in a'.outputs && NetItem(n) in b'.sensitivity) || (n in b'.outputs && NetItem(n) in a'.sensitivity);
    }
  }

  // ---------- One sweep ----------

  /** How many of the first `i` are not taken. */
  function Before(taken: seq<bool>, i: nat): nat
    requires i <= |taken|
  {
    if i == 0 then 0 else (if taken[0] then 0 else 1) + Before(taken[1..], i - 1)
  }

  lemma {:induction false} BeforeGrows(taken: seq<bool>, i: nat, j: nat)
    requires i < j <= |taken| && !taken[i]
    ensures Before(taken, i) < Before(taken, j) && Before(taken, i) < Left(taken)
  {
    if i > 0 {
      BeforeGrows(taken[1..], i - 1, j - 1);
    }
  }

  lemma {:induction false} SpreadAt(taken: seq<bool>, rest: seq<nat>, i: nat)
    requires Left(taken) == |rest| && i < |taken|
    ensures taken[i] ==> Spread(taken, rest)[i] == 0
    ensures !taken[i] ==> Before(taken, i) < |rest| && Spread(taken, rest)[i] == rest[Before(taken, i)] + 1
  {
    if i > 0 {
      SpreadAt(taken[1..], if taken[0] then rest else rest[1..], i - 1);
    }
  }

  /** What a sweep does with the process at `i`: it is taken in and becomes part of the first, or is left as it is. */
  ghost predicate Settled(v: Version, a: Proc, later: seq<Proc>, s: Swept, i: nat)
    requires |s.taken| == |later| && i < |later|
  {
    && (s.taken[i] ==> Grown(v, later[i], s.proc) && !Lone(later[i]) && !Lone(a))
    && (!s.taken[i] ==> Before(s.taken, i) < |s.rest| && s.rest[Before(s.taken, i)] == later[i])
  }

  lemma SettledTaken(v: Version, a: Proc, m: Proc, b: Proc, l: seq<Proc>, s: Swept, i: nat)
    requires |s.taken| == |l| && i <= |l| && !Lone(a) && !Lone(b) && Grown(v, b, m) && Grown(v, m, s.proc)
    requires i > 0 ==> Settled(v, m, l, s, i - 1)
    ensures Settled(v, a, [b] + l, s.(taken := [true] + s.taken), i)
  {
    var taken := [true] + s.taken;
    assert taken[1..] == s.taken;
  }

  lemma SettledPassed(v: Version, a: Proc, b: Proc, l: seq<Proc>, s: Swept, i: nat)
    requires |s.taken| == |l| && i <= |l|
    requires i > 0 ==> Settled(v, a, l, s, i - 1)
    ensures Settled(v, a, [b] + l, Swept(s.proc, [b] + s.rest, [false] + s.taken), i)
  {
    var taken := [false] + s.taken;
    assert taken[1..] == s.taken;
  }

  lemma {:induction false} SweepSettles(v: Version, w: Version, a: Proc, later: seq<Proc>, i: nat)
    requires Sweep(v, w, a, later).Done? && i < |later|
    ensures Settled(v, a, later, Sweep(v, w, a, later).value, i)
    decreases |later|
  {
    var b, l := later[0], later[1..];
    assert later == [b] + l;
    var m := if Compatible(v, a, b) then Merged(w, a, b) else a;
    var s := Sweep(v, w, m, l).value;
    if i > 0 {
      SweepSettles(v, w, m, l, i - 1);
    }
    if Compatible(v, a, b) {
      MergedGrown(v, w, a, b);
      SweepGrows(v, w, m, l);
      SettledTaken(v, a, m, b, l, s, i);
    } else {
      SettledPassed(v, a, b, l, s, i);
    }
  }

  /** The first process grows, and whom a sweep leaves is kept apart from what it has become. */
  lemma {:induction false} SweepGrows(v: Version, w: Version, a: Proc, later: seq<Proc>)
    requires Sweep(v, w, a, later).Done?
    ensures var s := Sweep(v, w, a, later).value;
      Grown(v, a, s.proc) && forall p :: p in s.rest ==> KeptApart(v, s.proc, p)
    decreases |later|
  {
    if later != [] {
      if Compatible(v, a, later[0]) {
        MergedGrown(v, w, a, later[0]);
        SweepGrows(v, w, Merged(w, a, later[0]), later[1..]);
      } else {
        MergedUnlessApart(v, a, later[0]);
        SweepGrows(v, w, a, later[1..]);
        StillApart(v, a, later[0], Sweep(v, w, a, later).value.proc, later[0]);
      }
    }
  }

  /** The first process keeps its rank. */
  lemma {:induction false} SweepRank(v: Version, w: Version, a: Proc, later: seq<Proc>)
    requires Sweep(v, w, a, later).Done?
    ensures Sweep(v, w, a, later).value.proc.rank == a.rank
    decreases |later|
  {
    if later != [] {
      SweepRank(v, w, if Compatible(v, a, later[0]) then Merged(w, a, later[0]) else a, later[1..]);
    }
  }

  // ---------- One group ----------

  /**
    Where the process behind the first at `i` ends: with the first one, or where it ends among those a
    sweep leaves.
  */
  ghost predicate EndsAs(s: Swept, into: seq<nat>, rest: seq<nat>, i: nat)
    requires i < |s.taken|
  {
    && i + 1 < |into| && Before(s.taken, i) <= |rest|
    && if s.taken[i] then into[i + 1] == 0
       else Before(s.taken, i) < |rest| && into[i + 1] == rest[Before(s.taken, i)] + 1
  }

  lemma EndsAt(v: Version, w: Version, procs: seq<Proc>, i: nat)
    requires procs != [] && ReduceGroup(v, w, procs).Done? && i < |procs| - 1
    ensures var s := Sweep(v, w, procs[0], procs[1..]).value;
      && ReduceGroup(v, w, s.rest).Done? && |s.taken| == |procs| - 1
      && Settled(v, procs[0], procs[1..], s, i)
      && EndsAs(s, Into(v, w, procs), Into(v, w, s.rest), i)
  {
    IntoUnfolds(v, w, procs);
    SweepSettles(v, w, procs[0], procs[1..], i);
    var s := Sweep(v, w, procs[0], procs[1..]).value;
    SpreadAt(s.taken, Into(v, w, s.rest), i);
    BeforeAtMost(s.taken, i);
  }

  lemma {:induction false} BeforeAtMost(taken: seq<bool>, i: nat)
    requires i <= |taken|
    ensures Before(taken, i) <= Left(taken)
  {
    if i > 0 {
      BeforeAtMost(taken[1..], i - 1);
    }
  }

  /** Every process grows into the survivor it ends in. */
  lemma {:induction false} EachGrows(v: Version, w: Version, procs: seq<Proc>, i: nat)
    requires ReduceGroup(v, w, procs).Done? && i < |procs|
    ensures Grown(v, procs[i], ReduceGroup(v, w, procs).value[Into(v, w, procs)[i]])
    decreases |procs|
  {
    IntoUnfolds(v, w, procs);
    if i == 0 {
      SweepGrows(v, w, procs[0], procs[1..]);
    } else {
      EndsAt(v, w, procs, i - 1);
      var s := Sweep(v, w, procs[0], procs[1..]).value;
      if !s.taken[i - 1] {
        EachGrows(v, w, s.rest, Before(s.taken, i - 1));
      }
    }
  }

  /** No two processes that end in one survivor are lone assignments, nor is one of them. */
  ghost predicate LoneApart(procs: seq<Proc>, into: seq<nat>)
    requires |procs| == |into|
  {
    forall i, j :: 0 <= i < j < |procs| && into[i] == into[j] ==> !Lone(procs[i]) && !Lone(procs[j])
  }

  /** What a sweep did with all of them, and where those it left end. */
  ghost predicate Ended(v: Version, a: Proc, later: seq<Proc>, s: Swept, rest: seq<nat>) {
    && |s.taken| == |later| && Left(s.taken) == |rest| == |s.rest|
    && (forall i: nat :: i < |later| ==> Settled(v, a, later, s, i))
    && LoneApart(s.rest, rest)
  }

  lemma LonePair(v: Version, a: Proc, later: seq<Proc>, s: Swept, rest: seq<nat>, i: nat, j: nat)
    requires Ended(v, a, later, s, rest) && i < j < |later|
    requires Spread(s.taken, rest)[i] == Spread(s.taken, rest)[j]
    ensures !Lone(later[i]) && !Lone(later[j])
  {
    SpreadAt(s.taken, rest, i);
    SpreadAt(s.taken, rest, j);
    assert Settled(v, a, later, s, i) && Settled(v, a, later, s, j);
    if !s.taken[i] {
      BeforeGrows(s.taken, i, j);
    }
  }

  lemma LoneStep(v: Version, a: Proc, later: seq<Proc>, s: Swept, rest: seq<nat>)
    requires Ended(v, a, later, s, rest)
    ensures LoneApart([a] + later, [0] + Spread(s.taken, rest))
  {
    var all, into := [a] + later, [0] + Spread(s.taken, rest);
    forall i, j | 0 <= i < j < |all| && into[i] == into[j] ensures !Lone(all[i]) && !Lone(all[j]) {
      if i > 0 {
        LonePair(v, a, later, s, rest, i - 1, j - 1);
      } else {
        SpreadAt(s.taken, rest, j - 1);
        assert Settled(v, a, later, s, j - 1);
      }
    }
  }

  /** A survivor in which two processes end holds no lone assignment. */
  lemma {:induction false} TogetherNotLone(v: Version, w: Version, procs: seq<Proc>)
    requires ReduceGroup(v, w, procs).Done?
    ensures LoneApart(procs, Into(v, w, procs))
    decreases |procs|
  {
    if procs != [] {
      IntoUnfolds(v, w, procs);
      var s := Sweep(v, w, procs[0], procs[1..]).value;
      TogetherNotLone(v, w, s.rest);
      forall i: nat | i < |procs| - 1 ensures Settled(v, procs[0], procs[1..], s, i) {
        SweepSettles(v, w, procs[0], procs[1..], i);
      }
      LoneStep(v, procs[0], procs[1..], s, Into(v, w, s.rest));
      assert procs == [procs[0]] + procs[1..];
    }
  }

  lemma AloneThere(procs: seq<Proc>, into: seq<nat>, i: nat)
    requires |procs| == |into| && i < |procs| && LoneApart(procs, into) && Lone(procs[i])
    ensures forall j :: 0 <= j < |procs| && j != i ==> into[j] != into[i]
  {
  }

  /** A process that is one assignment neither takes in another nor is taken in: it survives unchanged and alone. */
  lemma LoneStaysAlone(v: Version, w: Version, procs: seq<Proc>, i: nat)
    requires ReduceGroup(v, w, procs).Done? && i < |procs| && Lone(procs[i])
    ensures ReduceGroup(v, w, procs).value[Into(v, w, procs)[i]] == procs[i]
    ensures forall j :: 0 <= j < |procs| && j != i ==> Into(v, w, procs)[j] != Into(v, w, procs)[i]
  {
    EachGrows(v, w, procs, i);
    TogetherNotLone(v, w, procs);
    AloneThere(procs, Into(v, w, procs), i);
  }

  /** Every survivor has grown from one of the processes. */
  lemma SeedOf(v: Version, w: Version, procs: seq<Proc>, k: nat) returns (i: nat)
    requires ReduceGroup(v, w, procs).Done? && k < |ReduceGroup(v, w, procs).value|
    ensures i < |procs| && Into(v, w, procs)[i] == k && Grown(v, procs[i], ReduceGroup(v, w, procs).value[k])
  {
    SurvivorsHaveSource(v, w, procs, k);
    i :| 0 <= i < |procs| && Into(v, w, procs)[i] == k;
    EachGrows(v, w, procs, i);
  }

  ghost predicate AllApart(v: Version, procs: seq<Proc>) {
    forall j, k :: 0 <= j < k < |procs| ==> KeptApart(v, procs[j], procs[k])
  }

  lemma FirstApart(v: Version, p: Proc, procs: seq<Proc>)
    requires AllApart(v, procs) && forall k :: 0 <= k < |procs| ==> KeptApart(v, p, procs[k])
    ensures AllApart(v, [p] + procs)
  {
    var all := [p] + procs;
    forall j, k | 0 <= j < k < |all| ensures KeptApart(v, all[j], all[k]) {
      assert all[k] == procs[k - 1] && (j > 0 ==> all[j] == procs[j - 1]);
    }
  }

  /** Nothing is left that could be merged: any two survivors are kept apart. */
  lemma {:induction false} SurvivorsApart(v: Version, w: Version, procs: seq<Proc>)
    requires ReduceGroup(v, w, procs).Done?
    ensures AllApart(v, ReduceGroup(v, w, procs).value)
    decreases |procs|
  {
    if procs != [] {
      var s := Sweep(v, w, procs[0], procs[1..]).value;
      SurvivorsApart(v, w, s.rest);
      SweepGrows(v, w, procs[0], procs[1..]);
      var r := ReduceGroup(v, w, s.rest).value;
      forall k: nat | k < |r| ensures KeptApart(v, s.proc, r[k]) {
        var i := SeedOf(v, w, s.rest, k);
        StillApart(v, s.proc, s.rest[i], s.proc, r[k]);
      }
      FirstApart(v, s.proc, r);
    }
  }

  // ---------- When one process is left ----------

  /** The process has an if at its top. */
  ghost predicate HasIf(l: seq<Stm>) {
    exists s :: s in l && s.If?
  }

  lemma HasIfStep(s: Stm, l: seq<Stm>)
    ensures HasIf([s] + l) <==> s.If? || HasIf(l)
  {
    if s.If? {
      assert s in [s] + l;
    } else if HasIf(l) {
      var t :| t in l && t.If?;
      assert t in [s] + l;
    }
  }

  lemma {:induction false} JoinedHasIf(v: Version, w: Version, a: seq<Stm>, b: seq<Stm>)
    requires HasIf(a) && IsMergableList(v, a, b) && ElifsFitList(a, b)
    ensures HasIf(Joined(w, a, b))
    decreases a, 0, b
  {
    assert a == [a[0]] + a[1..];
    HasIfStep(a[0], a[1..]);
    if SimpleFirst(a) {
      if !a[0].If? {
        JoinedHasIf(v, w, a[1..], b);
      }
      HasIfStep(a[0], Joined(w, a[1..], b));
    } else if SimpleFirst(b) {
      JoinedHasIf(v, w, a, b[1..]);
      HasIfStep(b[0], Joined(w, a, b[1..]));
    } else {
      HasIfStep(MergeIf(a[0], b[0]), Joined(w, a[1..], b[1..]));
    }
  }

  lemma {:induction false} SweepHasIf(v: Version, w: Version, a: Proc, later: seq<Proc>)
    requires Sweep(v, w, a, later).Done? && HasIf(a.statements) && forall p :: p in later ==> HasIf(p.statements)
    ensures var s := Sweep(v, w, a, later).value;
      HasIf(s.proc.statements) && forall p :: p in s.rest ==> HasIf(p.statements)
    decreases |later|
  {
    if later != [] {
      if Compatible(v, a, later[0]) {
        JoinedHasIf(v, w, a.statements, later[0].statements);
        SweepHasIf(v, w, Merged(w, a, later[0]), later[1..]);
      } else {
        SweepHasIf(v, w, a, later[1..]);
      }
    }
  }

  lemma {:induction false} GroupHasIf(v: Version, w: Version, procs: seq<Proc>)
    requires ReduceGroup(v, w, procs).Done? && forall p :: p in procs ==> HasIf(p.statements)
    ensures forall p :: p in ReduceGroup(v, w, procs).value ==> HasIf(p.statements)
    decreases |procs|
  {
    if procs != [] {
      SweepHasIf(v, w, procs[0], procs[1..]);
      GroupHasIf(v, w, Sweep(v, w, procs[0], procs[1..]).value.rest);
    }
  }

  /** No output of one of the processes is in the sensitivity list of another. */
  ghost predicate NoneLinked(procs: seq<Proc>) {
    forall i, j :: 0 <= i < j < |procs| ==> !Linked(procs[i], procs[j])
  }

  lemma NotLinkedFrom(v: Version, w: Version, procs: seq<Proc>, j: nat, k: nat, n: Net)
    requires ReduceGroup(v, w, procs).Done? && NoneLinked(procs)
    requires j < |ReduceGroup(v, w, procs).value| && k < |ReduceGroup(v, w, procs).value| && j != k
    requires n in ReduceGroup(v, w, procs).value[j].outputs
    ensures NetItem(n) !in ReduceGroup(v, w, procs).value[k].sensitivity
  {
    var r, into := ReduceGroup(v, w, procs).value, Into(v, w, procs);
    if NetItem(n) in r[k].sensitivity {
      EachEndsInOne(v, w, procs, j, Out(n));
      EachEndsInOne(v, w, procs, k, On(NetItem(n)));
      assert Has(r[j], Out(n)) && Has(r[k], On(NetItem(n)));
      var x :| 0 <= x < |procs| && into[x] == j && Has(procs[x], Out(n));
      var y :| 0 <= y < |procs| && into[y] == k && Has(procs[y], On(NetItem(n)));
      assert Linked(procs[x], procs[y]) && Linked(procs[y], procs[x]);
    }
  }

  /**
    Processes with an if at their top, one condition tree and no net between them are
    reduced to exactly one.
  */
  lemma OneSurvivor(v: Version, w: Version, procs: seq<Proc>)
    requires procs != [] && ReduceGroup(v, w, procs).Done? && NoneLinked(procs)
    requires forall p :: p in procs ==> HasIf(p.statements)
    requires forall p, q :: p in procs && q in procs ==> ForksOf(v, p.statements) == ForksOf(v, q.statements)
    ensures |ReduceGroup(v, w, procs).value| == 1
  {
    var r, into := ReduceGroup(v, w, procs).value, Into(v, w, procs);
    if |r| > 1 {
      SurvivorsApart(v, w, procs);
      assert KeptApart(v, r[0], r[1]);
      GroupHasIf(v, w, procs);
      assert r[0] in r && r[1] in r;
      forall n ensures n in r[0].outputs ==> NetItem(n) !in r[1].sensitivity
               ensures n in r[1].outputs ==> NetItem(n) !in r[0].sensitivity
      {
        if n in r[0].outputs {
          NotLinkedFrom(v, w, procs, 0, 1, n);
        }
        if n in r[1].outputs {
          NotLinkedFrom(v, w, procs, 1, 0, n);
        }
      }
      var x := SeedOf(v, w, procs, 0);
      var y := SeedOf(v, w, procs, 1);
    }
  }
}
