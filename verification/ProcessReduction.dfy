/**
  The loops of process reduction (statement_to_hwprocess.cpp, groupedby.h) over process
  objects: one process is extended in place, and the slot of the one taken in is cleared.
*/
module ProcessReduction {
  import opened Lists
  import opened Statements
  import opened StructuralCompatible
  import opened StructuralCmp
  import opened MergeLoop
  import opened Reduce
  import opened Sensitivity
  import opened HwProcesses

  class HwProcess {
    const rank: nat
    var statements: seq<Stm>
    var sensitivityList: set<Item>
    var inputs: set<Net>
    var outputs: set<Net>

    function View(): Proc
      reads this
    {
      Proc(rank, statements, sensitivityList, inputs, outputs)
    }

    constructor (p: Proc)
      ensures View() == p
    {
      rank, statements, sensitivityList, inputs, outputs := p.rank, p.statements, p.sensitivity, p.inputs, p.outputs;
    }
  }

  // ---------- Merging the statement lists ----------

  /** The part of the first list gone past, as it is now, in front of what taking in does to the rest. */
  ghost predicate Rest(all: seq<Stm>, front: seq<Stm>, a: seq<Stm>, b: seq<Stm>) {
    ElifsFitList(a, b) && all == front + TakenIn(a, b)
  }

  lemma RestSimple(all: seq<Stm>, front: seq<Stm>, a: seq<Stm>, b: seq<Stm>)
    requires Rest(all, front, a, b)
    ensures SimpleFirst(a) ==> Rest(all, front + [a[0]], a[1..], b)
    ensures !SimpleFirst(a) && SimpleFirst(b) ==> Rest(all, front, a, b[1..])
  {
    if SimpleFirst(a) {
      assert front + ([a[0]] + TakenIn(a[1..], b)) == front + [a[0]] + TakenIn(a[1..], b);
    }
  }

  lemma RestPair(all: seq<Stm>, front: seq<Stm>, a: seq<Stm>, b: seq<Stm>)
    requires Rest(all, front, a, b) && a != [] && b != [] && Rank(a[0]) > 0 && Rank(b[0]) > 0
    ensures ElifsFit(a[0], b[0]) && Rest(all, front + [MergeIf(a[0], b[0])], a[1..], b[1..])
  {
    assert front + ([MergeIf(a[0], b[0])] + TakenIn(a[1..], b[1..]))
        == front + [MergeIf(a[0], b[0])] + TakenIn(a[1..], b[1..]);
  }

  lemma RestEnd(all: seq<Stm>, front: seq<Stm>, a: seq<Stm>, b: seq<Stm>)
    requires Rest(all, front, a, b) && !SimpleFirst(a) && !SimpleFirst(b) && (a == [] || b == [])
    ensures all == front + a
  {
  }

  /**
    The list of the first process while merge_statements_vector runs on it: its ifs change in
    place.  The order of the steps is that of the nested loops of MergeStatementsVector.
  */
  method MergeInPlace(a: seq<Stm>, b: seq<Stm>) returns (kept: seq<Stm>)
    requires ElifsFitList(a, b)
    ensures kept == TakenIn(a, b)
  {
    kept := [];
    var i, j := 0, 0;
    ghost var all := TakenIn(a, b);
    while true
      invariant i <= |a| && j <= |b| && Rest(all, kept, a[i..], b[j..])
      decreases |a| - i + |b| - j
    {
      if i < |a| && Rank(a[i]) == 0 {
        Shift(a, i);
        RestSimple(all, kept, a[i..], b[j..]);
        kept, i := kept + [a[i]], i + 1;
      } else if j < |b| && Rank(b[j]) == 0 {
        Shift(b, j);
        RestSimple(all, kept, a[i..], b[j..]);
        j := j + 1;
      } else if i < |a| && j < |b| {
        Shift(a, i);
        Shift(b, j);
        RestPair(all, kept, a[i..], b[j..]);
        var merged, cleared := MergeOtherToThis(a[i], b[j]);
        kept, i, j := kept + [merged], i + 1, j + 1;
      } else {
        RestEnd(all, kept, a[i..], b[j..]);
        return kept + a[i..];
      }
    }
  }

  datatype Attempt = Success | Incompatible | Broken

  method TryToMerge(v: Version, procA: HwProcess, procB: HwProcess) returns (r: Attempt)
    requires procA != procB
    modifies procA
    ensures r.Incompatible? <==> !Compatible(v, old(procA.View()), procB.View())
    ensures r.Incompatible? ==> procA.View() == old(procA.View())
    ensures r.Broken? ==> !ElifsFitList(old(procA.statements), procB.statements)
    ensures r.Success? ==> ElifsFitList(old(procA.statements), procB.statements)
    ensures r.Success? ==> procA.View() == Merged(AsWritten, old(procA.View()), procB.View())
  {
    var a, b := procA.View(), procB.View();
    if TooSimple(a) || TooSimple(b) || Feeds(a, b) || Feeds(b, a) || !IsMergableList(v, a.statements, b.statements) {
      return Incompatible;
    }
    if !ElifsFitList(a.statements, b.statements) {
      return Broken;
    }
    procA.outputs := procA.outputs + procB.outputs;
    procA.inputs := procA.inputs + procB.inputs;
    procA.sensitivityList := procA.sensitivityList + procB.sensitivityList;
    var kept := MergeInPlace(procA.statements, procB.statements);
    procA.statements := kept;
    r := Success;
  }

  // ---------- The slots of a group ----------

  datatype Slot = Empty | Full(proc: Proc)

  ghost function Live(g: seq<Slot>): (r: seq<Proc>) {
    if g == [] then [] else (if g[0].Full? then [g[0].proc] else []) + Live(g[1..])
  }

  lemma {:induction false} LiveConcat(a: seq<Slot>, b: seq<Slot>)
    ensures Live(a + b) == Live(a) + Live(b)
  {
    if a == [] {
      assert a + b == b;
    } else {
      var head := if a[0].Full? then [a[0].proc] else [];
      assert (a + b)[1..] == a[1..] + b;
      LiveConcat(a[1..], b);
      assert head + (Live(a[1..]) + Live(b)) == (head + Live(a[1..])) + Live(b);
    }
  }

  lemma LiveStep(g: seq<Slot>, from: nat, k: nat)
    requires from <= k < |g|
    ensures Live(g[from..k + 1]) == Live(g[from..k]) + if g[k].Full? then [g[k].proc] else []
    ensures Live(g[k..]) == (if g[k].Full? then [g[k].proc] else []) + Live(g[k + 1..])
  {
    assert g[from..k + 1] == g[from..k] + [g[k]] && g[k..] == [g[k]] + g[k + 1..];
    LiveConcat(g[from..k], [g[k]]);
    LiveConcat([g[k]], g[k + 1..]);
    assert [g[k]][1..] == [];
    assert Live([g[k]]) == if g[k].Full? then [g[k].proc] else [];
  }

  ghost predicate Matches(slots: seq<HwProcess?>, g: seq<Slot>)
    reads set p: HwProcess | p in slots
  {
    && |slots| == |g|
    && forall k :: 0 <= k < |slots| ==>
         if slots[k] == null then g[k].Empty? else g[k] == Full(slots[k].View())
  }

  ghost predicate Apart(slots: seq<HwProcess?>) {
    forall i, k :: 0 <= i < k < |slots| && slots[i] != null ==> slots[i] != slots[k]
  }

  /** What is left of a sweep, `rest` having been passed over. */
  ghost predicate SweepGoesOn(all: Outcome<Swept>, rest: seq<Proc>, others: Outcome<Swept>) {
    && (all.Done? <==> others.Done?)
    && (all.Done? ==> all.value.proc == others.value.proc && all.value.rest == rest + others.value.rest)
  }

  /** How far the sweep of slot `iA` is, once it has gone past the slots before `iB`. */
  ghost predicate SweptTo(v: Version, all: Outcome<Swept>, g: seq<Slot>, iA: nat, iB: nat)
    requires iA < iB <= |g| && g[iA].Full?
  {
    SweepGoesOn(all, Live(g[iA + 1..iB]), Sweep(v, AsWritten, g[iA].proc, Live(g[iB..])))
  }

  lemma PassedOver(v: Version, all: Outcome<Swept>, rest: seq<Proc>, a: Proc, b: Proc, later: seq<Proc>)
    requires SweepGoesOn(all, rest, Sweep(v, AsWritten, a, [b] + later)) && !Compatible(v, a, b)
    ensures SweepGoesOn(all, rest + [b], Sweep(v, AsWritten, a, later))
  {
    assert ([b] + later)[1..] == later;
    var s := Sweep(v, AsWritten, a, later);
    if s.Done? {
      assert rest + ([b] + s.value.rest) == rest + [b] + s.value.rest;
    }
  }

  lemma SweptPast(v: Version, all: Outcome<Swept>, g: seq<Slot>, iA: nat, iB: nat)
    requires iA < iB < |g| && g[iA].Full? && SweptTo(v, all, g, iA, iB)
    requires g[iB].Full? ==> !Compatible(v, g[iA].proc, g[iB].proc)
    ensures SweptTo(v, all, g, iA, iB + 1)
  {
    LiveStep(g, iA + 1, iB);
    if g[iB].Full? {
      PassedOver(v, all, Live(g[iA + 1..iB]), g[iA].proc, g[iB].proc, Live(g[iB + 1..]));
    } else {
      assert Live(g[iB..]) == Live(g[iB + 1..]) && Live(g[iA + 1..iB + 1]) == Live(g[iA + 1..iB]);
    }
  }

  lemma TakenOver(v: Version, all: Outcome<Swept>, rest: seq<Proc>, a: Proc, b: Proc, later: seq<Proc>)
    requires SweepGoesOn(all, rest, Sweep(v, AsWritten, a, [b] + later)) && Compatible(v, a, b)
    ensures all.Done? ==> ElifsFitList(a.statements, b.statements)
    ensures ElifsFitList(a.statements, b.statements)
        ==> SweepGoesOn(all, rest, Sweep(v, AsWritten, Merged(AsWritten, a, b), later))
  {
    assert ([b] + later)[1..] == later;
  }

  lemma SweptTaken(v: Version, all: Outcome<Swept>, g: seq<Slot>, iA: nat, iB: nat)
    requires iA < iB < |g| && g[iA].Full? && SweptTo(v, all, g, iA, iB)
    requires g[iB].Full? && Compatible(v, g[iA].proc, g[iB].proc)
    ensures all.Done? ==> ElifsFitList(g[iA].proc.statements, g[iB].proc.statements)
    ensures ElifsFitList(g[iA].proc.statements, g[iB].proc.statements) ==>
      SweptTo(v, all, g[iA := Full(Merged(AsWritten, g[iA].proc, g[iB].proc))][iB := Empty], iA, iB + 1)
  {
    LiveStep(g, iA + 1, iB);
    TakenOver(v, all, Live(g[iA + 1..iB]), g[iA].proc, g[iB].proc, Live(g[iB + 1..]));
    if ElifsFitList(g[iA].proc.statements, g[iB].proc.statements) {
      var h := g[iA := Full(Merged(AsWritten, g[iA].proc, g[iB].proc))][iB := Empty];
      assert h[iA + 1..iB] == g[iA + 1..iB] && h[iB + 1..] == g[iB + 1..];
      LiveStep(h, iA + 1, iB);
    }
  }

  /** One attempt; on success the slot of the process taken in becomes null. */
  method TakeInOne(v: Version, slots: seq<HwProcess?>, ghost g: seq<Slot>, iA: nat, iB: nat)
    returns (slots': seq<HwProcess?>, ghost g': seq<Slot>, r: Attempt)
    requires iA < iB < |slots| && slots[iA] != null && slots[iB] != null && Apart(slots) && Matches(slots, g)
    modifies slots[iA]
    ensures r.Incompatible? <==> !Compatible(v, g[iA].proc, g[iB].proc)
    ensures r.Incompatible? ==> slots' == slots && g' == g && Matches(slots, g)
    ensures r.Broken? ==> !ElifsFitList(g[iA].proc.statements, g[iB].proc.statements)
    ensures r.Success? ==> ElifsFitList(g[iA].proc.statements, g[iB].proc.statements)
    ensures r.Success? ==> slots' == slots[iB := null] && Apart(slots') && Matches(slots', g')
    ensures r.Success? ==> g' == g[iA := Full(Merged(AsWritten, g[iA].proc, g[iB].proc))][iB := Empty]
  {
    slots', g' := slots, g;
    r := TryToMerge(v, slots[iA], slots[iB]);
    if r.Success? {
      slots' := slots[iB := null];
      g' := g[iA := Full(Merged(AsWritten, g[iA].proc, g[iB].proc))][iB := Empty];
    }
  }

  /** The slots of a group while slot `iA` is swept: the objects of `slots0`, some of them cleared. */
  ghost predicate Sweeping(slots0: seq<HwProcess?>, g0: seq<Slot>, slots: seq<HwProcess?>, g: seq<Slot>, iA: nat)
    requires iA < |slots0| == |g0|
    reads set p: HwProcess | p in slots
  {
    && |slots| == |slots0| && slots[iA] == slots0[iA] != null && Apart(slots) && Matches(slots, g)
        && g[..iA] == g0[..iA]
    && forall k :: 0 <= k < |slots| ==> slots[k] == slots0[k] || slots[k] == null
  }

  /** The sweep goes past one more slot, whatever is in it. */
  method NextSlot(v: Version, ghost slots0: seq<HwProcess?>, ghost g0: seq<Slot>, ghost all: Outcome<Swept>,
                  slots: seq<HwProcess?>, ghost g: seq<Slot>, iA: nat, iB: nat)
    returns (slots': seq<HwProcess?>, ghost g': seq<Slot>, ok: bool)
    requires iA < iB < |slots0| == |g0| && Sweeping(slots0, g0, slots, g, iA) && SweptTo(v, all, g, iA, iB)
    modifies slots[iA]
    ensures ok ==> Sweeping(slots0, g0, slots', g', iA) && SweptTo(v, all, g', iA, iB + 1)
    ensures !ok ==> !all.Done?
  {
    if slots[iB] == null {
      SweptPast(v, all, g, iA, iB);
      return slots, g, true;
    }
    var r;
    slots', g', r := TakeInOne(v, slots, g, iA, iB);
    if r.Incompatible? {
      SweptPast(v, all, g, iA, iB);
    } else {
      SweptTaken(v, all, g, iA, iB);
    }
    ok := !r.Broken?;
  }

  /** The inner loop over the later slots. */
  method SweepSlots(v: Version, ghost all: Outcome<Swept>, slots: seq<HwProcess?>, ghost g: seq<Slot>, iA: nat)
    returns (slots': seq<HwProcess?>, ghost g': seq<Slot>, ok: bool)
    requires iA < |slots| == |g| && Sweeping(slots, g, slots, g, iA) && SweptTo(v, all, g, iA, iA + 1)
    modifies slots[iA]
    ensures ok ==> Sweeping(slots, g, slots', g', iA) && SweptTo(v, all, g', iA, |slots|)
    ensures !ok ==> !all.Done?
  {
    slots', g', ok := slots, g, true;
    for iB := iA + 1 to |slots|
      invariant Sweeping(slots, g, slots', g', iA) && SweptTo(v, all, g', iA, iB)
    {
      slots', g', ok := NextSlot(v, slots, g, all, slots', g', iA, iB);
      if !ok {
        return;
      }
    }
  }

  /** One process takes in what it can of the later ones; their slots become null. */
  method TakeInLater(v: Version, slots: seq<HwProcess?>, ghost g: seq<Slot>, iA: nat)
    returns (slots': seq<HwProcess?>, ghost g': seq<Slot>, ok: bool)
    requires iA < |slots| && slots[iA] != null && Apart(slots) && Matches(slots, g)
    modifies slots[iA]
    ensures ok <==> Sweep(v, AsWritten, g[iA].proc, Live(g[iA + 1..])).Done?
    ensures ok ==> Sweeping(slots, g, slots', g', iA)
    ensures ok ==> var s := Sweep(v, AsWritten, g[iA].proc, Live(g[iA + 1..])).value;
      g'[iA] == Full(s.proc) && Live(g'[iA + 1..]) == s.rest
  {
    ghost var all := Sweep(v, AsWritten, g[iA].proc, Live(g[iA + 1..]));
    SweepStarts(v, g, iA);
    slots', g', ok := SweepSlots(v, all, slots, g, iA);
    if ok {
      SweptThrough(v, all, g', iA);
    }
  }

  lemma SweepStarts(v: Version, g: seq<Slot>, iA: nat)
    requires iA < |g| && g[iA].Full?
    ensures SweptTo(v, Sweep(v, AsWritten, g[iA].proc, Live(g[iA + 1..])), g, iA, iA + 1)
  {
    assert g[iA + 1..iA + 1] == [];
  }

  lemma SweptThrough(v: Version, all: Outcome<Swept>, g: seq<Slot>, iA: nat)
    requires iA < |g| && g[iA].Full? && SweptTo(v, all, g, iA, |g|)
    ensures all.Done? && g[iA] == Full(all.value.proc) && Live(g[iA + 1..]) == all.value.rest
  {
    assert g[iA + 1..|g|] == g[iA + 1..] && g[|g|..] == [];
    assert Live(g[iA + 1..]) + [] == Live(g[iA + 1..]);
  }

  // ---------- One group ----------

  ghost function Views(procs: seq<HwProcess>): (r: seq<Proc>)
    reads set p | p in procs
    ensures |r| == |procs| && forall i :: 0 <= i < |r| ==> r[i] == procs[i].View()
  {
    seq(|procs|, i requires 0 <= i < |procs| reads (set p | p in procs) => procs[i].View())
  }

  ghost function Filled(l: seq<Proc>): (g: seq<Slot>)
    ensures |g| == |l| && Live(g) == l && forall i :: 0 <= i < |l| ==> g[i] == Full(l[i])
  {
    if l == [] then [] else [Full(l[0])] + Filled(l[1..])
  }

  /** How far the reduction of a group is: survivors before `iA`, and what is left to do. */
  ghost predicate ReducedTo(v: Version, all: Outcome<seq<Proc>>, g: seq<Slot>, iA: nat)
    requires iA <= |g|
  {
    var others := ReduceGroup(v, AsWritten, Live(g[iA..]));
    (all.Done? <==> others.Done?) && (all.Done? ==> all.value == Live(g[..iA]) + others.value)
  }

  lemma ReducedPast(v: Version, all: Outcome<seq<Proc>>, g: seq<Slot>, iA: nat)
    requires iA < |g| && g[iA].Empty? && ReducedTo(v, all, g, iA)
    ensures ReducedTo(v, all, g, iA + 1)
  {
    LiveStep(g, 0, iA);
    assert g[0..iA] == g[..iA] && g[0..iA + 1] == g[..iA + 1];
    assert Live(g[iA..]) == Live(g[iA + 1..]) && Live(g[..iA + 1]) == Live(g[..iA]);
  }

  lemma ReducedSwept(v: Version, all: Outcome<seq<Proc>>, g: seq<Slot>, h: seq<Slot>, iA: nat)
    requires iA < |g| == |h| && g[iA].Full? && ReducedTo(v, all, g, iA)
    ensures all.Done? ==> Sweep(v, AsWritten, g[iA].proc, Live(g[iA + 1..])).Done?
    ensures var s := Sweep(v, AsWritten, g[iA].proc, Live(g[iA + 1..]));
      s.Done? && h[..iA] == g[..iA] && h[iA] == Full(s.value.proc) && Live(h[iA + 1..]) == s.value.rest
      ==> ReducedTo(v, all, h, iA + 1)
  {
    LiveStep(g, 0, iA);
    var later := Live(g[iA..]);
    assert later[0] == g[iA].proc && later[1..] == Live(g[iA + 1..]);
    var s := Sweep(v, AsWritten, g[iA].proc, Live(g[iA + 1..]));
    if s.Done? && h[..iA] == g[..iA] && h[iA] == Full(s.value.proc) && Live(h[iA + 1..]) == s.value.rest {
      LiveStep(h, 0, iA);
      assert h[0..iA] == g[..iA] && h[0..iA + 1] == h[..iA + 1];
      var r := ReduceGroup(v, AsWritten, s.value.rest);
      if r.Done? {
        assert Live(g[..iA]) + ([s.value.proc] + r.value) == Live(h[..iA + 1]) + r.value;
      }
    }
  }

  ghost predicate AllApart(procs: seq<HwProcess>) {
    forall i, k :: 0 <= i < k < |procs| ==> procs[i] != procs[k]
  }

  /** The slots of a group hold objects of the group. */
  ghost predicate Grouped(procs: seq<HwProcess>, slots: seq<HwProcess?>, g: seq<Slot>)
    reads set p: HwProcess | p in slots
  {
    && |slots| == |g| && Apart(slots) && Matches(slots, g)
    && forall k :: 0 <= k < |slots| && slots[k] != null ==> slots[k] in procs
  }

  /** One slot of the outer loop: nothing to do in a cleared one. */
  method ReduceSlot(v: Version, ghost procs: seq<HwProcess>, ghost all: Outcome<seq<Proc>>,
                    slots: seq<HwProcess?>, ghost g: seq<Slot>, iA: nat)
    returns (slots': seq<HwProcess?>, ghost g': seq<Slot>, ok: bool)
    requires iA < |slots| && Grouped(procs, slots, g) && ReducedTo(v, all, g, iA)
    modifies set p | p in procs
    ensures ok ==> |slots'| == |slots| && Grouped(procs, slots', g') && ReducedTo(v, all, g', iA + 1)
    ensures !ok ==> !all.Done?
  {
    if slots[iA] == null {
      ReducedPast(v, all, g, iA);
      return slots, g, true;
    }
    slots', g', ok := TakeInLater(v, slots, g, iA);
    ReducedSwept(v, all, g, if ok then g' else g, iA);
  }

  /** A whole group; the survivors are objects of the group, in its order. */
  method ReduceProcs(v: Version, procs: seq<HwProcess>) returns (res: seq<HwProcess>, ok: bool)
    requires AllApart(procs)
    modifies set p | p in procs
    ensures ok <==> ReduceGroup(v, AsWritten, old(Views(procs))).Done?
    ensures ok ==> Views(res) == ReduceGroup(v, AsWritten, old(Views(procs))).value
    ensures forall p :: p in res ==> p in procs
  {
    var slots: seq<HwProcess?> := procs;
    ghost var g := Filled(Views(procs));
    ghost var all := ReduceGroup(v, AsWritten, Views(procs));
    ok := true;
    assert g[0..] == g && g[..0] == [];
    for iA := 0 to |procs|
      invariant |slots| == |procs| && Grouped(procs, slots, g) && ReducedTo(v, all, g, iA)
    {
      slots, g, ok := ReduceSlot(v, procs, all, slots, g, iA);
      if !ok {
        return [], false;
      }
    }
    assert g[|procs|..] == [] && g[..|procs|] == g;
    res := Survivors(slots, g);
  }

  method Survivors(slots: seq<HwProcess?>, ghost g: seq<Slot>) returns (res: seq<HwProcess>)
    requires Matches(slots, g)
    ensures Views(res) == Live(g) && forall p :: p in res ==> p in slots
  {
    res := [];
    for i := 0 to |slots|
      invariant forall p :: p in res ==> p in slots
      invariant Views(res) == Live(g[0..i])
    {
      LiveStep(g, 0, i);
      if slots[i] != null {
        res := res + [slots[i]];
      }
    }
    assert g[0..|slots|] == g;
  }

  // ---------- All groups ----------

  function RankOf(p: HwProcess): nat {
    p.rank
  }

  function OfRank(procs: seq<HwProcess>, k: nat): seq<HwProcess> {
    OfKey(procs, RankOf, k)
  }

  function ProcRank(p: Proc): nat {
    p.rank
  }

  /** The processes of one rank, in order. */
  function GroupAt(procs: seq<Proc>, k: nat): seq<Proc> {
    OfKey(procs, ProcRank, k)
  }

  lemma {:induction false} OfRankApart(procs: seq<HwProcess>, k: nat)
    requires AllApart(procs)
    ensures AllApart(OfRank(procs, k))
  {
    if procs != [] {
      OfRankApart(procs[1..], k);
    }
  }

  /** The group of rank `k` can be reduced. */
  ghost predicate GroupDone(v: Version, procs: seq<Proc>, k: nat) {
    ReduceGroup(v, AsWritten, GroupAt(procs, k)).Done?
  }

  /** The group of rank `k` has been reduced to what `res` has of that rank. */
  ghost predicate GroupReduced(v: Version, before: seq<Proc>, res: seq<Proc>, k: nat) {
    ReduceGroup(v, AsWritten, GroupAt(before, k)) == Done(GroupAt(res, k))
  }

  /** Ranks never fall along the list. */
  predicate Ascending(procs: seq<Proc>) {
    forall i, j :: 0 <= i < j < |procs| ==> procs[i].rank <= procs[j].rank
  }

  /** Every group is reduced on its own, and the survivors stand in the order of their ranks. */
  ghost predicate Reduced(v: Version, before: seq<Proc>, res: seq<Proc>) {
    Ascending(res) && forall k: nat :: GroupReduced(v, before, res, k)
  }

  // ---------- What reducing every group keeps ----------

  /** Some process of the list has `x`. */
  ghost predicate AnyHas(procs: seq<Proc>, x: Entry) {
    exists i :: 0 <= i < |procs| && Has(procs[i], x)
  }

  /** Entries of a group are those of its survivors. */
  lemma GroupConserves(v: Version, procs: seq<Proc>, x: Entry)
    requires ReduceGroup(v, AsWritten, procs).Done?
    ensures AnyHas(ReduceGroup(v, AsWritten, procs).value, x) <==> AnyHas(procs, x)
  {
    var r := ReduceGroup(v, AsWritten, procs).value;
    if AnyHas(r, x) {
      var k :| 0 <= k < |r| && Has(r[k], x);
      EachEndsInOne(v, AsWritten, procs, k, x);
    }
    if AnyHas(procs, x) {
      var i :| 0 <= i < |procs| && Has(procs[i], x);
      EachEndsInOne(v, AsWritten, procs, Into(v, AsWritten, procs)[i], x);
    }
  }

  ghost predicate SameEntries(a: seq<Proc>, b: seq<Proc>) {
    forall x :: AnyHas(a, x) <==> AnyHas(b, x)
  }

  ghost predicate AllLoopFree(procs: seq<Proc>) {
    forall p :: p in procs ==> LoopFree(p)
  }

  /** A list has what its groups have. */
  lemma GroupsHave(procs: seq<Proc>, x: Entry)
    ensures AnyHas(procs, x) <==> exists k: nat :: AnyHas(GroupAt(procs, k), x)
  {
    if AnyHas(procs, x) {
      var i :| 0 <= i < |procs| && Has(procs[i], x);
      var g := GroupAt(procs, procs[i].rank);
      assert procs[i] in g;
      var j :| 0 <= j < |g| && g[j] == procs[i];
      assert AnyHas(g, x);
    }
    if k: nat :| AnyHas(GroupAt(procs, k), x) {
      var g := GroupAt(procs, k);
      var j :| 0 <= j < |g| && Has(g[j], x);
      assert g[j] in g;
      var i :| 0 <= i < |procs| && procs[i] == g[j];
    }
  }

  /** What the survivors list is what the processes listed. */
  lemma ReducedConserves(v: Version, before: seq<Proc>, res: seq<Proc>)
    requires Reduced(v, before, res)
    ensures SameEntries(res, before)
  {
    forall x ensures AnyHas(res, x) <==> AnyHas(before, x) {
      GroupsHave(res, x);
      GroupsHave(before, x);
      forall k: nat ensures AnyHas(GroupAt(res, k), x) <==> AnyHas(GroupAt(before, k), x) {
        assert GroupReduced(v, before, res, k);
        GroupConserves(v, GroupAt(before, k), x);
      }
    }
  }

  /** If no process was sensitive to its own output, no survivor is. */
  lemma ReducedLoopFree(v: Version, before: seq<Proc>, res: seq<Proc>)
    requires Reduced(v, before, res) && AllLoopFree(before)
    ensures AllLoopFree(res)
  {
    forall p | p in res ensures LoopFree(p) {
      assert p in GroupAt(res, p.rank) && GroupReduced(v, before, res, p.rank);
      ReduceLoopFree(v, AsWritten, GroupAt(before, p.rank));
    }
  }

  /** With the intended check, processes with proper else branches can always be reduced. */
  lemma ProcessesSucceed(procs: seq<Proc>, k: nat)
    requires ElseGivenAll(procs)
    ensures GroupDone(Intended, procs, k)
  {
    GroupSucceeds(AsWritten, GroupAt(procs, k));
  }

  // ---------- Rank by rank ----------

  /** Processes of the ranks `ranks` are still as they were in `before`. */
  ghost predicate Unchanged(procs: seq<HwProcess>, before: seq<Proc>, ranks: set<nat>)
    reads set p | p in procs
  {
    && |before| == |procs|
    && forall i :: 0 <= i < |procs| ==>
         before[i].rank == procs[i].rank && (procs[i].rank in ranks ==> before[i] == procs[i].View())
  }

  lemma {:induction false} GroupViews(procs: seq<HwProcess>, before: seq<Proc>, k: nat)
    requires Unchanged(procs, before, {k})
    ensures Views(OfRank(procs, k)) == GroupAt(before, k)
  {
    if procs != [] {
      GroupViews(procs[1..], before[1..], k);
      var rest := OfRank(procs[1..], k);
      assert before[0].rank == procs[0].rank && (procs[0].rank == k ==> before[0] == procs[0].View());
      if procs[0].rank == k {
        FrontView(procs[0], rest);
        assert OfRank(procs, k) == [procs[0]] + rest;
      } else {
        assert OfRank(procs, k) == rest && GroupAt(before, k) == GroupAt(before[1..], k);
      }
    }
  }

  lemma FrontView(p: HwProcess, rest: seq<HwProcess>)
    ensures Views([p] + rest) == [p.View()] + Views(rest)
  {
  }

  lemma JoinViews(a: seq<HwProcess>, b: seq<HwProcess>)
    ensures Views(a + b) == Views(a) + Views(b)
  {
  }

  /** The groups of the ranks `done` are reduced to `res`, which has nothing else. */
  ghost predicate RanksReduced(v: Version, before: seq<Proc>, res: seq<Proc>, done: set<nat>) {
    && Ascending(res) && (forall p :: p in res ==> p.rank in done)
    && forall k :: k in done ==> GroupReduced(v, before, res, k)
  }

  lemma {:induction false} GroupAtConcat(a: seq<Proc>, b: seq<Proc>, k: nat)
    ensures GroupAt(a + b, k) == GroupAt(a, k) + GroupAt(b, k)
  {
    if a == [] {
      assert a + b == b;
    } else {
      assert (a + b)[1..] == a[1..] + b;
      GroupAtConcat(a[1..], b, k);
    }
  }

  lemma {:induction false} GroupAtAll(procs: seq<Proc>, k: nat)
    ensures (forall p :: p in procs ==> p.rank == k) ==> GroupAt(procs, k) == procs
    ensures (forall p :: p in procs ==> p.rank != k) ==> GroupAt(procs, k) == []
  {
    if procs != [] {
      assert procs[0] in procs;
      GroupAtAll(procs[1..], k);
    }
  }

  lemma {:induction false} SweepRank(v: Version, a: Proc, later: seq<Proc>, k: nat)
    requires Sweep(v, AsWritten, a, later).Done? && a.rank == k && forall p :: p in later ==> p.rank == k
    ensures var s := Sweep(v, AsWritten, a, later).value; s.proc.rank == k && forall p :: p in s.rest ==> p.rank == k
    decreases |later|
  {
    if later != [] {
      assert later[0] in later;
      if Compatible(v, a, later[0]) {
        SweepRank(v, Merged(AsWritten, a, later[0]), later[1..], k);
      } else {
        SweepRank(v, a, later[1..], k);
      }
    }
  }

  lemma {:induction false} GroupRank(v: Version, procs: seq<Proc>, k: nat)
    requires ReduceGroup(v, AsWritten, procs).Done? && forall p :: p in procs ==> p.rank == k
    ensures forall p :: p in ReduceGroup(v, AsWritten, procs).value ==> p.rank == k
    decreases |procs|
  {
    if procs != [] {
      assert procs[0] in procs;
      SweepRank(v, procs[0], procs[1..], k);
      GroupRank(v, Sweep(v, AsWritten, procs[0], procs[1..]).value.rest, k);
    }
  }

  lemma AscendingMore(res: seq<Proc>, more: seq<Proc>, k: nat)
    requires Ascending(res) && (forall p :: p in res ==> p.rank < k) && forall p :: p in more ==> p.rank == k
    ensures Ascending(res + more)
  {
    forall i, j | 0 <= i < j < |res + more| ensures (res + more)[i].rank <= (res + more)[j].rank {
      if i < |res| <= j {
        assert res[i] in res && more[j - |res|] in more;
      } else if i >= |res| {
        assert more[i - |res|] in more && more[j - |res|] in more;
      }
    }
  }

  lemma GroupMore(v: Version, before: seq<Proc>, res: seq<Proc>, more: seq<Proc>, k: nat, j: nat)
    requires (forall p :: p in res ==> p.rank < k) && forall p :: p in more ==> p.rank == k
    requires ReduceGroup(v, AsWritten, GroupAt(before, k)) == Done(more)
    requires j == k || GroupReduced(v, before, res, j)
    ensures GroupReduced(v, before, res + more, j)
  {
    GroupAtConcat(res, more, j);
    if j == k {
      assert forall p :: p in res ==> p.rank != k;
      GroupAtAll(res, k);
      GroupAtAll(more, k);
      assert [] + more == more;
    } else {
      assert forall p :: p in more ==> p.rank != j;
      GroupAtAll(more, j);
      assert GroupAt(res, j) + [] == GroupAt(res, j);
    }
  }

  /** One more rank, higher than all before. */
  lemma OneMoreRank(v: Version, before: seq<Proc>, res: seq<Proc>, done: set<nat>, k: nat, more: seq<Proc>)
    requires RanksReduced(v, before, res, done) && AllBelow(done, {k})
    requires ReduceGroup(v, AsWritten, GroupAt(before, k)) == Done(more)
    ensures RanksReduced(v, before, res + more, done + {k})
  {
    GroupRank(v, GroupAt(before, k), k);
    AscendingMore(res, more, k);
    forall j | j in done + {k} ensures GroupReduced(v, before, res + more, j) {
      GroupMore(v, before, res, more, k, j);
    }
  }

  lemma AllRanksReduced(v: Version, before: seq<Proc>, res: seq<Proc>, all: set<nat>)
    requires RanksReduced(v, before, res, all) && forall p :: p in before ==> p.rank in all
    ensures Reduced(v, before, res)
  {
    forall k: nat ensures GroupReduced(v, before, res, k) {
      if k !in all {
        GroupAtAll(before, k);
        GroupAtAll(res, k);
      }
    }
  }

  /** Ranks already done are lower than those still to do. */
  predicate AllBelow(done: set<nat>, todo: set<nat>) {
    forall j, k :: j in done && k in todo ==> j < k
  }

  lemma AllBelowMore(all: set<nat>, todo: set<nat>, k: nat)
    requires k in todo && todo <= all && AllBelow(all - todo, todo) && forall j :: j in todo ==> k <= j
    ensures AllBelow(all - (todo - {k}), todo - {k}) && AllBelow(all - todo, {k})
  {
    forall i, j | i in all - (todo - {k}) && j in todo - {k} ensures i < j {
      assert i != k ==> i in all - todo;
    }
  }

  /** The ranks in `all` but not in `todo` are reduced to `res`, those of `todo` are as they were. */
  ghost predicate Progress(v: Version, processes: seq<HwProcess>, res: seq<HwProcess>, before: seq<Proc>,
                           all: set<nat>, todo: set<nat>)
    reads set p | p in processes, set p | p in res
  {
    && todo <= all && AllBelow(all - todo, todo)
    && Unchanged(processes, before, todo) && RanksReduced(v, before, Views(res), all - todo)
    && forall p :: p in res ==> p in processes && p.rank !in todo
  }

  /** After one more rank: its group reduced to `more`, the ranks before and after it untouched. */
  lemma NextProgress(v: Version, processes: seq<HwProcess>, res: seq<HwProcess>, more: seq<HwProcess>, k: nat,
                     before: seq<Proc>, all: set<nat>, todo: set<nat>)
    requires k in todo && todo <= all && (forall j :: j in todo ==> k <= j)
    requires AllBelow(all - todo, todo)
    requires Unchanged(processes, before, todo - {k}) && RanksReduced(v, before, Views(res), all - todo)
    requires ReduceGroup(v, AsWritten, GroupAt(before, k)) == Done(Views(more))
    requires forall p :: p in res ==> p in processes && p.rank !in todo
    requires forall p :: p in more ==> p in processes && p.rank == k
    ensures Progress(v, processes, res + more, before, all, todo - {k})
  {
    OneMoreDone(all, todo, k);
    AllBelowMore(all, todo, k);
    OneMoreRank(v, before, Views(res), all - todo, k, Views(more));
    JoinViews(res, more);
  }

  /** One more rank; the processes of other ranks are not touched. */
  method NextRank(v: Version, processes: seq<HwProcess>, res: seq<HwProcess>, k: nat,
                  ghost before: seq<Proc>, ghost all: set<nat>, ghost todo: set<nat>)
    returns (res': seq<HwProcess>, ok: bool)
    requires AllApart(processes) && Progress(v, processes, res, before, all, todo)
    requires k in todo && forall j :: j in todo ==> k <= j
    modifies set p | p in processes
    ensures ok <==> GroupDone(v, before, k)
    ensures ok ==> Progress(v, processes, res', before, all, todo - {k})
  {
    var group := OfRank(processes, k);
    OfRankApart(processes, k);
    GroupViews(processes, before, k);
    ghost var was := Views(res);
    var more;
    more, ok := ReduceProcs(v, group);
    res' := res + more;
    if ok {
      SameViews(res, was);
      NextProgress(v, processes, res, more, k, before, all, todo);
    }
  }

  lemma SameViews(res: seq<HwProcess>, was: seq<Proc>)
    requires |was| == |res| && forall i :: 0 <= i < |res| ==> res[i].View() == was[i]
    ensures Views(res) == was
  {
  }

  /** The loop over the groups, by ascending rank. */
  method ReduceRanks(v: Version, processes: seq<HwProcess>, ranks: set<nat>, ghost before: seq<Proc>)
    returns (res: seq<HwProcess>, ok: bool)
    requires AllApart(processes) && before == Views(processes)
    modifies set p | p in processes
    ensures ok ==> Progress(v, processes, res, before, ranks, {})
    ensures !ok ==> exists k: nat :: !GroupDone(v, before, k)
  {
    var todo := ranks;
    res, ok := [], true;
    Start(v, processes, before, todo);
    while todo != {}
      invariant Progress(v, processes, res, before, ranks, todo)
      decreases |todo|
    {
      var k := Least(todo);
      res, ok := NextRank(v, processes, res, k, before, ranks, todo);
      if !ok {
        return [], false;
      }
      todo := todo - {k};
    }
  }

  /**
    All groups.  The reduction succeeds exactly when that of every group does, and it always does
    for the intended check; each group becomes its own reduction, nothing its processes listed is
    lost or invented, and no process becomes sensitive to its own output.
  */
  method ReduceProcesses(v: Version, processes: seq<HwProcess>) returns (res: seq<HwProcess>, ok: bool)
    requires AllApart(processes)
    modifies set p | p in processes
    ensures ok <==> forall k: nat :: GroupDone(v, old(Views(processes)), k)
    ensures v.Intended? && ElseGivenAll(old(Views(processes))) ==> ok
    ensures ok ==> Reduced(v, old(Views(processes)), Views(res))
    ensures ok ==> SameEntries(Views(res), old(Views(processes)))
    ensures ok && AllLoopFree(old(Views(processes))) ==> AllLoopFree(Views(res))
    ensures ok ==> forall p :: p in res ==> p in processes
  {
    ghost var before := Views(processes);
    var m := GroupedBy(processes, RankOf);
    res, ok := ReduceRanks(v, processes, m.Keys, before);
    if ok {
      Finish(v, processes, before, m.Keys, res);
    } else if v.Intended? && ElseGivenAll(before) {
      forall k: nat {
        ProcessesSucceed(before, k);
      }
    }
  }

  lemma Start(v: Version, processes: seq<HwProcess>, before: seq<Proc>, all: set<nat>)
    requires before == Views(processes)
    ensures Progress(v, processes, [], before, all, all)
  {
  }

  lemma Finish(v: Version, processes: seq<HwProcess>, before: seq<Proc>, all: set<nat>, res: seq<HwProcess>)
    requires Progress(v, processes, res, before, all, {}) && forall p :: p in processes ==> p.rank in all
    ensures forall k: nat :: GroupDone(v, before, k)
    ensures Reduced(v, before, Views(res)) && SameEntries(Views(res), before)
    ensures AllLoopFree(before) ==> AllLoopFree(Views(res))
    ensures forall p :: p in res ==> p in processes
  {
    assert all - {} == all;
    forall p | p in before ensures p.rank in all {
      var i :| 0 <= i < |before| && before[i] == p;
      assert processes[i] in processes;
    }
    AllRanksReduced(v, before, Views(res), all);
    ReducedConserves(v, before, Views(res));
    if AllLoopFree(before) {
      ReducedLoopFree(v, before, Views(res));
    }
    forall k: nat ensures GroupDone(v, before, k) {
      assert GroupReduced(v, before, Views(res), k);
    }
  }
}
