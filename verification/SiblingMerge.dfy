/**
  merge_statements (reduce_statement.cpp) over a whole list: the siblings are grouped by rank,
  every group is run by loops of its own, and what is left of all groups is sorted by position.
  That is the same as every statement taking in the later ones of its rank in one go.
*/
module SiblingMerge {
  import opened Lists
  import opened Statements
  import opened StructuralCmp
  import opened StructuralCompatible
  import opened Merging
  import opened Reduce
  import opened SiblingGroup

  // ---------- The list as one vector of slots ----------

  function Filled(l: seq<Stm>): (r: seq<Slot>)
    ensures |r| == |l| && forall i :: 0 <= i < |l| ==> r[i] == Holding(l[i])
  {
    seq(|l|, i requires 0 <= i < |l| => Holding(l[i]))
  }

  function Ranks(l: seq<Stm>): (r: seq<nat>)
    ensures |r| == |l| && forall i :: 0 <= i < |l| ==> r[i] == Rank(l[i])
  {
    seq(|l|, i requires 0 <= i < |l| => Rank(l[i]))
  }

  /** What a slot holds has the rank noted for its position. */
  predicate Fits(ranks: seq<nat>, slots: seq<Slot>) {
    |ranks| == |slots| && forall i :: 0 <= i < |slots| && slots[i].Holding? ==> Rank(slots[i].stm) == ranks[i]
  }

  /** The slots at the positions of one rank, in order. */
  function Pick(ranks: seq<nat>, slots: seq<Slot>, k: nat): (r: seq<Slot>)
    requires Fits(ranks, slots)
    ensures AllRank(r, k)
    decreases |slots|
  {
    if slots == [] then [] else (if ranks[0] == k then [slots[0]] else []) + Pick(ranks[1..], slots[1..], k)
  }

  /** The positions of one rank, counted from `start`. */
  function Places(ranks: seq<nat>, k: nat, start: nat): seq<nat> {
    if ranks == [] then [] else (if ranks[0] == k then [start] else []) + Places(ranks[1..], k, start + 1)
  }

  /** One statement takes in the later ones of its rank, wherever they are in the vector. */
  function WholeRow(v: Version, a: Stm, slots: seq<Slot>): (r: Outcome<(Stm, seq<Slot>)>)
    requires Rank(a) > 0
    ensures r.Done? ==> |r.value.1| == |slots| && Rank(r.value.0) == Rank(a)
    decreases |slots|
  {
    if slots == [] then Done((a, []))
    else if slots[0].Holding? && Rank(slots[0].stm) == Rank(a) && IsMergable(v, a, slots[0].stm) then
      if !ElifsFit(a, slots[0].stm) then Failed(OutOfRange) else
        var r :- WholeRow(v, MergeIf(a, slots[0].stm), slots[1..]);
        Done((r.0, [Cleared] + r.1))
    else
      var r :- WholeRow(v, a, slots[1..]);
      Done((r.0, [slots[0]] + r.1))
  }

  function WholeRun(v: Version, slots: seq<Slot>): (r: Outcome<seq<Slot>>)
    ensures r.Done? ==> |r.value| == |slots|
    decreases |slots|
  {
    if slots == [] then Done([])
    else if slots[0].Cleared? || Rank(slots[0].stm) == 0 then
      var r :- WholeRun(v, slots[1..]);
      Done([slots[0]] + r)
    else
      var row :- WholeRow(v, slots[0].stm, slots[1..]);
      var r :- WholeRun(v, row.1);
      Done([Holding(row.0)] + r)
  }

  lemma {:induction false} WholeRowAbsorbs(v: Version, a: Stm, slots: seq<Slot>)
    requires Rank(a) > 0
    ensures match WholeRow(v, a, slots)
      case Done(r) => && Absorb(v, a, Live(slots)).Done?
                      && var b := Absorb(v, a, Live(slots)).value;
                         b.stm == r.0 && b.rest == Live(r.1) && RankSum(b.rest) + b.decrease == RankSum(Live(slots))
      case Failed(why) => Absorb(v, a, Live(slots)) == Failed(why) && why == OutOfRange
    decreases |slots|
  {
    if slots != [] {
      if slots[0].Holding? && Rank(slots[0].stm) == Rank(a) && IsMergable(v, a, slots[0].stm) {
        if ElifsFit(a, slots[0].stm) {
          WholeRowAbsorbs(v, MergeIf(a, slots[0].stm), slots[1..]);
        }
      } else {
        WholeRowAbsorbs(v, a, slots[1..]);
      }
    }
  }

  lemma {:induction false} WholeMerges(v: Version, slots: seq<Slot>)
    ensures match WholeRun(v, slots)
      case Done(s) => && MergeStatements(v, Live(slots)).Done?
                      && var m := MergeStatements(v, Live(slots)).value;
                         m.list == Live(s) && RankSum(m.list) + m.decrease == RankSum(Live(slots))
      case Failed(why) => MergeStatements(v, Live(slots)) == Failed(why) && why == OutOfRange
    decreases |slots|
  {
    if slots != [] {
      if slots[0].Cleared? || Rank(slots[0].stm) == 0 {
        WholeMerges(v, slots[1..]);
      } else {
        WholeRowAbsorbs(v, slots[0].stm, slots[1..]);
        var row := WholeRow(v, slots[0].stm, slots[1..]);
        if row.Done? {
          WholeMerges(v, row.value.1);
        }
      }
    }
  }

  // ---------- A group is what the vector holds at the positions of its rank ----------

  lemma PickCons(rank: nat, ranks: seq<nat>, slot: Slot, slots: seq<Slot>, k: nat)
    requires Fits(ranks, slots) && (slot.Holding? ==> Rank(slot.stm) == rank)
    ensures Fits([rank] + ranks, [slot] + slots)
    ensures Pick([rank] + ranks, [slot] + slots, k)
         == if rank == k then [slot] + Pick(ranks, slots, k) else Pick(ranks, slots, k)
  {
    assert ([rank] + ranks)[1..] == ranks && ([slot] + slots)[1..] == slots;
  }

  /** A row over one more slot in front. */
  lemma RowCons(v: Version, a: Stm, self: nat, slot: Slot, slots: seq<Slot>, at: nat)
    requires Rank(a) > 0 && self < at
    ensures var merges := slot.Holding? && IsMergable(v, a, slot.stm);
      var r := RunRow(v, a, self, [slot] + slots, at);
      if merges && !ElifsFit(a, slot.stm) then r.Failed? else
        var next := RunRow(v, if merges then MergeIf(a, slot.stm) else a, self, slots, at + 1);
        if next.Failed? then r.Failed? else
          && r.Done? && r.value.stm == next.value.stm
          && r.value.slots == [if merges then Cleared else slot] + next.value.slots
  {
    assert ([slot] + slots)[1..] == slots;
  }

  /** A row of the vector is a row of the group of its rank, and leaves the other groups alone. */
  lemma {:induction false} RowOfPick(v: Version, a: Stm, ranks: seq<nat>, slots: seq<Slot>, k: nat, self: nat, at: nat)
    requires Rank(a) > 0 && Fits(ranks, slots) && self < at
    ensures match WholeRow(v, a, slots)
      case Done(r) =>
        && Fits(ranks, r.1)
        && (k != Rank(a) ==> Pick(ranks, r.1, k) == Pick(ranks, slots, k))
        && (k == Rank(a) ==>
             var row := RunRow(v, a, self, Pick(ranks, slots, k), at);
             row.Done? && row.value.stm == r.0 && row.value.slots == Pick(ranks, r.1, k))
      case Failed(why) => k == Rank(a) ==> RunRow(v, a, self, Pick(ranks, slots, k), at).Failed?
    decreases |slots|
  {
    if slots != [] {
      var rank, slot, others, rest := ranks[0], slots[0], ranks[1..], slots[1..];
      assert ranks == [rank] + others && slots == [slot] + rest;
      var merges := slot.Holding? && Rank(slot.stm) == Rank(a) && IsMergable(v, a, slot.stm);
      PickCons(rank, others, slot, rest, k);
      if rank == k == Rank(a) {
        RowCons(v, a, self, slot, Pick(others, rest, k), at);
      }
      if !merges || ElifsFit(a, slot.stm) {
        var a' := if merges then MergeIf(a, slot.stm) else a;
        RowOfPick(v, a', others, rest, k, self, if rank == Rank(a) then at + 1 else at);
        var next := WholeRow(v, a', rest);
        if next.Done? {
          PickCons(rank, others, if merges then Cleared else slot, next.value.1, k);
        }
      }
    }
  }

  /** A group over one more slot in front. */
  lemma GroupCons(v: Version, rank: nat, slot: Slot, slots: seq<Slot>, at: nat)
    requires rank > 0 && AllRank(slots, rank) && (slot.Holding? ==> Rank(slot.stm) == rank)
    ensures AllRank([slot] + slots, rank)
    ensures var g := RunGroup(v, rank, [slot] + slots, at);
      if slot.Cleared? then
        var next := RunGroup(v, rank, slots, at + 1);
        if next.Failed? then g.Failed? else g.Done? && g.value.slots == [Cleared] + next.value.slots
      else
        var row := RunRow(v, slot.stm, at, slots, at + 1);
        if row.Failed? then g.Failed? else
          && AllRank(row.value.slots, rank)
          && var next := RunGroup(v, rank, row.value.slots, at + 1);
             if next.Failed? then g.Failed? else g.Done? && g.value.slots == [Holding(row.value.stm)] + next.value.slots
  {
    assert ([slot] + slots)[1..] == slots;
    if slot.Holding? {
      var row := RunRow(v, slot.stm, at, slots, at + 1);
      if row.Done? {
        RowKeepsRank(v, rank, slot.stm, at, slots, at + 1);
      }
    }
  }

  lemma {:induction false} RunOfPick(v: Version, ranks: seq<nat>, slots: seq<Slot>, k: nat, at: nat)
    requires Fits(ranks, slots) && WholeRun(v, slots).Done?
    ensures var s := WholeRun(v, slots).value;
      && Fits(ranks, s)
      && (k == 0 ==> Pick(ranks, s, k) == Pick(ranks, slots, k))
      && (k > 0 ==>
           var g := RunGroup(v, k, Pick(ranks, slots, k), at); g.Done? && g.value.slots == Pick(ranks, s, k))
    decreases |slots|
  {
    if slots != [] {
      var rank, slot, others, rest := ranks[0], slots[0], ranks[1..], slots[1..];
      assert ranks == [rank] + others && slots == [slot] + rest;
      PickCons(rank, others, slot, rest, k);
      if rank == k > 0 {
        GroupCons(v, k, slot, Pick(others, rest, k), at);
      }
      var next := if rank == k then at + 1 else at;
      if slot.Cleared? || Rank(slot.stm) == 0 {
        RunOfPick(v, others, rest, k, next);
        PickCons(rank, others, slot, WholeRun(v, rest).value, k);
      } else {
        var row := WholeRow(v, slot.stm, rest).value;
        RowOfPick(v, slot.stm, others, rest, k, at, at + 1);
        RunOfPick(v, others, row.1, k, next);
        PickCons(rank, others, Holding(row.0), WholeRun(v, row.1).value, k);
      }
    }
  }

  /** When the vector cannot be run, some group cannot. */
  lemma {:induction false} RunOfPickFails(v: Version, ranks: seq<nat>, slots: seq<Slot>) returns (k: nat)
    requires Fits(ranks, slots) && WholeRun(v, slots).Failed?
    ensures k > 0 && forall at: nat :: RunGroup(v, k, Pick(ranks, slots, k), at).Failed?
    decreases |slots|
  {
    var rank, slot, others, rest := ranks[0], slots[0], ranks[1..], slots[1..];
    assert ranks == [rank] + others && slots == [slot] + rest;
    if slot.Cleared? || Rank(slot.stm) == 0 {
      k := RunOfPickFails(v, others, rest);
    } else {
      var row := WholeRow(v, slot.stm, rest);
      k := rank;
      if row.Done? {
        RowOfPick(v, slot.stm, others, rest, rank, 0, 1);
        k := RunOfPickFails(v, others, row.value.1);
      }
    }
    PickCons(rank, others, slot, rest, k);
    forall at: nat ensures RunGroup(v, k, Pick(ranks, slots, k), at).Failed? {
      if slot.Holding? && rank > 0 {
        RowOfPick(v, slot.stm, others, rest, k, at, at + 1);
      }
      if rank == k {
        GroupCons(v, k, slot, Pick(others, rest, k), at);
      }
    }
  }

  // ---------- Survivors and their order ----------

  /** A statement and its position in the list. */
  datatype Placed = Placed(at: nat, stm: Stm)

  /** What is left in the slots of a group, with the positions the group has. */
  function Survivors(places: seq<nat>, slots: seq<Slot>): seq<Placed>
    requires |places| == |slots|
  {
    if slots == [] then []
    else (if slots[0].Holding? then [Placed(places[0], slots[0].stm)] else []) + Survivors(places[1..], slots[1..])
  }

  /** What is left in the whole vector. */
  function Standing(slots: seq<Slot>, start: nat): (r: seq<Placed>)
    ensures Ordered(r) && forall x :: x in r ==> start <= x.at
    decreases |slots|
  {
    if slots == [] then []
    else (if slots[0].Holding? then [Placed(start, slots[0].stm)] else []) + Standing(slots[1..], start + 1)
  }

  predicate Ordered(r: seq<Placed>) {
    forall i, j :: 0 <= i < j < |r| ==> r[i].at < r[j].at
  }

  function Stms(r: seq<Placed>): seq<Stm> {
    if r == [] then [] else [r[0].stm] + Stms(r[1..])
  }

  /** The slot at a position still holds the statement. */
  predicate StandsAt(slots: seq<Slot>, start: nat, x: Placed) {
    start <= x.at < start + |slots| && slots[x.at - start] == Holding(x.stm)
  }

  lemma StandsCons(slot: Slot, slots: seq<Slot>, start: nat, x: Placed)
    ensures StandsAt([slot] + slots, start, x)
       <==> (x.at == start && slot == Holding(x.stm)) || StandsAt(slots, start + 1, x)
  {
    assert x.at > start && x.at - start - 1 < |slots| ==> ([slot] + slots)[x.at - start] == slots[x.at - start - 1];
  }

  lemma {:induction false} StandingLive(slots: seq<Slot>, start: nat)
    ensures Stms(Standing(slots, start)) == Live(slots)
    decreases |slots|
  {
    if slots != [] {
      StandingLive(slots[1..], start + 1);
      var rest := Standing(slots[1..], start + 1);
      if slots[0].Holding? {
        assert ([Placed(start, slots[0].stm)] + rest)[1..] == rest;
      } else {
        assert [] + rest == rest;
      }
    }
  }

  lemma {:induction false} StandingStands(slots: seq<Slot>, start: nat, x: Placed)
    ensures x in Standing(slots, start) <==> StandsAt(slots, start, x)
    decreases |slots|
  {
    if slots != [] {
      assert slots == [slots[0]] + slots[1..];
      StandsCons(slots[0], slots[1..], start, x);
      StandingStands(slots[1..], start + 1, x);
    }
  }

  lemma SurvivorsCons(place: nat, places: seq<nat>, slot: Slot, slots: seq<Slot>)
    requires |places| == |slots|
    ensures Survivors([place] + places, [slot] + slots)
         == (if slot.Holding? then [Placed(place, slot.stm)] else []) + Survivors(places, slots)
  {
    assert ([place] + places)[1..] == places && ([slot] + slots)[1..] == slots;
  }

  /** The survivors of one rank: its group's slots, with the group's positions. */
  function LeftOf(ranks: seq<nat>, slots: seq<Slot>, k: nat, start: nat): seq<Placed>
    requires Fits(ranks, slots)
  {
    PlacesMatch(ranks, slots, k, start);
    Survivors(Places(ranks, k, start), Pick(ranks, slots, k))
  }

  lemma {:induction false} PlacesMatch(ranks: seq<nat>, slots: seq<Slot>, k: nat, start: nat)
    requires Fits(ranks, slots)
    ensures |Places(ranks, k, start)| == |Pick(ranks, slots, k)|
    decreases |slots|
  {
    if slots != [] {
      PlacesMatch(ranks[1..], slots[1..], k, start + 1);
    }
  }

  lemma LeftOfCons(ranks: seq<nat>, slots: seq<Slot>, k: nat, start: nat)
    requires Fits(ranks, slots) && slots != []
    ensures LeftOf(ranks, slots, k, start)
         == (if ranks[0] == k && slots[0].Holding? then [Placed(start, slots[0].stm)] else [])
            + LeftOf(ranks[1..], slots[1..], k, start + 1)
  {
    PlacesMatch(ranks[1..], slots[1..], k, start + 1);
    assert [] + LeftOf(ranks[1..], slots[1..], k, start + 1) == LeftOf(ranks[1..], slots[1..], k, start + 1);
    if ranks[0] != k {
      assert Pick(ranks, slots, k) == Pick(ranks[1..], slots[1..], k);
      assert Places(ranks, k, start) == Places(ranks[1..], k, start + 1);
    } else {
      SurvivorsCons(start, Places(ranks[1..], k, start + 1), slots[0], Pick(ranks[1..], slots[1..], k));
    }
  }

  lemma {:induction false} LeftOfRank(ranks: seq<nat>, slots: seq<Slot>, k: nat, start: nat, x: Placed)
    requires Fits(ranks, slots)
    ensures x in LeftOf(ranks, slots, k, start) <==> StandsAt(slots, start, x) && ranks[x.at - start] == k
    decreases |slots|
  {
    if slots != [] {
      assert slots == [slots[0]] + slots[1..];
      StandsCons(slots[0], slots[1..], start, x);
      LeftOfCons(ranks, slots, k, start);
      LeftOfRank(ranks[1..], slots[1..], k, start + 1, x);
    }
  }

  lemma FirstIsIn(s: seq<Placed>)
    requires s != []
    ensures s[0] in s
  {
  }

  /** Two lists in order of position with the same elements are equal. */
  lemma {:induction false} OrderDecides(r: seq<Placed>, s: seq<Placed>)
    requires Ordered(r) && Ordered(s) && forall x :: x in r <==> x in s
    ensures r == s
    decreases |r|
  {
    if r == [] {
      if s != [] {
        FirstIsIn(s);
        assert false;
      }
    } else {
      assert r[0] in s;
      assert s[0] in r;
      assert r[0] == s[0];
      forall x ensures x in r[1..] <==> x in s[1..] {
        assert x in r <==> x == r[0] || x in r[1..];
        assert x in s <==> x == s[0] || x in s[1..];
        assert x in r[1..] ==> x.at > r[0].at;
        assert x in s[1..] ==> x.at > s[0].at;
      }
      OrderDecides(r[1..], s[1..]);
      assert r == [r[0]] + r[1..] && s == [s[0]] + s[1..];
    }
  }

  // ---------- Groups, then sorting ----------

  /** What the loops of one rank group end with. */
  function OneGroup(v: Version, l: seq<Stm>, k: nat): (r: Outcome<Group>)
    requires k > 0
    ensures r.Done? ==> |r.value.slots| == |Pick(Ranks(l), Filled(l), k)|
  {
    RunGroup(v, k, Pick(Ranks(l), Filled(l), k), 0)
  }

  /** A statement is left by the group of its position; the group of rank zero is copied. */
  ghost predicate LeftByGroup(v: Version, l: seq<Stm>, x: Placed) {
    && x.at < |l|
    && if Rank(l[x.at]) == 0 then x.stm == l[x.at] else InGroup(v, l, Rank(l[x.at]), x)
  }

  ghost predicate InGroup(v: Version, l: seq<Stm>, k: nat, x: Placed)
    requires k > 0
  {
    var g := OneGroup(v, l, k);
    && g.Done?
    && |Places(Ranks(l), k, 0)| == |g.value.slots|
    && x in Survivors(Places(Ranks(l), k, 0), g.value.slots)
  }

  /** Merging the list succeeds exactly when the loops of every rank group do. */
  lemma AllGroupsDone(v: Version, l: seq<Stm>)
    ensures MergeStatements(v, l).Done? <==> forall k: nat :: k > 0 ==> OneGroup(v, l, k).Done?
    ensures MergeStatements(v, l).Failed? ==> MergeStatements(v, l).why == OutOfRange
  {
    LiveFilled(l);
    WholeMerges(v, Filled(l));
    if WholeRun(v, Filled(l)).Done? {
      forall k: nat | k > 0 ensures OneGroup(v, l, k).Done? {
        RunOfPick(v, Ranks(l), Filled(l), k, 0);
      }
    } else {
      var k := RunOfPickFails(v, Ranks(l), Filled(l));
      assert OneGroup(v, l, k).Failed?;
    }
  }

  lemma {:induction false} LiveFilled(l: seq<Stm>)
    ensures Live(Filled(l)) == l
  {
    if l != [] {
      assert Filled(l)[1..] == Filled(l[1..]);
      LiveFilled(l[1..]);
    }
  }

  lemma InGroupStands(v: Version, l: seq<Stm>, k: nat, x: Placed)
    requires k > 0 && WholeRun(v, Filled(l)).Done?
    ensures InGroup(v, l, k, x) <==> StandsAt(WholeRun(v, Filled(l)).value, 0, x) && Rank(l[x.at]) == k
  {
    var s := WholeRun(v, Filled(l)).value;
    RunOfPick(v, Ranks(l), Filled(l), k, 0);
    PlacesMatch(Ranks(l), s, k, 0);
    LeftOfRank(Ranks(l), s, k, 0, x);
  }

  lemma SimpleStands(v: Version, l: seq<Stm>, x: Placed)
    requires WholeRun(v, Filled(l)).Done? && x.at < |l| && Rank(l[x.at]) == 0
    ensures x.stm == l[x.at] <==> StandsAt(WholeRun(v, Filled(l)).value, 0, x)
  {
    var s := WholeRun(v, Filled(l)).value;
    RunOfPick(v, Ranks(l), Filled(l), 0, 0);
    LeftOfRank(Ranks(l), s, 0, 0, x);
    LeftOfRank(Ranks(l), Filled(l), 0, 0, x);
  }

  lemma LeftStands(v: Version, l: seq<Stm>, x: Placed)
    requires WholeRun(v, Filled(l)).Done?
    ensures LeftByGroup(v, l, x) <==> StandsAt(WholeRun(v, Filled(l)).value, 0, x)
  {
    if x.at < |l| {
      if Rank(l[x.at]) == 0 {
        SimpleStands(v, l, x);
      } else {
        InGroupStands(v, l, Rank(l[x.at]), x);
      }
    }
  }

  /** The survivors of all groups, in order of position, are the merged list. */
  lemma GroupsSorted(v: Version, l: seq<Stm>, r: seq<Placed>)
    requires MergeStatements(v, l).Done?
    requires Ordered(r) && forall x :: x in r <==> LeftByGroup(v, l, x)
    ensures MergeStatements(v, l).value.list == Stms(r)
  {
    LiveFilled(l);
    WholeMerges(v, Filled(l));
    var s := WholeRun(v, Filled(l)).value;
    StandingLive(s, 0);
    forall x ensures x in r <==> x in Standing(s, 0) {
      StandingStands(s, 0, x);
      LeftStands(v, l, x);
    }
    OrderDecides(r, Standing(s, 0));
  }

  // ---------- The loops ----------

  function GroupInFront(done: seq<Slot>, pushes: seq<nat>, others: Outcome<Group>): Outcome<Group> {
    if others.Done? then Done(Group(done + others.value.slots, pushes + others.value.pushes)) else others
  }

  lemma GroupStep(done: seq<Slot>, pushes: seq<nat>, slot: Slot, pushed: seq<nat>, others: Outcome<Group>)
    ensures GroupInFront([], [], others) == others
    ensures GroupInFront(done, pushes, GroupInFront([slot], pushed, others))
         == GroupInFront(done + [slot], pushes + pushed, others)
  {
    if others.Done? {
      assert [] + others.value.slots == others.value.slots && [] + others.value.pushes == others.value.pushes;
      assert done + ([slot] + others.value.slots) == done + [slot] + others.value.slots;
      assert pushes + (pushed + others.value.pushes) == pushes + pushed + others.value.pushes;
    }
  }

  /** The outer loop over one group of siblings: a row for every slot that is not cleared yet. */
  method RunLoops(v: Version, rank: nat, stms: seq<Slot>) returns (r: Outcome<Group>, rankDecrease: nat)
    requires rank > 0 && AllRank(stms, rank)
    ensures r == RunGroup(v, rank, stms, 0)
    ensures r.Done? ==> LiveRank(r.value.slots) + rankDecrease == LiveRank(stms)
  {
    var done, rest, pushes: seq<nat> := [], stms, [];
    rankDecrease := 0;
    GroupStep([], [], Cleared, [], RunGroup(v, rank, stms, 0));
    while rest != []
      invariant AllRank(rest, rank) && |done| + |rest| == |stms|
      invariant RunGroup(v, rank, stms, 0) == GroupInFront(done, pushes, RunGroup(v, rank, rest, |done|))
      invariant LiveRank(done) + LiveRank(rest) + rankDecrease == LiveRank(stms)
      decreases |rest|
    {
      var at, slot, later, pushed: seq<nat> := |done|, rest[0], rest[1..], [];
      assert rest == [slot] + later;
      LiveRankOne(slot, later);
      if slot.Holding? {
        var row, taken := CompareWithLater(v, slot.stm, at, later, at + 1);
        if row.Failed? {
          return Failed(row.why), 0;
        }
        RowKeepsRank(v, rank, slot.stm, at, later, at + 1);
        slot, later, pushed := Holding(row.value.stm), row.value.slots, row.value.pushes;
        rankDecrease := rankDecrease + taken;
      }
      CountSlot([slot], 0, done, slot);
      var others := RunGroup(v, rank, later, at + 1);
      assert [] + (if others.Done? then others.value.pushes else [])
          == if others.Done? then others.value.pushes else [];
      GroupStep(done, pushes, slot, pushed, others);
      done, rest, pushes := done + [slot], later, pushes + pushed;
    }
    assert done + [] == done && pushes + [] == pushes;
    r := Done(Group(done, pushes));
  }

  // ---------- Sorting by position ----------

  function Insert(x: Placed, s: seq<Placed>): seq<Placed> {
    if s == [] || x.at <= s[0].at then [x] + s else [s[0]] + Insert(x, s[1..])
  }

  function Sorted(s: seq<Placed>): seq<Placed> {
    if s == [] then [] else Insert(s[0], Sorted(s[1..]))
  }

  /** No two have one position. */
  predicate Apart(s: seq<Placed>) {
    forall i, j :: 0 <= i < j < |s| ==> s[i].at != s[j].at
  }

  lemma {:induction false} InsertHas(x: Placed, s: seq<Placed>, y: Placed)
    ensures y in Insert(x, s) <==> y == x || y in s
  {
    if s != [] && x.at > s[0].at {
      InsertHas(x, s[1..], y);
    }
  }

  lemma {:induction false} InsertRanks(x: Placed, s: seq<Placed>)
    ensures RankSum(Stms(Insert(x, s))) == Rank(x.stm) + RankSum(Stms(s))
  {
    if s == [] || x.at <= s[0].at {
      assert ([x] + s)[1..] == s && ([x.stm] + Stms(s))[1..] == Stms(s);
    } else {
      InsertRanks(x, s[1..]);
      var r := Insert(x, s[1..]);
      assert ([s[0]] + r)[1..] == r && ([s[0].stm] + Stms(r))[1..] == Stms(r);
      assert ([s[0].stm] + Stms(s[1..]))[1..] == Stms(s[1..]);
    }
  }

  lemma {:induction false} InsertOrdered(x: Placed, s: seq<Placed>)
    requires Ordered(s) && forall i :: 0 <= i < |s| ==> s[i].at != x.at
    ensures Ordered(Insert(x, s))
  {
    if s != [] && x.at > s[0].at {
      InsertOrdered(x, s[1..]);
      var r := Insert(x, s[1..]);
      forall j | 0 <= j < |r| ensures s[0].at < r[j].at {
        InsertHas(x, s[1..], r[j]);
        assert r[j] in r;
      }
    }
  }

  lemma {:induction false} SortedHas(s: seq<Placed>, y: Placed)
    ensures y in Sorted(s) <==> y in s
  {
    if s != [] {
      SortedHas(s[1..], y);
      InsertHas(s[0], Sorted(s[1..]), y);
    }
  }

  lemma {:induction false} SortedRanks(s: seq<Placed>)
    ensures RankSum(Stms(Sorted(s))) == RankSum(Stms(s))
  {
    if s != [] {
      SortedRanks(s[1..]);
      InsertRanks(s[0], Sorted(s[1..]));
      assert ([s[0].stm] + Stms(s[1..]))[1..] == Stms(s[1..]);
    }
  }

  lemma {:induction false} SortedOrdered(s: seq<Placed>)
    requires Apart(s)
    ensures Ordered(Sorted(s))
  {
    if s != [] {
      SortedOrdered(s[1..]);
      var r := Sorted(s[1..]);
      forall i | 0 <= i < |r| ensures r[i].at != s[0].at {
        assert r[i] in r;
        SortedHas(s[1..], r[i]);
      }
      InsertOrdered(s[0], r);
    }
  }

  // ---------- The whole of merge_statements ----------

  function Tagged(l: seq<Stm>, start: nat): seq<Placed>
    decreases |l|
  {
    if l == [] then [] else [Placed(start, l[0])] + Tagged(l[1..], start + 1)
  }

  function RankAt(x: Placed): nat {
    Rank(x.stm)
  }

  function Positions(s: seq<Placed>): (r: seq<nat>)
    ensures |r| == |s|
  {
    if s == [] then [] else [s[0].at] + Positions(s[1..])
  }

  /** A group of the tagged list: the positions of its rank, and what the vector holds there. */
  lemma GroupOfTagged(l: seq<Stm>, start: nat, k: nat)
    ensures Positions(OfKey(Tagged(l, start), RankAt, k)) == Places(Ranks(l), k, start)
    ensures Filled(Stms(OfKey(Tagged(l, start), RankAt, k))) == Pick(Ranks(l), Filled(l), k)
  {
    GroupPositions(l, start, k);
    GroupSlots(l, start, k);
  }

  lemma TaggedStep(l: seq<Stm>, start: nat, k: nat)
    requires l != []
    ensures OfKey(Tagged(l, start), RankAt, k)
         == (if Rank(l[0]) == k then [Placed(start, l[0])] else []) + OfKey(Tagged(l[1..], start + 1), RankAt, k)
  {
    assert Tagged(l, start)[1..] == Tagged(l[1..], start + 1);
  }

  lemma {:induction false} GroupPositions(l: seq<Stm>, start: nat, k: nat)
    ensures Positions(OfKey(Tagged(l, start), RankAt, k)) == Places(Ranks(l), k, start)
    decreases |l|
  {
    if l != [] {
      TaggedStep(l, start, k);
      GroupPositions(l[1..], start + 1, k);
      assert Ranks(l)[1..] == Ranks(l[1..]);
      var rest := OfKey(Tagged(l[1..], start + 1), RankAt, k);
      assert [] + rest == rest && ([Placed(start, l[0])] + rest)[1..] == rest;
    }
  }

  lemma FilledCons(s: Stm, l: seq<Stm>)
    ensures Filled([s] + l) == [Holding(s)] + Filled(l) && Ranks([s] + l) == [Rank(s)] + Ranks(l)
  {
  }

  lemma StmsCons(x: Placed, s: seq<Placed>)
    ensures Stms([x] + s) == [x.stm] + Stms(s)
  {
    assert ([x] + s)[1..] == s;
  }

  lemma {:induction false} GroupSlots(l: seq<Stm>, start: nat, k: nat)
    ensures Filled(Stms(OfKey(Tagged(l, start), RankAt, k))) == Pick(Ranks(l), Filled(l), k)
    decreases |l|
  {
    if l != [] {
      var s, others := l[0], l[1..];
      var rest := OfKey(Tagged(others, start + 1), RankAt, k);
      TaggedStep(l, start, k);
      GroupSlots(others, start + 1, k);
      assert l == [s] + others;
      FilledCons(s, others);
      PickCons(Rank(s), Ranks(others), Holding(s), Filled(others), k);
      StmsCons(Placed(start, s), rest);
      FilledCons(s, Stms(rest));
      assert [] + rest == rest;
    }
  }

  lemma {:induction false} TaggedHas(l: seq<Stm>, start: nat, x: Placed)
    ensures x in Tagged(l, start) <==> start <= x.at < start + |l| && x.stm == l[x.at - start]
    decreases |l|
  {
    if l != [] {
      TaggedHas(l[1..], start + 1, x);
    }
  }

  /** The ranks at the positions whose rank is among `ks`. */
  function RankOfGroups(l: seq<Stm>, ks: set<nat>): nat {
    if l == [] then 0 else (if Rank(l[0]) in ks then Rank(l[0]) else 0) + RankOfGroups(l[1..], ks)
  }

  lemma {:induction false} OneGroupMore(l: seq<Stm>, start: nat, ks: set<nat>, k: nat)
    requires k !in ks
    ensures RankOfGroups(l, ks + {k}) == RankOfGroups(l, ks) + RankSum(Stms(OfKey(Tagged(l, start), RankAt, k)))
    decreases |l|
  {
    if l != [] {
      OneGroupMore(l[1..], start + 1, ks, k);
      assert Tagged(l, start)[1..] == Tagged(l[1..], start + 1);
      var rest := OfKey(Tagged(l[1..], start + 1), RankAt, k);
      if Rank(l[0]) == k {
        var g := [Placed(start, l[0])] + rest;
        assert g[1..] == rest && ([l[0]] + Stms(rest))[1..] == Stms(rest);
      } else {
        assert [] + rest == rest;
      }
    }
  }

  lemma {:induction false} AllGroups(l: seq<Stm>, ks: set<nat>)
    requires forall s :: s in l ==> Rank(s) in ks
    ensures RankOfGroups(l, ks) == RankSum(l)
  {
    if l != [] {
      AllGroups(l[1..], ks);
    }
  }

  lemma {:induction false} NoGroups(l: seq<Stm>)
    ensures RankOfGroups(l, {}) == 0
  {
    if l != [] {
      NoGroups(l[1..]);
    }
  }

  /** Left by the group of one of the ranks `ks`. */
  ghost predicate LeftIn(v: Version, l: seq<Stm>, ks: set<nat>, x: Placed) {
    LeftByGroup(v, l, x) && Rank(l[x.at]) in ks
  }

  /** The list holds exactly what the groups of the ranks `ks` left, each once. */
  ghost predicate Gathered(v: Version, l: seq<Stm>, ks: set<nat>, found: seq<Placed>) {
    Apart(found) && forall x :: x in found <==> LeftIn(v, l, ks, x)
  }

  /** The statements found are what the groups of the ranks `ks` left, and the decrease is what they lost. */
  ghost predicate Collected(v: Version, l: seq<Stm>, ks: set<nat>, found: seq<Placed>, rankDecrease: nat) {
    Gathered(v, l, ks, found) && RankSum(Stms(found)) + rankDecrease == RankOfGroups(l, ks)
  }

  lemma {:induction false} StmsConcat(a: seq<Placed>, b: seq<Placed>)
    ensures RankSum(Stms(a + b)) == RankSum(Stms(a)) + RankSum(Stms(b))
  {
    if a == [] {
      assert a + b == b;
    } else {
      assert (a + b)[1..] == a[1..] + b;
      StmsConcat(a[1..], b);
      assert ([a[0].stm] + Stms(a[1..]))[1..] == Stms(a[1..]);
      assert ([a[0].stm] + Stms(a[1..] + b))[1..] == Stms(a[1..] + b);
    }
  }

  lemma LeftInMore(v: Version, l: seq<Stm>, ks: set<nat>, k: nat, x: Placed)
    ensures LeftIn(v, l, ks + {k}, x) <==> LeftIn(v, l, ks, x) || LeftIn(v, l, {k}, x)
  {
  }

  lemma GatheredMore(v: Version, l: seq<Stm>, ks: set<nat>, found: seq<Placed>, k: nat, more: seq<Placed>)
    requires Gathered(v, l, ks, found) && k !in ks && Gathered(v, l, {k}, more)
    ensures Gathered(v, l, ks + {k}, found + more)
  {
    forall x ensures x in found + more <==> LeftIn(v, l, ks + {k}, x) {
      LeftInMore(v, l, ks, k, x);
    }
    forall i, j | 0 <= i < |found| && 0 <= j < |more| ensures found[i].at != more[j].at {
      assert found[i] in found && more[j] in more;
      assert LeftIn(v, l, ks, found[i]) && LeftIn(v, l, {k}, more[j]);
    }
  }

  lemma CollectedMore(v: Version, l: seq<Stm>, ks: set<nat>, found: seq<Placed>, rankDecrease: nat,
                      k: nat, more: seq<Placed>, taken: nat)
    requires Collected(v, l, ks, found, rankDecrease) && k !in ks && Gathered(v, l, {k}, more)
    requires RankSum(Stms(more)) + taken == RankSum(Stms(OfKey(Tagged(l, 0), RankAt, k)))
    ensures Collected(v, l, ks + {k}, found + more, rankDecrease + taken)
  {
    OneGroupMore(l, 0, ks, k);
    StmsConcat(found, more);
    GatheredMore(v, l, ks, found, k, more);
  }

  lemma SimpleGroup(v: Version, l: seq<Stm>)
    ensures Gathered(v, l, {0}, OfKey(Tagged(l, 0), RankAt, 0))
  {
    var g := OfKey(Tagged(l, 0), RankAt, 0);
    TaggedOrdered(l, 0, 0);
    forall x ensures x in g <==> LeftIn(v, l, {0}, x) {
      TaggedHas(l, 0, x);
    }
  }

  lemma {:induction false} TaggedOrdered(l: seq<Stm>, start: nat, k: nat)
    ensures Ordered(OfKey(Tagged(l, start), RankAt, k))
    decreases |l|
  {
    if l != [] {
      TaggedOrdered(l[1..], start + 1, k);
      assert Tagged(l, start)[1..] == Tagged(l[1..], start + 1);
      var rest := OfKey(Tagged(l[1..], start + 1), RankAt, k);
      forall j | 0 <= j < |rest| ensures start < rest[j].at {
        assert rest[j] in rest;
        TaggedHas(l[1..], start + 1, rest[j]);
      }
    }
  }

  lemma {:induction false} SurvivorsStms(places: seq<nat>, slots: seq<Slot>)
    requires |places| == |slots|
    ensures Stms(Survivors(places, slots)) == Live(slots)
  {
    if slots != [] {
      SurvivorsStms(places[1..], slots[1..]);
      var rest := Survivors(places[1..], slots[1..]);
      if slots[0].Holding? {
        assert ([Placed(places[0], slots[0].stm)] + rest)[1..] == rest;
      } else {
        assert [] + rest == rest;
      }
    }
  }

  lemma {:induction false} PlacesHas(ranks: seq<nat>, k: nat, start: nat, p: nat)
    ensures p in Places(ranks, k, start) <==> start <= p < start + |ranks| && ranks[p - start] == k
  {
    if ranks != [] {
      PlacesHas(ranks[1..], k, start + 1, p);
    }
  }

  lemma {:induction false} SurvivorsHave(places: seq<nat>, slots: seq<Slot>, x: Placed)
    requires |places| == |slots| && x in Survivors(places, slots)
    ensures x.at in places
  {
    if slots != [] && !(slots[0].Holding? && x == Placed(places[0], slots[0].stm)) {
      SurvivorsHave(places[1..], slots[1..], x);
    }
  }

  lemma {:induction false} SurvivorsOrdered(ranks: seq<nat>, k: nat, start: nat, slots: seq<Slot>)
    requires |Places(ranks, k, start)| == |slots|
    ensures Ordered(Survivors(Places(ranks, k, start), slots))
    decreases |ranks|
  {
    if ranks != [] {
      var places := Places(ranks[1..], k, start + 1);
      if ranks[0] != k {
        assert Places(ranks, k, start) == places;
        SurvivorsOrdered(ranks[1..], k, start + 1, slots);
      } else {
        SurvivorsOrdered(ranks[1..], k, start + 1, slots[1..]);
        assert slots == [slots[0]] + slots[1..];
        SurvivorsCons(start, places, slots[0], slots[1..]);
        var rest := Survivors(places, slots[1..]);
        forall j | 0 <= j < |rest| ensures start < rest[j].at {
          SurvivorsHave(places, slots[1..], rest[j]);
          PlacesHas(ranks[1..], k, start + 1, rest[j].at);
        }
      }
    }
  }

  lemma BranchingGroup(v: Version, l: seq<Stm>, k: nat, g: Group)
    requires k > 0 && OneGroup(v, l, k) == Done(g) && |Places(Ranks(l), k, 0)| == |g.slots|
    ensures Gathered(v, l, {k}, Survivors(Places(Ranks(l), k, 0), g.slots))
  {
    SurvivorsOrdered(Ranks(l), k, 0, g.slots);
    forall x ensures x in Survivors(Places(Ranks(l), k, 0), g.slots) <==> LeftIn(v, l, {k}, x) {
      if x in Survivors(Places(Ranks(l), k, 0), g.slots) {
        SurvivorsHave(Places(Ranks(l), k, 0), g.slots, x);
        PlacesHas(Ranks(l), k, 0, x.at);
      }
    }
  }

  /** One group: copied, or run by the loops when it has more than one statement. */
  method MergeGroup(v: Version, ghost l: seq<Stm>, k: nat, stms: seq<Placed>)
    returns (more: seq<Placed>, rankDecrease: nat, ok: bool)
    requires stms == OfKey(Tagged(l, 0), RankAt, k)
    ensures ok <==> k == 0 || OneGroup(v, l, k).Done?
    ensures ok ==> Gathered(v, l, {k}, more)
    ensures ok ==> RankSum(Stms(more)) + rankDecrease == RankSum(Stms(stms))
  {
    GroupOfTagged(l, 0, k);
    if k == 0 {
      SimpleGroup(v, l);
      return stms, 0, true;
    }
    var slots := Filled(Stms(stms));
    LiveFilled(Stms(stms));
    StmsLength(stms);
    var g := Done(Group(slots, []));
    rankDecrease := 0;
    if |stms| == 1 {
      LastAlone(v, k, slots, 0);
    } else {
      g, rankDecrease := RunLoops(v, k, slots);
      if g.Failed? {
        return [], 0, false;
      }
    }
    more, ok := Survivors(Positions(stms), g.value.slots), true;
    SurvivorsStms(Positions(stms), g.value.slots);
    BranchingGroup(v, l, k, g.value);
  }

  lemma {:induction false} StmsLength(s: seq<Placed>)
    ensures |Stms(s)| == |s|
  {
    if s != [] {
      StmsLength(s[1..]);
    }
  }

  /** The loops of all groups of the ranks `ks` end. */
  ghost predicate GroupsDone(v: Version, l: seq<Stm>, ks: set<nat>) {
    forall k :: k in ks && k > 0 ==> OneGroup(v, l, k).Done?
  }

  /** Grouping by rank, the loops of every group in ascending order of rank, and the sort at the end. */
  method MergeSiblings(v: Version, l: seq<Stm>) returns (r: Outcome<Rewritten>)
    ensures r == MergeStatements(v, l)
  {
    var groups := GroupedBy(Tagged(l, 0), RankAt);
    var found, rankDecrease := [], 0;
    var todo := groups.Keys;
    StartCollecting(v, l);
    assert groups.Keys - todo == {};
    while todo != {}
      invariant todo <= groups.Keys && GroupsDone(v, l, groups.Keys - todo)
      invariant Collected(v, l, groups.Keys - todo, found, rankDecrease)
      decreases |todo|
    {
      var k := Least(todo);
      var more, taken, ok := MergeGroup(v, l, k, groups[k]);
      if !ok {
        SomeGroupFails(v, l, k);
        return Failed(OutOfRange);
      }
      OneMoreDone(groups.Keys, todo, k);
      CollectedMore(v, l, groups.Keys - todo, found, rankDecrease, k, more, taken);
      found, rankDecrease, todo := found + more, rankDecrease + taken, todo - {k};
    }
    assert groups.Keys - todo == groups.Keys;
    EveryGroup(v, l, groups.Keys);
    AllMerged(v, l, groups.Keys, found, rankDecrease);
    r := Done(Rewritten(Stms(Sorted(found)), rankDecrease));
  }

  lemma StartCollecting(v: Version, l: seq<Stm>)
    ensures GroupsDone(v, l, {}) && Collected(v, l, {}, [], 0)
  {
    NoGroups(l);
  }

  lemma SomeGroupFails(v: Version, l: seq<Stm>, k: nat)
    requires k > 0 && OneGroup(v, l, k).Failed?
    ensures MergeStatements(v, l) == Failed(OutOfRange)
  {
    AllGroupsDone(v, l);
  }

  lemma EmptyGroup(v: Version, l: seq<Stm>, k: nat)
    requires k > 0 && OfKey(Tagged(l, 0), RankAt, k) == []
    ensures OneGroup(v, l, k).Done?
  {
    GroupOfTagged(l, 0, k);
  }

  /** A rank that no statement has makes an empty group, and an empty group is done. */
  lemma EveryGroup(v: Version, l: seq<Stm>, ks: set<nat>)
    requires GroupsDone(v, l, ks)
    requires forall k :: k in ks <==> exists x :: x in Tagged(l, 0) && RankAt(x) == k
    ensures MergeStatements(v, l).Done? && forall s :: s in l ==> Rank(s) in ks
  {
    AllGroupsDone(v, l);
    forall k: nat | k > 0 ensures OneGroup(v, l, k).Done? {
      var g := OfKey(Tagged(l, 0), RankAt, k);
      if g == [] {
        EmptyGroup(v, l, k);
      } else {
        assert g[0] in g;
      }
    }
    forall s | s in l ensures Rank(s) in ks {
      var i :| 0 <= i < |l| && l[i] == s;
      TaggedHas(l, 0, Placed(i, s));
      assert RankAt(Placed(i, s)) == Rank(s);
    }
  }

  lemma AllMerged(v: Version, l: seq<Stm>, ks: set<nat>, found: seq<Placed>, rankDecrease: nat)
    requires MergeStatements(v, l).Done? && (forall s :: s in l ==> Rank(s) in ks)
    requires Collected(v, l, ks, found, rankDecrease)
    ensures MergeStatements(v, l) == Done(Rewritten(Stms(Sorted(found)), rankDecrease))
  {
    SortedOrdered(found);
    SortedRanks(found);
    forall x ensures x in Sorted(found) <==> LeftByGroup(v, l, x) {
      SortedHas(found, x);
      assert LeftIn(v, l, ks, x) <==> LeftByGroup(v, l, x);
    }
    AllGroups(l, ks);
    GroupsSorted(v, l, Sorted(found));
    LiveFilled(l);
    WholeMerges(v, Filled(l));
  }
}
