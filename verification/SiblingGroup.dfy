/**
  One rank group of merge_statements (reduce_statement.cpp), as the source runs it: the
  group is an array of addresses, a statement merged away is freed and its slot cleared,
  and survivors are pushed to the result pair by pair.  An address is a position in the group.
*/
module SiblingGroup {
  import opened Lists
  import opened Statements
  import opened StructuralCmp
  import opened StructuralCompatible
  import opened Merging
  import opened Reduce

  datatype Slot = Cleared | Holding(stm: Stm)

  /** The slots behind the one being compared, and what comparing pushed. */
  datatype Row = Row(stm: Stm, slots: seq<Slot>, pushes: seq<nat>)

  datatype Group = Group(slots: seq<Slot>, pushes: seq<nat>)

  /** Compares the statement at position `self` with every later one, from position `at` on. */
  function RunRow(v: Version, a: Stm, self: nat, slots: seq<Slot>, at: nat): (r: Outcome<Row>)
    requires Rank(a) > 0 && self < at
    ensures r.Done? ==> |r.value.slots| == |slots| && Rank(r.value.stm) == Rank(a)
    decreases |slots|
  {
    if slots == [] then Done(Row(a, [], []))
    else if slots[0].Cleared? then
      var r :- RunRow(v, a, self, slots[1..], at + 1);
      Done(r.(slots := [Cleared] + r.slots))
    else if IsMergable(v, a, slots[0].stm) then
      if !ElifsFit(a, slots[0].stm) then Failed(OutOfRange) else
        var r :- RunRow(v, MergeIf(a, slots[0].stm), self, slots[1..], at + 1);
        Done(r.(slots := [Cleared] + r.slots, pushes := [self] + r.pushes))
    else
      var r :- RunRow(v, a, self, slots[1..], at + 1);
      Done(r.(slots := [slots[0]] + r.slots, pushes := [self, at] + r.pushes))
  }

  /** All rows from position `at` on. */
  function RunGroup(v: Version, rank: nat, slots: seq<Slot>, at: nat): (r: Outcome<Group>)
    requires rank > 0 && AllRank(slots, rank)
    ensures r.Done? ==> |r.value.slots| == |slots|
    decreases |slots|
  {
    if slots == [] then Done(Group([], []))
    else if slots[0].Cleared? then
      var g :- RunGroup(v, rank, slots[1..], at + 1);
      Done(g.(slots := [Cleared] + g.slots))
    else
      var r :- RunRow(v, slots[0].stm, at, slots[1..], at + 1);
      RowKeepsRank(v, rank, slots[0].stm, at, slots[1..], at + 1);
      var g :- RunGroup(v, rank, r.slots, at + 1);
      Done(Group([Holding(r.stm)] + g.slots, r.pushes + g.pushes))
  }

  /** The statements of a group have one rank. */
  predicate AllRank(slots: seq<Slot>, rank: nat) {
    forall i :: 0 <= i < |slots| && slots[i].Holding? ==> Rank(slots[i].stm) == rank
  }

  /** A slot behind a row keeps its statement or is cleared. */
  lemma {:induction false} RowSlots(v: Version, a: Stm, self: nat, slots: seq<Slot>, at: nat)
    requires Rank(a) > 0 && self < at && RunRow(v, a, self, slots, at).Done?
    ensures var r := RunRow(v, a, self, slots, at).value;
      forall k :: 0 <= k < |slots| ==> r.slots[k] == slots[k] || r.slots[k] == Cleared
    decreases |slots|
  {
    if slots != [] {
      if slots[0].Holding? && IsMergable(v, a, slots[0].stm) {
        RowSlots(v, MergeIf(a, slots[0].stm), self, slots[1..], at + 1);
      } else {
        RowSlots(v, a, self, slots[1..], at + 1);
      }
    }
  }

  lemma RowKeepsRank(v: Version, rank: nat, a: Stm, self: nat, slots: seq<Slot>, at: nat)
    requires Rank(a) > 0 && self < at && RunRow(v, a, self, slots, at).Done? && AllRank(slots, rank)
    ensures AllRank(RunRow(v, a, self, slots, at).value.slots, rank)
  {
    RowSlots(v, a, self, slots, at);
  }

  // ---------- The group as a list ----------

  function Live(slots: seq<Slot>): seq<Stm> {
    if slots == [] then []
    else if slots[0].Cleared? then Live(slots[1..])
    else [slots[0].stm] + Live(slots[1..])
  }

  /** The ranks of the statements that are left. */
  function LiveRank(slots: seq<Slot>): nat {
    RankSum(Live(slots))
  }

  lemma {:induction false} LiveRankConcat(a: seq<Slot>, b: seq<Slot>)
    ensures LiveRank(a + b) == LiveRank(a) + LiveRank(b)
  {
    if a == [] {
      assert a + b == b;
    } else {
      assert (a + b)[1..] == a[1..] + b;
      LiveRankConcat(a[1..], b);
      if a[0].Holding? {
        assert ([a[0].stm] + Live(a[1..]))[1..] == Live(a[1..]);
        assert ([a[0].stm] + Live(a[1..] + b))[1..] == Live(a[1..] + b);
      }
    }
  }

  lemma LiveRankOne(slot: Slot, slots: seq<Slot>)
    ensures LiveRank([slot] + slots) == (if slot.Holding? then Rank(slot.stm) else 0) + LiveRank(slots)
  {
    assert ([slot] + slots)[1..] == slots;
    if slot.Holding? {
      assert ([slot.stm] + Live(slots))[1..] == Live(slots);
    }
  }

  // ---------- The loops ----------

  function RowInFront(done: seq<Slot>, pushes: seq<nat>, others: Outcome<Row>): Outcome<Row> {
    if others.Done?
    then Done(Row(others.value.stm, done + others.value.slots, pushes + others.value.pushes))
    else others
  }

  lemma RowStep(done: seq<Slot>, pushes: seq<nat>, slot: Slot, pushed: seq<nat>, others: Outcome<Row>)
    ensures RowInFront([], [], others) == others
    ensures RowInFront(done, pushes, RowInFront([slot], pushed, others))
        == RowInFront(done + [slot], pushes + pushed, others)
  {
    if others.Done? {
      assert [] + others.value.slots == others.value.slots && [] + others.value.pushes == others.value.pushes;
      assert done + ([slot] + others.value.slots) == done + [slot] + others.value.slots;
      assert pushes + (pushed + others.value.pushes) == pushes + pushed + others.value.pushes;
    }
  }

  /**
    The inner loop: `stms[iB]` is cleared when it has been merged into the statement compared,
    and its rank is counted.
  */
  method CompareWithLater(v: Version, a: Stm, self: nat, slots: seq<Slot>, at: nat)
    returns (r: Outcome<Row>, rankDecrease: nat)
    requires Rank(a) > 0 && self < at
    ensures r == RunRow(v, a, self, slots, at)
    ensures r.Done? ==> LiveRank(r.value.slots) + rankDecrease == LiveRank(slots)
  {
    var stm, done, pushes: seq<nat> := a, [], [];
    rankDecrease := 0;
    RowStep([], [], Cleared, [], RunRow(v, a, self, slots, at));
    assert [] + slots == slots;
    for k := 0 to |slots|
      invariant Rank(stm) > 0 && |done| == k
      invariant RunRow(v, a, self, slots, at) == RowInFront(done, pushes, RunRow(v, stm, self, slots[k..], at + k))
      invariant LiveRank(done) + LiveRank(slots[k..]) + rankDecrease == LiveRank(slots)
    {
      Shift(slots, k);
      var slot, pushed: seq<nat> := slots[k], [];
      CountSlot(slots, k, done, slot);
      if slot.Holding? {
        if IsMergable(v, stm, slot.stm) {
          if !ElifsFit(stm, slot.stm) {
            return Failed(OutOfRange), 0;
          }
          rankDecrease := rankDecrease + Rank(slot.stm);
          CountSlot(slots, k, done, Cleared);
          stm, slot, pushed := MergeIf(stm, slot.stm), Cleared, [self];
        } else {
          pushed := [self, at + k];
        }
      }
      var others := RunRow(v, stm, self, slots[k + 1..], at + k + 1);
      assert [] + (if others.Done? then others.value.pushes else [])
          == if others.Done? then others.value.pushes else [];
      RowStep(done, pushes, slot, pushed, others);
      done, pushes := done + [slot], pushes + pushed;
    }
    assert done + [] == done && pushes + [] == pushes;
    r := Done(Row(stm, done, pushes));
  }

  lemma CountSlot(slots: seq<Slot>, k: nat, done: seq<Slot>, slot: Slot)
    requires k < |slots|
    ensures LiveRank(slots[k..]) == LiveRank(slots[k + 1..]) + if slots[k].Holding? then Rank(slots[k].stm) else 0
    ensures LiveRank(done + [slot]) == LiveRank(done) + if slot.Holding? then Rank(slot.stm) else 0
  {
    assert slots[k..] == [slots[k]] + slots[k + 1..] && [slot] == [slot] + [];
    LiveRankOne(slots[k], slots[k + 1..]);
    LiveRankOne(slot, []);
    LiveRankConcat(done, [slot]);
  }

  lemma {:induction false} RowAbsorbs(v: Version, a: Stm, self: nat, slots: seq<Slot>, at: nat)
    requires Rank(a) > 0 && self < at && AllRank(slots, Rank(a))
    ensures match RunRow(v, a, self, slots, at)
      case Done(r) => Absorb(v, a, Live(slots)).Done? && Absorb(v, a, Live(slots)).value.stm == r.stm
                      && Absorb(v, a, Live(slots)).value.rest == Live(r.slots)
      case Failed(why) => Absorb(v, a, Live(slots)) == Failed(why)
    decreases |slots|
  {
    if slots != [] {
      if slots[0].Holding? && IsMergable(v, a, slots[0].stm) {
        if ElifsFit(a, slots[0].stm) {
          RowAbsorbs(v, MergeIf(a, slots[0].stm), self, slots[1..], at + 1);
        }
      } else {
        RowAbsorbs(v, a, self, slots[1..], at + 1);
      }
    }
  }

  /** The slots that are left when the loops end hold the merged siblings, each once and in order. */
  lemma {:induction false} GroupMerges(v: Version, rank: nat, slots: seq<Slot>, at: nat)
    requires rank > 0 && AllRank(slots, rank)
    ensures match RunGroup(v, rank, slots, at)
      case Done(g) => MergeStatements(v, Live(slots)).Done?
                      && MergeStatements(v, Live(slots)).value.list == Live(g.slots)
      case Failed(why) => MergeStatements(v, Live(slots)) == Failed(why)
    decreases |slots|
  {
    if slots != [] {
      if slots[0].Cleared? {
        GroupMerges(v, rank, slots[1..], at + 1);
      } else {
        RowAbsorbs(v, slots[0].stm, at, slots[1..], at + 1);
        var r := RunRow(v, slots[0].stm, at, slots[1..], at + 1);
        if r.Done? {
          RowKeepsRank(v, rank, slots[0].stm, at, slots[1..], at + 1);
          GroupMerges(v, rank, r.value.slots, at + 1);
        }
      }
    }
  }

  // ---------- What is pushed ----------

  function Times(pushes: seq<nat>, p: nat): nat {
    if pushes == [] then 0 else (if pushes[0] == p then 1 else 0) + Times(pushes[1..], p)
  }

  lemma {:induction false} TimesConcat(a: seq<nat>, b: seq<nat>, p: nat)
    ensures Times(a + b, p) == Times(a, p) + Times(b, p)
  {
    if a == [] {
      assert a + b == b;
    } else {
      assert (a + b)[1..] == a[1..] + b;
      TimesConcat(a[1..], b, p);
    }
  }

  /** Every survivor is pushed once, and nothing that has been freed is. */
  ghost predicate PushedOnce(g: Group) {
    forall p :: 0 <= p < |g.slots| ==> Times(g.pushes, p) == if g.slots[p].Holding? then 1 else 0
  }

  /** How often position `p` is pushed by a row. */
  lemma {:induction false} RowPushes(v: Version, a: Stm, self: nat, slots: seq<Slot>, at: nat, p: nat)
    requires Rank(a) > 0 && self < at && RunRow(v, a, self, slots, at).Done?
    ensures var r := RunRow(v, a, self, slots, at).value;
      Times(r.pushes, p) ==
        if p == self then |Live(slots)|
        else if at <= p < at + |slots| && r.slots[p - at].Holding? then 1
        else 0
    decreases |slots|
  {
    if slots != [] {
      var merges := slots[0].Holding? && IsMergable(v, a, slots[0].stm);
      RowUnfolds(v, a, self, slots, at);
      var a' := if merges then MergeIf(a, slots[0].stm) else a;
      RowPushes(v, a', self, slots[1..], at + 1, p);
      var pushed := if merges then [self] else if slots[0].Holding? then [self, at] else [];
      TimesConcat(pushed, RunRow(v, a', self, slots[1..], at + 1).value.pushes, p);
    }
  }

  /** What a row does at its first slot, in front of what it does behind it. */
  lemma RowUnfolds(v: Version, a: Stm, self: nat, slots: seq<Slot>, at: nat)
    requires Rank(a) > 0 && self < at && slots != [] && RunRow(v, a, self, slots, at).Done?
    ensures var merges := slots[0].Holding? && IsMergable(v, a, slots[0].stm);
      && (merges ==> ElifsFit(a, slots[0].stm))
      && var next := RunRow(v, if merges then MergeIf(a, slots[0].stm) else a, self, slots[1..], at + 1);
      && next.Done?
      && RunRow(v, a, self, slots, at).value.pushes
         == (if merges then [self] else if slots[0].Holding? then [self, at] else []) + next.value.pushes
      && RunRow(v, a, self, slots, at).value.slots == [if merges then Cleared else slots[0]] + next.value.slots
  {
  }

  /** What a row does as far as positions go: cleared slots stay cleared, and what is pushed how often. */
  ghost predicate RowShape(self: nat, slots: seq<Slot>, at: nat, row: Row) {
    && |row.slots| == |slots|
    && (forall k :: 0 <= k < |slots| && slots[k].Cleared? ==> row.slots[k].Cleared?)
    && forall p: nat :: Times(row.pushes, p) ==
         if p == self then |Live(slots)| else if at <= p < at + |slots| && row.slots[p - at].Holding? then 1 else 0
  }

  lemma RowHasShape(v: Version, a: Stm, self: nat, slots: seq<Slot>, at: nat, row: Row)
    requires Rank(a) > 0 && self < at && RunRow(v, a, self, slots, at) == Done(row)
    ensures RowShape(self, slots, at, row)
  {
    RowSlots(v, a, self, slots, at);
    forall p: nat ensures Times(row.pushes, p) ==
      if p == self then |Live(slots)| else if at <= p < at + |slots| && row.slots[p - at].Holding? then 1 else 0
    {
      RowPushes(v, a, self, slots, at, p);
    }
  }

  /** A row in front of the rows behind it. */
  ghost predicate Joined(row: Row, behind: Group, g: Group) {
    g.slots == [Holding(row.stm)] + behind.slots && g.pushes == row.pushes + behind.pushes
  }

  /** What a group does as far as positions go: a row for each slot that still holds a statement. */
  ghost predicate GroupShape(slots: seq<Slot>, at: nat, g: Group)
    decreases |slots|
  {
    && |g.slots| == |slots|
    && if slots == [] then g.pushes == []
       else if slots[0].Cleared? then
         g.slots[0] == Cleared && GroupShape(slots[1..], at + 1, Group(g.slots[1..], g.pushes))
       else exists row, behind :: FirstOf(slots, at, g, row, behind) && GroupShape(row.slots, at + 1, behind)
  }

  ghost predicate FirstOf(slots: seq<Slot>, at: nat, g: Group, row: Row, behind: Group) {
    slots != [] && |row.slots| == |slots| - 1 && RowShape(at, slots[1..], at + 1, row) && Joined(row, behind, g)
  }

  lemma {:induction false} GroupHasShape(v: Version, rank: nat, slots: seq<Slot>, at: nat, g: Group)
    requires rank > 0 && AllRank(slots, rank) && RunGroup(v, rank, slots, at) == Done(g)
    ensures GroupShape(slots, at, g)
    decreases |slots|
  {
    if slots != [] {
      if slots[0].Cleared? {
        var rest := RunGroup(v, rank, slots[1..], at + 1).value;
        GroupHasShape(v, rank, slots[1..], at + 1, rest);
        assert Group(g.slots[1..], g.pushes) == rest;
      } else {
        var row := RunRow(v, slots[0].stm, at, slots[1..], at + 1).value;
        RowKeepsRank(v, rank, slots[0].stm, at, slots[1..], at + 1);
        var behind := RunGroup(v, rank, row.slots, at + 1).value;
        RowHasShape(v, slots[0].stm, at, slots[1..], at + 1, row);
        GroupHasShape(v, rank, row.slots, at + 1, behind);
        assert FirstOf(slots, at, g, row, behind);
      }
    }
  }

  /** Only positions of the group are pushed, and cleared slots stay cleared and unpushed. */
  lemma {:induction false} GroupPushes(slots: seq<Slot>, at: nat, p: nat, g: Group)
    requires GroupShape(slots, at, g)
    requires at <= p < at + |slots| ==> slots[p - at].Cleared?
    ensures Times(g.pushes, p) == 0 && (at <= p < at + |slots| ==> g.slots[p - at].Cleared?)
    decreases |slots|
  {
    if slots != [] {
      if slots[0].Cleared? {
        GroupPushes(slots[1..], at + 1, p, Group(g.slots[1..], g.pushes));
      } else {
        var row, behind :| FirstOf(slots, at, g, row, behind) && GroupShape(row.slots, at + 1, behind);
        GroupPushes(row.slots, at + 1, p, behind);
        TimesConcat(row.pushes, behind.pushes, p);
      }
    }
  }

  predicate AllHolding(slots: seq<Slot>) {
    forall k :: 0 <= k < |slots| ==> slots[k].Holding?
  }

  lemma {:induction false} LiveAll(slots: seq<Slot>)
    requires AllHolding(slots)
    ensures |Live(slots)| == |slots|
  {
    if slots != [] {
      LiveAll(slots[1..]);
    }
  }

  /** How often a position is pushed by the first row and by the rows behind it. */
  lemma PushSplit(slots: seq<Slot>, at: nat, p: nat, g: Group, row: Row, behind: Group)
    requires FirstOf(slots, at, g, row, behind) && GroupShape(row.slots, at + 1, behind)
    ensures Times(g.pushes, p) == Times(row.pushes, p) + Times(behind.pushes, p)
    ensures at < p < at + |slots| && row.slots[p - at - 1].Cleared? ==> Times(behind.pushes, p) == 0
    ensures p == at ==> Times(g.pushes, p) == |Live(slots[1..])|
  {
    TimesConcat(row.pushes, behind.pushes, p);
    if p == at || (at < p < at + |slots| && row.slots[p - at - 1].Cleared?) {
      GroupPushes(row.slots, at + 1, p, behind);
    }
  }

  lemma LastShape(slots: seq<Slot>, at: nat, g: Group)
    requires |slots| == 1 && GroupShape(slots, at, g)
    ensures g.pushes == [] && (g.slots[0].Holding? <==> slots[0].Holding?)
  {
    assert slots[1..] == [];
    if slots[0].Holding? {
      var row, behind :| FirstOf(slots, at, g, row, behind) && GroupShape(row.slots, at + 1, behind);
      NothingPushed(row.pushes);
    }
  }

  lemma FirstPushed(pushes: seq<nat>)
    requires pushes != []
    ensures Times(pushes, pushes[0]) > 0
  {
  }

  lemma NothingPushed(pushes: seq<nat>)
    requires forall p: nat :: Times(pushes, p) == 0
    ensures pushes == []
  {
    if pushes != [] {
      FirstPushed(pushes);
    }
  }

  /** Every survivor of a group is pushed just once exactly when the group has no third statement. */
  lemma PushedOnceExactly(v: Version, rank: nat, slots: seq<Slot>, g: Group)
    requires |slots| >= 2 && AllHolding(slots) && rank > 0 && AllRank(slots, rank)
        && RunGroup(v, rank, slots, 0) == Done(g)
    ensures PushedOnce(g) <==> |slots| == 2
  {
    GroupHasShape(v, rank, slots, 0, g);
    ShapePushedOnce(slots, g);
  }

  lemma ShapePushedOnce(slots: seq<Slot>, g: Group)
    requires |slots| >= 2 && AllHolding(slots) && GroupShape(slots, 0, g)
    ensures PushedOnce(g) <==> |slots| == 2
  {
    LiveAll(slots[1..]);
    var row, behind :| FirstOf(slots, 0, g, row, behind) && GroupShape(row.slots, 1, behind);
    PushSplit(slots, 0, 0, g, row, behind);
    if |slots| == 2 {
      LastShape(row.slots, 1, behind);
      PushSplit(slots, 0, 1, g, row, behind);
    } else {
      assert Times(g.pushes, 0) >= 2;
    }
  }

  /** A group of one slot pushes nothing. */
  lemma LastAlone(v: Version, rank: nat, slots: seq<Slot>, at: nat)
    requires |slots| == 1 && rank > 0 && AllRank(slots, rank)
    ensures RunGroup(v, rank, slots, at) == Done(Group(slots, []))
  {
    assert slots[1..] == [] && [slots[0]] + [] == slots;
    assert RunGroup(v, rank, [], at + 1) == Done(Group([], []));
    if slots[0].Holding? {
      assert RunRow(v, slots[0].stm, at, slots[1..], at + 1) == Done(Row(slots[0].stm, [], []));
      assert [Holding(slots[0].stm)] + [] == slots;
      var none: seq<nat> := [];
      assert none + none == none;
    }
  }

  /** A statement that was freed is pushed all the same exactly when a row after the first one freed it. */
  lemma FreedIsPushed(v: Version, rank: nat, slots: seq<Slot>, p: nat, g: Group) returns (row: Row)
    requires slots != [] && slots[0].Holding? && rank > 0 && AllRank(slots, rank)
        && RunGroup(v, rank, slots, 0) == Done(g)
    requires 0 < p < |slots| == |g.slots| && g.slots[p].Cleared?
    ensures RunRow(v, slots[0].stm, 0, slots[1..], 1) == Done(row) && |row.slots| == |slots| - 1
    ensures Times(g.pushes, p) > 0 <==> row.slots[p - 1].Holding?
  {
    var behind;
    row, behind := GroupUnfolds(v, rank, slots, 0, g);
    RowHasShape(v, slots[0].stm, 0, slots[1..], 1, row);
    GroupHasShape(v, rank, row.slots, 1, behind);
    ShapeFreed(slots, p, g, row, behind);
  }

  lemma ShapeFreed(slots: seq<Slot>, p: nat, g: Group, row: Row, behind: Group)
    requires FirstOf(slots, 0, g, row, behind) && GroupShape(row.slots, 1, behind) && 0 < p < |slots|
    ensures Times(g.pushes, p) > 0 <==> row.slots[p - 1].Holding?
  {
    PushSplit(slots, 0, p, g, row, behind);
  }

  /** The first row of a group, and the rows behind it. */
  lemma GroupUnfolds(v: Version, rank: nat, slots: seq<Slot>, at: nat, g: Group) returns (row: Row, behind: Group)
    requires slots != [] && slots[0].Holding? && rank > 0 && AllRank(slots, rank)
        && RunGroup(v, rank, slots, at) == Done(g)
    ensures RunRow(v, slots[0].stm, at, slots[1..], at + 1) == Done(row) && |row.slots| == |slots| - 1
    ensures AllRank(row.slots, rank) && RunGroup(v, rank, row.slots, at + 1) == Done(behind)
        && |behind.slots| == |row.slots|
    ensures Joined(row, behind, g)
  {
    row := RunRow(v, slots[0].stm, at, slots[1..], at + 1).value;
    RowKeepsRank(v, rank, slots[0].stm, at, slots[1..], at + 1);
    behind := RunGroup(v, rank, row.slots, at + 1).value;
  }

  /** Three ifs, the last two on one net: the third is freed and still in the result. */
  lemma FreedIsPushedExample()
    ensures
      var (x, y) := (If(0, [], [], false, [], 1), If(1, [], [], false, [], 1));
      var g := RunGroup(Intended, 1, [Holding(x), Holding(y), Holding(y)], 0);
      g.Done? && g.value.slots[2].Cleared? && Times(g.value.pushes, 2) > 0
  {
    var (x, y) := (If(0, [], [], false, [], 1), If(1, [], [], false, [], 1));
    var slots := [Holding(x), Holding(y), Holding(y)];
    assert IsMergable(Intended, y, y) && ElifsFit(y, y) && !IsMergable(Intended, x, y);
    RowOfTwo(x, y, 0, 1);
    RowOfOne(y, 1, 2);
    LastAlone(Intended, 1, [Cleared], 2);
    assert slots[1..] == [Holding(y), Holding(y)] && slots[1..][1..] == [Holding(y)];
    assert RunGroup(Intended, 1, [Holding(y), Holding(y)], 1).Done?;
    var row := FreedIsPushed(Intended, 1, slots, 2, RunGroup(Intended, 1, slots, 0).value);
  }

  lemma RowOfOne(y: Stm, self: nat, at: nat)
    requires Rank(y) > 0 && self < at && IsMergable(Intended, y, y) && ElifsFit(y, y)
    ensures RunRow(Intended, y, self, [Holding(y)], at).Done?
    ensures RunRow(Intended, y, self, [Holding(y)], at).value.slots == [Cleared]
  {
    assert [Holding(y)][1..] == [];
  }

  lemma RowOfTwo(x: Stm, y: Stm, self: nat, at: nat)
    requires Rank(x) > 0 && self < at && !IsMergable(Intended, x, y)
    ensures RunRow(Intended, x, self, [Holding(y), Holding(y)], at).Done?
    ensures RunRow(Intended, x, self, [Holding(y), Holding(y)], at).value.slots == [Holding(y), Holding(y)]
  {
    assert [Holding(y), Holding(y)][1..] == [Holding(y)] && [Holding(y)][1..] == [];
    assert RunRow(Intended, x, self, [], at + 2) == Done(Row(x, [], []));
    assert RunRow(Intended, x, self, [Holding(y)], at + 1).Done?;
  }
}
