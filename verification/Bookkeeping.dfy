/**
  What statements and nets record about each other while statements are built and nested
  (istatement.cpp, statement_if.cpp, statement_assignment.cpp).

  Statements are numbered in the order of creation.  A net lists the statements that drive
  and read it; a statement nested in another hands these entries to the one it is put in.
*/
module Bookkeeping {
  import opened Lists
  import opened OrderedSets

  type Net = nat
  type Id = nat

  /** `own` are the conditions of an if in order, or the indexes and the source of an assignment. */
  datatype Stm = Stm(
    parent: Option<Id>, index: nat, dst: Option<Net>, own: seq<Net>,
    ifTrue: seq<Id>, elseIf: seq<seq<Id>>, ifFalse: seq<Id>, trueGiven: bool, falseGiven: bool,
    inputs: seq<Net>, outputs: seq<Net>, rank: nat)

  datatype State = State(
    stms: seq<Stm>, drivers: map<Net, seq<Id>>, endpoints: map<Net, seq<Id>>, nodes: seq<Option<Id>>)

  const EMPTY := State([], map[], map[], [])

  // ---------- Ordered sets in maps ----------

  function At(m: map<Net, seq<Id>>, n: Net): seq<Id> {
    if n in m then m[n] else []
  }

  predicate Listed(m: map<Net, seq<Id>>, n: Net, i: Id) {
    i in At(m, n)
  }

  /** Every net of `ns` lists `i`. */
  function ListAll(m: map<Net, seq<Id>>, ns: seq<Net>, i: Id): (r: map<Net, seq<Id>>)
    ensures forall n: Net, j: Id :: Listed(r, n, j) <==> Listed(m, n, j) || (j == i && n in ns)
    decreases |ns|
  {
    if ns == [] then m else ListAll(m[ns[0] := Pushed(At(m, ns[0]), i)], ns[1..], i)
  }

  /** Every net of `ns` lists `to` in place of `from`. */
  function MoveAll(m: map<Net, seq<Id>>, ns: seq<Net>, from: Id, to: Id): (r: map<Net, seq<Id>>)
    requires from != to
    ensures forall n: Net, j: Id :: Listed(r, n, j) <==>
      if n in ns then j == to || (j != from && Listed(m, n, j)) else Listed(m, n, j)
    decreases |ns|
  {
    if ns == [] then m else MoveAll(m[ns[0] := Pushed(Without(At(m, ns[0]), from), to)], ns[1..], from, to)
  }

  // ---------- The invariant ----------

  function Children(st: Stm): seq<Id> {
    st.ifTrue + Join(st.elseIf) + st.ifFalse
  }

  function Join(ls: seq<seq<Id>>): seq<Id> {
    if ls == [] then [] else ls[0] + Join(ls[1..])
  }

  predicate IsTop(s: State, i: Id) {
    i < |s.stms| && s.stms[i].parent == None
  }

  predicate IsChild(s: State, i: Id, c: Id) {
    i < |s.stms| && c in Children(s.stms[i])
  }

  predicate Reads(s: State, i: Id, n: Net) {
    i < |s.stms| && n in s.stms[i].inputs
  }

  predicate Writes(s: State, i: Id, n: Net) {
    i < |s.stms| && n in s.stms[i].outputs
  }

  ghost predicate ChildReads(s: State, i: Id, n: Net) {
    exists c :: IsChild(s, i, c) && Reads(s, c, n)
  }

  ghost predicate ChildWrites(s: State, i: Id, n: Net) {
    exists c :: IsChild(s, i, c) && Writes(s, c, n)
  }

  function RankOf(s: State, i: Id): nat {
    if i < |s.stms| then s.stms[i].rank else 0
  }

  function RankSum(s: State, l: seq<Id>): nat {
    if l == [] then 0 else RankOf(s, l[0]) + RankSum(s, l[1..])
  }

  function UsedBranches(st: Stm): nat {
    (if st.trueGiven then 1 else 0) + |st.elseIf| + (if st.falseGiven then 1 else 0)
  }

  /** Children know their parent, and a parent has each of its children. */
  ghost predicate Nested(s: State) {
    && (forall i: Id, c: Id :: IsChild(s, i, c) ==> c < |s.stms| && s.stms[c].parent == Some(i))
    && (forall c :: 0 <= c < |s.stms| && s.stms[c].parent.Some? ==> IsChild(s, s.stms[c].parent.value, c))
  }

  /** Inputs and outputs are those of the statement itself and of everything in it. */
  ghost predicate Collected(s: State) {
    && (forall i: Id, n: Net :: i < |s.stms| ==> (Reads(s, i, n) <==> n in s.stms[i].own || ChildReads(s, i, n)))
    && (forall i: Id, n: Net :: i < |s.stms| ==>
          (Writes(s, i, n) <==> s.stms[i].dst == Some(n) || ChildWrites(s, i, n)))
  }

  /** Nets list exactly the top statements that read and drive them. */
  ghost predicate Linked(s: State) {
    && (forall n: Net, i: Id :: Listed(s.endpoints, n, i) <==> IsTop(s, i) && Reads(s, i, n))
    && (forall n: Net, i: Id :: Listed(s.drivers, n, i) <==> IsTop(s, i) && Writes(s, i, n))
  }

  ghost predicate Ranked(s: State) {
    forall i :: 0 <= i < |s.stms| ==> s.stms[i].rank == UsedBranches(s.stms[i]) + RankSum(s, Children(s.stms[i]))
  }

  /** Only specified branches have statements. */
  ghost predicate Specified(s: State) {
    forall i :: 0 <= i < |s.stms| ==>
      && (s.stms[i].ifTrue == [] || s.stms[i].trueGiven)
      && (s.stms[i].ifFalse == [] || s.stms[i].falseGiven)
  }

  /** The node list has each top statement at its index, and a hole for each nested one. */
  ghost predicate Registered(s: State) {
    && (forall i :: 0 <= i < |s.stms| ==> s.stms[i].index < |s.nodes|)
    && (forall i :: 0 <= i < |s.stms| ==> s.nodes[s.stms[i].index] == if IsTop(s, i) then Some(i) else None)
    && (forall i, j :: 0 <= i < j < |s.stms| ==> s.stms[i].index != s.stms[j].index)
  }

  ghost predicate Inv(s: State) {
    Nested(s) && Collected(s) && Linked(s) && Ranked(s) && Specified(s) && Registered(s)
  }

  // ---------- Steps ----------

  function Create(s: State, dst: Option<Net>, own: seq<Net>): State {
    var outputs := if dst.Some? then [dst.value] else [];
    var i := |s.stms|;
    State(s.stms + [Stm(None, |s.nodes|, dst, own, [], [], [], false, false, Extended([], own), outputs, 0)],
          ListAll(s.drivers, outputs, i), ListAll(s.endpoints, own, i), s.nodes + [Some(i)])
  }

  /** The branch a statement is put into: then, the last else-if, or else. */
  datatype Place = InTrue | InElif | InFalse

  predicate MayPut(st: Stm, place: Place) {
    match place
    case InTrue => st.trueGiven
    case InElif => st.elseIf != []
    case InFalse => st.falseGiven
  }

  function Put(st: Stm, place: Place, c: Id): Stm
    requires MayPut(st, place)
  {
    match place
    case InTrue => st.(ifTrue := st.ifTrue + [c])
    case InElif => var k := |st.elseIf| - 1; st.(elseIf := st.elseIf[k := st.elseIf[k] + [c]])
    case InFalse => st.(ifFalse := st.ifFalse + [c])
  }

  predicate CanAdopt(s: State, p: Id, place: Place, c: Id, top: Id) {
    && p < |s.stms| && top < |s.stms| && IsTop(s, c) && c != p && c != top
    && MayPut(s.stms[p], place)
  }

  /** `c` becomes a child of `p`; its inputs and outputs go to the statement `top` that `p` is in. */
  function Adopt(s: State, p: Id, place: Place, c: Id, top: Id): State
    requires CanAdopt(s, p, place, c, top)
  {
    var child := s.stms[c];
    var s1 := s.stms[c := child.(parent := Some(p))];
    var s2 := s1[top := s1[top].(inputs := Extended(s1[top].inputs, child.inputs),
        outputs := Extended(s1[top].outputs, child.outputs))];
    var s3 := s2[p := Put(s2[p].(rank := s2[p].rank + child.rank), place, c)];
    State(s3, MoveAll(s.drivers, child.outputs, c, top), MoveAll(s.endpoints, child.inputs, c, top),
          if child.index < |s.nodes| then s.nodes[child.index := None] else s.nodes)
  }

  function GiveTrue(s: State, p: Id): State
    requires p < |s.stms|
  {
    s.(stms := s.stms[p := s.stms[p].(trueGiven := true, rank := s.stms[p].rank + 1)])
  }

  function GiveElif(s: State, p: Id, cond: Net): State
    requires p < |s.stms|
  {
    var st := s.stms[p];
    s.(stms := s.stms[p := st.(own := st.own + [cond], inputs := Pushed(st.inputs, cond), elseIf := st.elseIf + [[]],
        rank := st.rank + 1)],
       endpoints := ListAll(s.endpoints, [cond], p))
  }

  function GiveFalse(s: State, p: Id): State
    requires p < |s.stms|
  {
    s.(stms := s.stms[p := s.stms[p].(falseGiven := true, rank := s.stms[p].rank + 1)])
  }

  // ---------- Facts about children ----------

  lemma {:induction false} RankSumConcat(s: State, a: seq<Id>, b: seq<Id>)
    ensures RankSum(s, a + b) == RankSum(s, a) + RankSum(s, b)
  {
    if a == [] {
      assert a + b == b;
    } else {
      assert (a + b)[1..] == a[1..] + b;
      RankSumConcat(s, a[1..], b);
    }
  }

  lemma {:induction false} RankSumSame(s: State, t: State, l: seq<Id>)
    requires forall c :: c in l ==> RankOf(s, c) == RankOf(t, c)
    ensures RankSum(s, l) == RankSum(t, l)
  {
    if l != [] {
      assert l[0] in l;
      RankSumSame(s, t, l[1..]);
    }
  }

  lemma JoinFirst(l: seq<Id>, ls: seq<seq<Id>>)
    ensures Join([l] + ls) == l + Join(ls)
  {
    assert ([l] + ls)[1..] == ls;
  }

  lemma {:induction false} JoinLast(ls: seq<seq<Id>>, c: Id)
    requires ls != []
    ensures var k := |ls| - 1; Join(ls[k := ls[k] + [c]]) == Join(ls) + [c]
    decreases |ls|
  {
    var l, rest := ls[0], ls[1..];
    assert ls == [l] + rest;
    JoinFirst(l, rest);
    if rest == [] {
      assert ls[0 := l + [c]] == [l + [c]] + [];
      JoinFirst(l + [c], []);
    } else {
      var k := |rest| - 1;
      var more := rest[k := rest[k] + [c]];
      JoinLast(rest, c);
      assert ls[k + 1 := ls[k + 1] + [c]] == [l] + more;
      JoinFirst(l, more);
      assert l + (Join(rest) + [c]) == l + Join(rest) + [c];
    }
  }

  /** Putting a child adds it to the children and its rank to their ranks. */
  lemma PutAdds(s: State, st: Stm, place: Place, c: Id)
    requires MayPut(st, place)
    ensures var r := Put(st, place, c);
      && (forall x :: x in Children(r) <==> x in Children(st) || x == c)
      && RankSum(s, Children(r)) == RankSum(s, Children(st)) + RankOf(s, c)
      && UsedBranches(r) == UsedBranches(st)
      && r.parent == st.parent && r.index == st.index && r.dst == st.dst && r.own == st.own
      && r.inputs == st.inputs && r.outputs == st.outputs && r.rank == st.rank
      && MayPut(r, place) && r.trueGiven == st.trueGiven && r.falseGiven == st.falseGiven
      && ((st.ifTrue == [] || st.trueGiven) ==> r.ifTrue == [] || r.trueGiven)
      && ((st.ifFalse == [] || st.falseGiven) ==> r.ifFalse == [] || r.falseGiven)
  {
    var r := Put(st, place, c);
    var j := Join(st.elseIf);
    if place.InElif? {
      JoinLast(st.elseIf, c);
    }
    RankSumConcat(s, r.ifTrue + Join(r.elseIf), r.ifFalse);
    RankSumConcat(s, r.ifTrue, Join(r.elseIf));
    RankSumConcat(s, st.ifTrue + j, st.ifFalse);
    RankSumConcat(s, st.ifTrue, j);
    RankSumConcat(s, st.ifTrue, [c]);
    RankSumConcat(s, j, [c]);
    RankSumConcat(s, st.ifFalse, [c]);
    assert RankSum(s, [c]) == RankOf(s, c);
  }

  lemma {:induction false} JoinConcat(ls: seq<seq<Id>>)
    ensures Join(ls + [[]]) == Join(ls)
  {
    if ls == [] {
      var one: seq<seq<Id>> := [[]];
      assert ls + [[]] == one && one[1..] == [];
    } else {
      assert (ls + [[]])[1..] == ls[1..] + [[]];
      JoinConcat(ls[1..]);
    }
  }

  // ---------- Creating and specifying branches ----------

  /** What a new statement adds to each relation. */
  lemma CreateFacts(s: State, dst: Option<Net>, own: seq<Net>)
    requires Inv(s)
    ensures var t, k := Create(s, dst, own), |s.stms|;
      && (forall i: Id, c: Id :: IsChild(t, i, c) <==> IsChild(s, i, c))
      && (forall i: Id :: IsTop(t, i) <==> IsTop(s, i) || i == k)
      && (forall i: Id, n: Net :: Reads(t, i, n) <==> Reads(s, i, n) || (i == k && n in own))
      && (forall i: Id, n: Net :: Writes(t, i, n) <==> Writes(s, i, n) || (i == k && dst == Some(n)))
      && (forall i: Id :: RankOf(t, i) == RankOf(s, i))
      && (forall i :: 0 <= i < k ==> t.stms[i] == s.stms[i])
  {
    var t, k := Create(s, dst, own), |s.stms|;
    assert Children(t.stms[k]) == [];
    forall i: Id ensures RankOf(t, i) == RankOf(s, i) {
    }
  }

  lemma CreateCollected(s: State, dst: Option<Net>, own: seq<Net>)
    requires Inv(s)
    ensures Collected(Create(s, dst, own)) && Nested(Create(s, dst, own))
  {
    var t := Create(s, dst, own);
    CreateFacts(s, dst, own);
    forall i: Id, n: Net | i < |t.stms|
      ensures ChildReads(t, i, n) <==> ChildReads(s, i, n)
      ensures ChildWrites(t, i, n) <==> ChildWrites(s, i, n)
    {
      SameChildren(s, t, i, n);
    }
  }

  lemma CreateRanked(s: State, dst: Option<Net>, own: seq<Net>)
    requires Inv(s)
    ensures Ranked(Create(s, dst, own))
  {
    var t := Create(s, dst, own);
    CreateFacts(s, dst, own);
    assert Children(t.stms[|s.stms|]) == [];
    forall i | 0 <= i < |t.stms|
      ensures t.stms[i].rank == UsedBranches(t.stms[i]) + RankSum(t, Children(t.stms[i]))
    {
      RankSumSame(s, t, Children(t.stms[i]));
    }
  }

  lemma CreateRegistered(s: State, dst: Option<Net>, own: seq<Net>)
    requires Registered(s)
    ensures Registered(Create(s, dst, own))
  {
    var t := Create(s, dst, own);
    RegisteredMore(s, t, t.stms[|s.stms|]);
  }

  lemma RegisteredMore(s: State, t: State, st: Stm)
    requires Registered(s) && t.stms == s.stms + [st] && t.nodes == s.nodes + [Some(|s.stms|)]
    requires st.index == |s.nodes| && st.parent == None
    ensures Registered(t)
  {
    forall i | 0 <= i < |s.stms|
      ensures t.stms[i] == s.stms[i] && (IsTop(t, i) <==> IsTop(s, i))
          && t.nodes[t.stms[i].index] == s.nodes[s.stms[i].index]
    {
    }
  }

  lemma CreateSpecified(s: State, dst: Option<Net>, own: seq<Net>)
    requires Specified(s)
    ensures Specified(Create(s, dst, own))
  {
  }

  lemma CreateKeeps(s: State, dst: Option<Net>, own: seq<Net>)
    requires Inv(s)
    ensures Inv(Create(s, dst, own))
  {
    CreateCollected(s, dst, own);
    CreateRanked(s, dst, own);
    CreateRegistered(s, dst, own);
    CreateSpecified(s, dst, own);
    CreateLinked(s, dst, own);
  }

  lemma CreateLinked(s: State, dst: Option<Net>, own: seq<Net>)
    requires Inv(s)
    ensures Linked(Create(s, dst, own))
  {
    var t := Create(s, dst, own);
    CreateFacts(s, dst, own);
  }

  /** When children and what they read and write stay, so does what is collected from them. */
  lemma SameChildren(s: State, t: State, i: Id, n: Net)
    requires forall c: Id :: IsChild(t, i, c) <==> IsChild(s, i, c)
    requires forall c: Id :: IsChild(s, i, c) ==>
      (Reads(t, c, n) <==> Reads(s, c, n)) && (Writes(t, c, n) <==> Writes(s, c, n))
    ensures ChildReads(t, i, n) <==> ChildReads(s, i, n)
    ensures ChildWrites(t, i, n) <==> ChildWrites(s, i, n)
  {
  }

  /** A top statement is nobody's child. */
  lemma TopNotChild(s: State, i: Id, p: Id)
    requires Nested(s) && IsTop(s, p)
    ensures !IsChild(s, i, p)
  {
  }

  // ---------- Adopting ----------

  /** The parent after the adoption. */
  function Grown(s: State, p: Id, place: Place, c: Id): Stm
    requires CanAdopt(s, p, place, c, p)
  {
    var st, child := s.stms[p], s.stms[c];
    Put(st.(inputs := Extended(st.inputs, child.inputs), outputs := Extended(st.outputs, child.outputs),
        rank := st.rank + child.rank), place, c)
  }

  lemma AdoptStms(s: State, p: Id, place: Place, c: Id)
    requires CanAdopt(s, p, place, c, p)
    ensures var t := Adopt(s, p, place, c, p);
      |t.stms| == |s.stms| && forall i :: 0 <= i < |s.stms| ==>
        t.stms[i] == if i == p then Grown(s, p, place, c)
                     else if i == c then s.stms[c].(parent := Some(p)) else s.stms[i]
  {
  }

  lemma GrownFacts(s: State, p: Id, place: Place, c: Id)
    requires CanAdopt(s, p, place, c, p)
    ensures var r, st, child := Grown(s, p, place, c), s.stms[p], s.stms[c];
      && (forall x :: x in Children(r) <==> x in Children(st) || x == c)
      && RankSum(s, Children(r)) == RankSum(s, Children(st)) + child.rank
      && UsedBranches(r) == UsedBranches(st) && r.rank == st.rank + child.rank
      && r.parent == st.parent && r.index == st.index && r.dst == st.dst && r.own == st.own
      && (forall n :: n in r.inputs <==> n in st.inputs || n in child.inputs)
      && (forall n :: n in r.outputs <==> n in st.outputs || n in child.outputs)
      && MayPut(r, place)
      && ((st.ifTrue == [] || st.trueGiven) ==> r.ifTrue == [] || r.trueGiven)
      && ((st.ifFalse == [] || st.falseGiven) ==> r.ifFalse == [] || r.falseGiven)
  {
    var st, child := s.stms[p], s.stms[c];
    PutAdds(s, st.(inputs := Extended(st.inputs, child.inputs), outputs := Extended(st.outputs, child.outputs),
        rank := st.rank + child.rank), place, c);
  }

  lemma AdoptFacts(s: State, p: Id, place: Place, c: Id)
    requires CanAdopt(s, p, place, c, p)
    ensures var t := Adopt(s, p, place, c, p);
      && |t.stms| == |s.stms|
      && (forall i: Id, x: Id :: IsChild(t, i, x) <==> IsChild(s, i, x) || (i == p && x == c))
      && (forall i: Id :: IsTop(t, i) <==> IsTop(s, i) && i != c)
      && (forall i: Id, n: Net :: Reads(t, i, n) <==> Reads(s, i, n) || (i == p && Reads(s, c, n)))
      && (forall i: Id, n: Net :: Writes(t, i, n) <==> Writes(s, i, n) || (i == p && Writes(s, c, n)))
      && (forall i: Id :: RankOf(t, i) == RankOf(s, i) + if i == p then RankOf(s, c) else 0)
  {
    AdoptStms(s, p, place, c);
    GrownFacts(s, p, place, c);
  }

  /** What an adoption leaves alone. */
  lemma AdoptLeaves(s: State, p: Id, place: Place, c: Id, i: Id)
    requires CanAdopt(s, p, place, c, p) && i < |s.stms|
    ensures var r, st := Adopt(s, p, place, c, p).stms[i], s.stms[i];
      && r.own == st.own && r.dst == st.dst && r.index == st.index
      && r.parent == (if i == c then Some(p) else st.parent)
      && (i != p ==> Children(r) == Children(st) && UsedBranches(r) == UsedBranches(st))
  {
    AdoptStms(s, p, place, c);
    GrownFacts(s, p, place, c);
  }

  lemma AdoptNested(s: State, p: Id, place: Place, c: Id)
    requires Inv(s) && CanAdopt(s, p, place, c, p) && IsTop(s, p)
    ensures Nested(Adopt(s, p, place, c, p))
  {
    AdoptFacts(s, p, place, c);
    forall i: Id | i < |s.stms| {
      AdoptLeaves(s, p, place, c, i);
    }
  }

  lemma AdoptCollected(s: State, p: Id, place: Place, c: Id)
    requires Inv(s) && CanAdopt(s, p, place, c, p) && IsTop(s, p)
    ensures Collected(Adopt(s, p, place, c, p))
  {
    var t := Adopt(s, p, place, c, p);
    AdoptFacts(s, p, place, c);
    forall i: Id, n: Net | i < |t.stms|
      ensures ChildReads(t, i, n) <==> ChildReads(s, i, n) || (i == p && Reads(s, c, n))
      ensures ChildWrites(t, i, n) <==> ChildWrites(s, i, n) || (i == p && Writes(s, c, n))
    {
      OneMoreChild(s, t, i, n, p, c);
    }
    forall i: Id | i < |s.stms| {
      AdoptLeaves(s, p, place, c, i);
    }
  }

  lemma OneMoreChild(s: State, t: State, i: Id, n: Net, p: Id, c: Id)
    requires Nested(s) && IsTop(s, p) && c != p
    requires forall x: Id :: IsChild(t, i, x) <==> IsChild(s, i, x) || (i == p && x == c)
    requires forall x: Id :: x != p ==> (Reads(t, x, n) <==> Reads(s, x, n)) && (Writes(t, x, n) <==> Writes(s, x, n))
    ensures ChildReads(t, i, n) <==> ChildReads(s, i, n) || (i == p && Reads(s, c, n))
    ensures ChildWrites(t, i, n) <==> ChildWrites(s, i, n) || (i == p && Writes(s, c, n))
  {
    TopNotChild(s, i, p);
    if i == p {
      assert IsChild(t, i, c);
    }
    if ChildReads(s, i, n) {
      var x: Id :| IsChild(s, i, x) && Reads(s, x, n);
      assert IsChild(t, i, x) && Reads(t, x, n);
    }
    if ChildWrites(s, i, n) {
      var x: Id :| IsChild(s, i, x) && Writes(s, x, n);
      assert IsChild(t, i, x) && Writes(t, x, n);
    }
  }

  lemma AdoptLinked(s: State, p: Id, place: Place, c: Id)
    requires Inv(s) && CanAdopt(s, p, place, c, p) && IsTop(s, p)
    ensures Linked(Adopt(s, p, place, c, p))
  {
    var t := Adopt(s, p, place, c, p);
    AdoptFacts(s, p, place, c);
    forall n: Net, i: Id
      ensures Listed(t.endpoints, n, i) <==> IsTop(t, i) && Reads(t, i, n)
      ensures Listed(t.drivers, n, i) <==> IsTop(t, i) && Writes(t, i, n)
    {
      assert n in s.stms[c].inputs <==> Reads(s, c, n);
      assert n in s.stms[c].outputs <==> Writes(s, c, n);
      assert Listed(s.endpoints, n, i) <==> IsTop(s, i) && Reads(s, i, n);
      assert Listed(s.drivers, n, i) <==> IsTop(s, i) && Writes(s, i, n);
    }
  }

  lemma AdoptRanked(s: State, p: Id, place: Place, c: Id)
    requires Inv(s) && CanAdopt(s, p, place, c, p) && IsTop(s, p)
    ensures Ranked(Adopt(s, p, place, c, p))
  {
    var t := Adopt(s, p, place, c, p);
    AdoptFacts(s, p, place, c);
    forall i | 0 <= i < |t.stms|
      ensures t.stms[i].rank == UsedBranches(t.stms[i]) + RankSum(t, Children(t.stms[i]))
    {
      forall x | x in Children(t.stms[i]) ensures RankOf(s, x) == RankOf(t, x) {
        TopNotChild(s, i, p);
        assert IsChild(t, i, x);
      }
      RankSumSame(s, t, Children(t.stms[i]));
      AdoptLeaves(s, p, place, c, i);
      if i == p {
        AdoptStms(s, p, place, c);
        GrownFacts(s, p, place, c);
      } else {
        assert RankOf(t, i) == RankOf(s, i);
      }
    }
  }

  lemma AdoptSpecified(s: State, p: Id, place: Place, c: Id)
    requires Inv(s) && CanAdopt(s, p, place, c, p)
    ensures Specified(Adopt(s, p, place, c, p)) && MayPut(Adopt(s, p, place, c, p).stms[p], place)
  {
    AdoptStms(s, p, place, c);
    GrownFacts(s, p, place, c);
    var t := Adopt(s, p, place, c, p);
    forall i | 0 <= i < |t.stms|
      ensures (t.stms[i].ifTrue == [] || t.stms[i].trueGiven) && (t.stms[i].ifFalse == [] || t.stms[i].falseGiven)
    {
      assert (s.stms[i].ifTrue == [] || s.stms[i].trueGiven) && (s.stms[i].ifFalse == [] || s.stms[i].falseGiven);
    }
  }

  lemma AdoptRegistered(s: State, p: Id, place: Place, c: Id)
    requires Inv(s) && CanAdopt(s, p, place, c, p) && IsTop(s, p)
    ensures Registered(Adopt(s, p, place, c, p))
  {
    AdoptFacts(s, p, place, c);
    var t := Adopt(s, p, place, c, p);
    forall i: Id | i < |s.stms| {
      AdoptLeaves(s, p, place, c, i);
    }
    forall i | 0 <= i < |t.stms| ensures t.nodes[t.stms[i].index] == if IsTop(t, i) then Some(i) else None {
      if i < c {
        assert s.stms[i].index != s.stms[c].index;
      } else if c < i {
        assert s.stms[c].index != s.stms[i].index;
      }
    }
  }

  /** Putting one top statement into another keeps everything. */
  lemma AdoptKeeps(s: State, p: Id, place: Place, c: Id)
    requires Inv(s) && CanAdopt(s, p, place, c, p) && IsTop(s, p)
    ensures Inv(Adopt(s, p, place, c, p)) && MayPut(Adopt(s, p, place, c, p).stms[p], place)
  {
    AdoptNested(s, p, place, c);
    AdoptCollected(s, p, place, c);
    AdoptLinked(s, p, place, c);
    AdoptRanked(s, p, place, c);
    AdoptSpecified(s, p, place, c);
    AdoptRegistered(s, p, place, c);
  }

  // ---------- Specifying branches ----------

  /** A statement whose children, inputs and outputs did not change, or grew by one condition. */
  lemma GiveKeeps(s: State, t: State, p: Id, conds: seq<Net>)
    requires Inv(s) && IsTop(s, p) && |t.stms| == |s.stms| && t.nodes == s.nodes && t.drivers == s.drivers
    requires forall i :: 0 <= i < |s.stms| && i != p ==> t.stms[i] == s.stms[i]
    requires var r, st := t.stms[p], s.stms[p];
      && Children(r) == Children(st) && r.parent == st.parent && r.index == st.index && r.dst == st.dst
      && r.own == st.own + conds && r.outputs == st.outputs
      && (forall n :: n in r.inputs <==> n in st.inputs || n in conds)
      && r.ifTrue == st.ifTrue && r.ifFalse == st.ifFalse
      && (st.trueGiven ==> r.trueGiven) && (st.falseGiven ==> r.falseGiven)
      && UsedBranches(r) == UsedBranches(st) + 1 && r.rank == st.rank + 1
    requires forall n: Net, i: Id :: Listed(t.endpoints, n, i) <==> Listed(s.endpoints, n, i) || (i == p && n in conds)
    ensures Inv(t)
  {
    GiveFacts(s, t, p, conds);
    GiveCollected(s, t, p, conds);
    GiveRanked(s, t, p);
    GiveLinked(s, t, p, conds);
    GiveNested(s, t);
  }

  lemma GiveFacts(s: State, t: State, p: Id, conds: seq<Net>)
    requires p < |s.stms| && |t.stms| == |s.stms|
    requires forall i :: 0 <= i < |s.stms| && i != p ==> t.stms[i] == s.stms[i]
    requires var r, st := t.stms[p], s.stms[p];
      && Children(r) == Children(st) && r.parent == st.parent && r.outputs == st.outputs
      && (forall n :: n in r.inputs <==> n in st.inputs || n in conds)
    ensures forall i: Id, x: Id :: IsChild(t, i, x) <==> IsChild(s, i, x)
    ensures forall i: Id :: IsTop(t, i) <==> IsTop(s, i)
    ensures forall i: Id, n: Net :: Reads(t, i, n) <==> Reads(s, i, n) || (i == p && n in conds)
    ensures forall i: Id, n: Net :: Writes(t, i, n) <==> Writes(s, i, n)
  {
  }

  lemma GiveLinked(s: State, t: State, p: Id, conds: seq<Net>)
    requires Linked(s) && IsTop(s, p) && t.drivers == s.drivers
    requires forall i: Id :: IsTop(t, i) <==> IsTop(s, i)
    requires forall i: Id, n: Net :: Reads(t, i, n) <==> Reads(s, i, n) || (i == p && n in conds)
    requires forall i: Id, n: Net :: Writes(t, i, n) <==> Writes(s, i, n)
    requires forall n: Net, i: Id :: Listed(t.endpoints, n, i) <==> Listed(s.endpoints, n, i) || (i == p && n in conds)
    ensures Linked(t)
  {
  }

  lemma GiveNested(s: State, t: State)
    requires Nested(s) && Registered(s) && |t.stms| == |s.stms| && t.nodes == s.nodes
    requires forall i: Id, x: Id :: IsChild(t, i, x) <==> IsChild(s, i, x)
    requires forall i: Id :: IsTop(t, i) <==> IsTop(s, i)
    requires forall i :: 0 <= i < |s.stms| ==>
      t.stms[i].parent == s.stms[i].parent && t.stms[i].index == s.stms[i].index
    ensures Nested(t) && Registered(t)
  {
  }

  lemma GiveCollected(s: State, t: State, p: Id, conds: seq<Net>)
    requires Inv(s) && IsTop(s, p) && |t.stms| == |s.stms|
    requires forall i: Id, x: Id :: IsChild(t, i, x) <==> IsChild(s, i, x)
    requires forall i: Id, n: Net :: Reads(t, i, n) <==> Reads(s, i, n) || (i == p && n in conds)
    requires forall i: Id, n: Net :: Writes(t, i, n) <==> Writes(s, i, n)
    requires forall i :: 0 <= i < |s.stms| ==> t.stms[i].own == s.stms[i].own + if i == p then conds else []
    requires forall i :: 0 <= i < |s.stms| ==> t.stms[i].dst == s.stms[i].dst
    ensures Collected(t)
  {
    forall i: Id, n: Net | i < |t.stms|
      ensures ChildReads(t, i, n) <==> ChildReads(s, i, n)
      ensures ChildWrites(t, i, n) <==> ChildWrites(s, i, n)
    {
      TopNotChild(s, i, p);
      SameChildren(s, t, i, n);
    }
  }

  lemma GiveRanked(s: State, t: State, p: Id)
    requires Inv(s) && IsTop(s, p) && |t.stms| == |s.stms|
    requires forall i :: 0 <= i < |s.stms| && i != p ==> t.stms[i] == s.stms[i]
    requires Children(t.stms[p]) == Children(s.stms[p])
    requires UsedBranches(t.stms[p]) == UsedBranches(s.stms[p]) + 1 && t.stms[p].rank == s.stms[p].rank + 1
    ensures Ranked(t)
  {
    forall i | 0 <= i < |t.stms|
      ensures t.stms[i].rank == UsedBranches(t.stms[i]) + RankSum(t, Children(t.stms[i]))
    {
      forall x | x in Children(s.stms[i]) ensures RankOf(s, x) == RankOf(t, x) {
        TopNotChild(s, i, p);
        assert IsChild(s, i, x);
      }
      RankSumSame(s, t, Children(s.stms[i]));
    }
  }

  lemma GiveTrueKeeps(s: State, p: Id)
    requires Inv(s) && IsTop(s, p) && !s.stms[p].trueGiven
    ensures Inv(GiveTrue(s, p)) && IsTop(GiveTrue(s, p), p)
  {
    GiveKeeps(s, GiveTrue(s, p), p, []);
  }

  lemma GiveFalseKeeps(s: State, p: Id)
    requires Inv(s) && IsTop(s, p) && !s.stms[p].falseGiven
    ensures Inv(GiveFalse(s, p)) && IsTop(GiveFalse(s, p), p)
  {
    GiveKeeps(s, GiveFalse(s, p), p, []);
  }

  lemma GiveElifKeeps(s: State, p: Id, cond: Net)
    requires Inv(s) && IsTop(s, p)
    ensures Inv(GiveElif(s, p, cond)) && IsTop(GiveElif(s, p, cond), p)
  {
    JoinConcat(s.stms[p].elseIf);
    GiveKeeps(s, GiveElif(s, p, cond), p, [cond]);
  }

  // ---------- Operations ----------

  /** What the assertions demand of statements put into a branch: different top statements. */
  ghost predicate Free(s: State, p: Id, cs: seq<Id>) {
    && (forall k :: 0 <= k < |cs| ==> IsTop(s, cs[k]) && cs[k] != p)
    && (forall j, k :: 0 <= j < k < |cs| ==> cs[j] != cs[k])
  }

  /** The statements of a list are adopted in order; an assertion ends the loop at one that is not top. */
  function AdoptEach(s: State, p: Id, place: Place, cs: seq<Id>, top: Id): (t: State)
    ensures |t.stms| == |s.stms|
    decreases |cs|
  {
    if cs != [] && CanAdopt(s, p, place, cs[0], top)
    then AdoptEach(Adopt(s, p, place, cs[0], top), p, place, cs[1..], top)
    else s
  }

  /** A top statement with a branch to fill, and statements to put there. */
  ghost predicate Ready(s: State, p: Id, place: Place, cs: seq<Id>) {
    Inv(s) && IsTop(s, p) && MayPut(s.stms[p], place) && Free(s, p, cs)
  }

  lemma AdoptOne(s: State, p: Id, place: Place, cs: seq<Id>)
    requires Ready(s, p, place, cs) && cs != []
    ensures CanAdopt(s, p, place, cs[0], p) && Ready(Adopt(s, p, place, cs[0], p), p, place, cs[1..])
    ensures forall i: Id :: IsTop(Adopt(s, p, place, cs[0], p), i) <==> IsTop(s, i) && i != cs[0]
  {
    AdoptKeeps(s, p, place, cs[0]);
    AdoptFacts(s, p, place, cs[0]);
  }

  lemma {:induction false} AdoptEachKeeps(s: State, p: Id, place: Place, cs: seq<Id>)
    requires Ready(s, p, place, cs)
    ensures var t := AdoptEach(s, p, place, cs, p);
      Inv(t) && IsTop(t, p) && forall i: Id :: IsTop(t, i) <==> IsTop(s, i) && i !in cs
    decreases |cs|
  {
    if cs != [] {
      AdoptOne(s, p, place, cs);
      AdoptEachKeeps(Adopt(s, p, place, cs[0], p), p, place, cs[1..]);
    }
  }

  // The branch is specified first; then the statements can be put there.

  lemma ThenReady(s: State, p: Id, cs: seq<Id>)
    requires Inv(s) && IsTop(s, p) && Free(s, p, cs) && !s.stms[p].trueGiven
    ensures Ready(GiveTrue(s, p), p, InTrue, cs)
  {
    GiveTrueKeeps(s, p);
    FreeStays(s, GiveTrue(s, p), p, cs);
  }

  lemma ElifReady(s: State, p: Id, cond: Net, cs: seq<Id>)
    requires Inv(s) && IsTop(s, p) && Free(s, p, cs)
    ensures Ready(GiveElif(s, p, cond), p, InElif, cs)
  {
    GiveElifKeeps(s, p, cond);
    FreeStays(s, GiveElif(s, p, cond), p, cs);
  }

  lemma ElseReady(s: State, p: Id, cs: seq<Id>)
    requires Inv(s) && IsTop(s, p) && Free(s, p, cs) && !s.stms[p].falseGiven
    ensures Ready(GiveFalse(s, p), p, InFalse, cs)
  {
    GiveFalseKeeps(s, p);
    FreeStays(s, GiveFalse(s, p), p, cs);
  }

  lemma FreeStays(s: State, t: State, p: Id, cs: seq<Id>)
    requires Free(s, p, cs) && |t.stms| == |s.stms|
    requires forall i :: 0 <= i < |s.stms| && i != p ==> t.stms[i] == s.stms[i]
    ensures Free(t, p, cs)
  {
    forall k | 0 <= k < |cs| ensures IsTop(t, cs[k]) {
      assert IsTop(s, cs[k]);
    }
  }

  datatype Op =
    | MakeAssignment(dst: Net, index: seq<Net>, src: Net)
    | MakeIf(cond: Net)
    | Then(p: Id, stms: seq<Id>)
    | Elif(p: Id, elifCond: Net, stms: seq<Id>)
    | Else(p: Id, stms: seq<Id>)

  /** A call on a top if that passes the assertions. */
  ghost predicate Allowed(s: State, op: Op) {
    match op
    case MakeAssignment(_, _, _) => true
    case MakeIf(_) => true
    case Then(p, cs) =>
      && IsTop(s, p) && s.stms[p].dst == None && Free(s, p, cs)
      && !s.stms[p].trueGiven && !s.stms[p].falseGiven && s.stms[p].elseIf == []
    case Elif(p, _, cs) =>
      IsTop(s, p) && s.stms[p].dst == None && Free(s, p, cs) && s.stms[p].trueGiven && !s.stms[p].falseGiven
    case Else(p, cs) => IsTop(s, p) && s.stms[p].dst == None && Free(s, p, cs) && !s.stms[p].falseGiven
  }

  function Step(s: State, op: Op): State
    requires !op.MakeAssignment? && !op.MakeIf? ==> op.p < |s.stms|
  {
    match op
    case MakeAssignment(dst, index, src) => Create(s, Some(dst), index + [src])
    case MakeIf(cond) => Create(s, None, [cond])
    case Then(p, cs) => AdoptEach(GiveTrue(s, p), p, InTrue, cs, p)
    case Elif(p, cond, cs) => AdoptEach(GiveElif(s, p, cond), p, InElif, cs, p)
    case Else(p, cs) => AdoptEach(GiveFalse(s, p), p, InFalse, cs, p)
  }

  lemma ThenKeeps(s: State, p: Id, cs: seq<Id>)
    requires Inv(s) && IsTop(s, p) && Free(s, p, cs) && !s.stms[p].trueGiven
    ensures Inv(AdoptEach(GiveTrue(s, p), p, InTrue, cs, p))
  {
    ThenReady(s, p, cs);
    AdoptEachKeeps(GiveTrue(s, p), p, InTrue, cs);
  }

  lemma ElifKeeps(s: State, p: Id, cond: Net, cs: seq<Id>)
    requires Inv(s) && IsTop(s, p) && Free(s, p, cs)
    ensures Inv(AdoptEach(GiveElif(s, p, cond), p, InElif, cs, p))
  {
    ElifReady(s, p, cond, cs);
    AdoptEachKeeps(GiveElif(s, p, cond), p, InElif, cs);
  }

  lemma ElseKeeps(s: State, p: Id, cs: seq<Id>)
    requires Inv(s) && IsTop(s, p) && Free(s, p, cs) && !s.stms[p].falseGiven
    ensures Inv(AdoptEach(GiveFalse(s, p), p, InFalse, cs, p))
  {
    ElseReady(s, p, cs);
    AdoptEachKeeps(GiveFalse(s, p), p, InFalse, cs);
  }

  lemma StepKeeps(s: State, op: Op)
    requires Inv(s) && Allowed(s, op)
    ensures Inv(Step(s, op))
  {
    match op
    case MakeAssignment(dst, index, src) => CreateKeeps(s, Some(dst), index + [src]);
    case MakeIf(cond) => CreateKeeps(s, None, [cond]);
    case Then(p, cs) => ThenKeeps(s, p, cs);
    case Elif(p, cond, cs) => ElifKeeps(s, p, cond, cs);
    case Else(p, cs) => ElseKeeps(s, p, cs);
  }

  ghost predicate Run(s: State, ops: seq<Op>, t: State)
    decreases |ops|
  {
    if ops == [] then s == t else Allowed(s, ops[0]) && Run(Step(s, ops[0]), ops[1..], t)
  }

  lemma EmptyHolds()
    ensures Inv(EMPTY)
  {
  }

  /** Every sequence of calls on top statements keeps nets, statements and the node list in agreement. */
  lemma {:induction false} RunKeeps(s: State, ops: seq<Op>, t: State)
    requires Inv(s) && Run(s, ops, t)
    ensures Inv(t)
    decreases |ops|
  {
    if ops != [] {
      StepKeeps(s, ops[0]);
      RunKeeps(Step(s, ops[0]), ops[1..], t);
    }
  }

  // ---------- Whole statements ----------

  lemma {:induction false} RankSumCovers(s: State, l: seq<Id>, c: Id)
    requires c in l
    ensures RankOf(s, c) <= RankSum(s, l)
  {
    if l[0] != c {
      RankSumCovers(s, l[1..], c);
    }
  }

  /** A child's rank is smaller. */
  lemma ChildRank(s: State, i: Id, c: Id)
    requires Inv(s) && IsChild(s, i, c)
    ensures RankOf(s, c) < RankOf(s, i)
  {
    RankSumCovers(s, Children(s.stms[i]), c);
    assert UsedBranches(s.stms[i]) > 0 by {
      if s.stms[i].elseIf == [] {
        assert Join(s.stms[i].elseIf) == [];
      }
    }
  }

  /** Ranks get smaller on the way down. */
  ghost predicate RanksFall(s: State) {
    forall i: Id, c: Id :: IsChild(s, i, c) ==> c < |s.stms| && RankOf(s, c) < RankOf(s, i)
  }

  lemma RanksDoFall(s: State)
    requires Inv(s)
    ensures RanksFall(s)
  {
    forall i: Id, c: Id | IsChild(s, i, c) ensures c < |s.stms| && RankOf(s, c) < RankOf(s, i) {
      ChildRank(s, i, c);
    }
  }

  /** The nets a statement reads, or the one it drives. */
  datatype Side = In | Out

  function OwnNets(st: Stm, side: Side): set<Net> {
    match side
    case In => set n | n in st.own
    case Out => if st.dst.Some? then {st.dst.value} else {}
  }

  /** The nets a statement lists as its inputs or outputs. */
  function Shown(st: Stm, side: Side): seq<Net> {
    match side
    case In => st.inputs
    case Out => st.outputs
  }

  predicate Shows(s: State, i: Id, side: Side, n: Net) {
    i < |s.stms| && n in Shown(s.stms[i], side)
  }

  /** Everything a statement or anything inside it reads, or drives. */
  function AllNets(s: State, i: Id, side: Side): set<Net>
    requires RanksFall(s) && i < |s.stms|
    decreases RankOf(s, i), 0
  {
    AllBelow(s, i);
    OwnNets(s.stms[i], side) + AllNetsOf(s, Children(s.stms[i]), side, RankOf(s, i))
  }

  function AllNetsOf(s: State, l: seq<Id>, side: Side, bound: nat): set<Net>
    requires RanksFall(s) && forall k :: 0 <= k < |l| ==> l[k] < |s.stms| && RankOf(s, l[k]) < bound
    decreases bound, 0, |l|
  {
    if l == [] then {} else AllNets(s, l[0], side) + AllNetsOf(s, l[1..], side, bound)
  }

  /** Some statement of the list shows `n`. */
  ghost predicate SomeShows(s: State, l: seq<Id>, side: Side, n: Net) {
    exists c :: c in l && Shows(s, c, side, n)
  }

  lemma AllBelow(s: State, i: Id)
    requires RanksFall(s) && i < |s.stms|
    ensures forall k :: 0 <= k < |Children(s.stms[i])| ==>
      Children(s.stms[i])[k] < |s.stms| && RankOf(s, Children(s.stms[i])[k]) < RankOf(s, i)
  {
    var l := Children(s.stms[i]);
    forall k | 0 <= k < |l| ensures l[k] < |s.stms| && RankOf(s, l[k]) < RankOf(s, i) {
      assert IsChild(s, i, l[k]);
    }
  }

  lemma CollectedSide(s: State, i: Id, side: Side, n: Net)
    requires Collected(s) && i < |s.stms|
    ensures Shows(s, i, side, n) <==>
      n in OwnNets(s.stms[i], side) || SomeShows(s, Children(s.stms[i]), side, n)
  {
    assert Reads(s, i, n) <==> n in s.stms[i].own || ChildReads(s, i, n);
    assert Writes(s, i, n) <==> s.stms[i].dst == Some(n) || ChildWrites(s, i, n);
    if SomeShows(s, Children(s.stms[i]), side, n) {
      var c: Id :| c in Children(s.stms[i]) && Shows(s, c, side, n);
      assert IsChild(s, i, c) && (side.In? ==> Reads(s, c, n)) && (side.Out? ==> Writes(s, c, n));
    }
    if side.In? && ChildReads(s, i, n) {
      var c: Id :| IsChild(s, i, c) && Reads(s, c, n);
      assert c in Children(s.stms[i]) && Shows(s, c, In, n);
    }
    if side.Out? && ChildWrites(s, i, n) {
      var c: Id :| IsChild(s, i, c) && Writes(s, c, n);
      assert c in Children(s.stms[i]) && Shows(s, c, Out, n);
    }
  }

  /** The inputs of a statement are what it and everything inside it reads, its outputs what they drive. */
  lemma {:induction false} ShownAreAll(s: State, i: Id, side: Side, n: Net)
    requires RanksFall(s) && Collected(s) && i < |s.stms|
    ensures n in Shown(s.stms[i], side) <==> n in AllNets(s, i, side)
    decreases RankOf(s, i), 0
  {
    AllBelow(s, i);
    ListShows(s, Children(s.stms[i]), side, RankOf(s, i), n);
    CollectedSide(s, i, side, n);
  }

  lemma {:induction false} ListShows(s: State, l: seq<Id>, side: Side, bound: nat, n: Net)
    requires RanksFall(s) && Collected(s) && forall k :: 0 <= k < |l| ==> l[k] < |s.stms| && RankOf(s, l[k]) < bound
    ensures n in AllNetsOf(s, l, side, bound) <==> SomeShows(s, l, side, n)
    decreases bound, 0, |l|
  {
    if l != [] {
      ShownAreAll(s, l[0], side, n);
      ListShows(s, l[1..], side, bound, n);
      SomeShowsStep(s, l, side, n);
    }
  }

  lemma SomeShowsStep(s: State, l: seq<Id>, side: Side, n: Net)
    requires l != []
    ensures SomeShows(s, l, side, n) <==> Shows(s, l[0], side, n) || SomeShows(s, l[1..], side, n)
  {
    if SomeShows(s, l[1..], side, n) {
      var c: Id :| c in l[1..] && Shows(s, c, side, n);
      assert c in l;
    }
    if SomeShows(s, l, side, n) {
      var c: Id :| c in l && Shows(s, c, side, n);
      assert c == l[0] || c in l[1..];
    }
    if Shows(s, l[0], side, n) {
      assert l[0] in l;
    }
  }

  /** A net lists as endpoints and drivers exactly the top statements that read and drive it, themselves or inside. */
  lemma ListedExactly(s: State, n: Net, i: Id)
    requires Inv(s)
    ensures RanksFall(s)
    ensures i in At(s.endpoints, n) <==> IsTop(s, i) && n in AllNets(s, i, In)
    ensures i in At(s.drivers, n) <==> IsTop(s, i) && n in AllNets(s, i, Out)
  {
    RanksDoFall(s);
    assert Listed(s.endpoints, n, i) <==> IsTop(s, i) && Reads(s, i, n);
    assert Listed(s.drivers, n, i) <==> IsTop(s, i) && Writes(s, i, n);
    if IsTop(s, i) {
      ShownAreAll(s, i, In, n);
      ShownAreAll(s, i, Out, n);
    }
  }

  // ---------- The branch taken on a true condition of a nested if ----------

  /** The rank of a statement is less than what its branches and children add up to. */
  predicate Short(s: State, q: Id) {
    q < |s.stms| && s.stms[q].rank < UsedBranches(s.stms[q]) + RankSum(s, Children(s.stms[q]))
  }

  lemma {:induction false} RankSumGrows(s: State, t: State, l: seq<Id>)
    requires forall c :: c in l ==> RankOf(s, c) <= RankOf(t, c)
    ensures RankSum(s, l) <= RankSum(t, l)
    ensures (exists c :: c in l && RankOf(s, c) < RankOf(t, c)) ==> RankSum(s, l) < RankSum(t, l)
  {
    if l != [] {
      assert l[0] in l;
      RankSumGrows(s, t, l[1..]);
    }
  }

  lemma GiveTrueShort(s: State, p: Id)
    requires Inv(s) && p < |s.stms| && s.stms[p].parent.Some? && !s.stms[p].trueGiven
    ensures Short(GiveTrue(s, p), s.stms[p].parent.value) && s.stms[p].parent.value != p
  {
    var q, t := s.stms[p].parent.value, GiveTrue(s, p);
    assert IsChild(s, q, p);
    ChildRank(s, q, p);
    RankSumGrows(s, t, Children(s.stms[q]));
  }

  lemma AdoptOther(s: State, p: Id, place: Place, c: Id, top: Id, q: Id)
    requires CanAdopt(s, p, place, c, top) && q < |s.stms| && q != p
    ensures var r := Adopt(s, p, place, c, top).stms[q];
      r.rank == s.stms[q].rank && Children(r) == Children(s.stms[q]) && UsedBranches(r) == UsedBranches(s.stms[q])
  {
  }

  lemma AdoptParentRank(s: State, p: Id, place: Place, c: Id, top: Id)
    requires CanAdopt(s, p, place, c, top)
    ensures RankOf(Adopt(s, p, place, c, top), p) == RankOf(s, p) + RankOf(s, c)
  {
  }

  lemma AdoptKeepsShort(s: State, p: Id, place: Place, c: Id, top: Id, q: Id)
    requires CanAdopt(s, p, place, c, top) && Short(s, q) && q != p
    ensures Short(Adopt(s, p, place, c, top), q)
  {
    var t := Adopt(s, p, place, c, top);
    forall x: Id ensures RankOf(s, x) <= RankOf(t, x) {
      if x == p {
        AdoptParentRank(s, p, place, c, top);
      } else if x < |s.stms| {
        AdoptOther(s, p, place, c, top, x);
      }
    }
    AdoptOther(s, p, place, c, top, q);
    RankSumGrows(s, t, Children(s.stms[q]));
  }

  lemma {:induction false} AdoptEachKeepsShort(s: State, p: Id, place: Place, cs: seq<Id>, top: Id, q: Id)
    requires Short(s, q) && q != p
    ensures Short(AdoptEach(s, p, place, cs, top), q)
    decreases |cs|
  {
    if cs != [] && CanAdopt(s, p, place, cs[0], top) {
      AdoptKeepsShort(s, p, place, cs[0], top, q);
      AdoptEachKeepsShort(Adopt(s, p, place, cs[0], top), p, place, cs[1..], top, q);
    }
  }

  /**
    The call that fills the first branch is not asserted to be on a top statement.  It keeps
    the records in agreement exactly when it is, whatever statement the others are handed to.
  */
  lemma ThenNeedsTop(s: State, p: Id, cs: seq<Id>, top: Id)
    requires Inv(s) && p < |s.stms| && !s.stms[p].trueGiven && Free(s, p, cs) && (IsTop(s, p) ==> top == p)
    ensures Inv(AdoptEach(GiveTrue(s, p), p, InTrue, cs, top)) <==> IsTop(s, p)
  {
    if IsTop(s, p) {
      ThenKeeps(s, p, cs);
    } else {
      GiveTrueShort(s, p);
      AdoptEachKeepsShort(GiveTrue(s, p), p, InTrue, cs, top, s.stms[p].parent.value);
    }
  }

  /** One if in another, then the inner one filled: the outer one has the rank of one branch, not of two. */
  lemma ThenNestedFails()
    ensures
      var s := Step(TwoIfs(), Then(0, [1]));
      |s.stms| == 2 && Inv(s) && !IsTop(s, 1) && !Inv(GiveTrue(s, 1))
  {
    TwoIfsHold();
    NestThenFill(TwoIfs(), 0, 1);
  }

  function TwoIfs(): State {
    Create(Create(EMPTY, None, [0]), None, [1])
  }

  lemma TwoIfsHold()
    ensures var s := TwoIfs();
      && Inv(s) && |s.stms| == 2
      && forall i :: 0 <= i < 2 ==> IsTop(s, i) && s.stms[i].dst == None && s.stms[i].elseIf == []
                                    && !s.stms[i].trueGiven && !s.stms[i].falseGiven
  {
    EmptyHolds();
    CreateKeeps(EMPTY, None, [0]);
    CreateKeeps(Create(EMPTY, None, [0]), None, [1]);
  }

  lemma NestThenFill(b: State, p: Id, c: Id)
    requires Inv(b) && Allowed(b, Then(p, [c])) && c < |b.stms| && !b.stms[c].trueGiven
    ensures var s := Step(b, Then(p, [c]));
      |s.stms| == |b.stms| && Inv(s) && !IsTop(s, c) && !Inv(GiveTrue(s, c))
  {
    var s := Step(b, Then(p, [c]));
    StepKeeps(b, Then(p, [c]));
    ThenReady(b, p, [c]);
    AdoptEachKeeps(GiveTrue(b, p), p, InTrue, [c]);
    AdoptEachGiven(GiveTrue(b, p), p, InTrue, [c], p, c);
    ThenNeedsTop(s, c, [], p);
  }

  /** Adopting gives no branch that was not given. */
  lemma {:induction false} AdoptEachGiven(s: State, p: Id, place: Place, cs: seq<Id>, top: Id, q: Id)
    requires q < |s.stms|
    ensures AdoptEach(s, p, place, cs, top).stms[q].trueGiven == s.stms[q].trueGiven
    decreases |cs|
  {
    if cs != [] && CanAdopt(s, p, place, cs[0], top) {
      AdoptEachGiven(Adopt(s, p, place, cs[0], top), p, place, cs[1..], top, q);
    }
  }

  // ---------- The way up ----------

  /** A statement, the one it is in, and so on up to one that is in none. */
  predicate Climb(s: State, p: Id, up: seq<Id>)
    decreases |up|
  {
    && up != [] && up[0] == p && p < |s.stms|
    && match s.stms[p].parent
       case None => |up| == 1
       case Some(q) => Climb(s, q, up[1..])
  }

  function TopOf(up: seq<Id>): Id
    requires up != []
  {
    up[|up| - 1]
  }

  lemma {:induction false} ClimbTop(s: State, p: Id, up: seq<Id>)
    requires Climb(s, p, up)
    ensures IsTop(s, TopOf(up)) && (IsTop(s, p) ==> up == [p])
    decreases |up|
  {
    if s.stms[p].parent.Some? {
      ClimbTop(s, s.stms[p].parent.value, up[1..]);
    }
  }

  /** There is only one way up. */
  lemma {:induction false} OneClimb(s: State, p: Id, up: seq<Id>, other: seq<Id>)
    requires Climb(s, p, up) && Climb(s, p, other)
    ensures up == other
    decreases |up|
  {
    if s.stms[p].parent.Some? {
      OneClimb(s, s.stms[p].parent.value, up[1..], other[1..]);
      assert up == [up[0]] + up[1..] && other == [other[0]] + other[1..];
    }
  }

  /** While the records agree, every statement is in a top one, because ranks rise on the way up. */
  lemma EveryClimb(s: State, p: Id) returns (up: seq<Id>)
    requires Inv(s) && p < |s.stms|
    ensures Climb(s, p, up)
    decreases RankSum(s, Ids(|s.stms|)) - RankOf(s, p)
  {
    if s.stms[p].parent == None {
      return [p];
    }
    var q := s.stms[p].parent.value;
    assert IsChild(s, q, p);
    ChildRank(s, q, p);
    RankSumCovers(s, Ids(|s.stms|), q);
    var rest := EveryClimb(s, q);
    up := [p] + rest;
    assert up[1..] == rest;
  }

  /** The way up stays when only a top statement that is not on it is put somewhere. */
  lemma {:induction false} ClimbStays(s: State, t: State, p: Id, up: seq<Id>, c: Id)
    requires Climb(s, p, up) && IsTop(s, c) && c != TopOf(up) && |t.stms| == |s.stms|
    requires forall i :: 0 <= i < |s.stms| && i != c ==> t.stms[i].parent == s.stms[i].parent
    ensures Climb(t, p, up)
    decreases |up|
  {
    ClimbTop(s, p, up);
    if s.stms[p].parent.Some? {
      ClimbStays(s, t, s.stms[p].parent.value, up[1..], c);
    }
  }

  lemma {:induction false} ClimbSame(s: State, t: State, p: Id, up: seq<Id>)
    requires Climb(s, p, up) && |t.stms| == |s.stms|
    requires forall i :: 0 <= i < |s.stms| ==> t.stms[i].parent == s.stms[i].parent
    ensures Climb(t, p, up)
    decreases |up|
  {
    if s.stms[p].parent.Some? {
      ClimbSame(s, t, s.stms[p].parent.value, up[1..]);
    }
  }

  ghost function Ids(n: nat): (l: seq<Id>)
    ensures |l| == n && forall i: Id :: i in l <==> i < n
  {
    if n == 0 then [] else Ids(n - 1) + [n - 1]
  }

  /** Statements that can be put into a branch of `p`, which is in `TopOf(up)`: different top ones, and not that one. */
  ghost predicate Placeable(s: State, p: Id, place: Place, cs: seq<Id>, up: seq<Id>) {
    && Climb(s, p, up) && MayPut(s.stms[p], place) && Free(s, p, cs) && TopOf(up) !in cs
    && forall i :: 0 <= i < |s.stms| ==> s.stms[i].index < |s.nodes|
  }

  /** An adoption leaves the way up as it was. */
  lemma AdoptPlaceable(s: State, p: Id, place: Place, cs: seq<Id>, up: seq<Id>)
    requires Placeable(s, p, place, cs, up) && cs != []
    ensures CanAdopt(s, p, place, cs[0], TopOf(up))
    ensures Placeable(Adopt(s, p, place, cs[0], TopOf(up)), p, place, cs[1..], up)
  {
    var c, top := cs[0], TopOf(up);
    ClimbTop(s, p, up);
    assert c in cs && IsTop(s, c);
    var t := Adopt(s, p, place, c, top);
    PutKeeps(s.stms[p], place, c);
    forall i | 0 <= i < |s.stms|
      ensures t.stms[i].index == s.stms[i].index && (i != c ==> t.stms[i].parent == s.stms[i].parent)
      ensures i == p ==> MayPut(t.stms[i], place)
    {
      AdoptRecord(s, p, place, c, top, i);
    }
    ClimbStays(s, t, p, up, c);
    forall k | 0 <= k < |cs[1..]| ensures IsTop(t, cs[1..][k]) && cs[1..][k] != p {
      assert cs[1..][k] == cs[k + 1] && IsTop(s, cs[k + 1]);
    }
  }

  lemma PutKeeps(st: Stm, place: Place, c: Id)
    requires MayPut(st, place)
    ensures var r := Put(st, place, c); r.parent == st.parent && r.index == st.index && MayPut(r, place)
  {
  }

  lemma AdoptRecord(s: State, p: Id, place: Place, c: Id, top: Id, i: Id)
    requires CanAdopt(s, p, place, c, top) && i < |s.stms|
    ensures var r, st := Adopt(s, p, place, c, top).stms[i], s.stms[i];
      r.index == st.index && (i != c ==> r.parent == st.parent) && (i == p ==> MayPut(r, place))
  {
  }

  lemma GiveTruePlaceable(s: State, p: Id, cs: seq<Id>, up: seq<Id>)
    requires Inv(s) && Climb(s, p, up) && Free(s, p, cs) && TopOf(up) !in cs
    ensures Placeable(GiveTrue(s, p), p, InTrue, cs, up)
  {
    ClimbSame(s, GiveTrue(s, p), p, up);
    FreeStays(s, GiveTrue(s, p), p, cs);
  }

  lemma ReadyPlaceable(s: State, p: Id, place: Place, cs: seq<Id>)
    requires Ready(s, p, place, cs)
    ensures Placeable(s, p, place, cs, [p])
  {
  }

  // ---------- Which branch gets what ----------

  predicate SameBranches(r: Stm, st: Stm) {
    && r.ifTrue == st.ifTrue && r.elseIf == st.elseIf && r.ifFalse == st.ifFalse
    && r.trueGiven == st.trueGiven && r.falseGiven == st.falseGiven
  }

  /** What became of one statement when those of `cs` were put into `p`, which is in `top`. */
  predicate MovedOne(s: State, t: State, p: Id, cs: seq<Id>, top: Id, i: Id)
    requires i < |s.stms| == |t.stms|
  {
    var r, st := t.stms[i], s.stms[i];
    && r.index == st.index && r.dst == st.dst && r.own == st.own
    && r.parent == (if i in cs then Some(p) else st.parent)
    && r.rank == st.rank + (if i == p then RankSum(s, cs) else 0)
    && (i != p ==> SameBranches(r, st))
    && st.inputs <= r.inputs && st.outputs <= r.outputs
    && (i != top ==> r.inputs == st.inputs && r.outputs == st.outputs)
  }

  ghost predicate Moved(s: State, t: State, p: Id, cs: seq<Id>, top: Id) {
    |t.stms| == |s.stms| && forall i: Id :: i < |s.stms| ==> MovedOne(s, t, p, cs, top, i)
  }

  /** The branch at `place` has `cs` behind what it had, and the other branches are as they were. */
  predicate Filled(st: Stm, r: Stm, place: Place, cs: seq<Id>) {
    var k := |st.elseIf| - 1;
    && r.trueGiven == st.trueGiven && r.falseGiven == st.falseGiven
    && r.ifTrue == (if place.InTrue? then st.ifTrue + cs else st.ifTrue)
    && r.ifFalse == (if place.InFalse? then st.ifFalse + cs else st.ifFalse)
    && if place.InElif? then k >= 0 && r.elseIf == st.elseIf[k := st.elseIf[k] + cs] else r.elseIf == st.elseIf
  }

  lemma AdoptMoves(s: State, p: Id, place: Place, c: Id, top: Id)
    requires CanAdopt(s, p, place, c, top)
    ensures Moved(s, Adopt(s, p, place, c, top), p, [c], top)
    ensures Filled(s.stms[p], Adopt(s, p, place, c, top).stms[p], place, [c])
  {
    var t := Adopt(s, p, place, c, top);
    assert RankSum(s, [c]) == RankOf(s, c);
    forall i: Id | i < |s.stms| ensures MovedOne(s, t, p, [c], top, i) {
    }
  }

  lemma MovesFollow(s: State, u: State, t: State, p: Id, c: Id, cs: seq<Id>, top: Id)
    requires Moved(s, u, p, [c], top) && Moved(u, t, p, cs, top) && p !in cs
    ensures Moved(s, t, p, [c] + cs, top)
  {
    forall x | x in cs ensures RankOf(u, x) == RankOf(s, x) {
      if x < |s.stms| {
        assert MovedOne(s, u, p, [c], top, x);
      }
    }
    RankSumSame(u, s, cs);
    assert ([c] + cs)[1..] == cs && RankSum(s, [c]) == RankOf(s, c);
    forall i: Id | i < |s.stms| ensures MovedOne(s, t, p, [c] + cs, top, i) {
      assert MovedOne(s, u, p, [c], top, i) && MovedOne(u, t, p, cs, top, i);
    }
  }

  lemma TwoBehind(l: seq<Id>, c: Id, cs: seq<Id>)
    ensures l + [c] + cs == l + ([c] + cs)
  {
  }

  lemma FilledFollow(st: Stm, u: Stm, r: Stm, place: Place, c: Id, cs: seq<Id>)
    requires Filled(st, u, place, [c]) && Filled(u, r, place, cs)
    ensures Filled(st, r, place, [c] + cs)
  {
    match place
    case InTrue => TwoBehind(st.ifTrue, c, cs);
    case InFalse => TwoBehind(st.ifFalse, c, cs);
    case InElif =>
      var k := |st.elseIf| - 1;
      TwoBehind(st.elseIf[k], c, cs);
      assert st.elseIf[k := u.elseIf[k]][k := r.elseIf[k]] == st.elseIf[k := r.elseIf[k]];
  }

  lemma FilledNothing(st: Stm, place: Place)
    requires MayPut(st, place)
    ensures Filled(st, st, place, [])
  {
    if place.InElif? {
      var k := |st.elseIf| - 1;
      assert st.elseIf[k] + [] == st.elseIf[k] && st.elseIf[k := st.elseIf[k]] == st.elseIf;
    }
  }

  /** The statements of a list are put, in order, into one branch; no other branch and no other statement's changes. */
  lemma {:induction false} AdoptEachMoves(s: State, p: Id, place: Place, cs: seq<Id>, up: seq<Id>)
    requires Placeable(s, p, place, cs, up)
    ensures var t := AdoptEach(s, p, place, cs, TopOf(up));
      Moved(s, t, p, cs, TopOf(up)) && Filled(s.stms[p], t.stms[p], place, cs)
    decreases |cs|
  {
    if cs == [] {
      FilledNothing(s.stms[p], place);
    } else {
      var c, top := cs[0], TopOf(up);
      AdoptPlaceable(s, p, place, cs, up);
      var u := Adopt(s, p, place, c, top);
      AdoptMoves(s, p, place, c, top);
      AdoptEachMoves(u, p, place, cs[1..], up);
      assert cs == [c] + cs[1..];
      MovesFollow(s, u, AdoptEach(u, p, place, cs[1..], top), p, c, cs[1..], top);
      FilledFollow(s.stms[p], u.stms[p], AdoptEach(u, p, place, cs[1..], top).stms[p], place, c, cs[1..]);
    }
  }

  /** The statements of `cs` went under `p`; apart from `p` no statement has other branches, conditions or rank. */
  ghost predicate OnlyUnder(s: State, t: State, p: Id, cs: seq<Id>) {
    |t.stms| == |s.stms| && forall i: Id :: i < |s.stms| ==> OneUnder(s, t, p, cs, i)
  }

  predicate OneUnder(s: State, t: State, p: Id, cs: seq<Id>, i: Id)
    requires i < |s.stms| == |t.stms|
  {
    var r, st := t.stms[i], s.stms[i];
    && r.index == st.index && r.dst == st.dst && st.inputs <= r.inputs && st.outputs <= r.outputs
    && r.parent == (if i in cs then Some(p) else st.parent)
    && (i != p ==> SameBranches(r, st) && r.own == st.own && r.rank == st.rank)
  }

  /** After the first branch is filled, on a top if or a nested one: it is the list, and there is no other branch. */
  lemma AfterThen(s: State, p: Id, cs: seq<Id>, up: seq<Id>)
    requires Inv(s) && Climb(s, p, up) && TopOf(up) !in cs && Free(s, p, cs)
    requires !s.stms[p].trueGiven && !s.stms[p].falseGiven && s.stms[p].elseIf == []
    ensures var t := AdoptEach(GiveTrue(s, p), p, InTrue, cs, TopOf(up)); OnlyUnder(s, t, p, cs) && ThenIs(s, t, p, cs)
  {
    var g := GiveTrue(s, p);
    GiveTruePlaceable(s, p, cs, up);
    AdoptEachMoves(g, p, InTrue, cs, up);
    UnderGiven(s, g, AdoptEach(g, p, InTrue, cs, TopOf(up)), p, cs, TopOf(up));
    assert [] + cs == cs;
  }

  predicate ThenIs(s: State, t: State, p: Id, cs: seq<Id>)
    requires p < |s.stms| == |t.stms|
  {
    var r, st := t.stms[p], s.stms[p];
    && r.ifTrue == cs && r.elseIf == [] && r.ifFalse == [] && r.trueGiven && !r.falseGiven
    && r.own == st.own && r.rank == st.rank + 1 + RankSum(s, cs)
  }

  lemma UnderGiven(s: State, g: State, t: State, p: Id, cs: seq<Id>, top: Id)
    requires |g.stms| == |s.stms| && p < |s.stms| && p !in cs && Moved(g, t, p, cs, top)
    requires forall i :: 0 <= i < |s.stms| && i != p ==> g.stms[i] == s.stms[i]
    requires var r, st := g.stms[p], s.stms[p];
      && r.index == st.index && r.dst == st.dst && r.parent == st.parent
      && st.inputs <= r.inputs && st.outputs <= r.outputs
    ensures OnlyUnder(s, t, p, cs) && RankSum(g, cs) == RankSum(s, cs)
    ensures t.stms[p].own == g.stms[p].own && t.stms[p].rank == g.stms[p].rank + RankSum(s, cs)
  {
    RankSumSame(g, s, cs);
    assert MovedOne(g, t, p, cs, top, p);
    forall i: Id | i < |s.stms| ensures OneUnder(s, t, p, cs, i) {
      assert MovedOne(g, t, p, cs, top, i);
    }
  }

  /**
    After an else-if: the branches before it are as they were, the last else-if is the list, its
    condition the last one.
  */
  lemma AfterElif(s: State, p: Id, cond: Net, cs: seq<Id>)
    requires Inv(s) && Allowed(s, Elif(p, cond, cs))
    ensures var t := Step(s, Elif(p, cond, cs)); OnlyUnder(s, t, p, cs) && ElifIs(s, t, p, cond, cs)
  {
    var g := GiveElif(s, p, cond);
    ElifReady(s, p, cond, cs);
    ReadyPlaceable(g, p, InElif, cs);
    AdoptEachMoves(g, p, InElif, cs, [p]);
    UnderGiven(s, g, AdoptEach(g, p, InElif, cs, p), p, cs, p);
    NewElif(s.stms[p].elseIf, g.stms[p], AdoptEach(g, p, InElif, cs, p).stms[p], cs);
  }

  lemma NewElif(elifs: seq<seq<Id>>, st: Stm, r: Stm, cs: seq<Id>)
    requires st.elseIf == elifs + [[]] && Filled(st, r, InElif, cs)
    ensures r.elseIf == elifs + [cs]
  {
    assert [] + cs == cs;
    assert st.elseIf[|elifs| := cs] == elifs + [cs];
  }

  predicate ElifIs(s: State, t: State, p: Id, cond: Net, cs: seq<Id>)
    requires p < |s.stms| == |t.stms|
  {
    var r, st := t.stms[p], s.stms[p];
    && r.ifTrue == st.ifTrue && r.elseIf == st.elseIf + [cs] && r.ifFalse == st.ifFalse
    && r.trueGiven == st.trueGiven && r.falseGiven == st.falseGiven
    && r.own == st.own + [cond] && r.rank == st.rank + 1 + RankSum(s, cs)
  }

  /** After the else: its branch is the list, and the others are as they were. */
  lemma AfterElse(s: State, p: Id, cs: seq<Id>)
    requires Inv(s) && Allowed(s, Else(p, cs))
    ensures var t := Step(s, Else(p, cs)); OnlyUnder(s, t, p, cs) && ElseIs(s, t, p, cs)
  {
    var g := GiveFalse(s, p);
    ElseReady(s, p, cs);
    ReadyPlaceable(g, p, InFalse, cs);
    AdoptEachMoves(g, p, InFalse, cs, [p]);
    UnderGiven(s, g, AdoptEach(g, p, InFalse, cs, p), p, cs, p);
    assert [] + cs == cs;
  }

  predicate ElseIs(s: State, t: State, p: Id, cs: seq<Id>)
    requires p < |s.stms| == |t.stms|
  {
    var r, st := t.stms[p], s.stms[p];
    && r.ifTrue == st.ifTrue && r.elseIf == st.elseIf && r.ifFalse == cs
    && r.trueGiven == st.trueGiven && r.falseGiven
    && r.own == st.own && r.rank == st.rank + 1 + RankSum(s, cs)
  }

  // ---------- The order in which nets list statements ----------

  lemma {:induction false} ListedLast(m: map<Net, seq<Id>>, ns: seq<Net>, i: Id, n: Net)
    ensures At(ListAll(m, ns, i), n) == if n in ns then Pushed(At(m, n), i) else At(m, n)
    decreases |ns|
  {
    if ns != [] {
      ListedLast(m[ns[0] := Pushed(At(m, ns[0]), i)], ns[1..], i, n);
    }
  }

  /** Where `from` is handed over, the other entries keep their order, and `to` is last unless it was there. */
  lemma {:induction false} HandedOver(m: map<Net, seq<Id>>, ns: seq<Net>, from: Id, to: Id, n: Net)
    requires from != to
    ensures At(MoveAll(m, ns, from, to), n) == if n in ns then Pushed(Without(At(m, n), from), to) else At(m, n)
    decreases |ns|
  {
    if ns != [] {
      var l := Pushed(Without(At(m, ns[0]), from), to);
      HandedOver(m[ns[0] := l], ns[1..], from, to, n);
    }
  }

  // ---------- The order of calls ----------

  /** Which of the three calls may be made on `p` with this list. */
  ghost predicate Calls(s: State, p: Id, cs: seq<Id>, first: bool, elif: bool, last: bool) {
    && (Allowed(s, Then(p, cs)) <==> first) && (Allowed(s, Else(p, cs)) <==> last)
    && forall cond: Net :: Allowed(s, Elif(p, cond, cs)) <==> elif
  }

  /** On a new if the first branch or the else can be filled, on a new assignment nothing. */
  lemma NewCalls(s: State, op: Op, cs: seq<Id>)
    requires Inv(s) && (op.MakeIf? || op.MakeAssignment?) && Free(Step(s, op), |s.stms|, cs)
    ensures Allowed(s, op) && Calls(Step(s, op), |s.stms|, cs, op.MakeIf?, false, op.MakeIf?)
  {
  }

  /** After the first branch or an else-if only further else-ifs and the else can follow, after the else nothing. */
  lemma LaterCalls(s: State, op: Op, cs: seq<Id>)
    requires Inv(s) && !op.MakeIf? && !op.MakeAssignment? && Allowed(s, op) && Free(Step(s, op), op.p, cs)
    ensures Calls(Step(s, op), op.p, cs, false, !op.Else?, !op.Else?)
  {
    var p, t := op.p, Step(s, op);
    match op {
      case Then(_, stms) => AfterThen(s, p, stms, [p]);
      case Elif(_, cond, stms) => AfterElif(s, p, cond, stms);
      case Else(_, stms) => AfterElse(s, p, stms);
    }
    assert OneUnder(s, t, p, op.stms, p);
  }

  // ---------- What a constructor records ----------

  /** A new statement is in none, has no branches, and is at the end of the node list. */
  predicate Fresh(s: State, t: State, dst: Option<Net>, own: seq<Net>) {
    var k := |s.stms|;
    && |t.stms| == k + 1 && s.stms <= t.stms && |t.nodes| == |s.nodes| + 1 && s.nodes <= t.nodes
    && t.nodes[|s.nodes|] == Some(k) && t.stms[k].index == |s.nodes|
    && t.stms[k].parent == None && t.stms[k].dst == dst && t.stms[k].own == own && t.stms[k].rank == 0
    && !t.stms[k].trueGiven && !t.stms[k].falseGiven && t.stms[k].elseIf == [] && Children(t.stms[k]) == []
  }

  lemma CreateFresh(s: State, dst: Option<Net>, own: seq<Net>)
    ensures Fresh(s, Create(s, dst, own), dst, own)
  {
  }

  /** It comes last among the endpoints of what it reads and the drivers of what it drives, each net listed once. */
  lemma AfterCreate(s: State, dst: Option<Net>, own: seq<Net>, n: Net)
    requires Inv(s)
    ensures var t, k := Create(s, dst, own), |s.stms|;
      && Fresh(s, t, dst, own)
      && NoDuplicates(t.stms[k].inputs) && (n in t.stms[k].inputs <==> n in own)
      && NoDuplicates(t.stms[k].outputs) && (n in t.stms[k].outputs <==> dst == Some(n))
      && At(t.endpoints, n) == At(s.endpoints, n) + (if n in own then [k] else [])
      && At(t.drivers, n) == At(s.drivers, n) + (if dst == Some(n) then [k] else [])
  {
    CreateFresh(s, dst, own);
    ExtendedNoDuplicates<Net>([], own);
    CreateLast(s, own, n);
    CreateLast(s, if dst.Some? then [dst.value] else [], n);
  }

  lemma CreateLast(s: State, ns: seq<Net>, n: Net)
    requires Linked(s)
    ensures At(ListAll(s.endpoints, ns, |s.stms|), n) == At(s.endpoints, n) + (if n in ns then [|s.stms|] else [])
    ensures At(ListAll(s.drivers, ns, |s.stms|), n) == At(s.drivers, n) + (if n in ns then [|s.stms|] else [])
  {
    ListedLast(s.endpoints, ns, |s.stms|, n);
    ListedLast(s.drivers, ns, |s.stms|, n);
    assert !Listed(s.endpoints, n, |s.stms|) && !Listed(s.drivers, n, |s.stms|);
  }

  // ---------- In place ----------

  class Netlist {
    var stms: seq<Stm>
    var drivers: map<Net, seq<Id>>
    var endpoints: map<Net, seq<Id>>
    var nodes: seq<Option<Id>>

    function View(): State
      reads this
    {
      State(stms, drivers, endpoints, nodes)
    }

    constructor ()
      ensures View() == EMPTY
    {
      stms, drivers, endpoints, nodes := [], map[], map[], [];
    }

    /** The constructors of assignments and ifs: register, connect, collect. */
    method NewStatement(dst: Option<Net>, own: seq<Net>) returns (i: Id)
      modifies this
      ensures i == |old(stms)| && View() == Create(old(View()), dst, own)
    {
      i := |stms|;
      endpoints := ConnectEach(endpoints, own, i);
      var inputs := CollectEach(own);
      var outputs: seq<Net> := [];
      if dst.Some? {
        outputs := [dst.value];
      }
      drivers := ConnectEach(drivers, outputs, i);
      stms := stms + [Stm(None, |nodes|, dst, own, [], [], [], false, false, inputs, outputs, 0)];
      nodes := nodes + [Some(i)];
    }

    /** The record changes of _set_parent_stm and the push that follows it. */
    method HandOver(c: Id, p: Id, place: Place, top: Id)
      requires CanAdopt(View(), p, place, c, top) && stms[c].index < |nodes|
      modifies this
      ensures View() == Adopt(old(View()), p, place, c, top)
    {
      var child := stms[c];
      stms := stms[c := child.(parent := Some(p))];
      endpoints := MoveEach(endpoints, child.inputs, c, top);
      drivers := MoveEach(drivers, child.outputs, c, top);
      stms := stms[top := stms[top].(inputs := Extended(stms[top].inputs, child.inputs),
          outputs := Extended(stms[top].outputs, child.outputs))];
      nodes := nodes[child.index := None];
      stms := stms[p := Put(stms[p].(rank := stms[p].rank + child.rank), place, c)];
    }

    /** Puts the statements of a list into a branch, in order; the records go to the top statement `p` is in. */
    method RegisterStatements(p: Id, place: Place, cs: seq<Id>, ghost s: State, ghost up: seq<Id>)
      requires View() == s && Placeable(s, p, place, cs, up)
      modifies this
      ensures View() == AdoptEach(s, p, place, cs, TopOf(up))
    {
      ghost var t := s;
      for k := 0 to |cs|
        invariant View() == t && Pending(t, p, place, cs[k..], up, AdoptEach(s, p, place, cs, TopOf(up)))
      {
        assert cs[k..][0] == cs[k] && cs[k..][1..] == cs[k + 1..];
        AdoptPlaceable(t, p, place, cs[k..], up);
        SetParent(cs[k], p, place, t, up);
        t := Adopt(t, p, place, cs[k], TopOf(up));
      }
    }

    /** A statement, nested or not, takes in a top one. */
    method SetParent(c: Id, p: Id, place: Place, ghost s: State, ghost up: seq<Id>)
      requires View() == s && Climb(s, p, up) && CanAdopt(s, p, place, c, TopOf(up)) && stms[c].index < |nodes|
      modifies this
      ensures View() == Adopt(s, p, place, c, TopOf(up))
    {
      var top := TopStatement(View(), p, up);
      HandOver(c, p, place, top);
    }

    /** The call that fills the first branch; unlike the others it may be made on a nested if. */
    method FillTrue(p: Id, cs: seq<Id>, ghost up: seq<Id>)
      requires Inv(View()) && Climb(View(), p, up) && TopOf(up) !in cs && Free(View(), p, cs)
      requires stms[p].dst == None && !stms[p].trueGiven && !stms[p].falseGiven && stms[p].elseIf == []
      modifies this
      ensures View() == AdoptEach(GiveTrue(old(View()), p), p, InTrue, cs, TopOf(up))
      ensures IsTop(old(View()), p) ==> View() == Step(old(View()), Then(p, cs))
      ensures OnlyUnder(old(View()), View(), p, cs) && ThenIs(old(View()), View(), p, cs)
    {
      ghost var s := GiveTrue(View(), p);
      GiveTruePlaceable(View(), p, cs, up);
      AfterThen(View(), p, cs, up);
      if stms[p].parent == None {
        OneClimb(View(), p, up, [p]);
      }
      OpenTrue(p);
      RegisterStatements(p, InTrue, cs, s, up);
    }

    method AddElif(p: Id, cond: Net, cs: seq<Id>)
      requires Inv(View()) && Allowed(View(), Elif(p, cond, cs))
      modifies this
      ensures View() == Step(old(View()), Elif(p, cond, cs))
      ensures OnlyUnder(old(View()), View(), p, cs) && ElifIs(old(View()), View(), p, cond, cs)
    {
      AfterElif(View(), p, cond, cs);
      ElifReady(View(), p, cond, cs);
      ghost var s := GiveElif(View(), p, cond);
      ReadyPlaceable(s, p, InElif, cs);
      OpenElif(p, cond);
      RegisterStatements(p, InElif, cs, s, [p]);
    }

    method OpenTrue(p: Id)
      requires p < |stms|
      modifies this
      ensures View() == GiveTrue(old(View()), p)
    {
      stms := stms[p := stms[p].(rank := stms[p].rank + 1, trueGiven := true)];
    }

    method OpenFalse(p: Id)
      requires p < |stms|
      modifies this
      ensures View() == GiveFalse(old(View()), p)
    {
      stms := stms[p := stms[p].(falseGiven := true, rank := stms[p].rank + 1)];
    }

    method OpenElif(p: Id, cond: Net)
      requires p < |stms|
      modifies this
      ensures View() == GiveElif(old(View()), p, cond)
    {
      var st := stms[p];
      endpoints := ConnectEach(endpoints, [cond], p);
      stms := stms[p := st.(own := st.own + [cond], rank := st.rank + 1, inputs := Pushed(st.inputs, cond),
          elseIf := st.elseIf + [[]])];
    }

    method FillFalse(p: Id, cs: seq<Id>)
      requires Inv(View()) && Allowed(View(), Else(p, cs))
      modifies this
      ensures View() == Step(old(View()), Else(p, cs))
      ensures OnlyUnder(old(View()), View(), p, cs) && ElseIs(old(View()), View(), p, cs)
    {
      AfterElse(View(), p, cs);
      ElseReady(View(), p, cs);
      ghost var s := GiveFalse(View(), p);
      ReadyPlaceable(s, p, InFalse, cs);
      OpenFalse(p);
      RegisterStatements(p, InFalse, cs, s, [p]);
    }
  }

  /** What is left to adopt can be adopted, and leads to `all`. */
  ghost predicate Pending(s: State, p: Id, place: Place, cs: seq<Id>, up: seq<Id>, all: State) {
    Placeable(s, p, place, cs, up) && AdoptEach(s, p, place, cs, TopOf(up)) == all
  }

  /** Climbs from a statement to the top one it is in. */
  method TopStatement(s: State, p: Id, ghost up: seq<Id>) returns (top: Id)
    requires Climb(s, p, up)
    ensures top == TopOf(up)
  {
    top := p;
    ghost var rest := up;
    while s.stms[top].parent.Some?
      invariant Climb(s, top, rest) && TopOf(rest) == TopOf(up)
      decreases |rest|
    {
      top, rest := s.stms[top].parent.value, rest[1..];
    }
  }

  method ConnectEach(m: map<Net, seq<Id>>, ns: seq<Net>, i: Id) returns (r: map<Net, seq<Id>>)
    ensures r == ListAll(m, ns, i)
  {
    r := m;
    for k := 0 to |ns|
      invariant ListAll(r, ns[k..], i) == ListAll(m, ns, i)
    {
      assert ns[k..][1..] == ns[k + 1..];
      r := r[ns[k] := Pushed(At(r, ns[k]), i)];
    }
  }

  method CollectEach(own: seq<Net>) returns (inputs: seq<Net>)
    ensures inputs == Extended([], own)
  {
    inputs := [];
    for k := 0 to |own|
      invariant Extended(inputs, own[k..]) == Extended([], own)
    {
      assert own[k..][1..] == own[k + 1..];
      inputs := Pushed(inputs, own[k]);
    }
  }

  /** The loop over the inputs or outputs of a statement that is handed over. */
  method MoveEach(m: map<Net, seq<Id>>, ns: seq<Net>, from: Id, to: Id) returns (r: map<Net, seq<Id>>)
    requires from != to
    ensures r == MoveAll(m, ns, from, to)
  {
    r := m;
    for k := 0 to |ns|
      invariant MoveAll(r, ns[k..], from, to) == MoveAll(m, ns, from, to)
    {
      assert ns[k..][1..] == ns[k + 1..];
      r := r[ns[k] := Pushed(Without(At(r, ns[k]), from), to)];
    }
  }
}
