/**
  The loops of fill_enclosure and fill_stm_list_with_enclosure (statement_to_hwprocess.cpp),
  with the lists handed back to the caller.
*/
module FillLoop {
  import opened Statements
  import opened Enclosure
  import opened FillEnclosure

  /** A statement of the list once the nets of `seen` have been dealt with. */
  function Partly(s: Stm, seen: set<Net>, order: seq<Net>, nop: map<Net, Net>): Stm
    requires HasIdle(order, nop)
  {
    if Missing(s, order) * seen == {} then s else Fill(s, order, nop)
  }

  /** What the callers guarantee: every net missing in some statement is asked for. */
  predicate Asked(l: seq<Stm>, enc: seq<Net>, order: seq<Net>) {
    forall k :: 0 <= k < |l| ==> forall o :: o in Missing(l[k], order) ==> o in enc
  }

  lemma {:induction false} OutputsAt(l: seq<Stm>, k: nat)
    requires k < |l|
    ensures Outputs(l[k]) <= OutputsOfList(l) && Enclosed(l[k]) <= EnclosedList(l)
    ensures OneDriverList(l) ==> OneDriver(l[k])
  {
    if k > 0 {
      OutputsAt(l[1..], k - 1);
    }
  }

  lemma {:induction false} DriverOf(l: seq<Stm>, o: Net)
    ensures o in OutputsOfList(l) <==> exists k :: 0 <= k < |l| && o in Outputs(l[k])
    ensures OneDriverList(l) ==> forall i, j :: 0 <= i < j < |l| && o in Outputs(l[i]) ==> o !in Outputs(l[j])
    ensures OneDriverList(l) ==>
      forall k :: 0 <= k < |l| && o in Outputs(l[k]) ==> (o in EnclosedList(l) <==> o in Enclosed(l[k]))
  {
    if l != [] {
      DriverOf(l[1..], o);
      EnclosedAreOutputs(l[0]);
      EnclosedListAreOutputs(l[1..]);
      assert forall k :: 0 < k < |l| ==> l[k] == l[1..][k - 1];
      assert forall k :: 0 <= k < |l| - 1 ==> l[1..][k] == l[k + 1];
    }
  }

  lemma {:induction false} FillEachAt(l: seq<Stm>, order: seq<Net>, nop: map<Net, Net>, k: nat)
    requires HasIdle(order, nop) && k < |l|
    ensures FillEach(l, order, nop)[k] == Fill(l[k], order, nop)
  {
    if k > 0 {
      FillEachAt(l[1..], order, nop, k - 1);
    }
  }

  lemma {:induction false} DefaultsSnoc(enc: seq<Net>, o: Net, driven: set<Net>, nop: map<Net, Net>)
    requires HasIdle(enc, nop) && o in nop
    ensures Defaults(enc + [o], driven, nop)
         == Defaults(enc, driven, nop) + if o in driven then [] else [Assign(o, [], nop[o])]
  {
    if enc == [] {
      assert [o][1..] == [] && enc + [o] == [o];
      assert Defaults([], driven, nop) == [];
    } else {
      assert (enc + [o])[1..] == enc[1..] + [o];
      DefaultsSnoc(enc[1..], o, driven, nop);
    }
  }

  /** The state of the list after the nets of `done`: statements filled so far, then assignments added. */
  ghost predicate Filled(r: seq<Stm>, l: seq<Stm>, done: seq<Net>, order: seq<Net>, nop: map<Net, Net>)
    requires HasIdle(order, nop) && HasIdle(done, nop)
  {
    && |r| >= |l|
    && (forall k :: 0 <= k < |l| ==> r[k] == Partly(l[k], Keys(done), order, nop))
    && r[|l|..] == Defaults(done, OutputsOfList(l), nop)
  }

  lemma FilledAll(r: seq<Stm>, l: seq<Stm>, enc: seq<Net>, order: seq<Net>, nop: map<Net, Net>)
    requires HasIdle(order, nop) && HasIdle(enc, nop) && Asked(l, enc, order) && Filled(r, l, enc, order, nop)
    ensures r == FillList(l, enc, order, nop)
  {
    forall k | 0 <= k < |l| ensures r[k] == FillEach(l, order, nop)[k] {
      FillEachAt(l, order, nop, k);
      if Missing(l[k], order) != {} {
        var o :| o in Missing(l[k], order);
        assert o in Missing(l[k], order) * Keys(enc);
      }
    }
    assert r == r[..|l|] + r[|l|..];
    assert r[..|l|] == FillEach(l, order, nop);
  }

  /** Dealing with one more net leaves every statement that does not miss it as it is. */
  lemma PartlyStep(s: Stm, seen: set<Net>, o: Net, order: seq<Net>, nop: map<Net, Net>)
    requires HasIdle(order, nop)
    ensures o !in Missing(s, order) ==> Partly(s, seen + {o}, order, nop) == Partly(s, seen, order, nop)
    ensures o in Missing(s, order) ==> Partly(s, seen + {o}, order, nop) == Fill(s, order, nop)
  {
    if o in Missing(s, order) {
      assert o in Missing(s, order) * (seen + {o});
    } else {
      assert Missing(s, order) * (seen + {o}) == Missing(s, order) * seen;
    }
  }

  /** Statements that do not miss the next net are already as they should be; the others are untouched or filled. */
  lemma NextNet(r: seq<Stm>, l: seq<Stm>, done: seq<Net>, o: Net, order: seq<Net>, nop: map<Net, Net>)
    requires HasIdle(order, nop) && HasIdle(done, nop) && Filled(r, l, done, order, nop) && o in nop
    ensures HasIdle(done + [o], nop) && Keys(done + [o]) == Keys(done) + {o}
    ensures Defaults(done + [o], OutputsOfList(l), nop)
         == Defaults(done, OutputsOfList(l), nop) + if o in OutputsOfList(l) then [] else [Assign(o, [], nop[o])]
    ensures forall k :: 0 <= k < |l| ==>
      (o !in Missing(l[k], order) ==> Partly(l[k], Keys(done + [o]), order, nop) == r[k])
      && (o in Missing(l[k], order) ==> Partly(l[k], Keys(done + [o]), order, nop) == Fill(l[k], order, nop))
  {
    assert Keys(done + [o]) == Keys(done) + {o};
    DefaultsSnoc(done, o, OutputsOfList(l), nop);
    forall k | 0 <= k < |l|
      ensures o !in Missing(l[k], order) ==> Partly(l[k], Keys(done + [o]), order, nop) == r[k]
      ensures o in Missing(l[k], order) ==> Partly(l[k], Keys(done + [o]), order, nop) == Fill(l[k], order, nop)
    {
      PartlyStep(l[k], Keys(done), o, order, nop);
    }
  }

  /** The driver of a net, as it is now, drives and encloses it as the original does or better. */
  lemma NowDrives(r: seq<Stm>, l: seq<Stm>, done: seq<Net>, order: seq<Net>, nop: map<Net, Net>, k: nat, o: Net)
    requires HasIdle(order, nop) && HasIdle(done, nop) && Distinct(order) && OneDriverList(l)
    requires Filled(r, l, done, order, nop) && k < |l|
    ensures OneDriver(l[k]) && Outputs(r[k]) == Outputs(l[k])
    ensures o in Outputs(l[k]) && o in order && o !in Enclosed(r[k]) ==> r[k] == l[k]
    ensures r[k] == l[k] || r[k] == Fill(l[k], order, nop)
  {
    OutputsAt(l, k);
    FillEncloses(l[k], order, nop);
  }

  /** One net of the list: enclosed already, in need of its idle value, or missing in its driver. */
  method FillNet(current: set<Net>, l: seq<Stm>, r: seq<Stm>, ghost done: seq<Net>, o: Net, order: seq<Net>,
      nop: map<Net, Net>)
    returns (r': seq<Stm>)
    requires HasIdle(order, nop) && HasIdle(done, nop) && Distinct(order) && o in order
    requires OneDriverList(l) && current == EnclosedList(l) && Filled(r, l, done, order, nop)
    ensures HasIdle(done + [o], nop) && Filled(r', l, done + [o], order, nop)
    decreases l, 1
  {
    r' := r;
    DriverOf(l, o);
    NextNet(r, l, done, o, order, nop);
    if o in current {
      EnclosedListAreOutputs(l);
      return;
    }
    var k := 0;
    while k < |l| && o !in Outputs(r[k])
      invariant k <= |l|
      invariant forall i :: 0 <= i < k ==> o !in Outputs(l[i])
    {
      NowDrives(r, l, done, order, nop, k, o);
      k := k + 1;
    }
    if k == |l| {
      r' := r + [Assign(o, [], nop[o])];
      return;
    }
    NowDrives(r, l, done, order, nop, k, o);
    if o !in Enclosed(r[k]) {
      var filled := FillStatement(l[k], order, nop);
      r' := r[k := filled];
    }
  }

  method FillStmList(current: set<Net>, l: seq<Stm>, enc: seq<Net>, order: seq<Net>, nop: map<Net, Net>)
    returns (r: seq<Stm>)
    requires HasIdle(order, nop) && HasIdle(enc, nop) && Distinct(order) && Distinct(enc)
    requires forall o :: o in enc ==> o in order
    requires OneDriverList(l) && current == EnclosedList(l) && Asked(l, enc, order)
    ensures r == FillList(l, enc, order, nop)
    decreases l, 2
  {
    r := l;
    assert l[|l|..] == [];
    for n := 0 to |enc|
      invariant Filled(r, l, enc[..n], order, nop)
    {
      assert enc[..n + 1] == enc[..n] + [enc[n]];
      r := FillNet(current, l, r, enc[..n], enc[n], order, nop);
    }
    assert enc[..|enc|] == enc;
    FilledAll(r, l, enc, order, nop);
  }

  method FillStatement(s: Stm, order: seq<Net>, nop: map<Net, Net>) returns (r: Stm)
    requires HasIdle(order, nop) && Distinct(order) && OneDriver(s)
    ensures r == Fill(s, order, nop)
    decreases s, 0
  {
    var enc := Pick(order, Missing(s, order));
    assert forall o :: o in Missing(s, order) ==> o in enc;
    if s.Assign? || enc == [] {
      assert enc == [] ==> Missing(s, order) == {};
      return s;
    }
    PickDistinct(order, Missing(s, order));
    AskedInBranches(s, enc, order);
    var ifTrue := FillStmList(EnclosedList(s.ifTrue), s.ifTrue, enc, order, nop);
    var elifs := [];
    for k := 0 to |s.elseIf|
      invariant OneDriverBranches(s.elseIf[k..])
      invariant FillBranches(s.elseIf, enc, order, nop) == elifs + FillBranches(s.elseIf[k..], enc, order, nop)
    {
      assert s.elseIf[k..][0] == s.elseIf[k] && s.elseIf[k..][1..] == s.elseIf[k + 1..];
      var body := FillStmList(EnclosedList(s.elseIf[k].body), s.elseIf[k].body, enc, order, nop);
      elifs := elifs + [Branch(s.elseIf[k].cond, body)];
    }
    var ifFalse := FillStmList(EnclosedList(s.ifFalse), s.ifFalse, enc, order, nop);
    assert elifs == FillBranches(s.elseIf, enc, order, nop);
    r := s.(ifTrue := ifTrue, elseIf := elifs, ifFalse := ifFalse);
  }

  /** A net missing in a statement of a branch is missing in the whole if. */
  lemma AskedInBranches(s: Stm, enc: seq<Net>, order: seq<Net>)
    requires s.If? && OneDriver(s) && enc == Pick(order, Missing(s, order))
    ensures Asked(s.ifTrue, enc, order) && Asked(s.ifFalse, enc, order)
    ensures forall k :: 0 <= k < |s.elseIf| ==> Asked(s.elseIf[k].body, enc, order)
  {
    forall o {
      InAllMeans(s.elseIf, EnclosedList(s.ifTrue), o);
    }
    AskedIn(s, s.ifTrue, enc, order);
    AskedIn(s, s.ifFalse, enc, order);
    forall k | 0 <= k < |s.elseIf| ensures Asked(s.elseIf[k].body, enc, order) {
      BranchOutputs(s.elseIf, k);
      AskedIn(s, s.elseIf[k].body, enc, order);
    }
  }

  lemma AskedIn(s: Stm, body: seq<Stm>, enc: seq<Net>, order: seq<Net>)
    requires OneDriverList(body) && enc == Pick(order, Missing(s, order))
    requires OutputsOfList(body) <= Outputs(s) && Enclosed(s) * OutputsOfList(body) <= EnclosedList(body)
    ensures Asked(body, enc, order)
  {
    forall k, o | 0 <= k < |body| && o in Missing(body[k], order) ensures o in enc {
      DriverOf(body, o);
      OutputsAt(body, k);
    }
  }
}
