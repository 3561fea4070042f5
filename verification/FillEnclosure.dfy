/**
  Completing the branches of a statement with the idle values of the nets they leave
  undriven (fill_enclosure and fill_stm_list_with_enclosure in statement_to_hwprocess.cpp).

  `order` lists the nets that have an idle value, as the source iterates over them, and
  `nop` maps each to the net that carries it.
*/
module FillEnclosure {
  import opened Statements
  import opened Enclosure

  /** The nets to complete: driven by the statement, but not on every path. */
  function Missing(s: Stm, order: seq<Net>): set<Net> {
    set o | o in order && o in Outputs(s) && o !in Enclosed(s)
  }

  function Pick(order: seq<Net>, from: set<Net>): (r: seq<Net>)
    ensures forall o :: o in r <==> o in order && o in from
  {
    if order == [] then []
    else (if order[0] in from then [order[0]] else []) + Pick(order[1..], from)
  }

  ghost predicate HasIdle(order: seq<Net>, nop: map<Net, Net>) {
    forall o :: o in order ==> o in nop
  }

  function Fill(s: Stm, order: seq<Net>, nop: map<Net, Net>): Stm
    requires HasIdle(order, nop)
    decreases s, 1
  {
    if s.Assign? || Missing(s, order) == {} then s else
      var enc := Pick(order, Missing(s, order));
      s.(ifTrue := FillList(s.ifTrue, enc, order, nop),
         elseIf := FillBranches(s.elseIf, enc, order, nop),
         ifFalse := FillList(s.ifFalse, enc, order, nop))
  }

  /** Every statement completed, then an assignment for each net of `enc` that none of them drives. */
  function FillList(l: seq<Stm>, enc: seq<Net>, order: seq<Net>, nop: map<Net, Net>): seq<Stm>
    requires HasIdle(order, nop) && HasIdle(enc, nop)
    decreases l, 1
  {
    FillEach(l, order, nop) + Defaults(enc, OutputsOfList(l), nop)
  }

  function FillEach(l: seq<Stm>, order: seq<Net>, nop: map<Net, Net>): (r: seq<Stm>)
    requires HasIdle(order, nop)
    ensures |r| == |l|
    decreases l, 0
  {
    if l == [] then [] else [Fill(l[0], order, nop)] + FillEach(l[1..], order, nop)
  }

  function FillBranches(bs: seq<Branch>, enc: seq<Net>, order: seq<Net>, nop: map<Net, Net>): (r: seq<Branch>)
    requires HasIdle(order, nop) && HasIdle(enc, nop)
    ensures |r| == |bs|
    decreases bs, 0
  {
    if bs == [] then []
    else [Branch(bs[0].cond, FillList(bs[0].body, enc, order, nop))] + FillBranches(bs[1..], enc, order, nop)
  }

  function Defaults(enc: seq<Net>, driven: set<Net>, nop: map<Net, Net>): seq<Stm>
    requires HasIdle(enc, nop)
  {
    if enc == [] then []
    else (if enc[0] in driven then [] else [Assign(enc[0], [], nop[enc[0]])]) + Defaults(enc[1..], driven, nop)
  }

  predicate Distinct(order: seq<Net>) {
    forall i, j :: 0 <= i < j < |order| ==> order[i] != order[j]
  }

  lemma {:induction false} PickDistinct(order: seq<Net>, from: set<Net>)
    requires Distinct(order)
    ensures Distinct(Pick(order, from))
  {
    if order != [] {
      PickDistinct(order[1..], from);
    }
  }

  // ---------- Shape ----------

  lemma {:induction false} DefaultsShape(enc: seq<Net>, driven: set<Net>, nop: map<Net, Net>)
    requires HasIdle(enc, nop) && Distinct(enc)
    ensures var d := Defaults(enc, driven, nop); var added := (set o | o in enc) - driven;
      OutputsOfList(d) == added && EnclosedList(d) == added && OneDriverList(d)
  {
    if enc != [] {
      DefaultsShape(enc[1..], driven, nop);
      var rest := Defaults(enc[1..], driven, nop);
      if enc[0] !in driven {
        assert Defaults(enc, driven, nop)[1..] == rest;
      } else {
        assert Defaults(enc, driven, nop) == rest;
      }
    }
  }

  lemma {:induction false} EnclosedConcat(a: seq<Stm>, b: seq<Stm>)
    ensures EnclosedList(a + b) == EnclosedList(a) + EnclosedList(b)
  {
    if a == [] {
      assert a + b == b;
    } else {
      assert (a + b)[1..] == a[1..] + b;
      EnclosedConcat(a[1..], b);
    }
  }

  ghost function Keys(order: seq<Net>): set<Net> {
    set o | o in order
  }

  /** The completed statement drives the same nets, and encloses the selected ones on top of those it did. */
  lemma {:induction false} FillEncloses(s: Stm, order: seq<Net>, nop: map<Net, Net>)
    requires HasIdle(order, nop) && Distinct(order) && OneDriver(s)
    ensures Outputs(Fill(s, order, nop)) == Outputs(s) && OneDriver(Fill(s, order, nop))
    ensures Enclosed(Fill(s, order, nop)) == Enclosed(s) + Keys(order) * Outputs(s)
    decreases s, 1
  {
    if s.Assign? || Missing(s, order) == {} {
      forall o | o in order && o in Outputs(s) ensures o in Enclosed(s) {
        assert o !in Missing(s, order);
      }
    } else {
      var enc := Pick(order, Missing(s, order));
      PickDistinct(order, Missing(s, order));
      FillIfOutputs(s, enc, order, nop);
      forall o ensures o in Enclosed(Fill(s, order, nop)) <==> o in Enclosed(s) || (o in order && o in Outputs(s)) {
        FillIfEncloses(s, enc, order, nop, o);
      }
    }
  }

  lemma {:induction false} FillListEncloses(l: seq<Stm>, enc: seq<Net>, order: seq<Net>, nop: map<Net, Net>)
    requires HasIdle(order, nop) && Distinct(order) && HasIdle(enc, nop) && Distinct(enc) && OneDriverList(l)
    ensures var r := FillList(l, enc, order, nop);
      && OutputsOfList(r) == OutputsOfList(l) + Keys(enc) && OneDriverList(r)
      && EnclosedList(r) == EnclosedList(l) + Keys(order) * OutputsOfList(l) + (Keys(enc) - OutputsOfList(l))
    decreases l, 1
  {
    var each, added := FillEach(l, order, nop), Defaults(enc, OutputsOfList(l), nop);
    FillEachEncloses(l, order, nop);
    DefaultsShape(enc, OutputsOfList(l), nop);
    OutputsConcat(each, added);
    OneDriverConcat(each, added);
    EnclosedConcat(each, added);
  }

  lemma {:induction false} FillEachEncloses(l: seq<Stm>, order: seq<Net>, nop: map<Net, Net>)
    requires HasIdle(order, nop) && Distinct(order) && OneDriverList(l)
    ensures var r := FillEach(l, order, nop);
      && OutputsOfList(r) == OutputsOfList(l) && OneDriverList(r)
      && EnclosedList(r) == EnclosedList(l) + Keys(order) * OutputsOfList(l)
    decreases l, 0
  {
    if l != [] {
      FillEncloses(l[0], order, nop);
      FillEachEncloses(l[1..], order, nop);
      assert FillEach(l, order, nop)[1..] == FillEach(l[1..], order, nop);
    }
  }

  lemma {:induction false} FillBranchesOutputs(bs: seq<Branch>, enc: seq<Net>, order: seq<Net>, nop: map<Net, Net>)
    requires HasIdle(order, nop) && Distinct(order) && HasIdle(enc, nop) && Distinct(enc) && OneDriverBranches(bs)
    ensures var r := FillBranches(bs, enc, order, nop);
      OneDriverBranches(r) && OutputsOfBranches(bs) <= OutputsOfBranches(r) <= OutputsOfBranches(bs) + Keys(enc)
    decreases bs, 0
  {
    if bs != [] {
      FillListEncloses(bs[0].body, enc, order, nop);
      FillBranchesOutputs(bs[1..], enc, order, nop);
      assert FillBranches(bs, enc, order, nop)[1..] == FillBranches(bs[1..], enc, order, nop);
    }
  }

  lemma {:induction false} FillBranchAt(bs: seq<Branch>, enc: seq<Net>, order: seq<Net>, nop: map<Net, Net>, k: nat)
    requires HasIdle(order, nop) && HasIdle(enc, nop) && k < |bs|
    ensures FillBranches(bs, enc, order, nop)[k].body == FillList(bs[k].body, enc, order, nop)
  {
    if k > 0 {
      FillBranchAt(bs[1..], enc, order, nop, k - 1);
    }
  }

  lemma FillIfOutputs(s: Stm, enc: seq<Net>, order: seq<Net>, nop: map<Net, Net>)
    requires HasIdle(order, nop) && Distinct(order) && OneDriver(s) && s.If? && Missing(s, order) != {}
    requires enc == Pick(order, Missing(s, order)) && Distinct(enc)
    ensures Outputs(Fill(s, order, nop)) == Outputs(s) && OneDriver(Fill(s, order, nop))
    decreases s, 0
  {
    FillListEncloses(s.ifTrue, enc, order, nop);
    FillBranchesOutputs(s.elseIf, enc, order, nop);
    FillListEncloses(s.ifFalse, enc, order, nop);
    assert Keys(enc) <= Outputs(s);
    var r := Fill(s, order, nop);
    SameUnion(OutputsOfList(s.ifTrue), OutputsOfBranches(s.elseIf), OutputsOfList(s.ifFalse),
              OutputsOfList(r.ifTrue), OutputsOfBranches(r.elseIf), OutputsOfList(r.ifFalse), Keys(enc));
  }

  lemma SameUnion(t: set<Net>, b: set<Net>, f: set<Net>, t': set<Net>, b': set<Net>, f': set<Net>, k: set<Net>)
    requires t' == t + k && b <= b' <= b + k && f' == f + k && k <= t + b + f
    ensures t' + b' + f' == t + b + f
  {
  }

  /** One net at a time: enclosed afterwards exactly when it was, or has an idle value and is driven. */
  lemma FillIfEncloses(s: Stm, enc: seq<Net>, order: seq<Net>, nop: map<Net, Net>, o: Net)
    requires HasIdle(order, nop) && Distinct(order) && OneDriver(s) && s.If? && Missing(s, order) != {}
    requires enc == Pick(order, Missing(s, order)) && Distinct(enc)
    ensures o in Enclosed(Fill(s, order, nop)) <==> o in Enclosed(s) || (o in order && o in Outputs(s))
    decreases s, 0
  {
    var r := Fill(s, order, nop);
    var selected := o in order && o in Outputs(s);
    EnclosedAreOutputs(s);
    assert selected ==> o in Missing(s, order) || o in Enclosed(s);
    BodyEncloses(s.ifTrue, enc, order, nop, o);
    BodyEncloses(s.ifFalse, enc, order, nop, o);
    forall k | 0 <= k < |s.elseIf|
      ensures o in EnclosedList(r.elseIf[k].body) <==>
              o in EnclosedList(s.elseIf[k].body) || (o in order && o in OutputsOfList(s.elseIf[k].body)) || o in enc
    {
      FillBranchAt(s.elseIf, enc, order, nop, k);
      BranchOutputs(s.elseIf, k);
      BodyEncloses(s.elseIf[k].body, enc, order, nop, o);
    }
    if o !in Outputs(s) {
      BranchesWithin(s, o);
    }
    InAllMeans(s.elseIf, EnclosedList(s.ifTrue), o);
    InAllMeans(r.elseIf, EnclosedList(r.ifTrue), o);
  }

  lemma BranchesWithin(s: Stm, o: Net)
    requires s.If? && o !in Outputs(s)
    ensures forall k :: 0 <= k < |s.elseIf| ==> o !in OutputsOfList(s.elseIf[k].body)
  {
    forall k | 0 <= k < |s.elseIf| ensures o !in OutputsOfList(s.elseIf[k].body) {
      BranchOutputs(s.elseIf, k);
    }
  }

  lemma BodyEncloses(l: seq<Stm>, enc: seq<Net>, order: seq<Net>, nop: map<Net, Net>, o: Net)
    requires HasIdle(order, nop) && Distinct(order) && HasIdle(enc, nop) && Distinct(enc) && OneDriverList(l)
    requires forall e :: e in enc ==> e in order
    ensures o in EnclosedList(FillList(l, enc, order, nop)) <==>
            o in EnclosedList(l) || (o in order && o in OutputsOfList(l)) || o in enc
    decreases l, 2
  {
    FillListEncloses(l, enc, order, nop);
    EnclosedListAreOutputs(l);
  }

  // ---------- Meaning ----------

  /** The idle values of the nets in `s`, written in full. */
  ghost function Idle(s: set<Net>, nop: map<Net, Net>, env: Env): Writes {
    map o | o in s && o in nop :: Write([], env(nop[o]))
  }

  lemma {:induction false} DefaultsMeaning(enc: seq<Net>, driven: set<Net>, nop: map<Net, Net>, env: Env)
    requires HasIdle(enc, nop)
    ensures ExecList(Defaults(enc, driven, nop), env) == Idle(Keys(enc) - driven, nop, env)
  {
    if enc != [] {
      DefaultsMeaning(enc[1..], driven, nop, env);
      var rest := Defaults(enc[1..], driven, nop);
      if enc[0] !in driven {
        assert Defaults(enc, driven, nop)[1..] == rest;
        assert Exec(Assign(enc[0], [], nop[enc[0]]), env) == map[enc[0] := Write([], env(nop[enc[0]]))];
      } else {
        assert Defaults(enc, driven, nop) == rest;
      }
    }
  }

  lemma IdleBehind(x: set<Net>, y: set<Net>, e: Writes, f: Writes, nop: map<Net, Net>, env: Env)
    requires e.Keys !! y && f.Keys !! x
    ensures (Idle(x, nop, env) + e) + (Idle(y, nop, env) + f) == Idle(x + y, nop, env) + (e + f)
  {
  }

  lemma IdleAppend(x: set<Net>, y: set<Net>, e: Writes, nop: map<Net, Net>, env: Env)
    requires e.Keys !! y
    ensures (Idle(x, nop, env) + e) + Idle(y, nop, env) == Idle(x + y, nop, env) + e
  {
  }

  /**
    After filling, a selected net has the value it had where it was driven and its idle value
    everywhere else; all other writes are unaffected.
  */
  lemma {:induction false} FillMeaning(s: Stm, order: seq<Net>, nop: map<Net, Net>, env: Env)
    requires HasIdle(order, nop) && Distinct(order) && OneDriver(s)
    ensures Exec(Fill(s, order, nop), env) == Idle(Keys(order) * Outputs(s), nop, env) + Exec(s, env)
    decreases s, 1
  {
    var selected := Keys(order) * Outputs(s);
    if s.Assign? || Missing(s, order) == {} {
      forall o | o in selected ensures o in Exec(s, env) {
        assert o !in Missing(s, order);
        EnclosedIsDriven(s, o, env);
      }
    } else {
      var enc := Pick(order, Missing(s, order));
      var taken := Taken(s, env);
      PickDistinct(order, Missing(s, order));
      TakenFilled(s, enc, order, nop, env);
      assert taken == s.ifTrue || taken == s.ifFalse || exists i :: 0 <= i < |s.elseIf| && taken == s.elseIf[i].body;
      TakenOutputs(s, env);
      FillListMeaning(taken, enc, order, nop, env);
      ListWritesAreOutputs(taken, env);
      forall o | o in selected ensures o in OutputsOfList(taken) || o in enc {
        if o in Enclosed(s) {
          EnclosedIsDriven(s, o, env);
        } else {
          assert o in Missing(s, order);
        }
      }
      assert Keys(enc) <= selected;
      assert selected == Keys(order) * OutputsOfList(taken) + (Keys(enc) - OutputsOfList(taken));
    }
  }

  lemma {:induction false} FillListMeaning(l: seq<Stm>, enc: seq<Net>, order: seq<Net>, nop: map<Net, Net>, env: Env)
    requires HasIdle(order, nop) && Distinct(order) && HasIdle(enc, nop) && OneDriverList(l)
    ensures ExecList(FillList(l, enc, order, nop), env)
         == Idle(Keys(order) * OutputsOfList(l) + (Keys(enc) - OutputsOfList(l)), nop, env) + ExecList(l, env)
    decreases l, 1
  {
    FillEachMeaning(l, order, nop, env);
    DefaultsMeaning(enc, OutputsOfList(l), nop, env);
    ExecConcat(FillEach(l, order, nop), Defaults(enc, OutputsOfList(l), nop), env);
    ListWritesAreOutputs(l, env);
    IdleAppend(Keys(order) * OutputsOfList(l), Keys(enc) - OutputsOfList(l), ExecList(l, env), nop, env);
  }

  lemma {:induction false} FillEachMeaning(l: seq<Stm>, order: seq<Net>, nop: map<Net, Net>, env: Env)
    requires HasIdle(order, nop) && Distinct(order) && OneDriverList(l)
    ensures ExecList(FillEach(l, order, nop), env) == Idle(Keys(order) * OutputsOfList(l), nop, env) + ExecList(l, env)
    decreases l, 0
  {
    if l != [] {
      FillMeaning(l[0], order, nop, env);
      FillEachMeaning(l[1..], order, nop, env);
      WritesAreOutputs(l[0], env);
      ListWritesAreOutputs(l[1..], env);
      var x, y := Keys(order) * Outputs(l[0]), Keys(order) * OutputsOfList(l[1..]);
      assert x + y == Keys(order) * OutputsOfList(l);
      IdleBehind(x, y, Exec(l[0], env), ExecList(l[1..], env), nop, env);
      assert FillEach(l, order, nop)[1..] == FillEach(l[1..], order, nop);
    }
  }

  lemma TakenFilled(s: Stm, enc: seq<Net>, order: seq<Net>, nop: map<Net, Net>, env: Env)
    requires HasIdle(order, nop) && s.If? && Missing(s, order) != {} && enc == Pick(order, Missing(s, order))
    ensures Taken(Fill(s, order, nop), env) == FillList(Taken(s, env), enc, order, nop)
  {
    SelectFilled(s.elseIf, s.ifFalse, enc, order, nop, env);
  }

  lemma {:induction false} SelectFilled(bs: seq<Branch>, els: seq<Stm>, enc: seq<Net>, order: seq<Net>,
                                        nop: map<Net, Net>, env: Env)
    requires HasIdle(order, nop) && HasIdle(enc, nop)
    ensures Select(FillBranches(bs, enc, order, nop), FillList(els, enc, order, nop), env)
         == FillList(Select(bs, els, env), enc, order, nop)
  {
    if bs != [] {
      SelectFilled(bs[1..], els, enc, order, nop, env);
      assert FillBranches(bs, enc, order, nop)[1..] == FillBranches(bs[1..], enc, order, nop);
    }
  }

  // ---------- The source fills copies ----------

  /**
    Completion as the source does it: every list is handed over by value.  The statements in the
    copy are those of the original and are completed in their place; what is added to the copy is
    in `copy` only, and nothing looks at it again.
  */
  function FillByValue(s: Stm, order: seq<Net>, nop: map<Net, Net>): Stm
    requires HasIdle(order, nop)
    decreases s, 1
  {
    if s.Assign? || Missing(s, order) == {} then s else
      var enc := Pick(order, Missing(s, order));
      s.(ifTrue := FillCopy(s.ifTrue, enc, order, nop).original,
         elseIf := FillCopies(s.elseIf, enc, order, nop),
         ifFalse := FillCopy(s.ifFalse, enc, order, nop).original)
  }

  /** A list after its copy has been completed, and that copy. */
  datatype Copied = Copied(original: seq<Stm>, copy: seq<Stm>)

  function FillCopy(l: seq<Stm>, enc: seq<Net>, order: seq<Net>, nop: map<Net, Net>): Copied
    requires HasIdle(order, nop) && HasIdle(enc, nop)
    decreases l, 1
  {
    var each := FillEachByValue(l, order, nop);
    Copied(each, each + Defaults(enc, OutputsOfList(l), nop))
  }

  function FillEachByValue(l: seq<Stm>, order: seq<Net>, nop: map<Net, Net>): seq<Stm>
    requires HasIdle(order, nop)
    decreases l, 0
  {
    if l == [] then [] else [FillByValue(l[0], order, nop)] + FillEachByValue(l[1..], order, nop)
  }

  function FillCopies(bs: seq<Branch>, enc: seq<Net>, order: seq<Net>, nop: map<Net, Net>): seq<Branch>
    requires HasIdle(order, nop) && HasIdle(enc, nop)
    decreases bs, 0
  {
    if bs == [] then []
    else [Branch(bs[0].cond, FillCopy(bs[0].body, enc, order, nop).original)] + FillCopies(bs[1..], enc, order, nop)
  }

  /** Everything that is added goes to copies, at every depth: the statement is left as it was. */
  lemma {:induction false} LeftAsItWas(s: Stm, order: seq<Net>, nop: map<Net, Net>)
    requires HasIdle(order, nop)
    ensures FillByValue(s, order, nop) == s
    decreases s, 1
  {
    if s.If? && Missing(s, order) != {} {
      EachLeft(s.ifTrue, order, nop);
      BranchesLeft(s.elseIf, Pick(order, Missing(s, order)), order, nop);
      EachLeft(s.ifFalse, order, nop);
    }
  }

  lemma {:induction false} EachLeft(l: seq<Stm>, order: seq<Net>, nop: map<Net, Net>)
    requires HasIdle(order, nop)
    ensures FillEachByValue(l, order, nop) == l
    decreases l, 0
  {
    if l != [] {
      LeftAsItWas(l[0], order, nop);
      EachLeft(l[1..], order, nop);
    }
  }

  lemma {:induction false} BranchesLeft(bs: seq<Branch>, enc: seq<Net>, order: seq<Net>, nop: map<Net, Net>)
    requires HasIdle(order, nop) && HasIdle(enc, nop)
    ensures FillCopies(bs, enc, order, nop) == bs
    decreases bs, 0
  {
    if bs != [] {
      EachLeft(bs[0].body, order, nop);
      BranchesLeft(bs[1..], enc, order, nop);
    }
  }

  /** The copy has the statements of the list as they are and idle values for the nets they do not drive. */
  lemma CopyMeaning(l: seq<Stm>, enc: seq<Net>, order: seq<Net>, nop: map<Net, Net>, env: Env)
    requires HasIdle(order, nop) && HasIdle(enc, nop)
    ensures var c := FillCopy(l, enc, order, nop);
      && c.original == l && l <= c.copy
      && ExecList(c.copy, env) == ExecList(l, env) + Idle(Keys(enc) - OutputsOfList(l), nop, env)
  {
    EachLeft(l, order, nop);
    DefaultsMeaning(enc, OutputsOfList(l), nop, env);
    ExecConcat(l, Defaults(enc, OutputsOfList(l), nop), env);
    ListWritesAreOutputs(l, env);
  }

  /**
    Filling copies meets the purpose, that every selected output is driven whichever branches
    are taken, exactly when no net is missing, which is when the source returns early.
  */
  lemma FillAsWritten(s: Stm, order: seq<Net>, nop: map<Net, Net>)
    requires HasIdle(order, nop)
    ensures (forall o :: o in order && o in Outputs(s) ==> InEvery(o, Outcomes(FillByValue(s, order, nop))))
       <==> Missing(s, order) == {}
  {
    LeftAsItWas(s, order, nop);
    forall o: Net ensures o in Enclosed(s) <==> InEvery(o, Outcomes(s)) {
      EnclosedExactly(s, o);
    }
    forall o: Net ensures o in Missing(s, order) <==> o in order && o in Outputs(s) && !InEvery(o, Outcomes(s)) {
    }
  }

  /** A latch with an idle value: as written it stays undriven when its condition fails. */
  lemma FillAsWrittenFails()
    ensures var s := If(0, [Assign(1, [], 2)], [], false, [], 1);
      && OneDriver(s) && 1 in Outputs(s)
      && 1 !in Exec(FillByValue(s, [1], map[1 := 3]), net => 0) && 1 in Exec(Fill(s, [1], map[1 := 3]), net => 0)
  {
    var s := If(0, [Assign(1, [], 2)], [], false, [], 1);
    var env: Env := net => 0;
    assert Taken(s, env) == [];
    assert OutputsOfList([Assign(1, [], 2)]) == {1};
    assert HasIdle([1], map[1 := 3]);
    LeftAsItWas(s, [1], map[1 := 3]);
    FillMeaning(s, [1], map[1 := 3], env);
    assert 1 in Keys([1]) * Outputs(s);
  }
}
