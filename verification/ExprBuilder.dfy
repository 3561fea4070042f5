/**
  Building expressions with shared calls (apply_call in net.cpp, function_call.cpp,
  usage_cache_key.h).  Nets and calls are numbered in the order of their creation.
*/
module ExprBuilder {
  import opened OrderedSets

  type Net = nat
  type Fn = nat

  /** The cache key: an operator and its operands, compared by identity. */
  datatype Key = Key(fn: Fn, args: seq<Net>)

  datatype Call = Call(key: Key, res: Net)

  datatype State = State(
    nets: nat, calls: seq<Call>, cache: map<Net, map<Key, Net>>,
    drivers: map<Net, seq<nat>>, endpoints: map<Net, seq<nat>>)

  const EMPTY := State(0, [], map[], map[], map[])

  // ---------- The invariant ----------

  ghost predicate Tables(s: State) {
    && (forall n: Net :: n in s.cache <==> n < s.nets)
    && (forall n: Net :: n in s.drivers <==> n < s.nets)
    && (forall n: Net :: n in s.endpoints <==> n < s.nets)
  }

  predicate Known(s: State, k: Key) {
    k.args != [] && forall i :: 0 <= i < |k.args| ==> k.args[i] < s.nets
  }

  /** Some call has this key. */
  ghost predicate Made(s: State, k: Key) {
    exists c :: 0 <= c < |s.calls| && s.calls[c].key == k
  }

  predicate Uses(s: State, c: nat, n: Net) {
    c < |s.calls| && n in s.calls[c].key.args
  }

  predicate Drives(s: State, c: nat, n: Net) {
    c < |s.calls| && s.calls[c].res == n
  }

  predicate Listed(m: map<Net, seq<nat>>, n: Net, c: nat) {
    n in m && c in m[n]
  }

  predicate Entry(m: map<Net, map<Key, Net>>, n: Net, k: Key, res: Net) {
    n in m && k in m[n] && m[n][k] == res
  }

  /** Operands are older than results, results are numbered in the order of calls, and no key is made twice. */
  ghost predicate Ordered(s: State) {
    && (forall c :: 0 <= c < |s.calls| ==> Known(s, s.calls[c].key) && s.calls[c].res < s.nets)
    && (forall c: nat, n: Net :: Uses(s, c, n) ==> n < s.calls[c].res)
    && (forall c, d :: 0 <= c < d < |s.calls| ==> s.calls[c].res < s.calls[d].res && s.calls[c].key != s.calls[d].key)
  }

  /** Every call is found in the cache of each operand, and nothing else is. */
  ghost predicate Cached(s: State) {
    && (forall c: nat, n: Net :: Uses(s, c, n) ==> Entry(s.cache, n, s.calls[c].key, s.calls[c].res))
    && (forall n: Net, k: Key, res: Net :: Entry(s.cache, n, k, res) ==> n in k.args && Made(s, k))
  }

  /** Drivers and endpoints list calls exactly where calls list results and operands. */
  ghost predicate Linked(s: State) {
    && (forall n: Net, c: nat :: Listed(s.drivers, n, c) <==> Drives(s, c, n))
    && (forall n: Net, c: nat :: Listed(s.endpoints, n, c) <==> Uses(s, c, n))
  }

  ghost predicate Inv(s: State) {
    Tables(s) && Ordered(s) && Cached(s) && Linked(s)
  }

  // ---------- One step ----------

  /** A fresh net, without drivers, endpoints or cached calls. */
  function Sig(s: State): State {
    State(s.nets + 1, s.calls, s.cache[s.nets := map[]], s.drivers[s.nets := []], s.endpoints[s.nets := []])
  }

  function PushTo(m: map<Net, seq<nat>>, ns: seq<Net>, c: nat): (r: map<Net, seq<nat>>)
    requires forall n :: n in ns ==> n in m
    ensures r.Keys == m.Keys
    ensures forall n: Net, x: nat :: Listed(r, n, x) <==> Listed(m, n, x) || (x == c && n in ns)
  {
    if ns == [] then m else
      assert ns[0] in ns;
      PushTo(m[ns[0] := Pushed(m[ns[0]], c)], ns[1..], c)
  }

  function Remember(m: map<Net, map<Key, Net>>, ns: seq<Net>, k: Key, res: Net): (r: map<Net, map<Key, Net>>)
    requires forall n :: n in ns ==> n in m
    ensures r.Keys == m.Keys
    ensures forall n: Net, q: Key, x: Net ::
      Entry(r, n, q, x) <==> if n in ns && q == k then x == res else Entry(m, n, q, x)
  {
    if ns == [] then m else
      assert ns[0] in ns;
      var entries: map<Key, Net> := m[ns[0]][k := res];
      Remember(m[ns[0] := entries], ns[1..], k, res)
  }

  /** A new call on a new net. */
  function Make(s: State, k: Key): State
    requires Tables(s) && Known(s, k)
  {
    var t, c := Sig(s), |s.calls|;
    State(t.nets, s.calls + [Call(k, s.nets)], Remember(t.cache, k.args, k, s.nets),
          PushTo(t.drivers, [s.nets], c), PushTo(t.endpoints, k.args, c))
  }

  /** A call found in the cache of its first operand is shared, any other is made. */
  function Apply(s: State, k: Key): (State, Net)
    requires Tables(s) && Known(s, k)
  {
    assert k.args[0] in k.args;
    if k in s.cache[k.args[0]] then (s, s.cache[k.args[0]][k]) else (Make(s, k), s.nets)
  }

  lemma SigKeeps(s: State)
    requires Inv(s)
    ensures Inv(Sig(s))
  {
    var t := Sig(s);
    assert forall n: Net, c: nat :: Uses(t, c, n) == Uses(s, c, n);
    assert forall n: Net, c: nat :: Drives(t, c, n) == Drives(s, c, n);
    assert forall n: Net, c: nat :: Listed(t.drivers, n, c) == Listed(s.drivers, n, c);
    assert forall n: Net, c: nat :: Listed(t.endpoints, n, c) == Listed(s.endpoints, n, c);
    assert forall n: Net, k, res: Net :: Entry(t.cache, n, k, res) == Entry(s.cache, n, k, res);
    assert forall k :: Made(t, k) == Made(s, k);
    forall c | 0 <= c < |t.calls| ensures Known(t, t.calls[c].key) {
      assert Known(s, s.calls[c].key);
    }
  }

  /** The cache of the first operand knows whether the call was made. */
  lemma CacheDecides(s: State, k: Key)
    requires Inv(s) && Known(s, k)
    ensures k in s.cache[k.args[0]] <==> Made(s, k)
    ensures forall c :: 0 <= c < |s.calls| && s.calls[c].key == k ==> Entry(s.cache, k.args[0], k, s.calls[c].res)
  {
    var n := k.args[0];
    forall c | 0 <= c < |s.calls| && s.calls[c].key == k ensures Entry(s.cache, n, k, s.calls[c].res) {
      assert Uses(s, c, n);
    }
    if k in s.cache[n] {
      assert Entry(s.cache, n, k, s.cache[n][k]);
    }
  }

  /** What a new call adds to each relation. */
  lemma MakeAdds(s: State, k: Key)
    requires Inv(s) && Known(s, k)
    ensures var t, c := Make(s, k), |s.calls|;
      && Tables(t)
      && (forall n: Net, d: nat :: Uses(t, d, n) <==> Uses(s, d, n) || (d == c && n in k.args))
      && (forall n: Net, d: nat :: Drives(t, d, n) <==> Drives(s, d, n) || (d == c && n == s.nets))
      && (forall q :: Made(t, q) <==> Made(s, q) || q == k)
  {
    var t, c := Make(s, k), |s.calls|;
    assert t.calls[c].key == k;
    forall q ensures Made(t, q) <==> Made(s, q) || q == k {
      if Made(s, q) {
        var d :| 0 <= d < |s.calls| && s.calls[d].key == q;
        assert t.calls[d].key == q;
      }
      if Made(t, q) {
        var d :| 0 <= d < |t.calls| && t.calls[d].key == q;
        assert d < c ==> s.calls[d].key == q;
      }
    }
  }

  lemma MakeLists(s: State, k: Key)
    requires Inv(s) && Known(s, k)
    ensures var t, c := Make(s, k), |s.calls|;
      && (forall n: Net, d: nat :: Listed(t.drivers, n, d) <==> Listed(s.drivers, n, d) || (d == c && n == s.nets))
      && (forall n: Net, d: nat :: Listed(t.endpoints, n, d) <==> Listed(s.endpoints, n, d) || (d == c && n in k.args))
      && (forall n: Net, q: Key, x: Net ::
            Entry(t.cache, n, q, x) <==> if n in k.args && q == k then x == s.nets else Entry(s.cache, n, q, x))
  {
    var u := Sig(s);
    assert forall n: Net, d: nat :: Listed(u.drivers, n, d) == Listed(s.drivers, n, d);
    assert forall n: Net, d: nat :: Listed(u.endpoints, n, d) == Listed(s.endpoints, n, d);
    assert forall n: Net, q: Key, x: Net :: Entry(u.cache, n, q, x) == Entry(s.cache, n, q, x);
  }

  lemma MakeOrdered(s: State, k: Key)
    requires Inv(s) && Known(s, k) && !Made(s, k)
    ensures Ordered(Make(s, k))
  {
    var t := Make(s, k);
    MakeAdds(s, k);
    forall c | 0 <= c < |t.calls| ensures Known(t, t.calls[c].key) && t.calls[c].res < t.nets {
      assert c < |s.calls| ==> Known(s, s.calls[c].key);
    }
    forall c, d | 0 <= c < d < |t.calls| ensures t.calls[c].res < t.calls[d].res && t.calls[c].key != t.calls[d].key {
      assert s.calls[c] == t.calls[c];
    }
    forall c: nat, n: Net | Uses(t, c, n) ensures n < t.calls[c].res {
      assert c < |s.calls| ==> Uses(s, c, n);
    }
  }

  lemma MakeCached(s: State, k: Key)
    requires Inv(s) && Known(s, k) && !Made(s, k)
    ensures Cached(Make(s, k))
  {
    var t := Make(s, k);
    MakeAdds(s, k);
    MakeLists(s, k);
    forall c: nat, n: Net | Uses(t, c, n) ensures Entry(t.cache, n, t.calls[c].key, t.calls[c].res) {
      if c < |s.calls| {
        assert t.calls[c] == s.calls[c] && Uses(s, c, n) && s.calls[c].key != k;
      }
    }
  }

  /** Applying an operator to known nets keeps the invariant. */
  lemma ApplyKeeps(s: State, k: Key)
    requires Inv(s) && Known(s, k)
    ensures Inv(Apply(s, k).0) && Apply(s, k).1 < Apply(s, k).0.nets
  {
    CacheDecides(s, k);
    if Made(s, k) {
      var c :| 0 <= c < |s.calls| && s.calls[c].key == k;
      assert Entry(s.cache, k.args[0], k, s.calls[c].res);
    } else {
      MakeAdds(s, k);
      MakeLists(s, k);
      MakeOrdered(s, k);
      MakeCached(s, k);
    }
  }

  // ---------- Expressions ----------

  datatype Tree = Leaf(net: Net) | Node(fn: Fn, args: seq<Tree>)

  /** The call that drives a net. */
  lemma DriverOf(s: State, n: Net)
    requires Inv(s) && n < s.nets && s.drivers[n] != []
    ensures Drives(s, s.drivers[n][0], n) && Known(s, s.calls[s.drivers[n][0]].key)
    ensures forall i :: 0 <= i < |s.calls[s.drivers[n][0]].key.args| ==> s.calls[s.drivers[n][0]].key.args[i] < n
  {
    var c := s.drivers[n][0];
    assert Listed(s.drivers, n, c);
    var a := s.calls[c].key.args;
    forall i | 0 <= i < |a| ensures a[i] < n {
      assert Uses(s, c, a[i]);
    }
  }

  /** The expression a net stands for. */
  function TreeOf(s: State, n: Net): Tree
    requires Inv(s) && n < s.nets
    decreases n, 0
  {
    if s.drivers[n] == [] then Leaf(n) else
      DriverOf(s, n);
      var k := s.calls[s.drivers[n][0]].key;
      Node(k.fn, TreesOf(s, k.args, n))
  }

  function TreesOf(s: State, ns: seq<Net>, bound: Net): (r: seq<Tree>)
    requires Inv(s) && bound <= s.nets && forall i :: 0 <= i < |ns| ==> ns[i] < bound
    ensures |r| == |ns| && forall i :: 0 <= i < |ns| ==> r[i] == TreeOf(s, ns[i])
    decreases bound, 0, |ns|
  {
    if ns == [] then [] else [TreeOf(s, ns[0])] + TreesOf(s, ns[1..], bound)
  }

  lemma SameKeySameCall(s: State, c: nat, d: nat)
    requires Ordered(s) && c < |s.calls| && d < |s.calls| && s.calls[c].key == s.calls[d].key
    ensures c == d
  {
  }

  /** Two nets stand for the same expression over the same leaf nets exactly when they are the same net. */
  lemma {:induction false} SameTreeSameNet(s: State, n: Net, m: Net)
    requires Inv(s) && n < s.nets && m < s.nets
    ensures TreeOf(s, n) == TreeOf(s, m) <==> n == m
    decreases n
  {
    if TreeOf(s, n) == TreeOf(s, m) && s.drivers[n] != [] {
      DriverOf(s, n);
      DriverOf(s, m);
      var c, d := s.drivers[n][0], s.drivers[m][0];
      var a, b := s.calls[c].key.args, s.calls[d].key.args;
      assert TreesOf(s, a, n) == TreesOf(s, b, m);
      forall i | 0 <= i < |a| ensures a[i] == b[i] {
        assert TreesOf(s, a, n)[i] == TreesOf(s, b, m)[i];
        SameTreeSameNet(s, a[i], b[i]);
      }
      assert a == b;
      SameKeySameCall(s, c, d);
    }
  }

  // ---------- Runs ----------

  datatype Op = NewNet | Application(key: Key)

  /** `t` has everything `s` has, and drivers of old nets did not change. */
  ghost predicate Extends(s: State, t: State) {
    && s.nets <= t.nets && |s.calls| <= |t.calls|
    && (forall c :: 0 <= c < |s.calls| ==> t.calls[c] == s.calls[c])
    && (forall n: Net :: n < s.nets && n in s.drivers ==> n in t.drivers && t.drivers[n] == s.drivers[n])
  }

  lemma MakeExtends(s: State, k: Key)
    requires Inv(s) && Known(s, k)
    ensures Extends(s, Make(s, k)) && Extends(s, Sig(s))
  {
    var u := Sig(s);
    assert PushTo(u.drivers, [s.nets], |s.calls|) == u.drivers[s.nets := Pushed(u.drivers[s.nets], |s.calls|)];
  }

  lemma {:induction false} TreeStable(s: State, t: State, n: Net)
    requires Inv(s) && Inv(t) && Extends(s, t) && n < s.nets
    ensures TreeOf(t, n) == TreeOf(s, n)
    decreases n, 0
  {
    if s.drivers[n] != [] {
      DriverOf(s, n);
      TreesStable(s, t, s.calls[s.drivers[n][0]].key.args, n);
    }
  }

  lemma {:induction false} TreesStable(s: State, t: State, ns: seq<Net>, bound: Net)
    requires Inv(s) && Inv(t) && Extends(s, t) && bound <= s.nets && forall i :: 0 <= i < |ns| ==> ns[i] < bound
    ensures TreesOf(t, ns, bound) == TreesOf(s, ns, bound)
    decreases bound, 0, |ns|
  {
    if ns != [] {
      TreeStable(s, t, ns[0]);
      TreesStable(s, t, ns[1..], bound);
    }
  }

  /** The net an application returns stands for the operator over the expressions of the operands. */
  lemma ApplyMeans(s: State, k: Key)
    requires Inv(s) && Known(s, k)
    ensures var (t, r) := Apply(s, k);
      && Inv(t) && r < t.nets && Extends(s, t)
      && TreeOf(t, r) == Node(k.fn, TreesOf(s, k.args, s.nets))
  {
    ApplyKeeps(s, k);
    MakeExtends(s, k);
    var (t, r) := Apply(s, k);
    if Made(s, k) {
      CacheDecides(s, k);
      var c :| 0 <= c < |s.calls| && s.calls[c].key == k;
      assert Entry(s.cache, k.args[0], k, s.calls[c].res);
      DrivenTree(s, c);
    } else {
      CacheDecides(s, k);
      DrivenTree(t, |s.calls|);
      TreesStable(s, t, k.args, s.nets);
    }
  }

  /** The result of a call stands for the call. */
  lemma DrivenTree(s: State, c: nat)
    requires Inv(s) && c < |s.calls| && Known(s, s.calls[c].key)
    ensures s.calls[c].res < s.nets
        && TreeOf(s, s.calls[c].res) == Node(s.calls[c].key.fn, TreesOf(s, s.calls[c].key.args, s.nets))
    ensures forall i :: 0 <= i < |s.calls[c].key.args| ==> s.calls[c].key.args[i] < s.calls[c].res
  {
    var n := s.calls[c].res;
    assert Drives(s, c, n);
    assert Listed(s.drivers, n, c);
    var d := s.drivers[n][0];
    assert Listed(s.drivers, n, d);
    assert Drives(s, d, n);
    assert c == d;
    DriverOf(s, n);
    assert TreesOf(s, s.calls[c].key.args, n) == TreesOf(s, s.calls[c].key.args, s.nets);
  }

  ghost predicate Runs(s: State, ops: seq<Op>, t: State)
    decreases |ops|
  {
    if ops == [] then s == t
    else match ops[0]
      case NewNet => Runs(Sig(s), ops[1..], t)
      case Application(k) => Tables(s) && Known(s, k) && Runs(Apply(s, k).0, ops[1..], t)
  }

  /** After any building every call is cached with its operands, linked at both ends, and made once. */
  lemma {:induction false} RunKeeps(s: State, ops: seq<Op>, t: State)
    requires Inv(s) && Runs(s, ops, t)
    ensures Inv(t) && Extends(s, t)
    decreases |ops|
  {
    if ops != [] {
      match ops[0]
      case NewNet =>
        SigKeeps(s);
        assert Extends(s, Sig(s));
        RunKeeps(Sig(s), ops[1..], t);
      case Application(k) =>
        ApplyKeeps(s, k);
        MakeExtends(s, k);
        RunKeeps(Apply(s, k).0, ops[1..], t);
    }
  }

  lemma EmptyHolds()
    ensures Inv(EMPTY)
  {
  }

  /** Whatever is built in between, the same operator on the same nets is the same net, and nothing is added. */
  lemma SharedForever(s: State, k: Key, ops: seq<Op>, t: State)
    requires Inv(s) && Known(s, k) && Runs(Apply(s, k).0, ops, t)
    ensures Inv(t) && Known(t, k) && Apply(t, k) == (t, Apply(s, k).1)
  {
    ApplyMeans(s, k);
    var (u, r) := Apply(s, k);
    RunKeeps(u, ops, t);
    assert Known(t, k);
    TreeStable(u, t, r);
    ApplyMeans(t, k);
    TreesStable(s, t, k.args, s.nets);
    TreesSame(t, k.args, s.nets, t.nets);
    SameTreeSameNet(Apply(t, k).0, Apply(t, k).1, r);
    TreeStable(t, Apply(t, k).0, r);
    CacheDecides(t, k);
  }

  lemma {:induction false} TreesSame(s: State, ns: seq<Net>, a: Net, b: Net)
    requires Inv(s) && a <= s.nets && b <= s.nets
    requires forall i :: 0 <= i < |ns| ==> ns[i] < a && ns[i] < b
    ensures TreesOf(s, ns, a) == TreesOf(s, ns, b)
    decreases |ns|
  {
  }

  // ---------- In place ----------

  class Netlist {
    var nets: nat
    var calls: seq<Call>
    var usageCache: map<Net, map<Key, Net>>
    var drivers: map<Net, seq<nat>>
    var endpoints: map<Net, seq<nat>>

    ghost function View(): State
      reads this
    {
      State(nets, calls, usageCache, drivers, endpoints)
    }

    constructor ()
      ensures View() == EMPTY && Inv(View())
    {
      nets, calls, usageCache, drivers, endpoints := 0, [], map[], map[], map[];
    }

    method NewSig() returns (n: Net)
      requires Inv(View())
      modifies this
      ensures Inv(View()) && View() == Sig(old(View())) && n == old(nets)
    {
      SigKeeps(View());
      n := nets;
      nets := nets + 1;
      usageCache := usageCache[n := map[]];
      drivers, endpoints := drivers[n := []], endpoints[n := []];
    }

    /** The constructor of a call: operands in order, then the result. */
    method NewCall(k: Key, res: Net)
      requires forall n :: n in k.args ==> n in endpoints
      requires res in drivers
      modifies this
      ensures nets == old(nets) && usageCache == old(usageCache)
      ensures calls == old(calls) + [Call(k, res)]
      ensures endpoints == PushTo(old(endpoints), k.args, |old(calls)|)
      ensures drivers == PushTo(old(drivers), [res], |old(calls)|)
    {
      var c := |calls|;
      calls := calls + [Call(k, res)];
      ghost var all := PushTo(endpoints, k.args, c);
      for i := 0 to |k.args|
        invariant drivers == old(drivers) && calls == old(calls) + [Call(k, res)] && nets == old(nets)
            && usageCache == old(usageCache)
        invariant forall n :: n in k.args[i..] ==> n in endpoints
        invariant PushTo(endpoints, k.args[i..], c) == all
      {
        assert k.args[i] in k.args[i..] && k.args[i..][1..] == k.args[i + 1..];
        endpoints := endpoints[k.args[i] := Pushed(endpoints[k.args[i]], c)];
      }
      drivers := drivers[res := Pushed(drivers[res], c)];
    }

    /** The binary and the unary form; only the operand list differs. */
    method ApplyCall(k: Key) returns (r: Net)
      requires Inv(View()) && Known(View(), k) && |k.args| <= 2
      modifies this
      ensures Inv(View()) && (View(), r) == Apply(old(View()), k)
    {
      ApplyKeeps(View(), k);
      var a := k.args[0];
      if k in usageCache[a] {
        return usageCache[a][k];
      }
      r := NewSig();
      NewCall(k, r);
      CacheCall(k, r);
    }

    /** The result is entered with each operand. */
    method CacheCall(k: Key, res: Net)
      requires 1 <= |k.args| <= 2 && forall n :: n in k.args ==> n in usageCache
      modifies this`usageCache
      ensures usageCache == Remember(old(usageCache), k.args, k, res)
    {
      var a := k.args[0];
      assert k.args[1..] == if |k.args| == 2 then [k.args[1]] else [];
      var entries: map<Key, Net> := usageCache[a][k := res];
      usageCache := usageCache[a := entries];
      assert Remember(old(usageCache), k.args, k, res) == Remember(usageCache, k.args[1..], k, res);
      if |k.args| == 2 {
        var b := k.args[1];
        var others: map<Key, Net> := usageCache[b][k := res];
        ghost var before := usageCache;
        usageCache := usageCache[b := others];
        assert [b][1..] == [];
        assert Remember(before, [b], k, res) == Remember(usageCache, [], k, res);
      }
    }
  }
}
