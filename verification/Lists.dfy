/**
  Lists: stepping through them, filtering them, and grouping their items by a key (groupedby.h).
*/
module Lists {
  datatype Option<T> = Some(value: T) | None

  lemma Shift<T>(l: seq<T>, i: nat)
    requires i < |l|
    ensures l[i..][0] == l[i] && l[i..][1..] == l[i + 1..]
  {
  }

  // ---------- Filtering ----------

  function Filtered<T>(s: seq<T>, keep: T -> bool): seq<T> {
    if s == [] then [] else (if keep(s[0]) then [s[0]] else []) + Filtered(s[1..], keep)
  }

  lemma {:induction false} FilteredHas<T>(s: seq<T>, keep: T -> bool, x: T)
    ensures x in Filtered(s, keep) <==> x in s && keep(x)
  {
    if s != [] {
      FilteredHas(s[1..], keep, x);
    }
  }

  /** Wherever two items stand after filtering, they stood in that order before. */
  lemma {:induction false} FilteredOrder<T(!new)>(s: seq<T>, keep: T -> bool, i: nat, j: nat)
    requires i < j < |Filtered(s, keep)|
    ensures exists p, q :: 0 <= p < q < |s| && s[p] == Filtered(s, keep)[i] && s[q] == Filtered(s, keep)[j]
  {
    var f, rest := Filtered(s, keep), Filtered(s[1..], keep);
    if keep(s[0]) && i == 0 {
      assert f[j] == rest[j - 1];
      FilteredHas(s[1..], keep, f[j]);
      var q :| 0 <= q < |s| - 1 && s[1..][q] == f[j];
      assert s[0] == f[0] && s[q + 1] == f[j];
    } else {
      var step := if keep(s[0]) then 1 else 0;
      assert f[i] == rest[i - step] && f[j] == rest[j - step];
      FilteredOrder(s[1..], keep, i - step, j - step);
      var p, q :| 0 <= p < q < |s| - 1 && s[1..][p] == rest[i - step] && s[1..][q] == rest[j - step];
      assert s[p + 1] == f[i] && s[q + 1] == f[j];
    }
  }

  // ---------- Grouping ----------

  /** The items with one key, in order. */
  function OfKey<T>(items: seq<T>, key: T -> nat, k: nat): (r: seq<T>)
    ensures forall x :: x in r ==> x in items && key(x) == k
    ensures forall x :: x in items && key(x) == k ==> x in r
  {
    if items == [] then [] else (if key(items[0]) == k then [items[0]] else []) + OfKey(items[1..], key, k)
  }

  lemma {:induction false} OfKeyStep<T>(items: seq<T>, key: T -> nat, i: nat, k: nat)
    requires i < |items|
    ensures OfKey(items[..i + 1], key, k) == OfKey(items[..i], key, k) + if key(items[i]) == k then [items[i]] else []
  {
    if i == 0 {
      assert items[..1][1..] == [];
    } else {
      assert items[..i + 1][1..] == items[1..][..i] && items[..i][1..] == items[1..][..i - 1];
      OfKeyStep(items[1..], key, i - 1, k);
    }
  }

  /** Groups by key; inside a group the order is that of the input. */
  method GroupedBy<T>(items: seq<T>, key: T -> nat) returns (m: map<nat, seq<T>>)
    ensures forall k :: k in m <==> exists x :: x in items && key(x) == k
    ensures forall k :: k in m ==> m[k] == OfKey(items, key, k)
  {
    m := map[];
    for i := 0 to |items|
      invariant forall k :: k in m <==> OfKey(items[..i], key, k) != []
      invariant forall k :: k in m ==> m[k] == OfKey(items[..i], key, k)
    {
      forall k: nat
        ensures OfKey(items[..i + 1], key, k)
             == OfKey(items[..i], key, k) + if key(items[i]) == k then [items[i]] else []
      {
        OfKeyStep(items, key, i, k);
      }
      var k := key(items[i]);
      if k in m {
        m := m[k := m[k] + [items[i]]];
      } else {
        m := m[k := [items[i]]];
      }
    }
    assert items[..|items|] == items;
    forall k: nat ensures k in m <==> exists x :: x in items && key(x) == k {
      var r := OfKey(items, key, k);
      assert r != [] ==> r[0] in r;
    }
  }

  /** The key an ordered map is gone through with next. */
  function Least(s: set<nat>): (k: nat)
    requires s != {}
    ensures k in s && forall x :: x in s ==> k <= x
  {
    ghost var x :| x in s;
    LeastExists(s, x);
    var k :| k in s && forall x :: x in s ==> k <= x;
    k
  }

  lemma LeastExists(s: set<nat>, x: nat)
    requires x in s
    ensures exists k :: k in s && forall y :: y in s ==> k <= y
  {
    if exists y :: y in s && y < x {
      var y :| y in s && y < x;
      LeastExists(s, y);
    }
  }

  /** One key taken off those to do is one more that is done. */
  lemma OneMoreDone(all: set<nat>, todo: set<nat>, k: nat)
    requires k in todo && todo <= all
    ensures all - (todo - {k}) == all - todo + {k} && k !in all - todo
  {
  }
}
