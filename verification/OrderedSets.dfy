/**
  The ordered set (ordered_set.h): a vector that also keeps a hash set of its items, but only
  while it has at least `limit` of them.
*/
module OrderedSets {
  import opened Lists

  /** The items with `x` at the end, unless it is among them. */
  function Pushed<T(==,!new)>(s: seq<T>, x: T): (r: seq<T>)
    ensures forall y :: y in r <==> y in s || y == x
  {
    if x in s then s else s + [x]
  }

  /** The items without `x`, in order. */
  function Without<T(==,!new)>(s: seq<T>, x: T): (r: seq<T>)
    ensures forall y :: y in r <==> y in s && y != x
    ensures |r| <= |s| && (x in s ==> |r| < |s|) && (x !in s ==> r == s)
  {
    if s == [] then [] else (if s[0] == x then [] else [s[0]]) + Without(s[1..], x)
  }

  /** The items with those of `more` that are new, in the order they come. */
  function Extended<T(==,!new)>(s: seq<T>, more: seq<T>): (r: seq<T>)
    ensures forall y :: y in r <==> y in s || y in more
    ensures s <= r
    decreases |more|
  {
    if more == [] then s else Extended(Pushed(s, more[0]), more[1..])
  }

  ghost predicate NoDuplicates<T>(s: seq<T>) {
    forall i, k :: 0 <= i < k < |s| ==> s[i] != s[k]
  }

  lemma {:induction false} WithoutOne<T(!new)>(s: seq<T>, x: T)
    requires NoDuplicates(s)
    ensures NoDuplicates(Without(s, x)) && |Without(s, x)| == |s| - if x in s then 1 else 0
  {
    if s != [] {
      var w, v := Without(s, x), Without(s[1..], x);
      WithoutOne(s[1..], x);
      assert s[0] == x ==> x !in s[1..];
      if s[0] != x {
        assert w == [s[0]] + v;
        forall k | 0 < k < |w| ensures w[k] == v[k - 1] && w[k] != s[0] {
          assert v[k - 1] in v;
        }
      }
    }
  }

  lemma {:induction false} WithoutFilters<T(!new)>(s: seq<T>, x: T, keep: T -> bool)
    requires forall y :: keep(y) <==> y != x
    ensures Without(s, x) == Filtered(s, keep)
  {
    if s != [] {
      WithoutFilters(s[1..], x, keep);
    }
  }

  /** Earlier items stay earlier. */
  lemma WithoutKeepsOrder<T(!new)>(s: seq<T>, x: T, i: nat, k: nat)
    requires i < k < |Without(s, x)|
    ensures exists p, q :: 0 <= p < q < |s| && s[p] == Without(s, x)[i] && s[q] == Without(s, x)[k]
  {
    var keep := (y: T) => y != x;
    WithoutFilters(s, x, keep);
    FilteredOrder(s, keep, i, k);
  }

  lemma {:induction false} ExtendedNoDuplicates<T(!new)>(s: seq<T>, more: seq<T>)
    requires NoDuplicates(s)
    ensures NoDuplicates(Extended(s, more))
    decreases |more|
  {
    if more != [] {
      ExtendedNoDuplicates(Pushed(s, more[0]), more[1..]);
    }
  }

  /** What the hidden set has to be. */
  ghost predicate Consistent<T(!new)>(items: seq<T>, hidden: set<T>, limit: nat) {
    NoDuplicates(items) && hidden == if |items| >= limit then (set x | x in items) else {}
  }

  lemma {:induction false} FilteredNoDuplicates<T(!new)>(s: seq<T>, keep: T -> bool)
    requires NoDuplicates(s)
    ensures NoDuplicates(Filtered(s, keep)) && |Filtered(s, keep)| <= |s|
    ensures (forall x :: x in s ==> keep(x)) ==> Filtered(s, keep) == s
  {
    if s != [] {
      FilteredNoDuplicates(s[1..], keep);
      var f, rest := Filtered(s, keep), Filtered(s[1..], keep);
      if keep(s[0]) {
        forall k | 0 < k < |f| ensures f[k] == rest[k - 1] && f[k] != s[0] {
          FilteredHas(s[1..], keep, rest[k - 1]);
          assert rest[k - 1] in rest;
        }
      }
      assert s == [s[0]] + s[1..];
    }
  }

  /**
    Erasing the items that match from the vector alone keeps the two in agreement exactly when
    none matched or no hidden set is in use.
  */
  lemma VectorEraseKeeps<T(!new)>(items: seq<T>, hidden: set<T>, limit: nat, keep: T -> bool)
    requires Consistent(items, hidden, limit)
    ensures Consistent(Filtered(items, keep), hidden, limit)
       <==> (forall x :: x in items ==> keep(x)) || |items| < limit
  {
    FilteredNoDuplicates(items, keep);
    var w := Filtered(items, keep);
    if |items| >= limit && exists x :: x in items && !keep(x) {
      var x :| x in items && !keep(x);
      FilteredHas(items, keep, x);
      assert x in hidden && x !in (set y | y in w);
    }
  }

  /** Four items, the last erased from the vector: it is still in the hidden set. */
  lemma VectorEraseFails()
    ensures
      var (items, hidden) := ([1, 2, 3, 4], {1, 2, 3, 4});
      var keep := (x: int) => x != 4;
      && Consistent(items, hidden, 4) && !Consistent(Filtered(items, keep), hidden, 4)
      && 4 !in Filtered(items, keep)
  {
    var (items, hidden) := ([1, 2, 3, 4], {1, 2, 3, 4});
    var keep := (x: int) => x != 4;
    assert hidden == set x | x in items;
    VectorEraseKeeps(items, hidden, 4, keep);
    FilteredHas(items, keep, 4);
    assert 4 in items;
  }

  class OrderedSet<T(==,!new)> {
    const limit: nat
    var items: seq<T>
    var hidden: set<T>

    ghost predicate Valid()
      reads this
    {
      Consistent(items, hidden, limit)
    }

    constructor (limit: nat)
      ensures Valid() && items == [] && this.limit == limit
    {
      this.limit := limit;
      items, hidden := [], {};
    }

    method PushBack(x: T) returns (added: bool)
      requires Valid()
      modifies this
      ensures Valid() && added == (x !in old(items)) && items == Pushed(old(items), x)
    {
      if |items| < limit {
        for i := 0 to |items|
          invariant forall k :: 0 <= k < i ==> items[k] != x
          invariant items == old(items) && hidden == old(hidden)
        {
          if items[i] == x {
            return false;
          }
        }
        items := items + [x];
        if |items| == limit {
          for i := 0 to |items|
            invariant items == old(items) + [x] && hidden == set y | y in items[..i]
          {
            assert items[..i + 1] == items[..i] + [items[i]];
            hidden := hidden + {items[i]};
          }
          assert items[..|items|] == items;
        }
        return true;
      }
      if x in hidden {
        return false;
      }
      items := items + [x];
      hidden := hidden + {x};
      return true;
    }

    method Discard(x: T) returns (erased: bool)
      requires Valid()
      modifies this
      ensures Valid() && erased == (x in old(items)) && items == Without(old(items), x)
    {
      var prevSize := |items|;
      var useSet := prevSize >= limit;
      if useSet {
        hidden := hidden - {x};
      }
      WithoutOne(items, x);
      items := Without(items, x);
      erased := prevSize != |items|;
      if useSet && erased && prevSize == limit {
        hidden := {};
      }
    }

    method Contains(x: T) returns (found: bool)
      requires Valid()
      ensures found == (x in items)
    {
      if |items| >= limit {
        return x in hidden;
      }
      for i := 0 to |items|
        invariant forall k :: 0 <= k < i ==> items[k] != x
      {
        if items[i] == x {
          return true;
        }
      }
      return false;
    }

    method Extend(other: seq<T>)
      requires Valid()
      modifies this
      ensures Valid() && items == Extended(old(items), other)
    {
      for i := 0 to |other|
        invariant Valid() && Extended(items, other[i..]) == Extended(old(items), other)
      {
        assert other[i..][0] == other[i] && other[i..][1..] == other[i + 1..];
        var added := PushBack(other[i]);
      }
    }

    /** Searches the vector of the larger set for each item of the smaller one. */
    method DoesIntersect(other: OrderedSet<T>) returns (found: bool)
      requires Valid() && other.Valid()
      ensures found <==> exists x :: x in items && x in other.items
    {
      var smaller, larger := this, other;
      if |other.items| < |items| {
        smaller, larger := other, this;
      }
      for i := 0 to |smaller.items|
        invariant forall k :: 0 <= k < i ==> smaller.items[k] !in larger.items
      {
        if smaller.items[i] in larger.items {
          return true;
        }
      }
      return false;
    }
  }

  // ---------- Runs ----------

  datatype Op<T> = Push(item: T) | Drop(item: T) | Add(items: seq<T>)

  /** What a run leaves in the vector. */
  function After<T(==,!new)>(s: seq<T>, ops: seq<Op<T>>): seq<T>
    decreases |ops|
  {
    if ops == [] then s
    else After(match ops[0]
      case Push(x) => Extended(s, [x])
      case Drop(x) => Without(s, x)
      case Add(l) => Extended(s, l), ops[1..])
  }

  lemma {:induction false} AfterNoDuplicates<T(!new)>(s: seq<T>, ops: seq<Op<T>>)
    requires NoDuplicates(s)
    ensures NoDuplicates(After(s, ops))
    decreases |ops|
  {
    if ops != [] {
      match ops[0]
      case Push(x) =>
        ExtendedNoDuplicates(s, [x]);
        AfterNoDuplicates(Extended(s, [x]), ops[1..]);
      case Drop(x) =>
        WithoutOne(s, x);
        AfterNoDuplicates(Without(s, x), ops[1..]);
      case Add(l) =>
        ExtendedNoDuplicates(s, l);
        AfterNoDuplicates(Extended(s, l), ops[1..]);
    }
  }

  /** The set keeps to its specification over every run. */
  method Perform<T(==,!new)>(s: OrderedSet<T>, ops: seq<Op<T>>)
    requires s.Valid()
    modifies s
    ensures s.Valid() && s.items == After(old(s.items), ops)
  {
    for i := 0 to |ops|
      invariant s.Valid() && After(s.items, ops[i..]) == After(old(s.items), ops)
    {
      assert ops[i..][0] == ops[i] && ops[i..][1..] == ops[i + 1..];
      match ops[i] {
        case Push(x) =>
          ghost var before := s.items;
          assert [x][1..] == [];
          assert Extended(before, [x]) == Pushed(before, x);
          var added := s.PushBack(x);
        case Drop(x) =>
          var erased := s.Discard(x);
        case Add(l) =>
          s.Extend(l);
      }
    }
  }
}
