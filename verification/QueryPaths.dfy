/**
  Finding a path between two nodes by backtracking (query_path.cpp).
*/
module QueryPaths {
  type Node = nat
  type Graph = seq<seq<Node>>

  ghost predicate WellFormed(g: Graph) {
    forall n, k :: 0 <= n < |g| && 0 <= k < |g[n]| ==> g[n][k] < |g|
  }

  ghost predicate Edge(g: Graph, n: Node, m: Node) {
    n < |g| && m in g[n]
  }

  /** A walk from `a` to `b` along forward edges that meets no node of `avoid`. */
  ghost predicate Walk(g: Graph, avoid: seq<Node>, a: Node, b: Node, w: seq<Node>) {
    && w != [] && w[0] == a && w[|w| - 1] == b
    && (forall k :: 0 <= k < |w| ==> w[k] < |g| && w[k] !in avoid)
    && forall k :: 0 <= k < |w| - 1 ==> Edge(g, w[k], w[k + 1])
  }

  ghost predicate Connected(g: Graph, avoid: seq<Node>, a: Node, b: Node) {
    exists w :: Walk(g, avoid, a, b, w)
  }

  ghost predicate Simple(p: seq<Node>) {
    forall i, k :: 0 <= i < k < |p| ==> p[i] != p[k]
  }

  lemma WalkSuffix(g: Graph, avoid: seq<Node>, a: Node, b: Node, w: seq<Node>, k: nat)
    requires Walk(g, avoid, a, b, w) && k < |w|
    ensures Walk(g, avoid, w[k], b, w[k..])
  {
    var v := w[k..];
    forall i | 0 <= i < |v| - 1 ensures Edge(g, v[i], v[i + 1]) {
      assert Edge(g, w[k + i], w[k + i + 1]);
    }
  }

  /** A walk that leaves `a` for good does so along one of its edges. */
  lemma {:induction false} FirstStep(g: Graph, avoid: seq<Node>, a: Node, b: Node, w: seq<Node>) returns (n: Node)
    requires Walk(g, avoid, a, b, w) && a != b
    ensures Edge(g, a, n) && n !in avoid + [a] && Connected(g, avoid + [a], n, b)
    decreases |w|
  {
    WalkSuffix(g, avoid, a, b, w, 1);
    if a in w[1..] {
      var k :| 0 <= k < |w| - 1 && w[1..][k] == a;
      WalkSuffix(g, avoid, a, b, w, k + 1);
      n := FirstStep(g, avoid, a, b, w[k + 1..]);
    } else {
      n := w[1];
      assert Edge(g, w[0], w[0 + 1]);
      var v := w[1..];
      forall k | 0 <= k < |v| ensures v[k] !in avoid + [a] {
        assert v[k] in v;
      }
      assert Walk(g, avoid + [a], n, b, v);
    }
  }

  lemma DistinctBounded(p: seq<Node>, n: nat)
    requires Simple(p) && forall k :: 0 <= k < |p| ==> p[k] < n
    ensures |p| <= n
    decreases n
  {
    if p == [] {
      return;
    }
    assert p[0] < n;
    if n - 1 in p {
      var k :| 0 <= k < |p| && p[k] == n - 1;
      var q := p[..k] + p[k + 1..];
      DistinctBounded(q, n - 1);
    } else {
      assert forall k :: 0 <= k < |p| ==> p[k] in p;
      DistinctBounded(p, n - 1);
    }
  }

  class QueryPath {
    var path: seq<Node>

    constructor ()
      ensures path == []
    {
      path := [];
    }

    /**
      Extends the path from `a` to `b` without meeting a node of the path again, or restores
      it when there is no such way.
    */
    method FindPath(g: Graph, a: Node, b: Node) returns (found: bool)
      requires WellFormed(g) && a < |g| && b < |g|
      requires Simple(path) && a !in path && forall k :: 0 <= k < |path| ==> path[k] < |g|
      modifies this
      ensures found <==> Connected(g, old(path), a, b)
      ensures !found ==> path == old(path)
      ensures found ==> old(path) <= path && Simple(path) && Walk(g, old(path), a, b, path[|old(path)|..])
      decreases |g| - |path|
    {
      ghost var before := path;
      path := path + [a];
      DistinctBounded(path, |g|);
      if a == b {
        assert path[|before|..] == [a];
        assert Walk(g, before, a, b, [a]);
        return true;
      }
      found := false;
      for i := 0 to |g[a]|
        invariant path == before + [a] && !found
        invariant forall k :: 0 <= k < i ==> g[a][k] in path || !Connected(g, path, g[a][k], b)
      {
        if g[a][i] !in path {
          found := FindPath(g, g[a][i], b);
          if found {
            WayFound(g, before, a, b, g[a][i], path);
            return;
          }
        }
      }
      if Connected(g, before, a, b) {
        var w :| Walk(g, before, a, b, w);
        var n := FirstStep(g, before, a, b, w);
      }
      path := path[..|path| - 1];
    }
  }

  lemma WayFound(g: Graph, before: seq<Node>, a: Node, b: Node, n: Node, path: seq<Node>)
    requires a < |g| && a !in before && Edge(g, a, n) && before + [a] <= path && Simple(path)
    requires Walk(g, before + [a], n, b, path[|before| + 1..])
    ensures Connected(g, before, a, b) && before <= path && Walk(g, before, a, b, path[|before|..])
  {
    var w, v := path[|before| + 1..], path[|before|..];
    assert v == [a] + w;
    forall k | 0 <= k < |v| ensures v[k] < |g| && v[k] !in before {
      assert k > 0 ==> v[k] == w[k - 1] && w[k - 1] !in before + [a];
    }
    forall k | 0 <= k < |v| - 1 ensures Edge(g, v[k], v[k + 1]) {
      assert k > 0 ==> Edge(g, w[k - 1], w[k - 1 + 1]);
    }
    assert Walk(g, before, a, b, v);
  }

  /** From an empty path: true exactly when `b` can be reached, and then a simple path along edges. */
  method FindFrom(g: Graph, a: Node, b: Node) returns (path: seq<Node>, found: bool)
    requires WellFormed(g) && a < |g| && b < |g|
    ensures found <==> Connected(g, [], a, b)
    ensures found ==> Simple(path) && Walk(g, [], a, b, path)
    ensures !found ==> path == []
  {
    var q := new QueryPath();
    found := q.FindPath(g, a, b);
    path := q.path;
    assert path[0..] == path;
  }
}
