/** Finite directed graphs given as ordered adjacency lists, as the dependency
    lists of `ComponentData` are. */
module Graph {

  /** Every dependency of a known node is itself a known node. */
  ghost predicate Closed<T(!new)>(g: map<T, seq<T>>) {
    forall n, d :: n in g && d in g[n] ==> d in g
  }

  ghost predicate Edge<T>(g: map<T, seq<T>>, a: T, b: T) {
    a in g && b in g[a]
  }

  ghost predicate IsPath<T>(g: map<T, seq<T>>, p: seq<T>, a: T, b: T) {
    && |p| > 0 && p[0] == a && p[|p| - 1] == b
    && forall i :: 0 <= i < |p| - 1 ==> Edge(g, p[i], p[i + 1])
  }

  /** `b` can be reached from `a` in zero or more steps. */
  ghost predicate Reach<T(!new)>(g: map<T, seq<T>>, a: T, b: T) {
    exists p :: IsPath(g, p, a, b)
  }

  /** No edge lies on a cycle; self-loops are cycles. */
  ghost predicate Acyclic<T(!new)>(g: map<T, seq<T>>) {
    forall a, b :: Edge(g, a, b) ==> !Reach(g, b, a)
  }

  lemma ReachRefl<T(!new)>(g: map<T, seq<T>>, a: T)
    ensures Reach(g, a, a)
  {
    assert IsPath(g, [a], a, a);
  }

  lemma ReachEdge<T(!new)>(g: map<T, seq<T>>, a: T, b: T)
    requires Edge(g, a, b)
    ensures Reach(g, a, b)
  {
    assert IsPath(g, [a, b], a, b);
  }

  lemma ReachTrans<T(!new)>(g: map<T, seq<T>>, a: T, b: T, c: T)
    requires Reach(g, a, b) && Reach(g, b, c)
    ensures Reach(g, a, c)
  {
    var p :| IsPath(g, p, a, b);
    var q :| IsPath(g, q, b, c);
    var r := p + q[1..];
    assert IsPath(g, r, a, c) by {
      forall i | 0 <= i < |r| - 1
        ensures Edge(g, r[i], r[i + 1])
      {
        if i >= |p| - 1 {
          assert r[i] == q[i - |p| + 1] && r[i + 1] == q[i - |p| + 2];
        }
      }
    }
  }

  lemma ReachStep<T(!new)>(g: map<T, seq<T>>, a: T, b: T, c: T)
    requires Reach(g, a, b) && Edge(g, b, c)
    ensures Reach(g, a, c)
  {
    ReachEdge(g, b, c);
    ReachTrans(g, a, b, c);
  }

  /** A set that contains `a` and is closed under edges contains all that `a` reaches. */
  lemma {:induction false} ClosedSetContainsReach<T(!new)>(g: map<T, seq<T>>, s: set<T>, p: seq<T>, a: T, b: T)
    requires forall n, d :: n in s && Edge(g, n, d) ==> d in s
    requires a in s && IsPath(g, p, a, b)
    ensures b in s
    decreases |p|
  {
    if |p| > 1 {
      assert Edge(g, p[0], p[1]);
      assert IsPath(g, p[1..], p[1], b) by {
        forall i | 0 <= i < |p[1..]| - 1
          ensures Edge(g, p[1..][i], p[1..][i + 1])
        {
          assert Edge(g, p[i + 1], p[i + 2]);
        }
      }
      ClosedSetContainsReach(g, s, p[1..], p[1], b);
    }
  }
}
