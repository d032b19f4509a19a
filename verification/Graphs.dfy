// Directed graphs given by adjacency lists. A node without a list has no successors.

module Graphs {
  type Node = string
  type Graph = map<Node, seq<Node>>

  function Next(g: Graph, n: Node): seq<Node> {
    if n in g then g[n] else []
  }

  ghost predicate IsPath(g: Graph, p: seq<Node>) {
    p != [] && forall i | 0 <= i < |p| - 1 :: p[i + 1] in Next(g, p[i])
  }

  // `to` can be reached from `from` through nodes that are not in `avoid`.
  ghost predicate Reachable(g: Graph, from: Node, to: Node, avoid: set<Node>) {
    exists p :: IsPath(g, p) && p[0] == from && p[|p| - 1] == to && forall n | n in p :: n !in avoid
  }

  lemma ReachSelf(g: Graph, n: Node, avoid: set<Node>)
    requires n !in avoid
    ensures Reachable(g, n, n, avoid)
  {
    assert IsPath(g, [n]) && [n][0] == n;
  }

  lemma ReachFirst(g: Graph, from: Node, mid: Node, to: Node, avoid: set<Node>)
    requires from !in avoid && mid in Next(g, from) && Reachable(g, mid, to, avoid)
    ensures Reachable(g, from, to, avoid)
  {
    var p :| IsPath(g, p) && p[0] == mid && p[|p| - 1] == to && forall n | n in p :: n !in avoid;
    var q := [from] + p;
    assert IsPath(g, q) && q[0] == from && q[|q| - 1] == to;
  }

  lemma ReachLast(g: Graph, from: Node, mid: Node, to: Node, avoid: set<Node>)
    requires Reachable(g, from, mid, avoid) && to in Next(g, mid) && to !in avoid
    ensures Reachable(g, from, to, avoid)
  {
    var p :| IsPath(g, p) && p[0] == from && p[|p| - 1] == mid && forall n | n in p :: n !in avoid;
    var q := p + [to];
    assert IsPath(g, q) && q[0] == from && q[|q| - 1] == to;
  }

  // Fewer nodes to avoid can only make more reachable.
  lemma ReachAvoidingLess(g: Graph, from: Node, to: Node, avoid: set<Node>, avoid': set<Node>)
    requires Reachable(g, from, to, avoid) && avoid' <= avoid
    ensures Reachable(g, from, to, avoid')
  {
    var p :| IsPath(g, p) && p[0] == from && p[|p| - 1] == to && forall n | n in p :: n !in avoid;
    assert forall n | n in p :: n !in avoid';
  }

  lemma ReachThrough(g: Graph, from: Node, mid: Node, to: Node, avoid: set<Node>)
    requires Reachable(g, from, mid, avoid) && Reachable(g, mid, to, avoid)
    ensures Reachable(g, from, to, avoid)
  {
    var p :| IsPath(g, p) && p[0] == from && p[|p| - 1] == mid && forall n | n in p :: n !in avoid;
    var q :| IsPath(g, q) && q[0] == mid && q[|q| - 1] == to && forall n | n in q :: n !in avoid;
    var r := p + q[1..];
    forall i | 0 <= i < |r| - 1 ensures r[i + 1] in Next(g, r[i]) {
      if i >= |p| - 1 {
        assert q[i - |p| + 1 + 1] in Next(g, q[i - |p| + 1]);
      }
    }
    assert IsPath(g, r) && r[0] == from && r[|r| - 1] == to;
  }

  // A set that contains the successors of its members, apart from those avoided, contains
  // everything reachable from it.
  lemma {:induction false} ClosedContainsPath(g: Graph, s: set<Node>, avoid: set<Node>, p: seq<Node>, i: nat)
    requires forall n, m | n in s && m in Next(g, n) :: m in s || m in avoid
    requires IsPath(g, p) && p[0] in s && (forall n | n in p :: n !in avoid) && i < |p|
    ensures p[i] in s
  {
    if i > 0 {
      ClosedContainsPath(g, s, avoid, p, i - 1);
      assert p[i - 1 + 1] in Next(g, p[i - 1]);
    }
  }

  lemma ClosedContainsReachable(g: Graph, s: set<Node>, avoid: set<Node>, from: Node, to: Node)
    requires forall n, m | n in s && m in Next(g, n) :: m in s || m in avoid
    requires from in s && Reachable(g, from, to, avoid)
    ensures to in s
  {
    var p :| IsPath(g, p) && p[0] == from && p[|p| - 1] == to && forall n | n in p :: n !in avoid;
    ClosedContainsPath(g, s, avoid, p, |p| - 1);
  }
}
