/** Walks, reachability, cycles and components of a finite directed graph,
    given as its set of arcs. */
module Digraph {

  type Node = string
  type Arcs = set<(Node, Node)>

  ghost predicate IsWalk(arcs: Arcs, p: seq<Node>) {
    |p| > 0 && forall i :: 0 <= i < |p| - 1 ==> (p[i], p[i + 1]) in arcs
  }

  ghost predicate Joins(arcs: Arcs, p: seq<Node>, a: Node, b: Node) {
    IsWalk(arcs, p) && p[0] == a && p[|p| - 1] == b
  }

  ghost predicate Reach(arcs: Arcs, a: Node, b: Node) {
    exists p: seq<Node> :: Joins(arcs, p, a, b)
  }

  ghost predicate Mutual(arcs: Arcs, a: Node, b: Node) {
    Reach(arcs, a, b) && Reach(arcs, b, a)
  }

  /** A closed walk with at least one arc. */
  ghost predicate IsCycle(arcs: Arcs, p: seq<Node>) {
    |p| >= 2 && IsWalk(arcs, p) && p[0] == p[|p| - 1]
  }

  ghost predicate HasCycle(arcs: Arcs) {
    exists p: seq<Node> :: IsCycle(arcs, p)
  }

  /** The maximal set of nodes mutually reachable with one of them. */
  ghost predicate IsComponent(arcs: Arcs, nodes: set<Node>, c: set<Node>) {
    exists a :: a in nodes && ComponentOf(arcs, nodes, a, c)
  }

  ghost predicate ComponentOf(arcs: Arcs, nodes: set<Node>, a: Node, c: set<Node>) {
    c <= nodes && forall b :: b in nodes ==> (b in c <==> Mutual(arcs, a, b))
  }

  ghost predicate IsClosed(arcs: Arcs, c: set<Node>) {
    forall a, b :: (a, b) in arcs && a in c ==> b in c
  }

  lemma ReachSelf(arcs: Arcs, a: Node)
    ensures Reach(arcs, a, a)
  {
    assert Joins(arcs, [a], a, a);
  }

  lemma ReachArc(arcs: Arcs, a: Node, b: Node)
    requires (a, b) in arcs
    ensures Reach(arcs, a, b)
  {
    assert Joins(arcs, [a, b], a, b);
  }

  lemma WalkConcat(arcs: Arcs, p: seq<Node>, q: seq<Node>)
    requires IsWalk(arcs, p) && IsWalk(arcs, q) && p[|p| - 1] == q[0]
    ensures Joins(arcs, p + q[1..], p[0], q[|q| - 1])
  {
    var r := p + q[1..];
    forall i | 0 <= i < |r| - 1 ensures (r[i], r[i + 1]) in arcs {
      if i >= |p| - 1 { assert r[i] == q[i - |p| + 1] && r[i + 1] == q[i - |p| + 2]; }
    }
  }

  lemma ReachTransitive(arcs: Arcs, a: Node, b: Node, c: Node)
    requires Reach(arcs, a, b) && Reach(arcs, b, c)
    ensures Reach(arcs, a, c)
  {
    var p :| Joins(arcs, p, a, b);
    var q :| Joins(arcs, q, b, c);
    WalkConcat(arcs, p, q);
  }

  lemma ReachMonotone(small: Arcs, large: Arcs, a: Node, b: Node)
    requires small <= large && Reach(small, a, b)
    ensures Reach(large, a, b)
  {
    var p :| Joins(small, p, a, b);
    assert Joins(large, p, a, b);
  }

  lemma {:induction false} WalkStaysInClosed(arcs: Arcs, c: set<Node>, p: seq<Node>, k: nat)
    requires IsClosed(arcs, c) && IsWalk(arcs, p) && p[0] in c && k < |p|
    ensures p[k] in c
  {
    if k > 0 {
      WalkStaysInClosed(arcs, c, p, k - 1);
      assert (p[k - 1], p[k - 1 + 1]) in arcs;
    }
  }

  lemma ReachStaysInClosed(arcs: Arcs, c: set<Node>, a: Node, b: Node)
    requires IsClosed(arcs, c) && a in c && Reach(arcs, a, b)
    ensures b in c
  {
    var p :| Joins(arcs, p, a, b);
    WalkStaysInClosed(arcs, c, p, |p| - 1);
  }

  /** Any stretch of a walk is a walk. */
  lemma WalkSlice(arcs: Arcs, p: seq<Node>, i: nat, j: nat)
    requires IsWalk(arcs, p) && i <= j < |p|
    ensures Joins(arcs, p[i..j + 1], p[i], p[j])
  {
    var q := p[i..j + 1];
    forall k | 0 <= k < |q| - 1 ensures (q[k], q[k + 1]) in arcs {
      assert (p[i + k], p[i + k + 1]) in arcs;
    }
  }

  /** Two distinct mutually reachable nodes lie on a cycle. */
  lemma MutualIsCycle(arcs: Arcs, a: Node, b: Node)
    requires a != b && Mutual(arcs, a, b)
    ensures HasCycle(arcs)
  {
    var p :| Joins(arcs, p, a, b);
    var q :| Joins(arcs, q, b, a);
    WalkConcat(arcs, p, q);
    assert IsCycle(arcs, p + q[1..]);
  }

  /** Nodes of a cycle are mutually reachable. */
  lemma CycleIsMutual(arcs: Arcs, p: seq<Node>, i: nat, j: nat)
    requires IsCycle(arcs, p) && i < |p| && j < |p|
    ensures Mutual(arcs, p[i], p[j])
  {
    WalkSlice(arcs, p, i, |p| - 1);
    WalkSlice(arcs, p, 0, j);
    ReachTransitive(arcs, p[i], p[0], p[j]);
    WalkSlice(arcs, p, j, |p| - 1);
    WalkSlice(arcs, p, 0, i);
    ReachTransitive(arcs, p[j], p[0], p[i]);
  }
}
