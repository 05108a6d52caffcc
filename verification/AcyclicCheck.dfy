/** The migration audit's cycle test: repeatedly take a node that nothing left points to
    (scripts/migration_audit.py, _has_cycle). */
module AcyclicCheck {
  import opened Ordering
  import opened Digraph

  ghost predicate Joined(nodes: set<Node>, edges: Arcs) {
    forall e :: e in edges ==> e.0 in nodes && e.1 in nodes
  }

  function Sources(edges: Arcs, n: Node): set<Node> {
    set e | e in edges && e.1 == n :: e.0
  }

  function Targets(edges: Arcs, n: Node): set<Node> {
    set e | e in edges && e.0 == n :: e.1
  }

  /** How many of n's sources have not been visited. */
  function Waiting(edges: Arcs, visited: set<Node>, n: Node): nat {
    |Sources(edges, n) - visited|
  }

  ghost predicate NoCycleMeets(edges: Arcs, visited: set<Node>) {
    forall p, i :: IsCycle(edges, p) && 0 <= i < |p| ==> p[i] !in visited
  }

  lemma EdgeAdded(edges: Arcs, e: (Node, Node), n: Node)
    requires e !in edges
    ensures Sources(edges + {e}, n) == Sources(edges, n) + (if n == e.1 then {e.0} else {})
    ensures Targets(edges + {e}, n) == Targets(edges, n) + (if n == e.0 then {e.1} else {})
    ensures n == e.1 ==> |Sources(edges + {e}, n)| == |Sources(edges, n)| + 1
  {
    var all := edges + {e};
    assert forall s :: s in Sources(edges, n) <==> (s, n) in edges;
    assert forall s :: s in Sources(all, n) <==> (s, n) in all;
    assert forall t :: t in Targets(edges, n) <==> (n, t) in edges;
    assert forall t :: t in Targets(all, n) <==> (n, t) in all;
    hide Sources, Targets;
    assert e == (e.0, e.1);
  }

  ghost predicate Counted(nodes: set<Node>, edges: Arcs, successors: map<Node, set<Node>>, indegrees: map<Node, nat>) {
    && successors.Keys == nodes && indegrees.Keys == nodes
    && forall n :: n in nodes ==> successors[n] == Targets(edges, n) && indegrees[n] == |Sources(edges, n)|
  }

  lemma CountOne(nodes: set<Node>, edges: Arcs, e: (Node, Node), successors: map<Node, set<Node>>,
                 indegrees: map<Node, nat>)
    requires Counted(nodes, edges, successors, indegrees) && e !in edges && e.0 in nodes && e.1 in nodes
    ensures successors.Keys == nodes && indegrees.Keys == nodes
    ensures Counted(nodes, edges + {e}, successors[e.0 := successors[e.0] + {e.1}],
                    indegrees[e.1 := indegrees[e.1] + 1])
  {
    hide Sources, Targets;
    var more, counts := successors[e.0 := successors[e.0] + {e.1}], indegrees[e.1 := indegrees[e.1] + 1];
    assert more.Keys == nodes && counts.Keys == nodes;
    forall n | n in nodes ensures more[n] == Targets(edges + {e}, n) && counts[n] == |Sources(edges + {e}, n)| {
      EdgeAdded(edges, e, n);
    }
  }

  lemma NothingCounted(nodes: set<Node>, successors: map<Node, set<Node>>, indegrees: map<Node, nat>)
    requires successors == (map n | n in nodes :: {}) && indegrees == map n | n in nodes :: 0
    ensures Counted(nodes, {}, successors, indegrees)
  {
    forall n ensures Targets({}, n) == {} && Sources({}, n) == {} {}
    hide Targets, Sources;
  }

  /** The successors of every node, and its number of sources. */
  method CountDegrees(nodes: set<Node>, edges: Arcs)
    returns (successors: map<Node, set<Node>>, indegrees: map<Node, nat>)
    requires Joined(nodes, edges)
    ensures Counted(nodes, edges, successors, indegrees)
  {
    hide Counted;
    successors, indegrees := map n | n in nodes :: {}, map n | n in nodes :: 0;
    NothingCounted(nodes, successors, indegrees);
    var rest := edges;
    ghost var done := {};
    while rest != {}
      invariant done + rest == edges && done !! rest && Counted(nodes, done, successors, indegrees)
      decreases rest
    {
      var e :| e in rest;
      assert e in edges;
      CountOne(nodes, done, e, successors, indegrees);
      rest, done := rest - {e}, done + {e};
      successors := successors[e.0 := successors[e.0] + {e.1}];
      indegrees := indegrees[e.1 := indegrees[e.1] + 1];
    }
  }

  lemma OneLessWaits(edges: Arcs, visited: set<Node>, node: Node, n: Node)
    requires node !in visited
    ensures Waiting(edges, visited + {node}, n) == Waiting(edges, visited, n) - (if (node, n) in edges then 1 else 0)
  {
    var s := Sources(edges, n);
    assert node in s <==> (node, n) in edges;
    assert s - (visited + {node}) == (s - visited) - {node};
  }

  /** What can be taken next: the unvisited nodes that wait for nothing. */
  function Ready(nodes: set<Node>, visited: set<Node>, indegrees: map<Node, nat>): set<Node> {
    set n | n in nodes && n !in visited && n in indegrees && indegrees[n] == 0
  }

  /** Visited nodes wait for nothing unvisited, so the targets of an unvisited node are
      unvisited. */
  lemma TargetsUnvisited(edges: Arcs, visited: set<Node>, node: Node, n: Node)
    requires node !in visited && (node, n) in edges
    ensures Waiting(edges, visited, n) > 0
  {
    assert node in Sources(edges, n) - visited;
  }

  lemma ReadyAfter(nodes: set<Node>, visited: set<Node>, indegrees: map<Node, nat>, target: Node)
    requires target in nodes - visited && target in indegrees && indegrees[target] > 0
    ensures Ready(nodes, visited, indegrees[target := indegrees[target] - 1]) ==
            Ready(nodes, visited, indegrees) + (if indegrees[target] == 1 then {target} else {})
  {
  }

  /** The indegrees still to come off, and nothing left on the visited nodes. */
  ghost predicate Level(nodes: set<Node>, edges: Arcs, visited: set<Node>, indegrees: map<Node, nat>) {
    indegrees.Keys == nodes && forall n :: n in nodes ==>
      indegrees[n] == Waiting(edges, visited, n) && (n in visited ==> indegrees[n] == 0)
  }

  ghost predicate Released(before: map<Node, nat>, targets: set<Node>, after: map<Node, nat>) {
    after.Keys == before.Keys && forall n :: n in before ==> after[n] + (if n in targets then 1 else 0) == before[n]
  }

  lemma TargetsWait(nodes: set<Node>, edges: Arcs, visited: set<Node>, node: Node, indegrees: map<Node, nat>)
    requires Joined(nodes, edges) && node in nodes - visited && Level(nodes, edges, visited, indegrees)
             && indegrees[node] == 0
    ensures forall n :: n in Targets(edges, node) ==> n in nodes - visited - {node} && indegrees[n] > 0
  {
    hide Waiting;
    forall n | n in Targets(edges, node) ensures n in nodes && Waiting(edges, visited, n) > 0 {
      assert (node, n) in edges;
      TargetsUnvisited(edges, visited, node, n);
    }
    hide Targets, Joined;
  }

  lemma NextLevel(nodes: set<Node>, edges: Arcs, visited: set<Node>, node: Node, before: map<Node, nat>,
                  after: map<Node, nat>)
    requires Joined(nodes, edges) && node in nodes - visited && Level(nodes, edges, visited, before)
             && before[node] == 0
    requires Released(before, Targets(edges, node), after)
    ensures Level(nodes, edges, visited + {node}, after)
  {
    TargetsWait(nodes, edges, visited, node, before);
    forall n | n in nodes
      ensures after[n] == Waiting(edges, visited + {node}, n) && (n in visited + {node} ==> after[n] == 0)
    {
      OneLessWaits(edges, visited, node, n);
      assert n in Targets(edges, node) <==> (node, n) in edges;
    }
  }

  /** Takes one edge off each target. The sorted ready list is held as a set, of which
      the least element is taken. */
  method Release(nodes: set<Node>, ghost visited: set<Node>, targets: set<Node>, before: map<Node, nat>,
                 waiting: set<Node>)
    returns (indegrees: map<Node, nat>, ready: set<Node>)
    requires before.Keys == nodes && forall n :: n in targets ==> n in nodes - visited && before[n] > 0
    requires waiting == Ready(nodes, visited, before)
    ensures Released(before, targets, indegrees) && ready == Ready(nodes, visited, indegrees)
  {
    indegrees, ready := before, waiting;
    var list := Sorted(targets);
    hide Sorted, Ready;
    for j := 0 to |list|
      invariant Released(before, (set n | n in list[..j]), indegrees) && ready == Ready(nodes, visited, indegrees)
    {
      var target := list[j];
      assert list[..j + 1] == list[..j] + [target] && target in targets;
      ReadyAfter(nodes, visited, indegrees, target);
      indegrees := indegrees[target := indegrees[target] - 1];
      if indegrees[target] == 0 { ready := ready + {target}; }
    }
    assert (set n | n in list[..|list|]) == targets by { assert list[..|list|] == list; }
  }

  /** On a cycle every node has a predecessor on the cycle. */
  lemma CyclePredecessor(edges: Arcs, p: seq<Node>, i: nat) returns (j: nat)
    requires IsCycle(edges, p) && i < |p|
    ensures j < |p| && (p[j], p[i]) in edges
  {
    j := if i == 0 then |p| - 2 else i - 1;
    assert (p[j], p[j + 1]) in edges;
  }

  lemma VisitKeepsAcyclic(edges: Arcs, visited: set<Node>, node: Node)
    requires NoCycleMeets(edges, visited) && Waiting(edges, visited, node) == 0
    ensures NoCycleMeets(edges, visited + {node})
  {
    forall p, i | IsCycle(edges, p) && 0 <= i < |p| ensures p[i] !in visited + {node} {
      var j := CyclePredecessor(edges, p, i);
      assert p[j] in Sources(edges, p[i]) - visited;
    }
  }

  /** ready.pop(0) */
  function First(ready: set<Node>): (n: Node)
    requires ready != {}
    ensures n in ready
  {
    Least(ready)
  }

  method TakeFirst(nodes: set<Node>, ghost edges: Arcs, ghost visited: set<Node>, successors: map<Node, set<Node>>,
                   ghost counts: map<Node, nat>, before: map<Node, nat>, waiting: set<Node>)
    returns (node: Node, indegrees: map<Node, nat>, ready: set<Node>)
    requires Joined(nodes, edges) && Counted(nodes, edges, successors, counts)
    requires Kahn(nodes, edges, visited, before, waiting) && waiting != {}
    ensures node in nodes - visited && Kahn(nodes, edges, visited + {node}, indegrees, ready)
  {
    hide Kahn, Counted, Targets, Joined, Released, Ready, IsCycle, First;
    node := First(waiting);
    KahnChoice(nodes, edges, visited, before, waiting, node, successors, counts);
    KahnRest(nodes, edges, visited, before, waiting, node);
    indegrees, ready := Release(nodes, visited + {node}, successors[node], before, waiting - {node});
    KahnStep(nodes, edges, visited, node, before, indegrees, ready);
  }

  method FindsCycle(nodes: set<Node>, edges: Arcs) returns (cyclic: bool)
    requires Joined(nodes, edges)
    ensures cyclic <==> HasCycle(edges)
  {
    var successors, indegrees := CountDegrees(nodes, edges);
    var ready := set n | n in nodes && indegrees[n] == 0;
    var visited := 0;
    ghost var counts := indegrees;
    ghost var done := {};
    FirstLevel(nodes, edges, successors, indegrees, ready);
    hide Kahn, Counted, Joined, HasCycle;
    while ready != {}
      invariant Kahn(nodes, edges, done, indegrees, ready) && visited == |done|
      decreases nodes - done
    {
      var node;
      node, indegrees, ready := TakeFirst(nodes, edges, done, successors, counts, indegrees, ready);
      visited, done := visited + 1, done + {node};
    }
    cyclic := visited != |indegrees|;
    assert |indegrees.Keys| == |indegrees|;
    KahnEnd(nodes, edges, done, indegrees);
  }

  /** The loop's state: the unvisited nodes that can be taken next are ready, and no
      cycle goes through a visited one. */
  ghost predicate Kahn(nodes: set<Node>, edges: Arcs, visited: set<Node>, indegrees: map<Node, nat>, ready: set<Node>) {
    && visited <= nodes && Level(nodes, edges, visited, indegrees)
    && ready == Ready(nodes, visited, indegrees) && NoCycleMeets(edges, visited)
  }

  lemma KahnChoice(nodes: set<Node>, edges: Arcs, visited: set<Node>, indegrees: map<Node, nat>, ready: set<Node>,
                   node: Node, successors: map<Node, set<Node>>, counts: map<Node, nat>)
    requires Kahn(nodes, edges, visited, indegrees, ready) && node in ready && Joined(nodes, edges)
    requires Counted(nodes, edges, successors, counts)
    ensures node in nodes - visited && indegrees.Keys == nodes && successors.Keys == nodes && indegrees[node] == 0
    ensures successors[node] == Targets(edges, node)
    ensures forall n :: n in successors[node] ==> n in nodes - (visited + {node}) && indegrees[n] > 0
  {
    hide Targets, Sources, Waiting, NoCycleMeets, Joined;
    assert indegrees[node] == 0 && node in nodes - visited;
    TargetsWait(nodes, edges, visited, node, indegrees);
  }

  lemma KahnRest(nodes: set<Node>, edges: Arcs, visited: set<Node>, indegrees: map<Node, nat>, ready: set<Node>,
                 node: Node)
    requires Kahn(nodes, edges, visited, indegrees, ready) && node in ready
    ensures ready == Ready(nodes, visited, indegrees) && ready - {node} == Ready(nodes, visited + {node}, indegrees)
  {
    hide NoCycleMeets, Level;
  }

  lemma KahnStep(nodes: set<Node>, edges: Arcs, visited: set<Node>, node: Node, before: map<Node, nat>,
                 after: map<Node, nat>, ready: set<Node>)
    requires Joined(nodes, edges) && node in nodes - visited
    requires Kahn(nodes, edges, visited, before, Ready(nodes, visited, before)) && before[node] == 0
    requires Released(before, Targets(edges, node), after) && ready == Ready(nodes, visited + {node}, after)
    ensures Kahn(nodes, edges, visited + {node}, after, ready)
  {
    assert Waiting(edges, visited, node) == 0;
    hide Waiting, Joined, NoCycleMeets;
    NextLevel(nodes, edges, visited, node, before, after);
    VisitKeepsAcyclic(edges, visited, node);
    hide Level, Ready;
  }

  lemma KahnEnd(nodes: set<Node>, edges: Arcs, visited: set<Node>, indegrees: map<Node, nat>)
    requires Joined(nodes, edges) && Kahn(nodes, edges, visited, indegrees, {})
    ensures indegrees.Keys == nodes && (|visited| != |nodes| <==> HasCycle(edges))
  {
    SameSize(visited, nodes);
    if visited == nodes {
      NoCycle(nodes, edges);
    } else {
      forall n | n in nodes - visited ensures Waiting(edges, visited, n) > 0 {
        assert n !in Ready(nodes, visited, indegrees);
      }
      hide Kahn;
      CycleLeft(nodes, edges, visited);
    }
  }

  lemma NothingVisited(edges: Arcs, n: Node)
    ensures Waiting(edges, {}, n) == |Sources(edges, n)|
  {
    assert Sources(edges, n) - {} == Sources(edges, n);
  }

  lemma FirstLevel(nodes: set<Node>, edges: Arcs, successors: map<Node, set<Node>>, indegrees: map<Node, nat>,
                   ready: set<Node>)
    requires Counted(nodes, edges, successors, indegrees)
    requires forall n :: n in ready <==> n in nodes && indegrees[n] == 0
    ensures Kahn(nodes, edges, {}, indegrees, ready)
  {
    hide Waiting, Sources, Targets, IsCycle;
    forall n ensures Waiting(edges, {}, n) == |Sources(edges, n)| { NothingVisited(edges, n); }
  }

  lemma CycleStart(nodes: set<Node>, edges: Arcs, p: seq<Node>)
    requires Joined(nodes, edges) && IsCycle(edges, p)
    ensures p[0] in nodes
  {
    assert (p[0], p[0 + 1]) in edges;
  }

  lemma NoCycle(nodes: set<Node>, edges: Arcs)
    requires Joined(nodes, edges) && NoCycleMeets(edges, nodes)
    ensures !HasCycle(edges)
  {
    if p :| IsCycle(edges, p) { CycleStart(nodes, edges, p); }
  }

  lemma CycleLeft(nodes: set<Node>, edges: Arcs, done: set<Node>)
    requires Joined(nodes, edges) && done <= nodes && done != nodes
    requires forall n :: n in nodes - done ==> Waiting(edges, done, n) > 0
    ensures HasCycle(edges)
  {
    hide Joined, Waiting;
    SameSize(done, nodes);
    forall n | n in nodes - done ensures HasSource(edges, nodes - done, n) { SourceLeft(nodes, edges, done, n); }
    hide HasSource;
    EverySourced(edges, nodes - done);
  }

  lemma SourceLeft(nodes: set<Node>, edges: Arcs, done: set<Node>, n: Node)
    requires Joined(nodes, edges) && Waiting(edges, done, n) > 0
    ensures HasSource(edges, nodes - done, n)
  {
    var s :| s in Sources(edges, n) - done;
    assert (s, n) in edges && s in nodes - done;
  }

  lemma SameSize(part: set<Node>, whole: set<Node>)
    requires part <= whole
    ensures |part| == |whole| <==> part == whole
    ensures |whole| == |part| + |whole - part|
  {
    assert whole == part + (whole - part) && |whole| == |part| + |whole - part|;
  }

  // ----- A finite set in which every node has a predecessor contains a cycle -----

  ghost predicate HasSource(edges: Arcs, left: set<Node>, n: Node) {
    exists s :: s in left && (s, n) in edges
  }

  ghost predicate Sourced(edges: Arcs, left: set<Node>) {
    forall n :: n in left ==> HasSource(edges, left, n)
  }

  lemma {:induction false} WalkBack(edges: Arcs, left: set<Node>, k: nat) returns (p: seq<Node>)
    requires left != {} && Sourced(edges, left) && k > 0
    ensures |p| == k && IsWalk(edges, p) && forall i :: 0 <= i < k ==> p[i] in left
  {
    if k == 1 {
      var n :| n in left;
      p := [n];
    } else {
      var rest := WalkBack(edges, left, k - 1);
      assert HasSource(edges, left, rest[0]);
      hide Sourced;
      var s :| s in left && (s, rest[0]) in edges;
      hide HasSource;
      p := [s] + rest;
      hide IsWalk;
    }
  }

  lemma {:induction false} Repeats(p: seq<Node>, left: set<Node>) returns (i: nat, j: nat)
    requires |p| > |left| && forall k :: 0 <= k < |p| ==> p[k] in left
    ensures i < j < |p| && p[i] == p[j]
  {
    if p[0] in p[1..] {
      i := 0;
      var k :| 0 <= k < |p[1..]| && p[1..][k] == p[0];
      j := k + 1;
    } else {
      assert forall k :: 0 <= k < |p[1..]| ==> p[1..][k] in p[1..] && p[1..][k] == p[k + 1];
      i, j := Repeats(p[1..], left - {p[0]});
      i, j := i + 1, j + 1;
    }
  }

  lemma EverySourced(edges: Arcs, left: set<Node>)
    requires left != {} && Sourced(edges, left)
    ensures HasCycle(edges)
  {
    var p := WalkBack(edges, left, |left| + 1);
    hide Sourced;
    var i, j := Repeats(p, left);
    WalkSlice(edges, p, i, j);
    assert IsCycle(edges, p[i..j + 1]);
  }
}
