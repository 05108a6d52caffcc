/** The breadth-first search behind --explain (scripts/check_architecture.py, _shortest_path). */
module ShortestPath {
  import opened Digraph
  import opened StrongComponents

  datatype Answer = NoPath | Found(path: seq<Node>)

  ghost predicate IsShortest(arcs: Arcs, p: seq<Node>, a: Node, b: Node) {
    Joins(arcs, p, a, b) && forall q :: Joins(arcs, q, a, b) ==> |p| <= |q|
  }

  /** b ends some walk from a of at most n nodes. */
  ghost predicate Near(arcs: Arcs, a: Node, n: nat, b: Node) {
    exists p :: Joins(arcs, p, a, b) && |p| <= n
  }

  predicate EndsAt(p: seq<Node>, n: Node) {
    p != [] && p[|p| - 1] == n
  }

  ghost predicate IsQueued(queue: seq<seq<Node>>, n: Node) {
    exists i :: 0 <= i < |queue| && EndsAt(queue[i], n)
  }

  /** Queued paths are shortest and end in seen nodes; their lengths do not decrease,
      and span k and k + 1 at most. */
  ghost predicate Queue(arcs: Arcs, source: Node, queue: seq<seq<Node>>, seen: set<Node>, k: nat) {
    && (forall i :: 0 <= i < |queue| ==> queue[i] != [] && IsShortest(arcs, queue[i], source, queue[i][|queue[i]| - 1]))
    && (forall i :: 0 <= i < |queue| ==> queue[i][|queue[i]| - 1] in seen && k <= |queue[i]| <= k + 1)
    && (forall i, j :: 0 <= i < j < |queue| ==> |queue[i]| <= |queue[j]|)
  }

  /** A seen node that is not waiting was not the target, and its neighbours are seen. */
  ghost predicate Expanded(arcs: Arcs, target: Node, queue: seq<seq<Node>>, seen: set<Node>, except: set<Node>) {
    forall a :: a in seen && a !in except && !IsQueued(queue, a) ==> a != target && forall b :: (a, b) in arcs ==>
      b in seen
  }

  ghost predicate NearSeen(arcs: Arcs, source: Node, seen: set<Node>, k: nat) {
    forall b :: Near(arcs, source, k, b) ==> b in seen
  }

  method FindShortest(adj: Adjacency, source: Node, target: Node) returns (r: Answer)
    ensures r.Found? ==> IsShortest(ArcsOf(adj), r.path, source, target)
    ensures r.NoPath? <==> source !in adj || !Reach(ArcsOf(adj), source, target)
  {
    if source !in adj { return NoPath; }
    ghost var arcs, k := ArcsOf(adj), 1;
    var queue, seen := [[source]], {source};
    FirstStep(arcs, source, target);
    hide Queue, IsShortest, Expanded, NearSeen, ArcsOf, Reach;
    while queue != []
      invariant seen <= NodesOf(adj) && source in seen && k > 0
      invariant Queue(arcs, source, queue, seen, k) && Expanded(arcs, target, queue, seen, {})
      invariant queue != [] ==> |queue[0]| == k && NearSeen(arcs, source, seen, k)
      decreases NodesOf(adj) - seen, |queue|
    {
      QueueHead(arcs, source, queue, seen, k);
      var path := queue[0];
      var x := path[|path| - 1];
      Dequeue(arcs, source, target, queue, seen, k);
      queue := queue[1..];
      if x == target { return Found(path); }
      queue, seen := Visit(adj, source, target, path, queue, seen, k);
      if queue != [] && |queue[0]| == k + 1 {
        NextLevel(arcs, source, target, queue, seen, k);
        k := k + 1;
      }
    }
    NothingWaiting(arcs, source, target, seen);
    return NoPath;
  }

  lemma QueueHead(arcs: Arcs, source: Node, queue: seq<seq<Node>>, seen: set<Node>, k: nat)
    requires queue != [] && Queue(arcs, source, queue, seen, k)
    ensures var path := queue[0];
            path != [] && path[|path| - 1] in seen && IsShortest(arcs, path, source, path[|path| - 1])
    ensures |queue| > 1 ==> k <= |queue[1]| <= k + 1
  {
  }

  lemma FirstStep(arcs: Arcs, source: Node, target: Node)
    ensures Queue(arcs, source, [[source]], {source}, 1) && NearSeen(arcs, source, {source}, 1)
    ensures Expanded(arcs, target, [[source]], {source}, {})
  {
    assert Joins(arcs, [source], source, source);
    assert EndsAt([[source]][0], source);
  }

  lemma Dequeue(arcs: Arcs, source: Node, target: Node, queue: seq<seq<Node>>, seen: set<Node>, k: nat)
    requires queue != [] && Queue(arcs, source, queue, seen, k) && Expanded(arcs, target, queue, seen, {})
    ensures Queue(arcs, source, queue[1..], seen, k)
    ensures Expanded(arcs, target, queue[1..], seen, {queue[0][|queue[0]| - 1]})
  {
    forall a | IsQueued(queue, a) ensures EndsAt(queue[0], a) || IsQueued(queue[1..], a) {
      var i :| 0 <= i < |queue| && EndsAt(queue[i], a);
      assert i > 0 ==> queue[1..][i - 1] == queue[i];
    }
  }

  /** Queues the unseen neighbours of a path's last node. */
  method Visit(adj: Adjacency, source: Node, target: Node, path: seq<Node>, rest: seq<seq<Node>>, known: set<Node>,
               ghost k: nat)
    returns (queue: seq<seq<Node>>, seen: set<Node>)
    requires known <= NodesOf(adj) && |path| == k > 0 && path[k - 1] in known && path[k - 1] != target
    requires IsShortest(ArcsOf(adj), path, source, path[k - 1]) && NearSeen(ArcsOf(adj), source, known, k)
    requires Queue(ArcsOf(adj), source, rest, known, k) && Expanded(ArcsOf(adj), target, rest, known, {path[k - 1]})
    ensures known <= seen <= NodesOf(adj) && (seen == known ==> queue == rest)
    ensures Queue(ArcsOf(adj), source, queue, seen, k) && Expanded(ArcsOf(adj), target, queue, seen, {})
    ensures NearSeen(ArcsOf(adj), source, seen, k)
  {
    ghost var arcs := ArcsOf(adj);
    hide Queue, NearSeen, Expanded, IsShortest;
    var x := path[|path| - 1];
    queue, seen := rest, known;
    var kids := Children(adj, x);
    for j := 0 to |kids|
      invariant known <= seen <= NodesOf(adj) && (seen == known ==> queue == rest)
      invariant forall i :: 0 <= i < j ==> kids[i] in seen
      invariant Queue(arcs, source, queue, seen, k) && Expanded(arcs, target, queue, seen, {x})
      invariant NearSeen(arcs, source, seen, k)
    {
      var n := kids[j];
      assert (x, n) in arcs;
      if n !in seen {
        Enqueue(arcs, source, target, path, queue, seen, n, k);
        seen := seen + {n};
        queue := queue + [path + [n]];
      }
    }
    assert forall b :: (x, b) in arcs ==> b in kids;
    NowExpanded(arcs, target, queue, seen, x);
  }

  lemma NowExpanded(arcs: Arcs, target: Node, queue: seq<seq<Node>>, seen: set<Node>, x: Node)
    requires Expanded(arcs, target, queue, seen, {x}) && x != target && forall b :: (x, b) in arcs ==> b in seen
    ensures Expanded(arcs, target, queue, seen, {})
  {
  }

  lemma Enqueue(arcs: Arcs, source: Node, target: Node, path: seq<Node>, queue: seq<seq<Node>>, seen: set<Node>,
                n: Node, k: nat)
    requires |path| == k > 0 && IsShortest(arcs, path, source, path[k - 1]) && (path[k - 1], n) in arcs && n !in seen
    requires Queue(arcs, source, queue, seen, k) && NearSeen(arcs, source, seen, k)
    requires Expanded(arcs, target, queue, seen, {path[k - 1]})
    ensures Queue(arcs, source, queue + [path + [n]], seen + {n}, k)
    ensures Expanded(arcs, target, queue + [path + [n]], seen + {n}, {path[k - 1]})
    ensures NearSeen(arcs, source, seen + {n}, k)
  {
    var longer, next := path + [n], queue + [path + [n]];
    assert Joins(arcs, longer, source, n);
    forall q | Joins(arcs, q, source, n) ensures |longer| <= |q| {
      assert |q| <= k ==> Near(arcs, source, k, n);
    }
    assert next[|queue|] == longer && EndsAt(next[|queue|], n);
    forall a | IsQueued(queue, a) ensures IsQueued(next, a) {
      var i :| 0 <= i < |queue| && EndsAt(queue[i], a);
      assert next[i] == queue[i];
    }
  }

  /** Once only longer paths wait, everything one step further out has been seen. */
  lemma NextLevel(arcs: Arcs, source: Node, target: Node, queue: seq<seq<Node>>, seen: set<Node>, k: nat)
    requires queue != [] && |queue[0]| == k + 1 && k > 0
    requires Queue(arcs, source, queue, seen, k) && Expanded(arcs, target, queue, seen, {})
             && NearSeen(arcs, source, seen, k)
    ensures Queue(arcs, source, queue, seen, k + 1) && NearSeen(arcs, source, seen, k + 1)
  {
    forall b | Near(arcs, source, k + 1, b) ensures b in seen {
      var q :| Joins(arcs, q, source, b) && |q| <= k + 1;
      if |q| <= k {
        assert Near(arcs, source, k, b);
      } else {
        var a := q[k - 1];
        WalkSlice(arcs, q, 0, k - 1);
        assert q[0..k - 1 + 1] == q[..k] && Near(arcs, source, k, a);
        assert !IsQueued(queue, a) by { NotQueued(arcs, source, queue, seen, k, q[..k], a); }
        assert (q[k - 1], q[k - 1 + 1]) in arcs;
      }
    }
  }

  lemma NotQueued(arcs: Arcs, source: Node, queue: seq<seq<Node>>, seen: set<Node>, k: nat, q: seq<Node>, a: Node)
    requires queue != [] && |queue[0]| == k + 1 && Queue(arcs, source, queue, seen, k) && Joins(arcs, q, source, a)
             && |q| <= k
    ensures !IsQueued(queue, a)
  {
    forall i | 0 <= i < |queue| ensures !EndsAt(queue[i], a) {
      assert |queue[0]| <= |queue[i]|;
    }
  }

  /** With nothing waiting, the seen nodes are closed, and the target is not among them. */
  lemma NothingWaiting(arcs: Arcs, source: Node, target: Node, seen: set<Node>)
    requires source in seen && Expanded(arcs, target, [], seen, {})
    ensures !Reach(arcs, source, target)
  {
    assert IsClosed(arcs, seen);
    if Reach(arcs, source, target) { ReachStaysInClosed(arcs, seen, source, target); }
  }
}
