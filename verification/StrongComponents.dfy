/** Iterative depth-first search for strongly connected components
    (scripts/architecture_policy.py, strongly_connected_components). */
module StrongComponents {
  import opened Ordering
  import opened Digraph

  type Adjacency = map<Node, seq<Node>>

  /** adjacency.get(n, ()) */
  function Children(adj: Adjacency, n: Node): seq<Node> {
    if n in adj then adj[n] else []
  }

  ghost function ArcsOf(adj: Adjacency): Arcs {
    set n, c | n in adj && c in adj[n] :: (n, c)
  }

  ghost function NodesOf(adj: Adjacency): set<Node> {
    adj.Keys + set n, c | n in adj && c in adj[n] :: c
  }

  function Elements(s: seq<Node>): set<Node> {
    set x | x in s
  }

  /** A node being explored, and how many of its children have been looked at. */
  datatype Frame = Frame(node: Node, next: nat)

  /** The search's variables at one moment. */
  datatype Search = Search(
    indexOf: map<Node, nat>,
    low: map<Node, nat>,
    counter: nat,
    stack: seq<Node>,
    onStack: set<Node>,
    work: seq<Frame>,
    components: seq<seq<Node>>)

  // ----- The invariant -----

  /** The stack, its set and the numbers agree, and the stack is numbered upwards. */
  ghost predicate Stacked(adj: Adjacency, s: Search) {
    && s.onStack == Elements(s.stack)
    && s.onStack <= s.indexOf.Keys <= NodesOf(adj)
    && s.low.Keys == s.indexOf.Keys
    && (forall n :: n in s.indexOf ==> s.indexOf[n] < s.counter)
    && (forall i, j :: 0 <= i < j < |s.stack| ==> s.indexOf[s.stack[i]] < s.indexOf[s.stack[j]])
  }

  /** The frames' nodes are stacked, numbered upwards, and start the stack. */
  ghost predicate Framed(adj: Adjacency, s: Search)
    requires Stacked(adj, s)
  {
    && (forall i :: 0 <= i < |s.work| ==>
          s.work[i].node in s.onStack && s.work[i].next <= |Children(adj, s.work[i].node)|)
    && (forall i, j :: 0 <= i < j < |s.work| ==> s.indexOf[s.work[i].node] < s.indexOf[s.work[j].node])
    && (s.work == [] ==> s.stack == [])
    && (s.work != [] ==> forall x :: x in s.onStack ==> s.indexOf[s.work[0].node] <= s.indexOf[x])
  }

  ghost predicate Shape(adj: Adjacency, s: Search) {
    Stacked(adj, s) && Framed(adj, s)
  }

  /** The arc from x to c has been looked at. */
  ghost predicate Looked(adj: Adjacency, s: Search, x: Node, c: Node) {
    && (x, c) in ArcsOf(adj)
    && forall i :: 0 <= i < |s.work| && s.work[i].node == x && s.work[i].next <= |Children(adj, x)| ==>
                     c in Children(adj, x)[..s.work[i].next]
  }

  /** Looking at an arc discovers its target; a finished component has no way out. */
  ghost predicate Explored(adj: Adjacency, s: Search) {
    forall x, c :: x in s.indexOf && Looked(adj, s, x, c) ==>
                     c in s.indexOf && (x !in s.onStack ==> c !in s.onStack)
  }

  /** A frame's node reaches everything stacked since. */
  ghost predicate ReachesDown(adj: Adjacency, s: Search)
    requires Shape(adj, s)
  {
    forall i, x :: 0 <= i < |s.work| && x in s.onStack && s.indexOf[s.work[i].node] <= s.indexOf[x] ==>
                     Reach(ArcsOf(adj), s.work[i].node, x)
  }

  ghost predicate Below(s: Search, i: nat, x: Node)
    requires i < |s.work| && x in s.indexOf && forall k :: 0 <= k < |s.work| ==> s.work[k].node in s.indexOf
  {
    i + 1 == |s.work| || s.indexOf[x] < s.indexOf[s.work[i + 1].node]
  }

  /** Whatever was stacked before the next frame reaches this frame's node. */
  ghost predicate ReachesUp(adj: Adjacency, s: Search)
    requires Shape(adj, s)
  {
    forall i, x :: 0 <= i < |s.work| && x in s.onStack && Below(s, i, x) ==> Reach(ArcsOf(adj), x, s.work[i].node)
  }

  /** low[n] is the index of a stacked node that n reaches. */
  ghost predicate LowReached(adj: Adjacency, s: Search, n: Node)
    requires Shape(adj, s) && n in s.onStack
  {
    s.low[n] <= s.indexOf[n] &&
    exists y :: y in s.onStack && s.indexOf[y] == s.low[n] && Reach(ArcsOf(adj), n, y)
  }

  ghost predicate LowSound(adj: Adjacency, s: Search)
    requires Shape(adj, s)
  {
    forall i :: 0 <= i < |s.work| ==> LowReached(adj, s, s.work[i].node)
  }

  /** low of a frame's node bounds a looked-at arc that leaves the frame's stretch
      of the stack for a stacked node. */
  ghost predicate Bounds(adj: Adjacency, s: Search, i: nat, x: Node, y: Node)
    requires Shape(adj, s)
  {
    i < |s.work| && x in s.onStack && y in s.onStack && Looked(adj, s, x, y)
    && s.indexOf[s.work[i].node] <= s.indexOf[x] && Below(s, i, x) ==>
      s.low[s.work[i].node] <= s.indexOf[y]
  }

  ghost predicate LowComplete(adj: Adjacency, s: Search)
    requires Shape(adj, s)
  {
    forall i: nat, x, y :: Bounds(adj, s, i, x, y)
  }

  ghost predicate IsFound(adj: Adjacency, c: seq<Node>) {
    Ascending(c) && IsComponent(ArcsOf(adj), NodesOf(adj), Elements(c))
  }

  ghost predicate Disjoint(cs: seq<seq<Node>>) {
    forall i, j :: 0 <= i < j < |cs| ==> Elements(cs[i]) !! Elements(cs[j])
  }

  ghost predicate Covers(cs: seq<seq<Node>>, nodes: set<Node>) {
    (forall c :: c in cs ==> Elements(c) <= nodes) &&
    forall n :: n in nodes ==> exists c :: c in cs && n in c
  }

  ghost predicate Finished(adj: Adjacency, s: Search) {
    && (forall c :: c in s.components ==> IsFound(adj, c))
    && Disjoint(s.components)
    && Covers(s.components, s.indexOf.Keys - s.onStack)
  }

  ghost predicate Inv(adj: Adjacency, s: Search) {
    && Shape(adj, s)
    && Explored(adj, s)
    && ReachesDown(adj, s)
    && ReachesUp(adj, s)
    && LowSound(adj, s)
    && LowComplete(adj, s)
    && Finished(adj, s)
  }

  // ----- The three kinds of step -----

  ghost function Top(s: Search): Frame
    requires s.work != []
  {
    s.work[|s.work| - 1]
  }

  ghost predicate CanLook(adj: Adjacency, s: Search) {
    s.work != [] && Top(s).next < |Children(adj, Top(s).node)|
  }

  ghost function NextChild(adj: Adjacency, s: Search): Node
    requires CanLook(adj, s)
  {
    Children(adj, Top(s).node)[Top(s).next]
  }

  /** next(children) on the top frame. */
  ghost function Advanced(s: Search): Search
    requires s.work != []
  {
    s.(work := s.work[|s.work| - 1 := Top(s).(next := Top(s).next + 1)])
  }

  /** n is numbered, stacked, and gets a frame. */
  ghost function Pushed(s: Search, n: Node): Search {
    s.(indexOf := s.indexOf[n := s.counter], low := s.low[n := s.counter], counter := s.counter + 1,
       stack := s.stack + [n], onStack := s.onStack + {n}, work := s.work + [Frame(n, 0)])
  }

  ghost function Lowered(s: Search, bound: nat): Search
    requires s.work != [] && Top(s).node in s.low
  {
    var n := Top(s).node;
    s.(low := s.low[n := if bound < s.low[n] then bound else s.low[n]])
  }

  ghost function LookedBack(s: Search, child: Node): Search
    requires s.work != [] && Top(s).node in s.low && child in s.indexOf
  {
    if child in s.onStack then Lowered(Advanced(s), s.indexOf[child]) else Advanced(s)
  }

  /** The top frame is done: its parent learns its low. */
  ghost function Returned(s: Search): Search
    requires s.work != [] && forall k :: 0 <= k < |s.work| ==> s.work[k].node in s.low
  {
    var t := s.(work := s.work[..|s.work| - 1]);
    if t.work == [] then t else Lowered(t, s.low[Top(s).node])
  }

  lemma ChildArc(adj: Adjacency, s: Search)
    requires CanLook(adj, s)
    ensures (Top(s).node, NextChild(adj, s)) in ArcsOf(adj)
    ensures NextChild(adj, s) in NodesOf(adj)
  {
    assert NextChild(adj, s) in adj[Top(s).node];
  }

  lemma LookedAfterAdvance(adj: Adjacency, s: Search, x: Node, c: Node)
    requires Shape(adj, s) && CanLook(adj, s)
    ensures Looked(adj, Advanced(s), x, c) ==> Looked(adj, s, x, c) || (x == Top(s).node && c == NextChild(adj, s))
  {
    var t := Advanced(s);
    if Looked(adj, t, x, c) && !(x == Top(s).node && c == NextChild(adj, s)) {
      forall i | 0 <= i < |s.work| && s.work[i].node == x && s.work[i].next <= |Children(adj, x)|
        ensures c in Children(adj, x)[..s.work[i].next]
      {
        assert t.work[i].node == x;
        if i == |s.work| - 1 {
          var kids := Children(adj, x);
          assert kids[..t.work[i].next] == kids[..s.work[i].next] + [NextChild(adj, s)];
        }
      }
    }
  }

  lemma LookedAfterPush(adj: Adjacency, s: Search, n: Node, x: Node, c: Node)
    requires Looked(adj, Pushed(s, n), x, c)
    ensures x != n && Looked(adj, s, x, c)
  {
    var t := Pushed(s, n);
    assert t.work[|s.work|] == Frame(n, 0);
    forall i | 0 <= i < |s.work| && s.work[i].node == x && s.work[i].next <= |Children(adj, x)|
      ensures c in Children(adj, x)[..s.work[i].next]
    {
      assert t.work[i] == s.work[i];
    }
  }

  lemma PushKeepsShape(adj: Adjacency, s: Search, n: Node)
    requires Shape(adj, s) && n !in s.indexOf && n in NodesOf(adj)
    ensures Shape(adj, Pushed(s, n))
  {
    PushKeepsWork(adj, s, n);
    hide Pushed, NodesOf;
  }

  lemma PushKeepsWork(adj: Adjacency, s: Search, n: Node)
    requires Stacked(adj, s) && Framed(adj, s) && n !in s.indexOf && Stacked(adj, Pushed(s, n))
    ensures Framed(adj, Pushed(s, n))
  {
    assert s.stack == [] ==> s.onStack == {};
    hide NodesOf, Children, Elements;
  }

  /** Starting from an undiscovered root with empty stacks. */
  lemma StartKeeps(adj: Adjacency, s: Search, root: Node)
    requires Inv(adj, s) && s.work == [] && root in NodesOf(adj) && root !in s.indexOf
    ensures Inv(adj, Pushed(s, root))
  {
    var t := Pushed(s, root);
    PushKeepsShape(adj, s, root);
    ReachSelf(ArcsOf(adj), root);
    assert t.work == [Frame(root, 0)] && t.onStack == {root};
    forall x, c | x in t.indexOf && Looked(adj, t, x, c)
      ensures c in t.indexOf && x !in t.onStack && c !in t.onStack
    {
      LookedAfterPush(adj, s, root, x, c);
    }
    assert t.indexOf.Keys - t.onStack == s.indexOf.Keys - s.onStack;
  }

  // ----- Descending to an undiscovered child -----

  ghost predicate CanDescend(adj: Adjacency, s: Search) {
    Shape(adj, s) && CanLook(adj, s) && NextChild(adj, s) !in s.indexOf
  }

  ghost function Descended(adj: Adjacency, s: Search): Search
    requires CanLook(adj, s)
  {
    Pushed(Advanced(s), NextChild(adj, s))
  }

  lemma DescendShape(adj: Adjacency, s: Search)
    requires CanDescend(adj, s)
    ensures Shape(adj, Descended(adj, s))
    ensures forall i :: 0 <= i < |s.work| ==> Descended(adj, s).work[i].node == s.work[i].node
  {
    ChildArc(adj, s);
    PushKeepsShape(adj, Advanced(s), NextChild(adj, s));
  }

  lemma DescendLooked(adj: Adjacency, s: Search, x: Node, c: Node)
    requires CanDescend(adj, s) && Looked(adj, Descended(adj, s), x, c)
    ensures x != NextChild(adj, s) && (Looked(adj, s, x, c) || (x == Top(s).node && c == NextChild(adj, s)))
  {
    LookedAfterPush(adj, Advanced(s), NextChild(adj, s), x, c);
    LookedAfterAdvance(adj, s, x, c);
  }

  lemma DescendExplored(adj: Adjacency, s: Search)
    requires CanDescend(adj, s) && Explored(adj, s)
    ensures Explored(adj, Descended(adj, s))
  {
    var t := Descended(adj, s);
    forall x, c | x in t.indexOf && Looked(adj, t, x, c)
      ensures c in t.indexOf && (x !in t.onStack ==> c !in t.onStack)
    {
      DescendLooked(adj, s, x, c);
    }
  }

  lemma DescendReachesDown(adj: Adjacency, s: Search)
    requires CanDescend(adj, s) && ReachesDown(adj, s) && Shape(adj, Descended(adj, s))
    ensures ReachesDown(adj, Descended(adj, s))
  {
    hide NodesOf, ArcsOf, Reach;
    var arcs, parent, child, t := ArcsOf(adj), Top(s).node, NextChild(adj, s), Descended(adj, s);
    ChildArc(adj, s);
    ReachArc(arcs, parent, child);
    ReachSelf(arcs, child);
    forall i, x | 0 <= i < |t.work| && x in t.onStack && t.indexOf[t.work[i].node] <= t.indexOf[x]
      ensures Reach(arcs, t.work[i].node, x)
    {
      if i < |s.work| {
        assert t.work[i].node == s.work[i].node;
        if x == child {
          assert Reach(arcs, s.work[i].node, parent);
          ReachTransitive(arcs, s.work[i].node, parent, child);
        }
      }
    }
  }

  /** What lies below a frame that stays was there before. */
  lemma OlderBelow(adj: Adjacency, s: Search, i: nat, x: Node)
    requires CanDescend(adj, s) && Shape(adj, Descended(adj, s)) && i < |s.work|
    requires var t := Descended(adj, s); x in t.onStack && i < |t.work| && Below(t, i, x)
    ensures Descended(adj, s).work[i].node == s.work[i].node && x in s.onStack && Below(s, i, x)
  {
    hide NodesOf, ArcsOf, Children;
    var t := Descended(adj, s);
    if i + 1 < |s.work| {
      assert t.work[i + 1].node == s.work[i + 1].node;
    } else {
      assert t.work[i + 1].node == NextChild(adj, s);
    }
  }

  lemma DescendReachesUp(adj: Adjacency, s: Search)
    requires CanDescend(adj, s) && ReachesUp(adj, s) && Shape(adj, Descended(adj, s))
    ensures ReachesUp(adj, Descended(adj, s))
  {
    hide NodesOf, ArcsOf, Children, Reach;
    var arcs, parent, child, t := ArcsOf(adj), Top(s).node, NextChild(adj, s), Descended(adj, s);
    ChildArc(adj, s);
    ReachArc(arcs, parent, child);
    ReachSelf(arcs, child);
    forall i, x | 0 <= i < |t.work| && x in t.onStack && Below(t, i, x)
      ensures Reach(arcs, x, t.work[i].node)
    {
      if i < |s.work| {
        OlderBelow(adj, s, i, x);
      } else if x != child {
        assert Below(s, |s.work| - 1, x);
        ReachTransitive(arcs, x, parent, child);
      }
    }
  }

  lemma DescendLow(adj: Adjacency, s: Search)
    requires CanDescend(adj, s) && LowSound(adj, s) && Shape(adj, Descended(adj, s))
    ensures LowSound(adj, Descended(adj, s))
  {
    hide NodesOf, ArcsOf, Reach;
    var t := Descended(adj, s);
    ReachSelf(ArcsOf(adj), NextChild(adj, s));
    forall i | 0 <= i < |t.work| ensures LowReached(adj, t, t.work[i].node) {
      if i < |s.work| {
        assert t.work[i].node == s.work[i].node;
        assert LowReached(adj, s, s.work[i].node);
        var y :| y in s.onStack && s.indexOf[y] == s.low[s.work[i].node] && Reach(ArcsOf(adj), s.work[i].node, y);
        assert y in t.onStack && t.indexOf[y] == t.low[t.work[i].node];
      }
    }
  }

  lemma DescendBounds(adj: Adjacency, s: Search, i: nat, x: Node, y: Node)
    requires CanDescend(adj, s) && Bounds(adj, s, i, x, y) && Shape(adj, Descended(adj, s))
    requires i < |s.work| ==> s.low[s.work[i].node] <= s.indexOf[s.work[i].node]
    ensures Bounds(adj, Descended(adj, s), i, x, y)
  {
    var t := Descended(adj, s);
    if Looked(adj, t, x, y) && x in t.onStack && y in t.onStack && i < |t.work| && Below(t, i, x)
       && t.indexOf[t.work[i].node] <= t.indexOf[x] {
      DescendLooked(adj, s, x, y);
      hide Looked;
      DescendBelow(adj, s, i, x);
    }
  }

  lemma DescendBelow(adj: Adjacency, s: Search, i: nat, x: Node)
    requires CanDescend(adj, s) && Shape(adj, Descended(adj, s)) && x != NextChild(adj, s)
    requires var t := Descended(adj, s);
             x in t.onStack && i < |t.work| && Below(t, i, x) && t.indexOf[t.work[i].node] <= t.indexOf[x]
    ensures x in s.onStack && i < |s.work| && Descended(adj, s).work[i].node == s.work[i].node
            && s.work[i].node != NextChild(adj, s)
    ensures Below(s, i, x)
  {
    hide NodesOf, Children;
    var t := Descended(adj, s);
    assert t.indexOf[NextChild(adj, s)] == s.counter && t.work[|s.work|].node == NextChild(adj, s);
    assert i < |s.work| && t.work[i].node == s.work[i].node;
    if i + 1 < |s.work| { assert t.work[i + 1].node == s.work[i + 1].node; }
  }

  lemma DescendLowComplete(adj: Adjacency, s: Search)
    requires CanDescend(adj, s) && LowSound(adj, s) && LowComplete(adj, s) && Shape(adj, Descended(adj, s))
    ensures LowComplete(adj, Descended(adj, s))
  {
    forall i: nat, x, y ensures Bounds(adj, Descended(adj, s), i, x, y) {
      if i < |s.work| { assert LowReached(adj, s, s.work[i].node); }
      DescendBounds(adj, s, i, x, y);
    }
  }

  lemma SameFinished(adj: Adjacency, s: Search, t: Search)
    requires Finished(adj, s) && s.components == t.components
    requires s.indexOf.Keys - s.onStack == t.indexOf.Keys - t.onStack
    ensures Finished(adj, t)
  {
  }

  lemma DescendKeeps(adj: Adjacency, s: Search)
    requires Inv(adj, s) && CanDescend(adj, s)
    ensures Inv(adj, Descended(adj, s))
  {
    hide ReachesDown, ReachesUp, LowSound, LowComplete, Explored, Finished;
    DescendShape(adj, s);
    DescendExplored(adj, s);
    DescendReachesDown(adj, s);
    DescendReachesUp(adj, s);
    DescendLow(adj, s);
    DescendLowComplete(adj, s);
    SameFinished(adj, s, Descended(adj, s));
  }

  // ----- Looking at a child that is already discovered -----

  ghost predicate CanLookBack(adj: Adjacency, s: Search) {
    Shape(adj, s) && CanLook(adj, s) && NextChild(adj, s) in s.indexOf
  }

  lemma LookBackWork(adj: Adjacency, s: Search)
    requires CanLookBack(adj, s)
    ensures var t := LookedBack(s, NextChild(adj, s));
            && t == s.(work := t.work, low := t.low)
            && |t.work| == |s.work|
            && (forall i :: 0 <= i < |s.work| ==> t.work[i].node == s.work[i].node)
            && t.low.Keys == s.low.Keys
            && (forall n :: n in s.low && n != Top(s).node ==> t.low[n] == s.low[n])
            && t.low[Top(s).node] <= s.low[Top(s).node]
            && (NextChild(adj, s) in s.onStack ==> t.low[Top(s).node] <= s.indexOf[NextChild(adj, s)])
  {
  }

  lemma LookBackShape(adj: Adjacency, s: Search)
    requires CanLookBack(adj, s)
    ensures Shape(adj, LookedBack(s, NextChild(adj, s)))
  {
    var t := LookedBack(s, NextChild(adj, s));
    LookBackWork(adj, s);
    assert forall i :: 0 <= i < |t.work| ==> t.work[i].next <= |Children(adj, t.work[i].node)|;
  }

  lemma LookBackLooked(adj: Adjacency, s: Search, x: Node, c: Node)
    requires CanLookBack(adj, s) && Looked(adj, LookedBack(s, NextChild(adj, s)), x, c)
    ensures Looked(adj, s, x, c) || (x == Top(s).node && c == NextChild(adj, s))
  {
    assert Looked(adj, Advanced(s), x, c);
    LookedAfterAdvance(adj, s, x, c);
  }

  lemma LookBackExplored(adj: Adjacency, s: Search)
    requires CanLookBack(adj, s) && Explored(adj, s)
    ensures Explored(adj, LookedBack(s, NextChild(adj, s)))
  {
    var t := LookedBack(s, NextChild(adj, s));
    forall x, c | x in t.indexOf && Looked(adj, t, x, c)
      ensures c in t.indexOf && (x !in t.onStack ==> c !in t.onStack)
    {
      LookBackLooked(adj, s, x, c);
    }
  }

  lemma LookBackReaches(adj: Adjacency, s: Search)
    requires CanLookBack(adj, s) && ReachesDown(adj, s) && ReachesUp(adj, s)
    requires Shape(adj, LookedBack(s, NextChild(adj, s)))
    ensures ReachesDown(adj, LookedBack(s, NextChild(adj, s))) && ReachesUp(adj, LookedBack(s, NextChild(adj, s)))
  {
    hide NodesOf, ArcsOf, Reach;
    var t := LookedBack(s, NextChild(adj, s));
    LookBackWork(adj, s);
    assert forall i, x :: 0 <= i < |t.work| && x in t.onStack ==> Below(t, i, x) == Below(s, i, x);
  }

  lemma LookBackLow(adj: Adjacency, s: Search)
    requires CanLookBack(adj, s) && LowSound(adj, s) && Shape(adj, LookedBack(s, NextChild(adj, s)))
    ensures LowSound(adj, LookedBack(s, NextChild(adj, s)))
  {
    hide NodesOf, ArcsOf, Reach;
    var child, t := NextChild(adj, s), LookedBack(s, NextChild(adj, s));
    LookBackWork(adj, s);
    ChildArc(adj, s);
    ReachArc(ArcsOf(adj), Top(s).node, child);
    forall i | 0 <= i < |t.work| ensures LowReached(adj, t, t.work[i].node) {
      var n := s.work[i].node;
      assert LowReached(adj, s, n);
      var y :| y in s.onStack && s.indexOf[y] == s.low[n] && Reach(ArcsOf(adj), n, y);
      assert t.low[n] == s.low[n] || (n == Top(s).node && child in s.onStack && t.low[n] == s.indexOf[child]);
      assert t.indexOf[y] == t.low[n] || t.indexOf[child] == t.low[n];
    }
  }

  lemma LookBackBounds(adj: Adjacency, s: Search, i: nat, x: Node, y: Node)
    requires CanLookBack(adj, s) && Bounds(adj, s, i, x, y) && Shape(adj, LookedBack(s, NextChild(adj, s)))
    ensures Bounds(adj, LookedBack(s, NextChild(adj, s)), i, x, y)
  {
    var child, parent, t := NextChild(adj, s), Top(s).node, LookedBack(s, NextChild(adj, s));
    LookBackWork(adj, s);
    if Looked(adj, t, x, y) && i < |s.work| && x in s.onStack && y in s.onStack
       && s.indexOf[s.work[i].node] <= s.indexOf[x] && Below(t, i, x) {
      LookBackLooked(adj, s, x, y);
      assert Below(s, i, x);
      if x == parent && y == child { assert i == |s.work| - 1; }
    }
  }

  lemma LookBackLowComplete(adj: Adjacency, s: Search)
    requires CanLookBack(adj, s) && LowComplete(adj, s) && Shape(adj, LookedBack(s, NextChild(adj, s)))
    ensures LowComplete(adj, LookedBack(s, NextChild(adj, s)))
  {
    forall i: nat, x, y ensures Bounds(adj, LookedBack(s, NextChild(adj, s)), i, x, y) {
      LookBackBounds(adj, s, i, x, y);
    }
  }

  lemma LookBackKeeps(adj: Adjacency, s: Search)
    requires Inv(adj, s) && CanLookBack(adj, s)
    ensures Inv(adj, LookedBack(s, NextChild(adj, s)))
  {
    LookBackShape(adj, s);
    LookBackExplored(adj, s);
    LookBackReaches(adj, s);
    LookBackLow(adj, s);
    LookBackLowComplete(adj, s);
  }

  // ----- Finishing a node -----

  ghost predicate Exhausted(adj: Adjacency, s: Search) {
    s.work != [] && Top(s).next >= |Children(adj, Top(s).node)|
  }

  ghost predicate IsRoot(s: Search)
    requires s.work != [] && Top(s).node in s.low && Top(s).node in s.indexOf
  {
    s.low[Top(s).node] == s.indexOf[Top(s).node]
  }

  ghost predicate CanReturn(adj: Adjacency, s: Search) {
    Shape(adj, s) && Exhausted(adj, s)
  }

  lemma ReturnLooked(adj: Adjacency, s: Search, x: Node, c: Node)
    requires CanReturn(adj, s) && Looked(adj, Returned(s), x, c)
    ensures Looked(adj, s, x, c)
  {
    var t := Returned(s);
    forall i | 0 <= i < |s.work| && s.work[i].node == x && s.work[i].next <= |Children(adj, x)|
      ensures c in Children(adj, x)[..s.work[i].next]
    {
      if i < |t.work| { assert t.work[i] == s.work[i]; }
    }
  }

  lemma ReturnShape(adj: Adjacency, s: Search)
    requires CanReturn(adj, s) && |s.work| > 1
    ensures var t, parent := Returned(s), s.work[|s.work| - 2].node;
            && Shape(adj, t)
            && t.work == s.work[..|s.work| - 1] && t.(work := s.work, low := s.low) == s
            && (forall n :: n in s.low && n != parent ==> t.low[n] == s.low[n])
            && t.low[parent] == (if s.low[Top(s).node] < s.low[parent] then s.low[Top(s).node] else s.low[parent])
  {
  }

  /** A node that reaches below its own index has a parent, and reaches it. */
  lemma ReturnHasParent(adj: Adjacency, s: Search) returns (y: Node)
    requires CanReturn(adj, s) && ReachesUp(adj, s) && LowSound(adj, s) && !IsRoot(s)
    ensures |s.work| > 1 && y in s.onStack && s.indexOf[y] == s.low[Top(s).node] && Reach(ArcsOf(adj), Top(s).node, y)
    ensures Reach(ArcsOf(adj), Top(s).node, s.work[|s.work| - 2].node)
  {
    var node, k := Top(s).node, |s.work| - 1;
    assert LowReached(adj, s, s.work[k].node);
    y :| y in s.onStack && s.indexOf[y] == s.low[node] && Reach(ArcsOf(adj), node, y);
    assert s.indexOf[y] < s.indexOf[node];
    assert Below(s, k - 1, y);
    ReachTransitive(ArcsOf(adj), node, y, s.work[k - 1].node);
  }

  lemma ReturnReaches(adj: Adjacency, s: Search)
    requires CanReturn(adj, s) && ReachesDown(adj, s) && ReachesUp(adj, s) && LowSound(adj, s) && !IsRoot(s)
    ensures Shape(adj, Returned(s)) && ReachesDown(adj, Returned(s)) && ReachesUp(adj, Returned(s))
  {
    hide NodesOf, ArcsOf, Reach, Children, Returned;
    var arcs, node, k, t := ArcsOf(adj), Top(s).node, |s.work| - 1, Returned(s);
    var _ := ReturnHasParent(adj, s);
    ReturnShape(adj, s);
    forall i, x | 0 <= i < |t.work| && x in t.onStack && Below(t, i, x)
      ensures Reach(arcs, x, t.work[i].node)
    {
      if !Below(s, i, x) {
        assert i == k - 1 && Below(s, k, x);
        ReachTransitive(arcs, x, node, s.work[k - 1].node);
      }
    }
  }

  lemma ReturnLow(adj: Adjacency, s: Search)
    requires CanReturn(adj, s) && ReachesDown(adj, s) && ReachesUp(adj, s) && LowSound(adj, s) && !IsRoot(s)
    requires Shape(adj, Returned(s))
    ensures LowSound(adj, Returned(s))
  {
    hide NodesOf, ArcsOf, Reach, Children, Returned;
    var arcs, node, t := ArcsOf(adj), Top(s).node, Returned(s);
    var y := ReturnHasParent(adj, s);
    ReturnShape(adj, s);
    forall i | 0 <= i < |t.work| ensures LowReached(adj, t, t.work[i].node) {
      var n := s.work[i].node;
      assert LowReached(adj, s, n);
      var z :| z in s.onStack && s.indexOf[z] == s.low[n] && Reach(arcs, n, z);
      if t.low[n] == s.low[n] {
        assert t.indexOf[z] == t.low[n];
      } else {
        assert Reach(arcs, n, node);
        ReachTransitive(arcs, n, node, y);
        assert t.indexOf[y] == t.low[n];
      }
    }
  }

  lemma ReturnBounds(adj: Adjacency, s: Search, i: nat, x: Node, y: Node)
    requires CanReturn(adj, s) && |s.work| > 1 && Shape(adj, Returned(s))
    requires Bounds(adj, s, i, x, y) && Bounds(adj, s, i + 1, x, y)
    ensures Bounds(adj, Returned(s), i, x, y)
  {
    var t := Returned(s);
    ReturnShape(adj, s);
    if Looked(adj, t, x, y) && i < |t.work| && x in s.onStack && y in s.onStack
       && s.indexOf[s.work[i].node] <= s.indexOf[x] && Below(t, i, x) {
      ReturnLooked(adj, s, x, y);
      if !Below(s, i, x) { assert i == |s.work| - 2 && Below(s, i + 1, x); }
    }
  }

  lemma ReturnLowComplete(adj: Adjacency, s: Search)
    requires CanReturn(adj, s) && LowComplete(adj, s) && |s.work| > 1 && Shape(adj, Returned(s))
    ensures LowComplete(adj, Returned(s))
  {
    forall i: nat, x, y ensures Bounds(adj, Returned(s), i, x, y) {
      assert Bounds(adj, s, i, x, y) && Bounds(adj, s, i + 1, x, y);
      ReturnBounds(adj, s, i, x, y);
    }
  }

  /** A finished node that reaches below its own index hands its stretch of the
      stack to its parent. */
  lemma ReturnKeeps(adj: Adjacency, s: Search)
    requires Inv(adj, s) && CanReturn(adj, s) && !IsRoot(s)
    ensures Returned(s).work != [] && Inv(adj, Returned(s))
  {
    var _ := ReturnHasParent(adj, s);
    ReturnReaches(adj, s);
    ReturnLow(adj, s);
    ReturnLowComplete(adj, s);
    var t := Returned(s);
    forall x, c | x in t.indexOf && Looked(adj, t, x, c)
      ensures c in t.indexOf && (x !in t.onStack ==> c !in t.onStack)
    {
      ReturnLooked(adj, s, x, c);
    }
  }

  // ----- Popping a component -----

  /** The stretch of the stack above (and with) a finished root. */
  ghost function Stretch(s: Search): set<Node>
    requires s.work != [] && Top(s).node in s.indexOf && s.onStack <= s.indexOf.Keys
  {
    set x | x in s.onStack && s.indexOf[Top(s).node] <= s.indexOf[x]
  }

  lemma StretchIsClosed(adj: Adjacency, s: Search)
    requires CanReturn(adj, s) && Explored(adj, s) && LowComplete(adj, s) && IsRoot(s)
    ensures IsClosed(ArcsOf(adj), Stretch(s) + (s.indexOf.Keys - s.onStack))
  {
    forall x, c | (x, c) in ArcsOf(adj) && x in Stretch(s)
      ensures c in Stretch(s) + (s.indexOf.Keys - s.onStack)
    {
      assert Below(s, |s.work| - 1, x) && Bounds(adj, s, |s.work| - 1, x, c);
    }
  }

  lemma DoneIsClosed(adj: Adjacency, s: Search)
    requires Shape(adj, s) && Explored(adj, s)
    ensures IsClosed(ArcsOf(adj), s.indexOf.Keys - s.onStack)
  {
    forall x, c | (x, c) in ArcsOf(adj) && x in s.indexOf.Keys - s.onStack
      ensures c in s.indexOf.Keys - s.onStack
    {
      assert Looked(adj, s, x, c);
    }
  }

  lemma StretchIsMutual(adj: Adjacency, s: Search, b: Node)
    requires CanReturn(adj, s) && ReachesDown(adj, s) && ReachesUp(adj, s) && b in Stretch(s)
    ensures Mutual(ArcsOf(adj), Top(s).node, b)
  {
    hide NodesOf, ArcsOf, Children, Reach;
    assert s.work[|s.work| - 1].node == Top(s).node;
    assert Below(s, |s.work| - 1, b);
  }

  lemma StretchIsComponent(adj: Adjacency, s: Search)
    requires Inv(adj, s) && CanReturn(adj, s) && IsRoot(s)
    ensures ComponentOf(ArcsOf(adj), NodesOf(adj), Top(s).node, Stretch(s))
  {
    var node, arcs, stretch, done := Top(s).node, ArcsOf(adj), Stretch(s), s.indexOf.Keys - s.onStack;
    StretchIsClosed(adj, s);
    DoneIsClosed(adj, s);
    assert stretch <= NodesOf(adj);
    hide NodesOf, ArcsOf, Children, Reach, ReachesUp, ReachesDown, LowComplete, LowSound, Explored, Finished;
    forall b | b in NodesOf(adj) ensures b in stretch <==> Mutual(arcs, node, b) {
      if Mutual(arcs, node, b) {
        ReachStaysInClosed(arcs, stretch + done, node, b);
        if b in done { ReachStaysInClosed(arcs, done, b, node); }
      }
      if b in stretch { StretchIsMutual(adj, s, b); }
    }
  }

  lemma StretchIsSuffix(adj: Adjacency, s: Search, i: nat)
    requires Shape(adj, s) && s.work != [] && i < |s.stack| && s.stack[i] == Top(s).node
    ensures Elements(s.stack[i..]) == Stretch(s)
    ensures s.onStack - Stretch(s) == Elements(s.stack[..i])
  {
    forall x ensures x in s.stack[i..] <==> x in Stretch(s) {
      if x in s.stack[i..] {
        var j :| i <= j < |s.stack| && s.stack[j] == x;
      }
      if x in Stretch(s) {
        var j :| 0 <= j < |s.stack| && s.stack[j] == x;
        assert j >= i;
        assert x == s.stack[i..][j - i];
      }
    }
    forall x ensures x in s.stack[..i] <==> x in s.onStack && x !in Stretch(s) {
      if x in s.stack[..i] {
        var j :| 0 <= j < i && s.stack[j] == x;
      }
    }
  }

  ghost predicate CanPop(adj: Adjacency, s: Search, i: nat) {
    CanReturn(adj, s) && IsRoot(s) && i < |s.stack| && s.stack[i] == Top(s).node
  }

  /** The state after the finished root's stretch, from position i on, is popped. */
  ghost function Popped(s: Search, i: nat): Search
    requires s.work != [] && Top(s).node in s.indexOf && s.onStack <= s.indexOf.Keys && i <= |s.stack|
  {
    s.(work := s.work[..|s.work| - 1], stack := s.stack[..i], onStack := s.onStack - Stretch(s),
       components := s.components + [Sorted(Stretch(s))])
  }

  /** Telling the parent a root's low changes nothing. */
  lemma RootLowIsNoNews(adj: Adjacency, s: Search)
    requires CanReturn(adj, s) && LowSound(adj, s) && IsRoot(s)
    ensures Returned(s) == s.(work := s.work[..|s.work| - 1])
  {
    var k := |s.work| - 1;
    if k > 0 { assert LowReached(adj, s, s.work[k - 1].node); }
  }

  lemma PopShape(adj: Adjacency, s: Search, i: nat)
    requires CanPop(adj, s, i)
    ensures Shape(adj, Popped(s, i))
  {
    var t, k := Popped(s, i), |s.work| - 1;
    StretchIsSuffix(adj, s, i);
    forall j | 0 <= j < |t.work| ensures t.work[j] == s.work[j] && t.work[j].node in t.onStack {
      assert s.indexOf[s.work[j].node] < s.indexOf[s.work[k].node];
    }
    assert i > 0 ==> s.stack[0] in s.onStack && s.indexOf[s.stack[0]] < s.indexOf[s.stack[i]];
  }

  lemma PopLooked(adj: Adjacency, s: Search, i: nat, x: Node, c: Node)
    requires CanPop(adj, s, i) && Looked(adj, Popped(s, i), x, c)
    ensures Looked(adj, s, x, c)
  {
    var t := Popped(s, i);
    forall j | 0 <= j < |s.work| && s.work[j].node == x && s.work[j].next <= |Children(adj, x)|
      ensures c in Children(adj, x)[..s.work[j].next]
    {
      if j < |t.work| { assert t.work[j] == s.work[j]; }
    }
  }

  lemma PopExplored(adj: Adjacency, s: Search, i: nat)
    requires CanPop(adj, s, i) && Explored(adj, s) && LowComplete(adj, s)
    ensures Explored(adj, Popped(s, i))
  {
    var t := Popped(s, i);
    StretchIsClosed(adj, s);
    forall x, c | x in t.indexOf && Looked(adj, t, x, c)
      ensures c in t.indexOf && (x !in t.onStack ==> c !in t.onStack)
    {
      PopLooked(adj, s, i, x, c);
    }
  }

  lemma PopReaches(adj: Adjacency, s: Search, i: nat)
    requires CanPop(adj, s, i) && ReachesDown(adj, s) && ReachesUp(adj, s) && Shape(adj, Popped(s, i))
    ensures ReachesDown(adj, Popped(s, i)) && ReachesUp(adj, Popped(s, i))
  {
    PopReachesUp(adj, s, i);
  }

  lemma PopBelow(adj: Adjacency, s: Search, i: nat, j: nat, x: Node)
    requires CanPop(adj, s, i) && Shape(adj, Popped(s, i))
    requires var t := Popped(s, i); j < |t.work| && x in t.onStack && Below(t, j, x)
    ensures Below(s, j, x)
  {
    hide NodesOf, Children;
  }

  lemma PopReachesUp(adj: Adjacency, s: Search, i: nat)
    requires CanPop(adj, s, i) && ReachesUp(adj, s) && Shape(adj, Popped(s, i))
    ensures ReachesUp(adj, Popped(s, i))
  {
    var t := Popped(s, i);
    forall j, x | 0 <= j < |t.work| && x in t.onStack && Below(t, j, x) ensures Reach(ArcsOf(adj), x, t.work[j].node) {
      PopBelow(adj, s, i, j, x);
    }
    hide Reach;
  }

  lemma PopBounds(adj: Adjacency, s: Search, i: nat, j: nat, x: Node, y: Node)
    requires CanPop(adj, s, i) && Shape(adj, Popped(s, i)) && Bounds(adj, s, j, x, y)
    ensures Bounds(adj, Popped(s, i), j, x, y)
  {
    var t := Popped(s, i);
    if Looked(adj, t, x, y) && j < |t.work| && x in t.onStack && Below(t, j, x) {
      PopLooked(adj, s, i, x, y);
      assert Below(s, j, x);
    }
  }

  lemma PopLowComplete(adj: Adjacency, s: Search, i: nat)
    requires CanPop(adj, s, i) && LowComplete(adj, s) && Shape(adj, Popped(s, i))
    ensures LowComplete(adj, Popped(s, i))
  {
    forall j: nat, x, y ensures Bounds(adj, Popped(s, i), j, x, y) {
      assert Bounds(adj, s, j, x, y);
      PopBounds(adj, s, i, j, x, y);
    }
  }

  lemma AppendFinished(adj: Adjacency, s: Search, t: Search, c: seq<Node>)
    requires Finished(adj, s) && IsFound(adj, c) && t.components == s.components + [c]
    requires Elements(c) !! s.indexOf.Keys - s.onStack
    requires t.indexOf.Keys - t.onStack == (s.indexOf.Keys - s.onStack) + Elements(c)
    ensures Finished(adj, t)
  {
    assert t.components[|s.components|] == c;
    forall n | n in t.indexOf.Keys - t.onStack ensures exists d :: d in t.components && n in d {
      if n in c {
        assert c in t.components;
      } else {
        var d :| d in s.components && n in d;
        assert d in t.components;
      }
    }
    forall i, j | 0 <= i < j < |t.components| ensures Elements(t.components[i]) !! Elements(t.components[j]) {
      assert t.components[i] in s.components;
    }
  }

  lemma PopFinished(adj: Adjacency, s: Search, i: nat)
    requires Inv(adj, s) && CanPop(adj, s, i)
    ensures Finished(adj, Popped(s, i))
  {
    var c := Sorted(Stretch(s));
    assert Elements(c) == Stretch(s);
    StretchIsComponent(adj, s);
    assert Top(s).node in NodesOf(adj);
    hide ComponentOf, Ascending, NodesOf, ArcsOf, Sorted;
    assert IsFound(adj, c);
    PoppedNodes(adj, s, i);
    hide Stretch, Popped, IsFound;
    AppendFinished(adj, s, Popped(s, i), c);
  }

  lemma PoppedNodes(adj: Adjacency, s: Search, i: nat)
    requires Shape(adj, s) && CanPop(adj, s, i)
    ensures var t := Popped(s, i);
            && t.components == s.components + [Sorted(Stretch(s))]
            && Stretch(s) !! s.indexOf.Keys - s.onStack
            && t.indexOf.Keys - t.onStack == (s.indexOf.Keys - s.onStack) + Stretch(s)
  {
    hide NodesOf, Children, Sorted;
  }

  /** A finished node whose low is its own index is the root of a component, and
      its stretch of the stack is that component. */
  lemma PopKeeps(adj: Adjacency, s: Search, i: nat)
    requires Inv(adj, s) && CanPop(adj, s, i)
    ensures Inv(adj, Popped(s, i))
  {
    PopShape(adj, s, i);
    PopExplored(adj, s, i);
    PopReaches(adj, s, i);
    PopLowComplete(adj, s, i);
    PopFinished(adj, s, i);
  }

  // ----- The search -----

  /** Every component of the graph, each once. */
  ghost predicate AllComponents(adj: Adjacency, cs: seq<seq<Node>>) {
    (forall c :: c in cs ==> IsFound(adj, c)) && Disjoint(cs) && Covers(cs, NodesOf(adj))
  }

  /** Room left in the search: undiscovered nodes, then frames, then children. */
  ghost predicate Progress(adj: Adjacency, s: Search, t: Search) {
    || s.indexOf.Keys < t.indexOf.Keys
    || (s.indexOf.Keys == t.indexOf.Keys && |t.work| < |s.work|)
    || (s.indexOf.Keys == t.indexOf.Keys && |t.work| == |s.work| != 0 && Top(t).node == Top(s).node
        && Top(t).next > Top(s).next)
  }

  lemma PopOne(stack: seq<Node>, popped: seq<Node>, all: set<Node>)
    requires stack != []
    ensures var member := stack[|stack| - 1];
            && stack[..|stack| - 1] + ([member] + popped) == stack + popped
            && all - Elements([member] + popped) == all - Elements(popped) - {member}
  {
    assert forall x :: x in [stack[|stack| - 1]] + popped <==> x == stack[|stack| - 1] || x in popped;
  }

  /** One turn of the inner loop keeps the invariant and makes progress. */
  lemma FinishKeeps(adj: Adjacency, s: Search, t: Search)
    requires Inv(adj, s) && CanReturn(adj, s)
    requires if IsRoot(s) then CanPop(adj, s, |t.stack|) && t == Popped(s, |t.stack|).(low := Returned(s).low)
             else t == Returned(s)
    ensures Inv(adj, t) && t.indexOf == s.indexOf && |t.work| < |s.work|
  {
    if IsRoot(s) {
      RootLowIsNoNews(adj, s);
      PopKeeps(adj, s, |t.stack|);
    } else {
      ReturnKeeps(adj, s);
    }
  }

  lemma LookKeeps(adj: Adjacency, s: Search, t: Search)
    requires Inv(adj, s) && CanLook(adj, s)
    requires t == if NextChild(adj, s) in s.indexOf then LookedBack(s, NextChild(adj, s)) else Descended(adj, s)
    ensures Inv(adj, t) && Progress(adj, s, t)
  {
    if NextChild(adj, s) in s.indexOf { LookBackKeeps(adj, s); } else { DescendKeeps(adj, s); }
  }

  class Explorer {
    const adj: Adjacency
    var indexOf: map<Node, nat>
    var low: map<Node, nat>
    var counter: nat
    var stack: seq<Node>
    var onStack: set<Node>
    var work: seq<Frame>
    var components: seq<seq<Node>>

    ghost function State(): Search
      reads this
    {
      Search(indexOf, low, counter, stack, onStack, work, components)
    }

    constructor (adjacency: Adjacency)
      ensures adj == adjacency && State() == Search(map[], map[], 0, [], {}, [], [])
    {
      adj := adjacency;
      indexOf, low, counter := map[], map[], 0;
      stack, onStack, work, components := [], {}, [], [];
    }

    /** Numbers, stacks and opens a node. */
    method Open(node: Node)
      modifies this
      ensures State() == Pushed(old(State()), node)
    {
      indexOf, low := indexOf[node := counter], low[node := counter];
      counter := counter + 1;
      stack, onStack := stack + [node], onStack + {node};
      work := work + [Frame(node, 0)];
    }

    /** Pops the stack down to and including root; returns the popped nodes sorted. */
    method PopComponent(root: Node) returns (members: seq<Node>)
      requires root in stack
      modifies this`stack, this`onStack
      ensures |stack| < |old(stack)| && stack == old(stack)[..|stack|] && old(stack)[|stack|] == root
      ensures root !in old(stack)[|stack| + 1..]
      ensures members == Sorted(Elements(old(stack)[|stack|..]))
      ensures onStack == old(onStack) - Elements(old(stack)[|stack|..])
    {
      var popped := [];
      while true
        invariant root in stack && root !in popped && stack + popped == old(stack)
        invariant onStack == old(onStack) - Elements(popped)
        decreases |stack|
      {
        var member := stack[|stack| - 1];
        PopOne(stack, popped, old(onStack));
        stack := stack[..|stack| - 1];
        onStack := onStack - {member};
        popped := [member] + popped;
        if member == root { break; }
      }
      assert old(stack)[|stack|..] == popped && popped[1..] == old(stack)[|stack| + 1..];
      members := Sorted(Elements(popped));
    }

    /** Drops the top frame and tells its parent. */
    method CloseFrame() returns (node: Node)
      requires Shape(adj, State()) && CanReturn(adj, State())
      modifies this`work, this`low
      ensures State() == Returned(old(State())) && node == Top(old(State())).node && node in low
              && low[node] == old(low)[node]
    {
      hide NodesOf, Children, Elements;
      ghost var s := State();
      node := work[|work| - 1].node;
      work := work[..|work| - 1];
      if work != [] {
        var parent := work[|work| - 1].node;
        assert s.indexOf[parent] < s.indexOf[node];
        low := low[parent := if low[node] < low[parent] then low[node] else low[parent]];
      }
    }

    /** The top frame's iterator has run dry. */
    method Finish()
      requires Shape(adj, State()) && CanReturn(adj, State())
      modifies this
      ensures var s := old(State());
        if IsRoot(s)
        then CanPop(adj, s, |stack|) && State() == Popped(s, |stack|).(low := Returned(s).low)
        else State() == Returned(s)
    {
      ghost var s := State();
      var node := CloseFrame();
      assert Returned(s) == s.(work := s.work[..|s.work| - 1], low := Returned(s).low) && node in s.stack;
      hide Returned, NodesOf, Children;
      if low[node] == indexOf[node] {
        var members := PopComponent(node);
        StretchIsSuffix(adj, s, |stack|);
        hide Stretch, Elements, Sorted, Stacked, Framed;
        components := components + [members];
      }
    }

    /** The top frame's iterator gives a child. */
    method Look()
      requires Shape(adj, State()) && CanLook(adj, State())
      modifies this
      ensures var s := old(State());
        State() == if NextChild(adj, s) in s.indexOf then LookedBack(s, NextChild(adj, s)) else Descended(adj, s)
    {
      var node, next := work[|work| - 1].node, work[|work| - 1].next;
      var child := Children(adj, node)[next];
      work := work[|work| - 1 := Frame(node, next + 1)];
      if child !in indexOf {
        Open(child);
      } else if child in onStack {
        low := low[node := if indexOf[child] < low[node] then indexOf[child] else low[node]];
      }
    }

    /** One turn of the inner loop. */
    method Turn()
      requires Inv(adj, State()) && work != []
      modifies this
      ensures Inv(adj, State()) && Progress(adj, old(State()), State())
    {
      ghost var s := State();
      InvShape(adj, s);
      hide Inv, Shape;
      if work[|work| - 1].next < |Children(adj, work[|work| - 1].node)| {
        Look();
        LookKeeps(adj, s, State());
      } else {
        Finish();
        FinishKeeps(adj, s, State());
      }
    }

    /** The search from one opened root. */
    method Drain()
      requires Inv(adj, State())
      modifies this
      ensures Inv(adj, State()) && work == [] && old(indexOf).Keys <= indexOf.Keys
    {
      hide Inv;
      while work != []
        invariant Inv(adj, State()) && old(indexOf).Keys <= indexOf.Keys
        decreases NodesOf(adj) - indexOf.Keys, |work|,
                  if work == [] then 0 else |Children(adj, work[|work| - 1].node)| - work[|work| - 1].next
      {
        ghost var s := State();
        InvShape(adj, s);
        Turn();
        InvShape(adj, State());
        hide NodesOf, Children;
        assert s.indexOf.Keys < indexOf.Keys ==> NodesOf(adj) - indexOf.Keys < NodesOf(adj) - s.indexOf.Keys by {
          if s.indexOf.Keys < indexOf.Keys { FewerLeft(NodesOf(adj), s.indexOf.Keys, indexOf.Keys); }
        }
      }
    }

    /** The searches from the roots that no earlier search reached. */
    method VisitAll(roots: seq<Node>)
      requires Inv(adj, State()) && work == [] && forall n :: n in roots ==> n in NodesOf(adj)
      modifies this
      ensures Inv(adj, State()) && work == [] && forall n :: n in roots ==> n in indexOf
    {
      hide Inv, NodesOf;
      for r := 0 to |roots|
        invariant Inv(adj, State()) && work == []
        invariant forall k :: 0 <= k < r ==> roots[k] in indexOf.Keys
      {
        if roots[r] !in indexOf {
          StartKeeps(adj, State(), roots[r]);
          Open(roots[r]);
          Drain();
        }
      }
    }
  }

  lemma FewerLeft(nodes: set<Node>, found: set<Node>, more: set<Node>)
    requires found < more && more <= nodes
    ensures nodes - more < nodes - found
  {
    var n :| n in more && n !in found;
    assert n in nodes - found && n !in nodes - more;
  }

  lemma InvShape(adj: Adjacency, s: Search)
    requires Inv(adj, s)
    ensures Shape(adj, s) && s.indexOf.Keys <= NodesOf(adj)
    ensures s.work != [] ==> Top(s).next <= |Children(adj, Top(s).node)|
  {
  }

  lemma InitialInv(adj: Adjacency)
    ensures Inv(adj, Search(map[], map[], 0, [], {}, [], []))
  {
  }

  /** The depth-first search: numbers every node once, and pops it once, into
      exactly one component. */
  method Explore(adj: Adjacency) returns (components: seq<seq<Node>>)
    ensures AllComponents(adj, components)
  {
    var search := new Explorer(adj);
    InitialInv(adj);
    assert adj.Keys <= NodesOf(adj);
    hide Inv, AllComponents, NodesOf, Ascending;
    search.VisitAll(Sorted(adj.Keys));
    AllDiscovered(adj, search.State());
    components := search.components;
  }

  lemma AllDiscovered(adj: Adjacency, s: Search)
    requires Inv(adj, s) && s.work == [] && adj.Keys <= s.indexOf.Keys
    ensures AllComponents(adj, s.components)
  {
    forall n | n in NodesOf(adj) ensures n in s.indexOf {
      if n !in adj {
        var m :| m in adj && n in adj[m];
        assert Looked(adj, s, m, n);
      }
    }
    assert s.onStack == {} && s.indexOf.Keys - s.onStack == NodesOf(adj);
  }

  // ----- The result -----

  /** Lists of modules in tuple order; on disjoint lists the first members decide. */
  ghost predicate InTupleOrder(cs: seq<seq<Node>>) {
    (forall i :: 0 <= i < |cs| ==> cs[i] != []) &&
    forall i, j :: 0 <= i < j < |cs| ==> Less(cs[i][0], cs[j][0])
  }

  function Insert(c: seq<Node>, cs: seq<seq<Node>>): (r: seq<seq<Node>>)
    requires c != [] && InTupleOrder(cs) && forall d :: d in cs ==> d != [] && d[0] != c[0]
    ensures InTupleOrder(r) && |r| == |cs| + 1
    ensures forall d :: d in r <==> d == c || d in cs
  {
    if cs == [] then [c]
    else if Leq(c[0], cs[0][0]) then
      assert forall j :: 0 <= j < |cs| ==> Less(c[0], cs[j][0]) by {
        forall j | 0 <= j < |cs| ensures Less(c[0], cs[j][0]) {
          assert cs[j] in cs;
          if j > 0 { LeqTransitive(c[0], cs[0][0], cs[j][0]); }
        }
      }
      [c] + cs
    else
      assert Less(cs[0][0], c[0]) by { LeqTotal(c[0], cs[0][0]); }
      var rest := Insert(c, cs[1..]);
      assert forall d :: d in rest ==> d != [] && Less(cs[0][0], d[0]);
      assert forall j :: 0 <= j < |rest| ==> rest[j] in rest;
      [cs[0]] + rest
  }

  lemma ComponentUnique(arcs: Arcs, nodes: set<Node>, a: Node, b: Node, c: set<Node>, d: set<Node>)
    requires ComponentOf(arcs, nodes, a, c) && ComponentOf(arcs, nodes, b, d) && a in nodes && b in nodes
    requires a in d
    ensures c == d
  {
    forall x | x in nodes ensures x in c <==> x in d {
      if x in c {
        ReachTransitive(arcs, b, a, x);
        ReachTransitive(arcs, x, a, b);
      }
      if x in d {
        ReachTransitive(arcs, a, b, x);
        ReachTransitive(arcs, x, b, a);
      }
    }
  }

  lemma FoundIsThe(adj: Adjacency, a: Node, c: set<Node>, d: seq<Node>)
    requires a in NodesOf(adj) && ComponentOf(ArcsOf(adj), NodesOf(adj), a, c) && IsFound(adj, d) && a in d
    ensures d == Sorted(c)
  {
    var b :| b in NodesOf(adj) && ComponentOf(ArcsOf(adj), NodesOf(adj), b, Elements(d));
    ComponentUnique(ArcsOf(adj), NodesOf(adj), a, b, c, Elements(d));
    hide ComponentOf, IsFound, NodesOf, ArcsOf;
    SortedElements(c, d);
  }

  lemma SortedElements(c: set<Node>, d: seq<Node>)
    requires c == Elements(d) && Ascending(d)
    ensures d == Sorted(c)
  {
    AscendingUnique(Sorted(c), d);
  }

  /** Explore finds every component. */
  lemma CoversEveryComponent(adj: Adjacency, cs: seq<seq<Node>>, c: set<Node>)
    requires AllComponents(adj, cs) && IsComponent(ArcsOf(adj), NodesOf(adj), c)
    ensures Sorted(c) in cs
  {
    var a :| a in NodesOf(adj) && ComponentOf(ArcsOf(adj), NodesOf(adj), a, c);
    hide ComponentOf, IsFound, Disjoint, Sorted, NodesOf, ArcsOf;
    var d := CoveredBy(cs, NodesOf(adj), a);
    FoundIsThe(adj, a, c, d);
  }

  lemma CoveredBy(cs: seq<seq<Node>>, nodes: set<Node>, a: Node) returns (d: seq<Node>)
    requires Covers(cs, nodes) && a in nodes
    ensures d in cs && a in d
  {
    d :| d in cs && a in d;
  }

  lemma FoundNonempty(adj: Adjacency, c: seq<Node>)
    requires IsFound(adj, c)
    ensures c != [] && |Elements(c)| == |c|
  {
    var a :| a in NodesOf(adj) && ComponentOf(ArcsOf(adj), NodesOf(adj), a, Elements(c));
    ReachSelf(ArcsOf(adj), a);
    assert a in Elements(c);
    assert |Sorted(Elements(c))| == |Elements(c)|;
    AscendingUnique(c, Sorted(Elements(c)));
  }

  /** strongly_connected_components: exactly the components with more than one node. */
  ghost predicate AreComponents(adj: Adjacency, result: seq<seq<Node>>) {
    && (forall c :: c in result ==> IsFound(adj, c) && |c| > 1)
    && (forall c :: IsComponent(ArcsOf(adj), NodesOf(adj), c) && |c| > 1 ==> Sorted(c) in result)
    && Disjoint(result)
    && InTupleOrder(result)
  }

  lemma HeadsDiffer(adj: Adjacency, components: seq<seq<Node>>, i: nat, result: seq<seq<Node>>)
    requires AllComponents(adj, components) && i < |components|
    requires forall c :: c in result <==> c in components[..i] && |c| > 1
    ensures components[i] != [] && forall d :: d in result ==> d != [] && d[0] != components[i][0]
  {
    FoundNonempty(adj, components[i]);
    forall d | d in result ensures d != [] && d[0] != components[i][0] {
      var k :| 0 <= k < i && components[k] == d;
      assert Elements(components[k]) !! Elements(components[i]);
      assert d[0] in Elements(components[k]) && components[i][0] in Elements(components[i]);
    }
  }

  method StronglyConnectedComponents(adj: Adjacency) returns (result: seq<seq<Node>>)
    ensures AreComponents(adj, result)
  {
    var components := Explore(adj);
    hide AllComponents, IsFound, AreComponents;
    result := [];
    for i := 0 to |components|
      invariant InTupleOrder(result)
      invariant forall c :: c in result <==> c in components[..i] && |c| > 1
    {
      var c := components[i];
      assert components[..i + 1] == components[..i] + [c];
      if |c| > 1 {
        HeadsDiffer(adj, components, i, result);
        result := Insert(c, result);
      }
    }
    assert components[..|components|] == components;
    ResultIsExact(adj, components, result);
  }

  lemma ResultIsExact(adj: Adjacency, components: seq<seq<Node>>, result: seq<seq<Node>>)
    requires AllComponents(adj, components) && InTupleOrder(result)
    requires forall c :: c in result <==> c in components && |c| > 1
    ensures AreComponents(adj, result)
  {
    hide IsFound, IsComponent, Covers, Sorted;
    forall c | IsComponent(ArcsOf(adj), NodesOf(adj), c) && |c| > 1 ensures Sorted(c) in result {
      CoversEveryComponent(adj, components, c);
    }
    forall i, j | 0 <= i < j < |result| ensures Elements(result[i]) !! Elements(result[j]) {
      assert result[i] in result && result[j] in result && result[i] != result[j];
      var k :| 0 <= k < |components| && components[k] == result[i];
      var l :| 0 <= l < |components| && components[l] == result[j];
      assert k != l;
    }
  }
}
