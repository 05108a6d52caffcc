/** The two blocking import graphs, the cycles reported on them, and the verdict on
    a claim that an inline import breaks a cycle (scripts/architecture_policy.py). */
module ImportCycles {
  import opened Ordering
  import opened Digraph
  import opened StrongComponents

  datatype Kind = ModuleTop | FunctionBody
  datatype Edge = Edge(source: Node, target: Node, kind: Kind)
  datatype Graph = Graph(moduleTop: seq<Edge>, functionBody: seq<Edge>) {
    function Effective(): seq<Edge> { moduleTop + functionBody }
  }

  datatype GraphName = TopGraph | EffectiveGraph
  /** A component's identity: the graph it was found on and its sorted members. */
  datatype ComponentId = ComponentId(graph: GraphName, members: seq<Node>)
  datatype Component = Component(id: ComponentId, edges: set<(Node, Node, Kind)>)

  datatype Verdict = SupportedModuleTop | SupportedEffective | Unsupported

  ghost function EdgeArcs(edges: seq<Edge>): Arcs {
    set e | e in edges :: (e.source, e.target)
  }

  function Targets(edges: seq<Edge>, n: Node): set<Node> {
    set e | e in edges && e.source == n :: e.target
  }

  function Ends(edges: seq<Edge>): set<Node> {
    (set e | e in edges :: e.source) + (set e | e in edges :: e.target)
  }

  /** Every endpoint, with its targets sorted. */
  function AdjacencyOf(edges: seq<Edge>): Adjacency {
    map n | n in Ends(edges) :: Sorted(Targets(edges, n))
  }

  lemma AdjacencyKeepsArcs(edges: seq<Edge>)
    ensures ArcsOf(AdjacencyOf(edges)) == EdgeArcs(edges) && NodesOf(AdjacencyOf(edges)) == Ends(edges)
  {
    var adj := AdjacencyOf(edges);
    forall n, c ensures n in adj && c in adj[n] <==> (n, c) in EdgeArcs(edges) { }
    forall n, c | n in adj && c in adj[n] ensures c in Ends(edges) { }
    assert adj.Keys == Ends(edges);
    hide AdjacencyOf, Ends, EdgeArcs;
  }

  ghost predicate AreNeighbours(edges: seq<Edge>, neighbours: map<Node, set<Node>>) {
    neighbours.Keys == Ends(edges) && forall n :: n in neighbours ==> neighbours[n] == Targets(edges, n)
  }

  lemma NeighboursAppend(edges: seq<Edge>, e: Edge, before: map<Node, set<Node>>)
    requires AreNeighbours(edges, before)
    ensures var known := if e.source in before then before[e.source] else {};
            var added := before[e.source := known + {e.target}];
            AreNeighbours(edges + [e], if e.target in added then added else added[e.target := {}])
  {
    TargetsAppend(edges, e);
    hide Targets, Ends;
  }

  method AdjacencyFor(edges: seq<Edge>) returns (adj: Adjacency)
    ensures adj == AdjacencyOf(edges)
  {
    var neighbours: map<Node, set<Node>> := map[];
    assert edges[..0] == [] && AreNeighbours([], neighbours);
    for i := 0 to |edges|
      invariant AreNeighbours(edges[..i], neighbours)
    {
      var edge := edges[i];
      assert edges[..i + 1] == edges[..i] + [edge];
      NeighboursAppend(edges[..i], edge, neighbours);
      hide AreNeighbours;
      var known := if edge.source in neighbours then neighbours[edge.source] else {};
      neighbours := neighbours[edge.source := known + {edge.target}];
      if edge.target !in neighbours { neighbours := neighbours[edge.target := {}]; }
    }
    assert edges[..|edges|] == edges;
    hide Targets, Ends, Sorted;
    adj := map n | n in neighbours :: Sorted(neighbours[n]);
  }

  lemma TargetsAppend(edges: seq<Edge>, e: Edge)
    ensures Ends(edges + [e]) == Ends(edges) + {e.source, e.target}
    ensures forall n :: Targets(edges + [e], n) == Targets(edges, n) + (if n == e.source then {e.target} else {})
    ensures forall n :: n !in Ends(edges) ==> Targets(edges, n) == {}
  {
    var all := edges + [e];
    assert forall d :: d in all <==> d in edges || d == e;
    forall n ensures Targets(all, n) == Targets(edges, n) + (if n == e.source then {e.target} else {}) {
      assert forall t :: t in Targets(all, n) ==> t in Targets(edges, n) || (n == e.source && t == e.target);
      if n == e.source { assert e in all; }
    }
    assert forall n :: n in Ends(all) ==> n in Ends(edges) || n == e.source || n == e.target;
    assert e in all;
  }

  /** The modules on a cycle of at least two: the nontrivial components. */
  ghost predicate OnCycle(edges: seq<Edge>, n: Node) {
    exists m :: m != n && Mutual(EdgeArcs(edges), n, m)
  }

  ghost predicate IsCycleOf(edges: seq<Edge>, members: seq<Node>) {
    |members| > 1 && Ascending(members) && IsComponent(EdgeArcs(edges), Ends(edges), Elements(members))
  }

  method CyclesOf(edges: seq<Edge>) returns (cycles: seq<seq<Node>>)
    ensures AreComponents(AdjacencyOf(edges), cycles)
  {
    var adj := AdjacencyFor(edges);
    cycles := StronglyConnectedComponents(adj);
  }

  lemma CyclesAreExact(edges: seq<Edge>, cycles: seq<seq<Node>>, members: seq<Node>)
    requires AreComponents(AdjacencyOf(edges), cycles)
    ensures members in cycles <==> IsCycleOf(edges, members)
  {
    AdjacencyKeepsArcs(edges);
    if IsCycleOf(edges, members) {
      assert |Sorted(Elements(members))| == |Elements(members)|;
      AscendingUnique(members, Sorted(Elements(members)));
    }
  }

  // ----- find_cycles -----

  function InnerEdges(members: seq<Node>, edges: seq<Edge>): set<(Node, Node, Kind)> {
    set e | e in edges && e.source in members && e.target in members :: (e.source, e.target, e.kind)
  }

  function TopComponent(g: Graph, members: seq<Node>): Component {
    Component(ComponentId(TopGraph, members), InnerEdges(members, g.moduleTop))
  }

  function EffectiveComponent(g: Graph, members: seq<Node>): Component {
    Component(ComponentId(EffectiveGraph, members), InnerEdges(members, g.Effective()))
  }

  /** The reported components: every module-top cycle, and every effective cycle
      that is not one of them. */
  ghost predicate AreReported(g: Graph, found: set<Component>) {
    forall c :: c in found <==>
                  || (c == TopComponent(g, c.id.members) && IsCycleOf(g.moduleTop, c.id.members))
                  || (c == EffectiveComponent(g, c.id.members) && IsCycleOf(g.Effective(), c.id.members)
                      && !IsCycleOf(g.moduleTop, c.id.members))
  }

  method FindCycles(g: Graph) returns (found: set<Component>)
    ensures AreReported(g, found)
  {
    var top := CyclesOf(g.moduleTop);
    var effective := CyclesOf(g.Effective());
    found := (set m | m in top :: TopComponent(g, m))
             + (set m | m in effective && m !in top :: EffectiveComponent(g, m));
    forall m ensures m in top <==> IsCycleOf(g.moduleTop, m) { CyclesAreExact(g.moduleTop, top, m); }
    forall m ensures m in effective <==> IsCycleOf(g.Effective(), m) { CyclesAreExact(g.Effective(), effective, m); }
  }

  lemma SelfInComponent(arcs: Arcs, nodes: set<Node>, a: Node) returns (c: set<Node>)
    requires a in nodes
    ensures a in c && ComponentOf(arcs, nodes, a, c)
  {
    c := set b | b in nodes && Mutual(arcs, a, b);
    ReachSelf(arcs, a);
  }

  lemma ReachEnds(edges: seq<Edge>, a: Node, b: Node)
    requires a != b && Reach(EdgeArcs(edges), a, b)
    ensures a in Ends(edges) && b in Ends(edges)
  {
    var p :| Joins(EdgeArcs(edges), p, a, b);
    assert (p[0], p[1]) in EdgeArcs(edges) && (p[|p| - 2], p[|p| - 1]) in EdgeArcs(edges);
  }

  /** A module on a cycle has a reported component, which is what it is mutual with. */
  lemma CycleThrough(edges: seq<Edge>, n: Node) returns (members: seq<Node>)
    requires OnCycle(edges, n)
    ensures IsCycleOf(edges, members) && n in members
    ensures forall m :: m in members <==> Mutual(EdgeArcs(edges), n, m)
  {
    var arcs, nodes := EdgeArcs(edges), Ends(edges);
    var m :| m != n && Mutual(arcs, n, m);
    ReachEnds(edges, n, m);
    var c := SelfInComponent(arcs, nodes, n);
    members := Sorted(c);
    assert {n, m} <= c;
    assert |{n, m}| == 2;
    assert |c| > 1 by { assert |c - {n, m}| == |c| - 2; }
    assert Elements(members) == c;
    forall x ensures x in members <==> Mutual(arcs, n, x) {
      if Mutual(arcs, n, x) && x != n { ReachEnds(edges, n, x); }
    }
  }

  lemma CycleMembersOnCycle(edges: seq<Edge>, members: seq<Node>, n: Node)
    requires IsCycleOf(edges, members) && n in members
    ensures OnCycle(edges, n) && forall m :: m in members ==> Mutual(EdgeArcs(edges), n, m)
  {
    var arcs := EdgeArcs(edges);
    var a :| a in Ends(edges) && ComponentOf(arcs, Ends(edges), a, Elements(members));
    forall m | m in members ensures Mutual(arcs, n, m) {
      assert m in Elements(members) && n in Elements(members);
      ReachTransitive(arcs, n, a, m);
      ReachTransitive(arcs, m, a, n);
    }
    var m := if members[0] == n then members[1] else members[0];
    assert m in members && m != n;
  }

  /** Every module-top cycle lies inside one effective cycle. */
  lemma TopCycleInsideEffective(g: Graph, members: seq<Node>) returns (outer: seq<Node>)
    requires IsCycleOf(g.moduleTop, members)
    ensures IsCycleOf(g.Effective(), outer) && Elements(members) <= Elements(outer)
    ensures forall other, n :: IsCycleOf(g.Effective(), other) && n in members && n in other ==> other == outer
  {
    var n := members[0];
    CycleMembersOnCycle(g.moduleTop, members, n);
    forall m | m in members ensures Mutual(EdgeArcs(g.Effective()), n, m) {
      ReachMonotone(EdgeArcs(g.moduleTop), EdgeArcs(g.Effective()), n, m);
      ReachMonotone(EdgeArcs(g.moduleTop), EdgeArcs(g.Effective()), m, n);
    }
    assert members[1] in members;
    outer := CycleThrough(g.Effective(), n);
    forall other, m | IsCycleOf(g.Effective(), other) && m in members && m in other ensures other == outer {
      SameCycle(g.Effective(), other, outer, m);
    }
  }

  lemma SameCycle(edges: seq<Edge>, c: seq<Node>, d: seq<Node>, n: Node)
    requires IsCycleOf(edges, c) && IsCycleOf(edges, d) && n in c && n in d
    ensures c == d
  {
    var arcs, nodes := EdgeArcs(edges), Ends(edges);
    var a :| a in nodes && ComponentOf(arcs, nodes, a, Elements(c));
    var b :| b in nodes && ComponentOf(arcs, nodes, b, Elements(d));
    assert n in Elements(c) && n in Elements(d);
    ReachTransitive(arcs, b, n, a);
    ReachTransitive(arcs, a, n, b);
    ComponentUnique(arcs, nodes, a, b, Elements(c), Elements(d));
    forall x ensures x in c <==> x in d { assert x in Elements(c) <==> x in Elements(d); }
    AscendingUnique(c, d);
  }

  /** Nothing is reported exactly when no two modules import each other around; and,
      an import never naming its own module, exactly when the effective graph is acyclic. */
  lemma NothingReportedIffAcyclic(g: Graph, found: set<Component>)
    requires AreReported(g, found)
    ensures found == {} <==> forall n :: !OnCycle(g.Effective(), n)
    ensures (forall e :: e in g.Effective() ==> e.source != e.target) ==>
              (found == {} <==> !HasCycle(EdgeArcs(g.Effective())))
  {
    var effective := g.Effective();
    if n :| OnCycle(effective, n) {
      var members := CycleThrough(effective, n);
      var c := if IsCycleOf(g.moduleTop, members) then TopComponent(g, members) else EffectiveComponent(g, members);
      assert c in found;
      var m :| m != n && Mutual(EdgeArcs(effective), n, m);
      MutualIsCycle(EdgeArcs(effective), n, m);
    } else if found != {} {
      var c :| c in found;
      var members := c.id.members;
      if IsCycleOf(g.moduleTop, members) { members := TopCycleInsideEffective(g, members); }
      CycleMembersOnCycle(effective, members, members[0]);
      assert false;
    }
    if (forall e :: e in effective ==> e.source != e.target) && HasCycle(EdgeArcs(effective)) {
      var p :| IsCycle(EdgeArcs(effective), p);
      assert (p[0], p[1]) in EdgeArcs(effective);
      CycleIsMutual(EdgeArcs(effective), p, 0, 1);
      assert OnCycle(effective, p[0]);
    }
  }

  // ----- component_memberships and classify_claim -----

  type Membership = map<Node, ComponentId>

  function Get(m: Membership, n: Node): (r: set<ComponentId>) {
    if n in m then {m[n]} else {}
  }

  /** Each module on a cycle, mapped to its cycle. */
  ghost predicate IsMembership(edges: seq<Edge>, name: GraphName, m: Membership) {
    && (forall n :: n in m <==> OnCycle(edges, n))
    && (forall n :: n in m ==> m[n].graph == name && n in m[n].members && IsCycleOf(edges, m[n].members))
  }

  ghost predicate MapsInto(cycles: seq<seq<Node>>, name: GraphName, m: Membership) {
    && (forall n :: n in m ==> m[n].graph == name && n in m[n].members && m[n].members in cycles)
    && (forall c, n :: c in cycles && n in c ==> n in m)
  }

  lemma MapsIntoIsMembership(edges: seq<Edge>, cycles: seq<seq<Node>>, name: GraphName, m: Membership)
    requires AreComponents(AdjacencyOf(edges), cycles) && MapsInto(cycles, name, m)
    ensures IsMembership(edges, name, m)
  {
    hide AreComponents;
    forall c ensures c in cycles <==> IsCycleOf(edges, c) { CyclesAreExact(edges, cycles, c); }
    hide IsCycleOf;
    forall n ensures n in m <==> OnCycle(edges, n) {
      if OnCycle(edges, n) {
        var c := CycleThrough(edges, n);
        assert c in cycles;
      }
      if n in m { CycleMembersOnCycle(edges, m[n].members, n); }
    }
  }

  lemma NothingMapsInto(name: GraphName)
    ensures MapsInto([], name, map[])
  {
  }

  lemma MapsIntoExtend(cycles: seq<seq<Node>>, c: seq<Node>, name: GraphName, m: Membership)
    requires MapsInto(cycles, name, m)
    ensures MapsInto(cycles + [c], name, m + map n | n in c :: ComponentId(name, c))
  {
    assert forall d :: d in cycles + [c] <==> d in cycles || d == c;
  }

  method MembershipOf(edges: seq<Edge>, name: GraphName) returns (m: Membership)
    ensures IsMembership(edges, name, m)
  {
    var cycles := CyclesOf(edges);
    hide *;
    m := map[];
    NothingMapsInto(name);
    assert cycles[..0] == [];
    for i := 0 to |cycles|
      invariant MapsInto(cycles[..i], name, m)
    {
      assert cycles[..i + 1] == cycles[..i] + [cycles[i]];
      MapsIntoExtend(cycles[..i], cycles[i], name, m);
      m := m + map n | n in cycles[i] :: ComponentId(name, cycles[i]);
    }
    assert cycles[..|cycles|] == cycles;
    MapsIntoIsMembership(edges, cycles, name, m);
  }

  method ComponentMemberships(g: Graph) returns (top: Membership, effective: Membership)
    ensures IsMembership(g.moduleTop, TopGraph, top) && IsMembership(g.Effective(), EffectiveGraph, effective)
  {
    top := MembershipOf(g.moduleTop, TopGraph);
    effective := MembershipOf(g.Effective(), EffectiveGraph);
  }

  /** The targets that the effective graph does not put on the source's cycle. */
  function Offenders(targets: seq<Node>, source: Node, effective: Membership): seq<Node> {
    if targets == [] then []
    else (if Get(effective, targets[0]) != Get(effective, source) then [targets[0]] else [])
         + Offenders(targets[1..], source, effective)
  }

  function ClassifyClaim(targets: seq<Node>, source: Node, top: Membership,
                         effective: Membership): (Verdict, seq<Node>) {
    if targets == [] then (Unsupported, [])
    else
      var offenders := Offenders(targets, source, effective);
      if offenders != [] || Get(effective, source) == {} then
        (Unsupported, if offenders != [] then offenders else targets)
      else if Get(top, source) != {} && forall t :: t in targets ==> Get(top, t) == Get(top, source) then
        (SupportedModuleTop, [])
      else
        (SupportedEffective, [])
  }

  /** Equal memberships mean mutually reachable. */
  lemma MembershipIsMutuality(edges: seq<Edge>, name: GraphName, m: Membership, a: Node, b: Node)
    requires IsMembership(edges, name, m)
    ensures OnCycle(edges, a) ==> (Get(m, a) == Get(m, b) <==> Mutual(EdgeArcs(edges), a, b))
    ensures !OnCycle(edges, a) ==> (Get(m, a) == Get(m, b) <==> !OnCycle(edges, b))
  {
    if a in m {
      CycleMembersOnCycle(edges, m[a].members, a);
      if Mutual(EdgeArcs(edges), a, b) {
        var c := CycleThrough(edges, a);
        SameCycle(edges, c, m[a].members, a);
        CycleMembersOnCycle(edges, c, b);
        SameCycle(edges, m[b].members, c, b);
      } else {
        assert b in m ==> b in m[b].members;
      }
    }
  }

  lemma {:induction false} OffendersAre(targets: seq<Node>, source: Node, effective: Membership)
    ensures forall t :: t in Offenders(targets, source, effective) <==>
            t in targets && Get(effective, t) != Get(effective, source)
  {
    if targets != [] {
      OffendersAre(targets[1..], source, effective);
      assert targets == [targets[0]] + targets[1..];
    }
  }

  ghost predicate AllMutual(edges: seq<Edge>, source: Node, targets: seq<Node>) {
    forall t :: t in targets ==> Mutual(EdgeArcs(edges), source, t)
  }

  /** A claim is supported exactly when it names a target and each of its targets is
      mutually reachable with the source in the effective graph; the module-top verdict
      says the same of the module-top graph. */
  lemma VerdictIsMutuality(g: Graph, targets: seq<Node>, source: Node, top: Membership, effective: Membership)
    requires IsMembership(g.moduleTop, TopGraph, top) && IsMembership(g.Effective(), EffectiveGraph, effective)
    ensures var verdict := ClassifyClaim(targets, source, top, effective).0;
            && (verdict != Unsupported <==>
                targets != [] && OnCycle(g.Effective(), source) && AllMutual(g.Effective(), source, targets))
            && (verdict == SupportedModuleTop <==>
                targets != [] && OnCycle(g.moduleTop, source) && AllMutual(g.moduleTop, source, targets))
  {
    OffendersAre(targets, source, effective);
    assert Offenders(targets, source, effective) == [] <==>
           forall t :: t in targets ==> Get(effective, t) == Get(effective, source) by {
      var o := Offenders(targets, source, effective);
      assert o != [] ==> o[0] in o;
    }
    SameCycleIsMutual(g.Effective(), EffectiveGraph, effective, source, targets);
    SameCycleIsMutual(g.moduleTop, TopGraph, top, source, targets);
    hide IsMembership, OnCycle, AllMutual, Get, Offenders;
    if OnCycle(g.moduleTop, source) { TopSupportIsEffective(g, source, targets); }
  }

  /** Membership of the source says whether it is on a cycle, and agreement with it
      whether the targets are on the same one. */
  lemma SameCycleIsMutual(edges: seq<Edge>, name: GraphName, m: Membership, source: Node, targets: seq<Node>)
    requires IsMembership(edges, name, m)
    ensures Get(m, source) != {} <==> OnCycle(edges, source)
    ensures OnCycle(edges, source) ==>
              ((forall t :: t in targets ==> Get(m, t) == Get(m, source)) <==> AllMutual(edges, source, targets))
  {
    if OnCycle(edges, source) {
      forall t | t in targets ensures Get(m, t) == Get(m, source) <==> Mutual(EdgeArcs(edges), source, t) {
        MembershipIsMutuality(edges, name, m, source, t);
      }
    }
    hide Mutual, OnCycle, EdgeArcs, IsCycleOf;
  }

  lemma TopSupportIsEffective(g: Graph, source: Node, targets: seq<Node>)
    requires OnCycle(g.moduleTop, source)
    ensures OnCycle(g.Effective(), source)
    ensures AllMutual(g.moduleTop, source, targets) ==> AllMutual(g.Effective(), source, targets)
  {
    forall m | Mutual(EdgeArcs(g.moduleTop), source, m) ensures Mutual(EdgeArcs(g.Effective()), source, m) {
      ReachMonotone(EdgeArcs(g.moduleTop), EdgeArcs(g.Effective()), source, m);
      ReachMonotone(EdgeArcs(g.moduleTop), EdgeArcs(g.Effective()), m, source);
    }
  }

  /** An import never names its own module, so each mutual target puts the source on a
      cycle; and the offenders named are exactly the targets off the source's cycle. */
  lemma OffendersAreExact(g: Graph, targets: seq<Node>, source: Node, top: Membership, effective: Membership)
    requires IsMembership(g.moduleTop, TopGraph, top) && IsMembership(g.Effective(), EffectiveGraph, effective)
    requires source !in targets
    ensures var (verdict, offenders) := ClassifyClaim(targets, source, top, effective);
            && (verdict != Unsupported <==> targets != [] && AllMutual(g.Effective(), source, targets))
            && (OnCycle(g.Effective(), source) ==> forall t :: t in offenders <==>
                t in targets && !Mutual(EdgeArcs(g.Effective()), source, t))
  {
    VerdictIsMutuality(g, targets, source, top, effective);
    OffendersAre(targets, source, effective);
    if targets != [] && AllMutual(g.Effective(), source, targets) {
      assert targets[0] in targets && targets[0] != source;
    }
    forall t | t in targets
      ensures OnCycle(g.Effective(), source) ==>
                (Get(effective, t) == Get(effective, source) <==> Mutual(EdgeArcs(g.Effective()), source, t))
    {
      MembershipIsMutuality(g.Effective(), EffectiveGraph, effective, source, t);
    }
  }

  /** Off every cycle, the offenders are the targets on one; when none is, all of them. */
  lemma OffendersOffCycle(g: Graph, targets: seq<Node>, source: Node, top: Membership, effective: Membership)
    requires IsMembership(g.moduleTop, TopGraph, top) && IsMembership(g.Effective(), EffectiveGraph, effective)
    requires !OnCycle(g.Effective(), source)
    ensures var (verdict, offenders) := ClassifyClaim(targets, source, top, effective);
            && verdict == Unsupported
            && forall t :: t in offenders <==>
                 t in targets && (OnCycle(g.Effective(), t) || forall u :: u in targets ==> !OnCycle(g.Effective(), u))
  {
    VerdictIsMutuality(g, targets, source, top, effective);
    OffendersAre(targets, source, effective);
    hide OnCycle, Offenders;
    var offenders := Offenders(targets, source, effective);
    if offenders != [] { assert offenders[0] in offenders; }
  }

  /** A reported cycle comes with the imports of its graph between its members. */
  lemma EvidenceIs(g: Graph, found: set<Component>, c: Component, e: Edge)
    requires AreReported(g, found) && c in found
    ensures (e.source, e.target, e.kind) in c.edges <==>
              && e.source in c.id.members && e.target in c.id.members
              && (e in g.moduleTop || (c.id.graph == EffectiveGraph && e in g.functionBody))
  {
    hide IsCycleOf;
    assert forall f: Edge :: f.source == e.source && f.target == e.target && f.kind == e.kind ==> f == e;
  }

  /** The component that a supported claim relies on is always one of the reported ones:
      a claim supported only in the effective graph never relies on a component that is
      reported for the module-top graph instead. */
  lemma SupportedClaimIsReported(g: Graph, found: set<Component>, targets: seq<Node>, source: Node, top: Membership,
                                 effective: Membership)
    requires AreReported(g, found)
    requires IsMembership(g.moduleTop, TopGraph, top) && IsMembership(g.Effective(), EffectiveGraph, effective)
    requires ClassifyClaim(targets, source, top, effective).0 != Unsupported
    ensures var membership := if ClassifyClaim(targets, source, top, effective).0 == SupportedModuleTop then top
                              else effective;
            source in membership && exists c :: c in found && c.id == membership[source]
  {
    VerdictIsMutuality(g, targets, source, top, effective);
    if ClassifyClaim(targets, source, top, effective).0 == SupportedModuleTop {
      assert TopComponent(g, top[source].members) in found;
    } else {
      var members := effective[source].members;
      if IsCycleOf(g.moduleTop, members) {
        CycleMembersOnCycle(g.moduleTop, members, source);
        SameMembers(g.Effective(), effective, source, targets);
        assert false;
      }
      assert EffectiveComponent(g, members) in found;
    }
  }

  lemma SameMembers(edges: seq<Edge>, m: Membership, source: Node, targets: seq<Node>)
    requires IsMembership(edges, EffectiveGraph, m) && source in m && AllMutual(edges, source, targets)
    ensures forall t :: t in targets ==> t in m[source].members
  {
    forall t | t in targets ensures t in m[source].members {
      MembershipIsMutuality(edges, EffectiveGraph, m, source, t);
    }
  }
}
