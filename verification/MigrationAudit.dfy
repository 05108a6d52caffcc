/** The migration graphs: history folded onto its replacement shards, the chain of the
    shards, and what later migrations have to depend on (scripts/migration_audit.py). */
module MigrationAudit {
  import opened Digraph
  import opened AcyclicCheck
  import opened Wrappers

  /** One migration file; `ordinal` is the shard number its name carries. */
  datatype Migration = Migration(
    id: Node,
    dependencies: set<Node>,
    runBefore: set<Node>,
    replaced: seq<Node>,
    ordinal: Option<nat>,
    bootstrapsUsers: bool,
    swappable: bool)

  datatype Graph = Graph(nodes: set<Node>, edges: Arcs) {
    function Leaves(): set<Node> {
      set n | n in nodes && Targets(edges, n) == {}
    }
  }

  /** The part of an id before the first dot. */
  function AppOf(id: Node): string {
    if id == [] || id[0] == '.' then [] else [id[0]] + AppOf(id[1..])
  }

  function Ids(ms: seq<Migration>): set<Node> {
    set m | m in ms :: m.id
  }

  predicate DistinctIds(ms: seq<Migration>) {
    forall i, j :: 0 <= i < j < |ms| ==> ms[i].id != ms[j].id
  }

  // ----- The shard chain -----

  predicate AllShards(ms: seq<Migration>) {
    forall m :: m in ms ==> m.ordinal.Some?
  }

  predicate ByOrdinal(ms: seq<Migration>) {
    AllShards(ms) && forall i, j :: 0 <= i < j < |ms| ==> ms[i].ordinal.value <= ms[j].ordinal.value
  }

  function Insert(m: Migration, ms: seq<Migration>): (r: seq<Migration>)
    requires m.ordinal.Some? && ByOrdinal(ms)
    ensures ByOrdinal(r) && |r| == |ms| + 1 && forall x :: x in r <==> x == m || x in ms
  {
    if ms == [] then [m]
    else if m.ordinal.value <= ms[0].ordinal.value then [m] + ms
    else
      var rest := Insert(m, ms[1..]);
      assert forall x :: x in ms[1..] ==> x in ms && ms[0].ordinal.value <= x.ordinal.value;
      assert forall i :: 0 <= i < |rest| ==> rest[i] in rest;
      [ms[0]] + rest
  }

  /** Sorted by shard number. */
  function Chain(ms: seq<Migration>): (r: seq<Migration>)
    requires AllShards(ms)
    ensures ByOrdinal(r) && |r| == |ms| && forall x :: x in r <==> x in ms
  {
    if ms == [] then [] else Insert(ms[0], Chain(ms[1..]))
  }

  predicate IsNumbered(chain: seq<Migration>) {
    forall k :: 0 <= k < |chain| ==> chain[k].ordinal == Some(k + 1)
  }

  /** The last shard of the app among the first k. */
  function PreviousOf(chain: seq<Migration>, k: nat, app: string): Option<Node>
    requires k <= |chain|
  {
    if k == 0 then None
    else if AppOf(chain[k - 1].id) == app then Some(chain[k - 1].id)
    else PreviousOf(chain, k - 1, app)
  }

  predicate IsLinkedAt(chain: seq<Migration>, k: nat)
    requires k < |chain|
  {
    && (k > 0 ==> chain[k - 1].id in chain[k].dependencies)
    && var previous := PreviousOf(chain, k, AppOf(chain[k].id));
       previous.Some? ==> previous.value in chain[k].dependencies
  }

  /** Either no replacement is numbered, or the numbers run from 1 and each shard depends
      on the one before it and on its app's previous one. */
  predicate IsShardChain(ms: seq<Migration>) {
    || (forall m :: m in ms ==> m.ordinal.None?)
    || (AllShards(ms) && IsNumbered(Chain(ms)) && forall k :: 0 <= k < |ms| ==>
          k < |Chain(ms)| && IsLinkedAt(Chain(ms), k))
  }

  method ValidateLinks(chain: seq<Migration>) returns (linked: bool)
    ensures linked <==> forall k :: 0 <= k < |chain| ==> IsLinkedAt(chain, k)
  {
    hide AppOf;
    var previousByApp: map<string, Node> := map[];
    for index := 0 to |chain|
      invariant forall k :: 0 <= k < index ==> IsLinkedAt(chain, k)
      invariant forall app :: PreviousOf(chain, index, app) == if app in previousByApp then Some(previousByApp[app])
                                                               else None
    {
      var migration := chain[index];
      var app := AppOf(migration.id);
      assert IsLinkedAt(chain, index) <==>
        && (index > 0 ==> chain[index - 1].id in migration.dependencies)
        && (app in previousByApp ==> previousByApp[app] in migration.dependencies);
      if index > 0 && chain[index - 1].id !in migration.dependencies { return false; }
      if app in previousByApp && previousByApp[app] !in migration.dependencies { return false; }
      previousByApp := previousByApp[app := migration.id];
    }
    return true;
  }

  method ValidateShardChain(ms: seq<Migration>) returns (r: Result<nat, Refusal>)
    ensures r.Ok? <==> IsShardChain(ms)
    ensures r.Ok? ==> r.value == if exists m :: m in ms && m.ordinal.Some? then |ms| - 1 else 0
  {
    if forall m :: m in ms ==> m.ordinal.None? { return Ok(0); }
    if !AllShards(ms) { return Err(Invalid); }
    assert ms != [] && ms[0] in ms && ms[0].ordinal.Some?;
    var chain := Chain(ms);
    hide Chain, IsLinkedAt;
    if exists k :: 0 <= k < |chain| && chain[k].ordinal != Some(k + 1) { return Err(Invalid); }
    var linked := ValidateLinks(chain);
    return if linked then Ok(|ms| - 1) else Err(Invalid);
  }

  // ----- The historical graph -----

  function Bootstraps(historical: seq<Migration>): set<Node> {
    set m | m in historical && m.bootstrapsUsers :: m.id
  }

  /** A migration that alone bootstraps the users app precedes whatever depends on the
      swappable user model. */
  function BootstrapEdges(historical: seq<Migration>): Arcs {
    set b, m | b in Bootstraps(historical) && m in historical && m.swappable
    && Bootstraps(historical) == {b} :: (b, m.id)
  }

  function HistoricalEdges(historical: seq<Migration>): Arcs {
    (set m, d | m in historical && d in m.dependencies && d in Ids(historical) :: (d, m.id)) +
    (set m, t | m in historical && t in m.runBefore && t in Ids(historical) :: (m.id, t)) +
    BootstrapEdges(historical)
  }

  function HistoricalGraph(historical: seq<Migration>): Graph {
    Graph(Ids(historical), HistoricalEdges(historical))
  }

  // ----- The effective graph -----

  ghost predicate IsReplacedBy(replacements: seq<Migration>, target: Node, r: Node) {
    exists m :: m in replacements && target in m.replaced && m.id == r
  }

  function AllTargets(replacements: seq<Migration>): seq<Node> {
    if replacements == [] then [] else replacements[0].replaced + AllTargets(replacements[1..])
  }

  /** replacement_by_target; later entries win. */
  function ByTarget(replacements: seq<Migration>): map<Node, Node> {
    if replacements == [] then map[]
    else
      var last := replacements[|replacements| - 1];
      ByTarget(replacements[..|replacements| - 1]) + map t | t in last.replaced :: last.id
  }

  function Folded(shardOf: map<Node, Node>, n: Node): Node {
    if n in shardOf then shardOf[n] else n
  }

  function EffectiveEdges(historical: seq<Migration>, replacements: seq<Migration>): Arcs {
    var shardOf, ids := ByTarget(replacements), Ids(replacements);
    (set e | e in HistoricalEdges(historical)
     && Folded(shardOf, e.0) != Folded(shardOf, e.1) :: (Folded(shardOf, e.0), Folded(shardOf, e.1))) +
    (set m, d | m in replacements && d in m.dependencies && d in ids :: (d, m.id)) +
    (set m, t | m in replacements && t in m.runBefore && (t in ids || t in shardOf)
     && m.id != Folded(shardOf, t) :: (m.id, Folded(shardOf, t)))
  }

  predicate NoDuplicates(s: seq<Node>) {
    forall i, j :: 0 <= i < j < |s| ==> s[i] != s[j]
  }

  /** Everything before the cycle test. */
  predicate IsCovered(historical: seq<Migration>, replacements: seq<Migration>, apps: set<string>) {
    var targets, ids, nodes := (set t | t in AllTargets(replacements)), Ids(replacements), Ids(historical);
    && IsShardChain(replacements)
    && (targets <= nodes || nodes == {})
    && NoDuplicates(AllTargets(replacements))
    && nodes <= targets
    && (forall m, d :: m in replacements && d in m.dependencies && AppOf(d) in apps ==> d in ids)
    && (forall m, t :: m in replacements && t in m.runBefore && AppOf(t) in apps ==>
          t in ids || t in ByTarget(replacements))
  }

  lemma {:induction false} ByTargetIs(replacements: seq<Migration>)
    ensures ByTarget(replacements).Keys == set t | t in AllTargets(replacements)
    ensures forall t :: t in ByTarget(replacements) ==>
              IsReplacedBy(replacements, t, ByTarget(replacements)[t]) && ByTarget(replacements)[t] in Ids(replacements)
  {
    if replacements != [] {
      var front, last := replacements[..|replacements| - 1], replacements[|replacements| - 1];
      ByTargetIs(front);
      TargetsAppend(front, last);
      assert replacements == front + [last];
      forall t | t in ByTarget(replacements)
        ensures IsReplacedBy(replacements, t, ByTarget(replacements)[t])
                && ByTarget(replacements)[t] in Ids(replacements)
      {
        if t in last.replaced {
          assert last in replacements && ByTarget(replacements)[t] == last.id;
        } else {
          assert t in ByTarget(front) && ByTarget(replacements)[t] == ByTarget(front)[t];
          var m :| m in front && t in m.replaced && m.id == ByTarget(front)[t];
          assert m in replacements;
        }
      }
    }
  }

  lemma {:induction false} TargetsAppend(front: seq<Migration>, last: Migration)
    ensures AllTargets(front + [last]) == AllTargets(front) + last.replaced
  {
    if front == [] {
      assert front + [last] == [last] && [last][1..] == [];
    } else {
      assert (front + [last])[1..] == front[1..] + [last];
      TargetsAppend(front[1..], last);
    }
  }

  lemma EdgesJoin(historical: seq<Migration>, replacements: seq<Migration>)
    requires Ids(historical) <= set t | t in AllTargets(replacements)
    ensures Joined(Ids(historical), HistoricalEdges(historical))
    ensures Joined(Ids(replacements), EffectiveEdges(historical, replacements))
  {
    ByTargetIs(replacements);
    HistoryJoins(historical);
    var shardOf, ids := ByTarget(replacements), Ids(replacements);
    hide ByTarget, AllTargets, HistoricalEdges, IsReplacedBy;
    forall e | e in HistoricalEdges(historical) ensures Folded(shardOf, e.0) in ids && Folded(shardOf, e.1) in ids {
      assert e.0 in shardOf && e.1 in shardOf;
    }
    forall m | m in replacements ensures m.id in ids {}
    hide Folded;
    forall e | e in EffectiveEdges(historical, replacements) ensures e.0 in ids && e.1 in ids {
      assert FoldedIn(shardOf, ids);
    }
  }

  ghost predicate FoldedIn(shardOf: map<Node, Node>, ids: set<Node>) {
    forall t :: t in shardOf || t in ids ==> Folded(shardOf, t) in ids
  }

  lemma HistoryJoins(historical: seq<Migration>)
    ensures Joined(Ids(historical), HistoricalEdges(historical))
  {
    assert forall m :: m in historical ==> m.id in Ids(historical);
    assert Bootstraps(historical) <= Ids(historical);
  }

  method BuildEffectiveGraph(historical: seq<Migration>, replacements: seq<Migration>, apps: set<string>)
    returns (r: Result<Graph, Refusal>)
    ensures replacements == [] ==> r == Ok(HistoricalGraph(historical))
    ensures replacements != [] ==>
              (r.Ok? <==>
               IsCovered(historical, replacements, apps) && !HasCycle(EffectiveEdges(historical, replacements)))
    ensures replacements != [] && r.Ok? ==>
              r.value == Graph(Ids(replacements), EffectiveEdges(historical, replacements))
  {
    if replacements == [] { return Ok(HistoricalGraph(historical)); }
    var chained := ValidateShardChain(replacements);
    if chained.Err? { return Err(Invalid); }
    if !IsCovered(historical, replacements, apps) { return Err(Invalid); }
    EdgesJoin(historical, replacements);
    var nodes, edges := Ids(replacements), EffectiveEdges(historical, replacements);
    var cyclic := FindsCycle(nodes, edges);
    return if cyclic then Err(Invalid) else Ok(Graph(nodes, edges));
  }

  // ----- Later migrations -----

  /** Every first-party dependency is known, and every leaf is depended on. */
  predicate MayFollow(post: seq<Migration>, effective: Graph, apps: set<string>) {
    forall m :: m in post ==>
      && (forall d :: d in m.dependencies && AppOf(d) in apps ==> d in effective.nodes + Ids(post))
      && effective.Leaves() <= m.dependencies
  }

  /** _validate_post_transition_dependencies: stops at the first migration at fault. */
  method ValidatePostTransition(post: seq<Migration>, effective: Graph, apps: set<string>) returns (accepted: bool)
    ensures accepted <==> MayFollow(post, effective, apps)
  {
    var leaves, known := effective.Leaves(), effective.nodes + Ids(post);
    hide Ids, AppOf;
    for k := 0 to |post|
      invariant forall i :: 0 <= i < k ==>
                  && leaves <= post[i].dependencies
                  && forall d :: d in post[i].dependencies && AppOf(d) in apps ==> d in known
    {
      var unknown := set d | d in post[k].dependencies && AppOf(d) in apps && d !in known;
      var missing := leaves - post[k].dependencies;
      if unknown != {} || missing != {} {
        assert post[k] in post;
        return false;
      }
      assert forall d :: d in post[k].dependencies && AppOf(d) in apps && d !in known ==> d in unknown;
      assert forall l :: l in leaves && l !in post[k].dependencies ==> l in missing;
    }
    return true;
  }

  /** Every dependency of a later migration, as arcs. */
  function PostEdges(post: seq<Migration>): Arcs {
    set m, d | m in post && d in m.dependencies :: (d, m.id)
  }

  // ----- The chain is a path, and its end is the only leaf -----

  lemma ArcBackIsCycle(edges: Arcs, a: Node, b: Node)
    requires (a, b) in edges && Reach(edges, b, a)
    ensures HasCycle(edges)
  {
    if a == b {
      assert IsCycle(edges, [a, a]);
    } else {
      ReachArc(edges, a, b);
      MutualIsCycle(edges, a, b);
    }
  }

  /** The replacements form a non-empty numbered chain, and no check failed. */
  ghost predicate IsAudited(historical: seq<Migration>, replacements: seq<Migration>, apps: set<string>) {
    && replacements != [] && AllShards(replacements) && DistinctIds(replacements)
    && IsCovered(historical, replacements, apps) && !HasCycle(EffectiveEdges(historical, replacements))
  }

  lemma ExampleChain(shard: Migration)
    requires shard == Migration("a.2", {}, {}, ["a.1"], Some(1), false, false)
    ensures Chain([shard]) == [shard] && IsShardChain([shard]) && AllTargets([shard]) == ["a.1"]
            && Ids([shard]) == {"a.2"}
  {
    assert Chain([]) == [] && Insert(shard, []) == [shard] && [shard][1..] == [] && shard.replaced + [] == ["a.1"];
    assert shard in [shard];
  }

  lemma ExampleEdges(m: Migration, shard: Migration)
    requires m.dependencies == m.runBefore == {} && !m.bootstrapsUsers && shard.dependencies == shard.runBefore == {}
    ensures HistoricalEdges([m]) == {} && EffectiveEdges([m], [shard]) == {} && Ids([m]) == {m.id}
    ensures !HasCycle(EffectiveEdges([m], [shard]))
  {
    hide Ids, ByTarget, Folded;
    assert Bootstraps([m]) == {} && HistoricalEdges([m]) == {};
    hide HistoricalEdges, HasCycle;
    assert EffectiveEdges([m], [shard]) == {};
    NoCycle({}, {});
    assert m in [m];
    OneId(m);
  }

  lemma OneId(m: Migration)
    ensures Ids([m]) == {m.id}
  {
    assert m in [m];
  }

  /** One shard that replaces a history of one migration passes the audit. */
  lemma AuditIsPossible() returns (historical: seq<Migration>, replacements: seq<Migration>)
    ensures historical != [] && IsAudited(historical, replacements, {"a"})
  {
    var m := Migration("a.1", {}, {}, [], None, false, false);
    var shard := Migration("a.2", {}, {}, ["a.1"], Some(1), false, false);
    historical, replacements := [m], [shard];
    ExampleChain(shard);
    ExampleEdges(m, shard);
    hide EffectiveEdges, HistoricalEdges, HasCycle, IsShardChain, AllTargets, Ids, Chain, ByTarget, AppOf;
  }

  /** Each node of the list has an arc to the next. */
  ghost predicate IsLine(edges: Arcs, line: seq<Node>) {
    forall k :: 0 <= k < |line| - 1 ==> (line[k], line[k + 1]) in edges
  }

  lemma {:induction false} LineReaches(edges: Arcs, line: seq<Node>, i: nat, j: nat)
    requires IsLine(edges, line) && i <= j < |line|
    ensures Reach(edges, line[i], line[j])
    decreases j
  {
    if i == j {
      ReachSelf(edges, line[i]);
    } else {
      LineReaches(edges, line, i, j - 1);
      ReachArc(edges, line[j - 1], line[j - 1 + 1]);
      ReachTransitive(edges, line[i], line[j - 1], line[j]);
    }
  }

  /** In an acyclic graph every arc between nodes of a line goes up the line. */
  lemma ArcGoesUp(edges: Arcs, line: seq<Node>, i: nat, j: nat)
    requires IsLine(edges, line) && !HasCycle(edges)
    requires i < |line| && j < |line| && (line[i], line[j]) in edges
    ensures i < j
  {
    if j <= i {
      LineReaches(edges, line, j, i);
      ArcBackIsCycle(edges, line[i], line[j]);
    }
  }

  /** A line through all nodes of an acyclic graph ends in its only leaf. */
  lemma LineEndsInOnlyLeaf(nodes: set<Node>, edges: Arcs, line: seq<Node>)
    requires Joined(nodes, edges) && IsLine(edges, line) && !HasCycle(edges) && line != []
    requires forall n :: n in nodes <==> n in line
    ensures Graph(nodes, edges).Leaves() == {line[|line| - 1]}
  {
    var last := line[|line| - 1];
    assert last in line;
    if t :| t in Targets(edges, last) {
      assert (last, t) in edges && t in line;
      var j :| 0 <= j < |line| && line[j] == t;
      ArcGoesUp(edges, line, |line| - 1, j);
    }
    forall n | n in nodes && n != last ensures Targets(edges, n) != {} {
      var i :| 0 <= i < |line| && line[i] == n;
      assert (line[i], line[i + 1]) in edges;
      assert line[i + 1] in Targets(edges, n);
    }
  }

  /** The shards' ids, in the order of their numbers. */
  ghost function Line(replacements: seq<Migration>): (r: seq<Node>)
    requires AllShards(replacements)
    ensures |r| == |replacements|
  {
    seq(|Chain(replacements)|, i requires 0 <= i < |Chain(replacements)| => Chain(replacements)[i].id)
  }

  lemma LineHoldsIds(replacements: seq<Migration>)
    requires AllShards(replacements)
    ensures forall n :: n in Ids(replacements) <==> n in Line(replacements)
  {
    var line, chain := Line(replacements), Chain(replacements);
    forall m | m in replacements ensures m.id in line {
      assert m in chain;
      var i :| 0 <= i < |chain| && chain[i] == m;
      assert line[i] == m.id;
    }
    forall i | 0 <= i < |line| ensures line[i] in Ids(replacements) {
      assert chain[i] in replacements && line[i] == chain[i].id;
    }
  }

  lemma DependencyIsArc(historical: seq<Migration>, replacements: seq<Migration>, m: Migration, d: Node)
    requires m in replacements && d in m.dependencies && d in Ids(replacements)
    ensures (d, m.id) in EffectiveEdges(historical, replacements)
  {
    hide HistoricalEdges, ByTarget, Folded, Ids;
  }

  lemma LinksAreLine(historical: seq<Migration>, replacements: seq<Migration>)
    requires AllShards(replacements) && forall k :: 0 <= k < |Chain(replacements)| ==>
               IsLinkedAt(Chain(replacements), k)
    ensures IsLine(EffectiveEdges(historical, replacements), Line(replacements))
  {
    var chain := Chain(replacements);
    hide Chain, HistoricalEdges, EffectiveEdges, ByTarget, AppOf;
    forall k | 0 <= k < |chain| - 1 ensures (chain[k].id, chain[k + 1].id) in EffectiveEdges(historical, replacements) {
      assert IsLinkedAt(chain, k + 1) && chain[k] in replacements && chain[k + 1] in replacements;
      DependencyIsArc(historical, replacements, chain[k + 1], chain[k].id);
    }
  }

  /** What the audit says of the effective graph. */
  lemma AuditedLine(historical: seq<Migration>, replacements: seq<Migration>, apps: set<string>)
    requires IsAudited(historical, replacements, apps)
    ensures var edges, line := EffectiveEdges(historical, replacements), Line(replacements);
            && line != [] && IsLine(edges, line) && !HasCycle(edges) && Joined(Ids(replacements), edges)
            && (forall n :: n in Ids(replacements) <==> n in line)
            && (forall i, j :: 0 <= i < j < |line| ==> line[i] != line[j])
  {
    assert replacements[0] in replacements;
    hide EffectiveEdges, HasCycle, Ids, ByTarget, AllTargets, HistoricalEdges, AppOf;
    LinksAreLine(historical, replacements);
    LineHoldsIds(replacements);
    EdgesJoin(historical, replacements);
    IdsDiffer(replacements);
    hide Line, Joined, IsLine;
  }

  lemma IdsDiffer(replacements: seq<Migration>)
    requires AllShards(replacements) && DistinctIds(replacements) && IsNumbered(Chain(replacements))
    ensures forall i, j :: 0 <= i < j < |Line(replacements)| ==> Line(replacements)[i] != Line(replacements)[j]
  {
    var chain := Chain(replacements);
    hide Chain;
    forall i, j | 0 <= i < j < |chain| ensures chain[i].id != chain[j].id {
      assert chain[i] in replacements && chain[j] in replacements && chain[i].ordinal != chain[j].ordinal;
      var x :| 0 <= x < |replacements| && replacements[x] == chain[i];
      var y :| 0 <= y < |replacements| && replacements[y] == chain[j];
      assert x != y;
    }
  }

  /** The last shard is the only leaf. */
  lemma LastShardIsOnlyLeaf(historical: seq<Migration>, replacements: seq<Migration>, apps: set<string>)
    requires IsAudited(historical, replacements, apps)
    ensures Graph(Ids(replacements), EffectiveEdges(historical, replacements)).Leaves() ==
              {Line(replacements)[|replacements| - 1]}
  {
    AuditedLine(historical, replacements, apps);
    hide EffectiveEdges, IsCovered, Line, IsLine, Joined, HasCycle, Ids, Targets;
    LineEndsInOnlyLeaf(Ids(replacements), EffectiveEdges(historical, replacements), Line(replacements));
  }

  /** What depends on the end of a line depends on all of it. */
  lemma EndFollowsLine(edges: Arcs, more: Arcs, line: seq<Node>, n: Node, later: Node)
    requires IsLine(edges, line) && line != [] && n in line && (line[|line| - 1], later) in more
    ensures Reach(edges + more, n, later)
  {
    var last := line[|line| - 1];
    var i :| 0 <= i < |line| && line[i] == n;
    LineReaches(edges, line, i, |line| - 1);
    ReachMonotone(edges, edges + more, n, last);
    ReachArc(edges + more, last, later);
    ReachTransitive(edges + more, n, last, later);
  }

  /** An accepted later migration depends, directly or through the chain, on every shard. */
  lemma LaterFollowsEveryShard(historical: seq<Migration>, replacements: seq<Migration>, apps: set<string>,
                               post: seq<Migration>, later: Migration, shard: Migration)
    requires IsAudited(historical, replacements, apps) && later in post && shard in replacements
    requires MayFollow(post, Graph(Ids(replacements), EffectiveEdges(historical, replacements)), apps)
    ensures Reach(EffectiveEdges(historical, replacements) + PostEdges(post), shard.id, later.id)
  {
    AuditedLine(historical, replacements, apps);
    LastShardIsOnlyLeaf(historical, replacements, apps);
    hide EffectiveEdges, IsAudited, Line, AppOf, IsLine, Joined;
    var line := Line(replacements);
    assert line[|line| - 1] in later.dependencies && shard.id in Ids(replacements);
    assert (line[|line| - 1], later.id) in PostEdges(post);
    EndFollowsLine(EffectiveEdges(historical, replacements), PostEdges(post), line, shard.id, later.id);
  }

  // ----- The chain replays history in order -----

  lemma FoldedArc(historical: seq<Migration>, replacements: seq<Migration>, a: Node, b: Node)
    requires (a, b) in HistoricalEdges(historical)
    requires a in ByTarget(replacements) && b in ByTarget(replacements)
             && ByTarget(replacements)[a] != ByTarget(replacements)[b]
    ensures (ByTarget(replacements)[a], ByTarget(replacements)[b]) in EffectiveEdges(historical, replacements)
  {
    var shardOf, e := ByTarget(replacements), (a, b);
    hide HistoricalEdges, ByTarget, Ids;
    assert e in HistoricalEdges(historical) && Folded(shardOf, e.0) != Folded(shardOf, e.1);
  }

  /** Every arc of the history stays in one place of the line, or goes up an arc. */
  ghost predicate IsFolded(history: Arcs, shardOf: map<Node, Node>, edges: Arcs, line: seq<Node>) {
    forall a, b :: (a, b) in history ==>
      a in shardOf && b in shardOf && shardOf[a] in line && shardOf[b] in line
      && (shardOf[a] == shardOf[b] || (shardOf[a], shardOf[b]) in edges)
  }

  lemma HistoryIsFolded(historical: seq<Migration>, replacements: seq<Migration>)
    requires AllShards(replacements) && Ids(historical) <= set t | t in AllTargets(replacements)
    ensures IsFolded(HistoricalEdges(historical), ByTarget(replacements), EffectiveEdges(historical, replacements),
                     Line(replacements))
  {
    ByTargetIs(replacements);
    HistoryJoins(historical);
    LineHoldsIds(replacements);
    hide HistoricalEdges, ByTarget, EffectiveEdges, Ids, Line, AllTargets, IsReplacedBy;
    forall a, b | (a, b) in HistoricalEdges(historical)
      ensures a in ByTarget(replacements) && b in ByTarget(replacements)
      ensures ByTarget(replacements)[a] == ByTarget(replacements)[b]
              || (ByTarget(replacements)[a], ByTarget(replacements)[b]) in EffectiveEdges(historical, replacements)
    {
      assert (a, b).0 in Ids(historical) && (a, b).1 in Ids(historical);
      if ByTarget(replacements)[a] != ByTarget(replacements)[b] { FoldedArc(historical, replacements, a, b); }
    }
  }

  /** Along a walk through the history the shards only go up the line. */
  lemma {:induction false} WalkGoesUp(history: Arcs, shardOf: map<Node, Node>, edges: Arcs, line: seq<Node>,
                                      p: seq<Node>, i: nat, j: nat)
    requires IsFolded(history, shardOf, edges, line) && IsLine(edges, line) && !HasCycle(edges)
    requires forall x, y :: 0 <= x < y < |line| ==> line[x] != line[y]
    requires IsWalk(history, p) && p[0] in shardOf && p[|p| - 1] in shardOf
    requires i < |line| && line[i] == shardOf[p[0]] && j < |line| && line[j] == shardOf[p[|p| - 1]]
    ensures i <= j
    decreases |p|
  {
    if |p| > 1 {
      assert (p[0], p[0 + 1]) in history;
      var k :| 0 <= k < |line| && line[k] == shardOf[p[1]];
      if shardOf[p[0]] != shardOf[p[1]] { ArcGoesUp(edges, line, i, k); }
      WalkSlice(history, p, 1, |p| - 1);
      assert p[1..|p| - 1 + 1] == p[1..];
      hide HasCycle, IsLine;
      WalkGoesUp(history, shardOf, edges, line, p[1..], k, j);
    }
  }

  /** The shard that takes the place of a historical migration comes no later in the
      chain than the shard of anything that historically depended on it: running the
      shards in order respects the whole history. */
  lemma ChainRespectsHistory(historical: seq<Migration>, replacements: seq<Migration>, apps: set<string>,
                             a: Node, b: Node, i: nat, j: nat)
    requires IsAudited(historical, replacements, apps) && Reach(HistoricalEdges(historical), a, b)
    requires i < |Line(replacements)| && a in ByTarget(replacements)
             && Line(replacements)[i] == ByTarget(replacements)[a]
    requires j < |Line(replacements)| && b in ByTarget(replacements)
             && Line(replacements)[j] == ByTarget(replacements)[b]
    ensures i <= j
  {
    AuditedLine(historical, replacements, apps);
    HistoryIsFolded(historical, replacements);
    hide IsAudited, EffectiveEdges, HistoricalEdges, ByTarget, Line, IsLine, HasCycle, IsFolded, Joined;
    var p :| Joins(HistoricalEdges(historical), p, a, b);
    WalkGoesUp(HistoricalEdges(historical), ByTarget(replacements), EffectiveEdges(historical, replacements),
               Line(replacements), p, i, j);
  }
}
