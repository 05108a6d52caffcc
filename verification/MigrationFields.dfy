/** The migration graphs in terms of the migrations' own fields (scripts/migration_audit.py). */
module MigrationFields {
  import opened Digraph
  import opened AcyclicCheck
  import opened MigrationAudit
  import opened Wrappers

  // ----- The history -----

  /** The one migration that bootstraps the users app. */
  ghost predicate IsBootstrap(historical: seq<Migration>, d: Migration) {
    d.bootstrapsUsers && forall x :: x in historical && x.bootstrapsUsers ==> x.id == d.id
  }

  /** Migration d has to run before m: m depends on it, it asks to run before m, or it
      alone bootstraps the users and m depends on the swappable user model. */
  ghost predicate Precedes(historical: seq<Migration>, d: Migration, m: Migration) {
    d.id in m.dependencies || m.id in d.runBefore || (IsBootstrap(historical, d) && m.swappable)
  }

  lemma BootstrapArcIff(historical: seq<Migration>, a: Node, b: Node)
    ensures (a, b) in BootstrapEdges(historical) <==>
              exists d, m :: d in historical && m in historical && d.id == a && m.id == b &&
                             IsBootstrap(historical, d) && m.swappable
  {
    if (a, b) in BootstrapEdges(historical) {
      assert Bootstraps(historical) == {a};
      var d :| d in historical && d.bootstrapsUsers && d.id == a;
      var m :| m in historical && m.swappable && m.id == b;
      assert forall x :: x in historical && x.bootstrapsUsers ==> x.id in Bootstraps(historical);
      assert IsBootstrap(historical, d);
    }
    if d, m :| d in historical && m in historical && d.id == a && m.id == b && IsBootstrap(historical, d)
               && m.swappable {
      assert d.id in Bootstraps(historical);
      assert Bootstraps(historical) == {a};
    }
  }

  /** The historical graph has an arc exactly where one migration has to precede another. */
  lemma HistoryArcIff(historical: seq<Migration>, a: Node, b: Node)
    ensures (a, b) in HistoricalEdges(historical) <==>
              exists d, m :: d in historical && m in historical && d.id == a && m.id == b && Precedes(historical, d, m)
  {
    BootstrapArcIff(historical, a, b);
    hide BootstrapEdges, IsBootstrap;
    if d, m :| d in historical && m in historical && d.id == a && m.id == b && Precedes(historical, d, m) {
      assert d.id in Ids(historical) && m.id in Ids(historical);
    }
  }

  // ----- The replacements -----

  /** The shard that replaces a historical migration is the only one. */
  lemma {:induction false} ReplacedByOne(replacements: seq<Migration>, s: Migration, t: Node)
    requires NoDuplicates(AllTargets(replacements)) && s in replacements && t in s.replaced
    ensures t in ByTarget(replacements) && ByTarget(replacements)[t] == s.id
  {
    var front, last := replacements[..|replacements| - 1], replacements[|replacements| - 1];
    assert replacements == front + [last];
    TargetsAppend(front, last);
    var early := AllTargets(front);
    hide NoDuplicates, AllTargets;
    if s in front {
      TargetIsListed(front, s, t);
      NotTwice(early, last.replaced, t);
      NoDuplicatesPrefix(early, last.replaced);
      ReplacedByOne(front, s, t);
    }
  }

  lemma NotTwice(a: seq<Node>, b: seq<Node>, t: Node)
    requires NoDuplicates(a + b) && t in a
    ensures t !in b
  {
    var i :| 0 <= i < |a| && a[i] == t;
    forall j | 0 <= j < |b| ensures b[j] != t {
      assert (a + b)[i] == t && (a + b)[|a| + j] == b[j];
    }
  }

  lemma NoDuplicatesPrefix(a: seq<Node>, b: seq<Node>)
    requires NoDuplicates(a + b)
    ensures NoDuplicates(a)
  {
    assert forall i :: 0 <= i < |a| ==> (a + b)[i] == a[i];
  }

  lemma {:induction false} TargetIsListed(replacements: seq<Migration>, s: Migration, t: Node)
    requires s in replacements && t in s.replaced
    ensures t in AllTargets(replacements)
  {
    if s != replacements[0] { TargetIsListed(replacements[1..], s, t); }
  }

  /** What a shard names: itself, or the shard that replaces it. */
  ghost predicate StandsFor(replacements: seq<Migration>, n: Node, t: Migration) {
    || n in t.replaced
    || (n == t.id && forall u :: u in replacements ==> n !in u.replaced)
  }

  lemma {:induction false} ListedIsTarget(replacements: seq<Migration>, t: Node) returns (s: Migration)
    requires t in AllTargets(replacements)
    ensures s in replacements && t in s.replaced
  {
    if t in replacements[0].replaced {
      s := replacements[0];
    } else {
      s := ListedIsTarget(replacements[1..], t);
    }
  }

  lemma StandsForIff(replacements: seq<Migration>, n: Node, t: Migration)
    requires NoDuplicates(AllTargets(replacements)) && t in replacements
    ensures StandsFor(replacements, n, t) ==>
              (n in Ids(replacements) || n in ByTarget(replacements)) && Folded(ByTarget(replacements), n) == t.id
  {
    ByTargetIs(replacements);
    if n in t.replaced {
      ReplacedByOne(replacements, t, n);
    } else if n in AllTargets(replacements) {
      var s := ListedIsTarget(replacements, n);
    }
    hide NoDuplicates, AllTargets, ByTarget;
  }

  lemma StandsForSomething(replacements: seq<Migration>, n: Node) returns (t: Migration)
    requires NoDuplicates(AllTargets(replacements)) && (n in Ids(replacements) || n in ByTarget(replacements))
    ensures t in replacements && t.id == Folded(ByTarget(replacements), n) && StandsFor(replacements, n, t)
  {
    ByTargetIs(replacements);
    if n in ByTarget(replacements) {
      t :| t in replacements && n in t.replaced && t.id == ByTarget(replacements)[n];
    } else {
      t :| t in replacements && t.id == n;
      forall u | u in replacements ensures n !in u.replaced {
        if n in u.replaced { TargetIsListed(replacements, u, n); }
      }
    }
  }

  // ----- The three kinds of arcs between shards -----

  /** Shard a replaces what has to precede something that b replaces. */
  ghost predicate ByHistory(historical: seq<Migration>, s: Migration, t: Migration) {
    s.id != t.id && exists d, m ::
      d in historical && m in historical && d.id in s.replaced && m.id in t.replaced && Precedes(historical, d, m)
  }

  ghost predicate ByRunBefore(replacements: seq<Migration>, s: Migration, t: Migration) {
    s.id != t.id && exists n :: n in s.runBefore && StandsFor(replacements, n, t)
  }

  /** Shard s has to run before shard t: a migration that s replaces has to precede one
      that t replaces, t depends on s, or s asks to run before t or what t replaces. */
  ghost predicate ShardPrecedes(historical: seq<Migration>, replacements: seq<Migration>, s: Migration, t: Migration) {
    ByHistory(historical, s, t) || s.id in t.dependencies || ByRunBefore(replacements, s, t)
  }

  lemma FoldedHistoryIff(historical: seq<Migration>, replacements: seq<Migration>, a: Node, b: Node)
    requires NoDuplicates(AllTargets(replacements)) && Ids(historical) <= set t | t in AllTargets(replacements)
    ensures (exists e :: e in HistoricalEdges(historical) && a != b && Folded(ByTarget(replacements), e.0) == a &&
                         Folded(ByTarget(replacements), e.1) == b) <==>
              exists s, t ::
                s in replacements && t in replacements && s.id == a && t.id == b && ByHistory(historical, s, t)
  {
    hide HistoricalEdges, NoDuplicates, Precedes, ByTarget;
    var shardOf := ByTarget(replacements);
    if e :| e in HistoricalEdges(historical) && a != b && Folded(shardOf, e.0) == a && Folded(shardOf, e.1) == b {
      HistoryArcIff(historical, e.0, e.1);
      assert (e.0, e.1) == e;
      var d, m :| d in historical && m in historical && d.id == e.0 && m.id == e.1 && Precedes(historical, d, m);
      assert d.id in Ids(historical) && m.id in Ids(historical);
      var s := ListedIsTarget(replacements, d.id);
      var t := ListedIsTarget(replacements, m.id);
      ReplacedByOne(replacements, s, d.id);
      ReplacedByOne(replacements, t, m.id);
      assert ByHistory(historical, s, t);
    }
    if s, t :| s in replacements && t in replacements && s.id == a && t.id == b && ByHistory(historical, s, t) {
      var d, m :|
        d in historical && m in historical && d.id in s.replaced && m.id in t.replaced && Precedes(historical, d, m);
      HistoryArcIff(historical, d.id, m.id);
      ReplacedByOne(replacements, s, d.id);
      ReplacedByOne(replacements, t, m.id);
      var e := (d.id, m.id);
      assert e in HistoricalEdges(historical) && Folded(shardOf, e.0) == a && Folded(shardOf, e.1) == b;
    }
  }

  lemma RunBeforeIff(replacements: seq<Migration>, a: Node, b: Node)
    requires NoDuplicates(AllTargets(replacements))
    ensures (exists m, n :: m in replacements && n in m.runBefore &&
                            (n in Ids(replacements) || n in ByTarget(replacements)) &&
                            m.id != Folded(ByTarget(replacements), n) && m.id == a &&
                            Folded(ByTarget(replacements), n) == b) <==>
              exists s, t ::
                s in replacements && t in replacements && s.id == a && t.id == b && ByRunBefore(replacements, s, t)
  {
    hide NoDuplicates, AllTargets, ByTarget, Folded, StandsFor, Ids;
    if m, n :| m in replacements && n in m.runBefore && (n in Ids(replacements) || n in ByTarget(replacements)) &&
               m.id != Folded(ByTarget(replacements), n) && m.id == a && Folded(ByTarget(replacements), n) == b {
      var t := StandsForSomething(replacements, n);
      assert ByRunBefore(replacements, m, t);
    }
    if s, t :| s in replacements && t in replacements && s.id == a && t.id == b && ByRunBefore(replacements, s, t) {
      var n :| n in s.runBefore && StandsFor(replacements, n, t);
      StandsForIff(replacements, n, t);
    }
  }

  ghost function OwnArcs(replacements: seq<Migration>): set<(Node, Node)> {
    set m, d | m in replacements && d in m.dependencies && d in Ids(replacements) :: (d, m.id)
  }

  ghost function AskedArcs(replacements: seq<Migration>): set<(Node, Node)> {
    var shardOf, ids := ByTarget(replacements), Ids(replacements);
    set m, t | m in replacements && t in m.runBefore && (t in ids || t in shardOf)
      && m.id != Folded(shardOf, t) :: (m.id, Folded(shardOf, t))
  }

  ghost function FoldedArcs(edges: set<(Node, Node)>, shardOf: map<Node, Node>): set<(Node, Node)> {
    set e | e in edges && Folded(shardOf, e.0) != Folded(shardOf, e.1) :: (Folded(shardOf, e.0), Folded(shardOf, e.1))
  }

  lemma EffectiveIsThree(historical: seq<Migration>, replacements: seq<Migration>)
    ensures EffectiveEdges(historical, replacements) ==
              FoldedArcs(HistoricalEdges(historical), ByTarget(replacements)) + OwnArcs(replacements)
              + AskedArcs(replacements)
  {
    hide HistoricalEdges, ByTarget, Folded, Ids;
  }

  lemma FoldedArcIff(edges: set<(Node, Node)>, shardOf: map<Node, Node>, a: Node, b: Node)
    ensures (a, b) in FoldedArcs(edges, shardOf) <==>
              exists e :: e in edges && a != b && Folded(shardOf, e.0) == a && Folded(shardOf, e.1) == b
  {
    hide Folded;
  }

  lemma OwnArcIff(replacements: seq<Migration>, a: Node, b: Node)
    ensures (a, b) in OwnArcs(replacements) <==>
              exists s, t :: s in replacements && t in replacements && s.id == a && t.id == b && s.id in t.dependencies
  {
    if s, t :| s in replacements && t in replacements && s.id == a && t.id == b && s.id in t.dependencies {
      assert s.id in Ids(replacements);
    }
  }

  lemma AskedArcIff(replacements: seq<Migration>, a: Node, b: Node)
    ensures var shardOf, ids := ByTarget(replacements), Ids(replacements);
            (a, b) in AskedArcs(replacements) <==>
              exists m, n :: m in replacements && n in m.runBefore && (n in ids || n in shardOf) &&
                             m.id != Folded(shardOf, n) && m.id == a && Folded(shardOf, n) == b
  {
    hide ByTarget, Folded, Ids;
  }

  /** The effective graph has an arc exactly where one shard has to run before another. */
  lemma EffectiveArcIff(historical: seq<Migration>, replacements: seq<Migration>, a: Node, b: Node)
    requires NoDuplicates(AllTargets(replacements)) && Ids(historical) <= set t | t in AllTargets(replacements)
    ensures (a, b) in EffectiveEdges(historical, replacements) <==>
              exists s, t :: s in replacements && t in replacements && s.id == a && t.id == b &&
                             ShardPrecedes(historical, replacements, s, t)
  {
    hide EffectiveEdges, HistoricalEdges, NoDuplicates, AllTargets, ByTarget, Folded, Ids, ByHistory, ByRunBefore,
         FoldedArcs, OwnArcs, AskedArcs;
    EffectiveIsThree(historical, replacements);
    FoldedArcIff(HistoricalEdges(historical), ByTarget(replacements), a, b);
    OwnArcIff(replacements, a, b);
    AskedArcIff(replacements, a, b);
    FoldedHistoryIff(historical, replacements, a, b);
    RunBeforeIff(replacements, a, b);
    forall s, t | s in replacements && t in replacements
      ensures ShardPrecedes(historical, replacements, s, t) <==>
                ByHistory(historical, s, t) || s.id in t.dependencies || ByRunBefore(replacements, s, t)
    {
    }
  }

  // ----- The order of the shards -----

  lemma OrdinalIsPlace(replacements: seq<Migration>, s: Migration) returns (i: nat)
    requires AllShards(replacements) && IsNumbered(Chain(replacements)) && s in replacements
    ensures i < |Line(replacements)| && Line(replacements)[i] == s.id && s.ordinal == Some(i + 1)
  {
    var chain := Chain(replacements);
    i :| 0 <= i < |chain| && chain[i] == s;
  }

  /** In an audited layout each arc of the effective graph goes to a higher number. */
  lemma ArcsGoUp(historical: seq<Migration>, replacements: seq<Migration>, apps: set<string>, s: Migration,
                 t: Migration)
    requires IsAudited(historical, replacements, apps) && s in replacements && t in replacements
    requires ShardPrecedes(historical, replacements, s, t)
    ensures s.ordinal.Some? && t.ordinal.Some? && s.ordinal.value < t.ordinal.value
  {
    AuditedLine(historical, replacements, apps);
    ShardChainIsNumbered(replacements);
    EffectiveArcIff(historical, replacements, s.id, t.id);
    var i := OrdinalIsPlace(replacements, s);
    var j := OrdinalIsPlace(replacements, t);
    hide EffectiveEdges, HistoricalEdges, ByTarget, Line, IsLine, HasCycle, Joined, Chain, ShardPrecedes;
    ArcGoesUp(EffectiveEdges(historical, replacements), Line(replacements), i, j);
  }

  lemma ShardChainIsNumbered(replacements: seq<Migration>)
    requires replacements != [] && AllShards(replacements) && IsShardChain(replacements)
    ensures IsNumbered(Chain(replacements))
  {
    assert replacements[0] in replacements;
    hide Chain, IsLinkedAt;
  }

  /** In an audited layout the shards replay the history: what had to run before another
      migration is replaced by a shard with no higher number. */
  lemma ShardsReplayHistory(historical: seq<Migration>, replacements: seq<Migration>, apps: set<string>,
                            d: Migration, m: Migration, s: Migration, t: Migration)
    requires IsAudited(historical, replacements, apps) && d in historical && m in historical
    requires Precedes(historical, d, m)
    requires s in replacements && t in replacements && d.id in s.replaced && m.id in t.replaced
    ensures s.ordinal.Some? && t.ordinal.Some? && s.ordinal.value <= t.ordinal.value
  {
    ShardChainIsNumbered(replacements);
    if s.id == t.id {
      SameShard(replacements, s, t);
    } else {
      ArcsGoUp(historical, replacements, apps, s, t);
    }
  }

  lemma SameShard(replacements: seq<Migration>, s: Migration, t: Migration)
    requires DistinctIds(replacements) && s in replacements && t in replacements && s.id == t.id
    ensures s == t
  {
    var i :| 0 <= i < |replacements| && replacements[i] == s;
    var j :| 0 <= j < |replacements| && replacements[j] == t;
    assert !(i < j) && !(j < i);
  }

  // ----- The shard chain -----

  ghost predicate SameApp(s: Migration, t: Migration) { AppOf(s.id) == AppOf(t.id) }

  /** The app is what stands before the first dot. */
  lemma {:induction false} AppIs(id: Node)
    ensures '.' !in AppOf(id) && (AppOf(id) == id || AppOf(id) + "." <= id)
  {
    if id != [] && id[0] != '.' { AppIs(id[1..]); }
  }

  /** Shard s is the last of t's app before t. */
  ghost predicate IsPrevious(ms: seq<Migration>, s: Migration, t: Migration)
    requires AllShards(ms) && s in ms && t in ms
  {
    && SameApp(s, t) && s.ordinal.value < t.ordinal.value
    && forall u :: u in ms && SameApp(u, t) && u.ordinal.value < t.ordinal.value ==>
                     u.ordinal.value <= s.ordinal.value
  }

  /** The numbers are 1 to n, and each shard depends on the one with the number before it
      and on the last one of its app before it. */
  ghost predicate IsChained(ms: seq<Migration>)
    requires AllShards(ms)
  {
    && (forall m :: m in ms ==> 1 <= m.ordinal.value <= |ms|)
    && (forall i, j :: 0 <= i < j < |ms| ==> ms[i].ordinal != ms[j].ordinal)
    && (forall s, t :: s in ms && t in ms && s.ordinal.value + 1 == t.ordinal.value ==> s.id in t.dependencies)
    && (forall s, t :: s in ms && t in ms && IsPrevious(ms, s, t) ==> s.id in t.dependencies)
  }

  lemma TwicePlaced(s: seq<Migration>, i: nat, j: nat)
    requires i < j < |s| && s[i] == s[j]
    ensures multiset(s)[s[i]] >= 2
  {
    assert s == s[..j] + s[j..] && s[..j][i] == s[i] && s[j..][0] == s[j];
    assert s[i] in multiset(s[..j]) && s[i] in multiset(s[j..]);
  }

  lemma OncePlaced(s: seq<Migration>)
    requires forall i, j :: 0 <= i < j < |s| ==> s[i].ordinal != s[j].ordinal
    ensures forall m :: multiset(s)[m] <= 1
    decreases |s|
  {
    if s != [] {
      var front, last := s[..|s| - 1], s[|s| - 1];
      assert s == front + [last];
      OncePlaced(front);
      assert last !in front;
    }
  }

  /** Two listings of the same shards give each number to one shard, or neither does. */
  lemma NumbersDiffer(s: seq<Migration>, t: seq<Migration>)
    requires multiset(s) == multiset(t) && forall i, j :: 0 <= i < j < |s| ==> s[i].ordinal != s[j].ordinal
    ensures forall i, j :: 0 <= i < j < |t| ==> t[i].ordinal != t[j].ordinal
  {
    OncePlaced(s);
    forall i, j | 0 <= i < j < |t| ensures t[i].ordinal != t[j].ordinal {
      assert t[i] in multiset(t) && t[j] in multiset(t);
      var x :| 0 <= x < |s| && s[x] == t[i];
      var y :| 0 <= y < |s| && s[y] == t[j];
      if x == y { TwicePlaced(t, i, j); }
    }
  }

  /** Ascending numbers from 1 to n that differ are 1, 2, and so on. */
  lemma {:induction false} NumbersRise(c: seq<Migration>, k: nat)
    requires ByOrdinal(c) && k < |c| && forall m :: m in c ==> 1 <= m.ordinal.value
    requires forall i, j :: 0 <= i < j < |c| ==> c[i].ordinal != c[j].ordinal
    ensures c[k].ordinal.value >= k + 1
    decreases k
  {
    assert c[k] in c;
    if k > 0 { NumbersRise(c, k - 1); }
  }

  lemma {:induction false} NumbersFall(c: seq<Migration>, k: nat)
    requires ByOrdinal(c) && k < |c| && forall m :: m in c ==> m.ordinal.value <= |c|
    requires forall i, j :: 0 <= i < j < |c| ==> c[i].ordinal != c[j].ordinal
    ensures c[k].ordinal.value <= k + 1
    decreases |c| - k
  {
    assert c[k] in c;
    if k + 1 < |c| { NumbersFall(c, k + 1); }
  }

  lemma {:induction false} InsertAdds(m: Migration, ms: seq<Migration>)
    requires m.ordinal.Some? && ByOrdinal(ms)
    ensures multiset(Insert(m, ms)) == multiset(ms) + multiset{m}
  {
    if ms != [] && m.ordinal.value > ms[0].ordinal.value {
      InsertAdds(m, ms[1..]);
      assert ms == [ms[0]] + ms[1..];
    }
  }

  lemma {:induction false} ChainIsListing(ms: seq<Migration>)
    requires AllShards(ms)
    ensures multiset(Chain(ms)) == multiset(ms)
  {
    if ms != [] {
      ChainIsListing(ms[1..]);
      InsertAdds(ms[0], Chain(ms[1..]));
      assert ms == [ms[0]] + ms[1..];
    }
  }

  lemma NumberedIff(ms: seq<Migration>)
    requires AllShards(ms)
    ensures IsNumbered(Chain(ms)) <==>
              && (forall m :: m in ms ==> 1 <= m.ordinal.value <= |ms|)
              && (forall i, j :: 0 <= i < j < |ms| ==> ms[i].ordinal != ms[j].ordinal)
  {
    hide Chain, ByOrdinal;
    var c := Chain(ms);
    ChainIsListing(ms);
    if IsNumbered(c) {
      NumbersDiffer(c, ms);
    } else if (forall m :: m in ms ==> 1 <= m.ordinal.value <= |ms|)
              && forall i, j :: 0 <= i < j < |ms| ==> ms[i].ordinal != ms[j].ordinal {
      NumbersDiffer(ms, c);
      forall k | 0 <= k < |c| ensures c[k].ordinal == Some(k + 1) {
        NumbersRise(c, k);
        NumbersFall(c, k);
      }
    }
  }

  lemma {:induction false} PreviousIs(c: seq<Migration>, k: nat, app: string)
    requires k <= |c|
    ensures var p := PreviousOf(c, k, app);
            if p.None? then forall j :: 0 <= j < k ==> AppOf(c[j].id) != app
            else exists j :: 0 <= j < k && AppOf(c[j].id) == app && c[j].id == p.value &&
                             forall i :: j < i < k ==> AppOf(c[i].id) != app
  {
    hide AppOf;
    if k > 0 && AppOf(c[k - 1].id) != app { PreviousIs(c, k - 1, app); }
  }

  lemma PlaceIsNumber(c: seq<Migration>, s: Migration)
    requires IsNumbered(c) && s in c
    ensures s.ordinal.Some? && 1 <= s.ordinal.value <= |c| && c[s.ordinal.value - 1] == s
  {
    var i :| 0 <= i < |c| && c[i] == s;
  }

  lemma PredecessorIff(c: seq<Migration>, k: nat)
    requires AllShards(c) && IsNumbered(c) && k < |c|
    ensures (k > 0 ==> c[k - 1].id in c[k].dependencies) <==>
              forall s :: s in c && s.ordinal.value + 1 == c[k].ordinal.value ==> s.id in c[k].dependencies
  {
    if k > 0 { assert c[k - 1] in c; }
    forall s | s in c && s.ordinal.value + 1 == c[k].ordinal.value ensures k > 0 && s == c[k - 1] {
      PlaceIsNumber(c, s);
    }
  }

  lemma PreviousIff(c: seq<Migration>, k: nat)
    requires AllShards(c) && IsNumbered(c) && k < |c|
    ensures var p := PreviousOf(c, k, AppOf(c[k].id));
            (p.Some? ==> p.value in c[k].dependencies) <==>
              forall s :: s in c && IsPrevious(c, s, c[k]) ==> s.id in c[k].dependencies
  {
    hide AppOf, PreviousOf, IsNumbered, IsPrevious, AllShards;
    PreviousIs(c, k, AppOf(c[k].id));
    var p := PreviousOf(c, k, AppOf(c[k].id));
    if p.Some? {
      var j :| 0 <= j < k && AppOf(c[j].id) == AppOf(c[k].id) && c[j].id == p.value &&
               forall i :: j < i < k ==> AppOf(c[i].id) != AppOf(c[k].id);
      LastIsPrevious(c, j, k);
    } else {
      NoPrevious(c, k);
    }
  }

  lemma NoPrevious(c: seq<Migration>, k: nat)
    requires AllShards(c) && IsNumbered(c) && k < |c| && forall j :: 0 <= j < k ==> AppOf(c[j].id) != AppOf(c[k].id)
    ensures forall s :: s in c ==> !IsPrevious(c, s, c[k])
  {
    hide AppOf, IsNumbered;
    PlaceOf(c, k);
    forall s | s in c && SameApp(s, c[k]) && s.ordinal.value < c[k].ordinal.value ensures false {
      PlaceIsNumber(c, s);
    }
  }

  lemma PlaceOf(c: seq<Migration>, k: nat)
    requires IsNumbered(c) && k < |c|
    ensures c[k].ordinal == Some(k + 1) && c[k] in c
  {
  }

  lemma LastIsPrevious(c: seq<Migration>, j: nat, k: nat)
    requires AllShards(c) && IsNumbered(c) && j < k < |c| && AppOf(c[j].id) == AppOf(c[k].id)
    requires forall i :: j < i < k ==> AppOf(c[i].id) != AppOf(c[k].id)
    ensures IsPrevious(c, c[j], c[k]) && forall s :: s in c && IsPrevious(c, s, c[k]) ==> s == c[j]
  {
    hide AppOf, IsNumbered;
    PlaceOf(c, j);
    PlaceOf(c, k);
    forall u | u in c && SameApp(u, c[k]) && u.ordinal.value < c[k].ordinal.value
      ensures u.ordinal.value <= c[j].ordinal.value && (u.ordinal == c[j].ordinal ==> u == c[j])
    {
      PlaceIsNumber(c, u);
    }
  }

  ghost predicate LinkedByFields(ms: seq<Migration>, t: Migration)
    requires AllShards(ms) && t in ms
  {
    && (forall s :: s in ms && s.ordinal.value + 1 == t.ordinal.value ==> s.id in t.dependencies)
    && (forall s :: s in ms && IsPrevious(ms, s, t) ==> s.id in t.dependencies)
  }

  lemma LinkedIff(c: seq<Migration>, k: nat)
    requires AllShards(c) && IsNumbered(c) && k < |c|
    ensures IsLinkedAt(c, k) <==> LinkedByFields(c, c[k])
  {
    hide AppOf, IsPrevious;
    PredecessorIff(c, k);
    PreviousIff(c, k);
  }

  lemma AllLinkedIff(c: seq<Migration>)
    requires AllShards(c) && IsNumbered(c)
    ensures (forall k :: 0 <= k < |c| ==> IsLinkedAt(c, k)) <==> forall t :: t in c ==> LinkedByFields(c, t)
  {
    forall k | 0 <= k < |c| ensures IsLinkedAt(c, k) <==> LinkedByFields(c, c[k]) { LinkedIff(c, k); }
    hide IsLinkedAt, LinkedByFields;
  }

  lemma LinkedAlike(c: seq<Migration>, ms: seq<Migration>)
    requires AllShards(c) && AllShards(ms) && forall x :: x in c <==> x in ms
    ensures (forall t :: t in c ==> LinkedByFields(c, t)) <==>
              && (forall s, t ::
                    s in ms && t in ms && s.ordinal.value + 1 == t.ordinal.value ==> s.id in t.dependencies)
              && (forall s, t :: s in ms && t in ms && IsPrevious(ms, s, t) ==> s.id in t.dependencies)
  {
    forall s, t | s in ms && t in ms ensures IsPrevious(ms, s, t) <==> IsPrevious(c, s, t) { hide SameApp; }
    hide IsPrevious;
  }

  lemma ChainLinkedIff(ms: seq<Migration>)
    requires AllShards(ms) && IsNumbered(Chain(ms))
    ensures (forall k :: 0 <= k < |Chain(ms)| ==> IsLinkedAt(Chain(ms), k)) <==>
              && (forall s, t ::
                    s in ms && t in ms && s.ordinal.value + 1 == t.ordinal.value ==> s.id in t.dependencies)
              && (forall s, t :: s in ms && t in ms && IsPrevious(ms, s, t) ==> s.id in t.dependencies)
  {
    hide Chain, IsLinkedAt, IsPrevious, IsNumbered, LinkedByFields;
    var c := Chain(ms);
    ChainIsListing(ms);
    AllLinkedIff(c);
    LinkedAlike(c, ms);
  }

  /** The chain test accepts exactly replacements without numbers, and chained shards. */
  lemma ShardChainIff(ms: seq<Migration>)
    ensures IsShardChain(ms) <==> (forall m :: m in ms ==> m.ordinal.None?) || (AllShards(ms) && IsChained(ms))
  {
    hide Chain, IsLinkedAt, IsPrevious, IsNumbered, AllShards;
    if AllShards(ms) {
      NumberedIff(ms);
      if IsNumbered(Chain(ms)) { ChainLinkedIff(ms); }
      ChainIsListing(ms);
    }
  }

  // ----- What the audit accepts -----

  lemma IdIff(ms: seq<Migration>, n: Node)
    ensures n in Ids(ms) <==> exists m :: m in ms && m.id == n
  {
  }

  lemma TargetIff(ms: seq<Migration>, n: Node)
    ensures n in AllTargets(ms) <==> exists m :: m in ms && n in m.replaced
  {
    hide AllTargets;
    if n in AllTargets(ms) {
      var m := ListedIsTarget(ms, n);
    }
    if m :| m in ms && n in m.replaced { TargetIsListed(ms, m, n); }
  }

  /** No migration is replaced twice, by two shards or by one. */
  lemma {:induction false} ReplacedOnceIff(replacements: seq<Migration>)
    ensures NoDuplicates(AllTargets(replacements)) <==>
              && (forall s :: s in replacements ==> NoDuplicates(s.replaced))
              && (forall i, j, n :: 0 <= i < j < |replacements| && n in replacements[i].replaced ==>
                    n !in replacements[j].replaced)
  {
    if replacements != [] {
      var first, rest := replacements[0], replacements[1..];
      ReplacedOnceIff(rest);
      forall n ensures n in AllTargets(rest) <==> exists m :: m in rest && n in m.replaced { TargetIff(rest, n); }
      NoDuplicatesConcat(first.replaced, AllTargets(rest));
      hide AllTargets, NoDuplicates;
      assert forall s :: s in replacements <==> s == first || s in rest;
      assert forall j :: 0 < j < |replacements| ==> replacements[j] == rest[j - 1];
      assert (forall n :: n in first.replaced ==> n !in AllTargets(rest)) <==>
               forall j, n :: 0 < j < |replacements| && n in first.replaced ==> n !in replacements[j].replaced;
    }
  }

  lemma NoDuplicatesConcat(a: seq<Node>, b: seq<Node>)
    ensures NoDuplicates(a + b) <==> NoDuplicates(a) && NoDuplicates(b) && forall n :: n in a ==> n !in b
  {
    var all := a + b;
    assert forall i :: 0 <= i < |a| ==> all[i] == a[i];
    assert forall j :: 0 <= j < |b| ==> all[|a| + j] == b[j];
    if n :| n in a && n in b {
      var i :| 0 <= i < |a| && a[i] == n;
      var j :| 0 <= j < |b| && b[j] == n;
      assert all[i] == all[|a| + j];
    }
    if NoDuplicates(all) {
      forall i, j | 0 <= i < j < |b| ensures b[i] != b[j] { assert all[|a| + i] != all[|a| + j]; }
    } else {
      var i, j :| 0 <= i < j < |all| && all[i] == all[j];
      assert i < |a| ==> all[i] in a;
      assert j >= |a| ==> all[j] in b;
    }
  }

  lemma TargetsKnownIff(historical: seq<Migration>, replacements: seq<Migration>)
    ensures ((set n | n in AllTargets(replacements)) <= Ids(historical) || Ids(historical) == {}) <==>
              (historical == [] || forall s, n ::
                 s in replacements && n in s.replaced ==> exists m :: m in historical && m.id == n)
  {
    var targets, nodes := (set n | n in AllTargets(replacements)), Ids(historical);
    forall n ensures n in targets <==> exists m :: m in replacements && n in m.replaced { TargetIff(replacements, n); }
    forall n ensures n in nodes <==> exists m :: m in historical && m.id == n { IdIff(historical, n); }
    hide Ids, AllTargets;
    if historical != [] { assert historical[0] in historical && historical[0].id in nodes; }
    if targets <= nodes {
      forall s, n | s in replacements && n in s.replaced ensures exists m :: m in historical && m.id == n {
        assert n in targets && n in nodes;
      }
    }
  }

  lemma AllReplacedIff(historical: seq<Migration>, replacements: seq<Migration>)
    ensures Ids(historical) <= (set n | n in AllTargets(replacements)) <==>
              forall m :: m in historical ==> exists s :: s in replacements && m.id in s.replaced
  {
    var targets, nodes := (set n | n in AllTargets(replacements)), Ids(historical);
    forall n ensures n in targets <==> exists m :: m in replacements && n in m.replaced { TargetIff(replacements, n); }
    hide AllTargets;
    assert forall m :: m in historical ==> m.id in nodes;
  }

  lemma DependenciesKnownIff(replacements: seq<Migration>, apps: set<string>)
    ensures (forall s, d :: s in replacements && d in s.dependencies && AppOf(d) in apps ==>
               d in Ids(replacements)) <==>
              forall s, d :: s in replacements && d in s.dependencies && AppOf(d) in apps ==>
                exists t :: t in replacements && t.id == d
  {
    forall n ensures n in Ids(replacements) <==> exists t :: t in replacements && t.id == n { IdIff(replacements, n); }
    hide Ids, AppOf;
  }

  ghost predicate IsNamed(replacements: seq<Migration>, n: Node) {
    exists t :: t in replacements && (t.id == n || n in t.replaced)
  }

  lemma RunBeforeKnownIff(replacements: seq<Migration>, apps: set<string>)
    ensures (forall s, n :: s in replacements && n in s.runBefore && AppOf(n) in apps ==>
               n in Ids(replacements) || n in ByTarget(replacements)) <==>
              forall s, n :: s in replacements && n in s.runBefore && AppOf(n) in apps ==> IsNamed(replacements, n)
  {
    ByTargetIs(replacements);
    forall n ensures IsNamed(replacements, n) <==> n in Ids(replacements) || n in ByTarget(replacements) {
      IdIff(replacements, n);
      TargetIff(replacements, n);
    }
    hide Ids, AppOf, ByTarget, IsNamed;
  }

  lemma CoveredParts(historical: seq<Migration>, replacements: seq<Migration>, apps: set<string>)
    ensures var targets := set n | n in AllTargets(replacements);
            IsCovered(historical, replacements, apps) <==>
              && IsShardChain(replacements) && (targets <= Ids(historical) || Ids(historical) == {})
              && NoDuplicates(AllTargets(replacements)) && Ids(historical) <= targets
              && (forall s, d :: s in replacements && d in s.dependencies && AppOf(d) in apps ==>
                    d in Ids(replacements))
              && (forall s, n :: s in replacements && n in s.runBefore && AppOf(n) in apps ==>
                    n in Ids(replacements) || n in ByTarget(replacements))
  {
    hide Ids, AllTargets, ByTarget, AppOf, IsShardChain, NoDuplicates;
  }

  /** What the audit tests before it looks for a cycle: the shards are chained, every
      replaced migration is in the history (unless there is none), none is replaced twice,
      the whole history is replaced, and every first-party migration that a shard names is
      known. */
  lemma CoveredIff(historical: seq<Migration>, replacements: seq<Migration>, apps: set<string>)
    ensures IsCovered(historical, replacements, apps) <==>
              && IsShardChain(replacements)
              && (historical == [] || forall s, n ::
                    s in replacements && n in s.replaced ==> exists m :: m in historical && m.id == n)
              && (forall s :: s in replacements ==> NoDuplicates(s.replaced))
              && (forall i, j, n :: 0 <= i < j < |replacements| && n in replacements[i].replaced ==>
                    n !in replacements[j].replaced)
              && (forall m :: m in historical ==> exists s :: s in replacements && m.id in s.replaced)
              && (forall s, d :: s in replacements && d in s.dependencies && AppOf(d) in apps ==>
                    exists t :: t in replacements && t.id == d)
              && (forall s, n :: s in replacements && n in s.runBefore && AppOf(n) in apps ==> IsNamed(replacements, n))
  {
    hide *;
    CoveredParts(historical, replacements, apps);
    TargetsKnownIff(historical, replacements);
    AllReplacedIff(historical, replacements);
    DependenciesKnownIff(replacements, apps);
    RunBeforeKnownIff(replacements, apps);
    ReplacedOnceIff(replacements);
  }

  /** A later migration may follow when every first-party migration it depends on is known
      and it depends on every known one that nothing follows yet. */
  lemma MayFollowIff(post: seq<Migration>, effective: Graph, apps: set<string>)
    ensures MayFollow(post, effective, apps) <==>
              && (forall m, d :: m in post && d in m.dependencies && AppOf(d) in apps ==>
                    d in effective.nodes || exists p :: p in post && p.id == d)
              && (forall m, n :: m in post && n in effective.nodes && (forall b :: (n, b) !in effective.edges) ==>
                    n in m.dependencies)
  {
    forall n ensures n in Ids(post) <==> exists p :: p in post && p.id == n { IdIff(post, n); }
    forall n ensures n in effective.Leaves() <==> n in effective.nodes && forall b :: (n, b) !in effective.edges {
      assert forall b :: (n, b) in effective.edges <==> b in Targets(effective.edges, n);
    }
    hide Ids, AppOf, Targets;
  }
}
