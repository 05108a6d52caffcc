/** The architecture baseline: what differs between observed and recorded debt, and
    when a rewrite is accepted (scripts/check_architecture.py). */
module ArchitectureRatchet {
  import opened Digraph
  import opened ImportCycles
  import opened Ordering

  /** Counted forbidden edges, import cycles, and the targets of unsupported claims. */
  datatype Debt = Debt(exceptions: map<string, nat>, cycles: set<ComponentId>, claims: map<string, set<string>>)

  /** An observation: forbidden edges that admit no exception, links that name nothing,
      the components that supported claims rely on, and the debt. */
  datatype Observed = Observed(absolute: set<string>, brokenLinks: set<string>, relied: set<ComponentId>, debt: Debt)

  /** The counts of `more` that `less` does not have as high. */
  ghost predicate IsBeyond(more: map<string, nat>, less: map<string, nat>, r: map<string, nat>) {
    && (forall k :: k in r <==> k in more && (k !in less || more[k] > less[k]))
    && (forall k :: k in r ==> r[k] == more[k])
  }

  method CompareCounted(observed: map<string, nat>, recorded: map<string, nat>)
    returns (regressions: map<string, nat>, stale: map<string, nat>)
    ensures IsBeyond(observed, recorded, regressions) && IsBeyond(recorded, observed, stale)
  {
    regressions := Beyond(observed, recorded);
    stale := Beyond(recorded, observed);
  }

  method Beyond(more: map<string, nat>, less: map<string, nat>) returns (r: map<string, nat>)
    ensures IsBeyond(more, less, r)
  {
    r := map[];
    var keys := Sorted(more.Keys);
    hide Sorted, Ascending;
    ghost var seen := {};
    for i := 0 to |keys|
      invariant seen == set j | 0 <= j < i :: keys[j]
      invariant forall k :: k in r <==> k in seen && (k !in less || more[k] > less[k])
      invariant forall k :: k in r ==> r[k] == more[k]
    {
      var k := keys[i];
      seen := seen + {k};
      if k !in less || more[k] > less[k] { r := r[k := more[k]]; }
    }
    assert seen == more.Keys;
  }

  function ComparePresent(observed: set<ComponentId>,
                          recorded: set<ComponentId>): (set<ComponentId>, set<ComponentId>) {
    (observed - recorded, recorded - observed)
  }

  function Members(m: map<string, set<string>>, k: string): set<string> {
    if k in m then m[k] else {}
  }

  method CompareMembered(observed: map<string, set<string>>, recorded: map<string, set<string>>)
    returns (regressions: map<string, set<string>>, stale: map<string, set<string>>)
    ensures IsExcess(observed, recorded, regressions) && IsExcess(recorded, observed, stale)
  {
    regressions := Excess(observed, recorded);
    stale := Excess(recorded, observed);
  }

  /** What `more` has beyond `less`: its own keys in full, else the extra members. */
  ghost predicate IsExcess(more: map<string, set<string>>, less: map<string, set<string>>,
                           r: map<string, set<string>>) {
    && (forall k :: k in r <==> IsExtra(more, less, k))
    && (forall k :: k in r ==> r[k] == more[k] - Members(less, k))
  }

  method Excess(more: map<string, set<string>>, less: map<string, set<string>>) returns (r: map<string, set<string>>)
    ensures IsExcess(more, less, r)
  {
    r := map[];
    var keys := Sorted(more.Keys);
    hide Sorted, Ascending;
    ghost var seen := {};
    for i := 0 to |keys|
      invariant seen == set j | 0 <= j < i :: keys[j]
      invariant forall k :: k in r <==> k in seen && IsExtra(more, less, k)
      invariant forall k :: k in r ==> r[k] == more[k] - Members(less, k)
    {
      var k := keys[i];
      seen := seen + {k};
      if k !in less {
        r := r[k := more[k]];
      } else if more[k] - less[k] != {} {
        r := r[k := more[k] - less[k]];
      }
    }
    assert seen == more.Keys;
  }

  ghost predicate IsExtra(more: map<string, set<string>>, less: map<string, set<string>>, k: string) {
    k in more && (k !in less || more[k] - less[k] != {})
  }

  /** Nothing of `a` is beyond `b`. */
  ghost predicate Within(a: Debt, b: Debt) {
    && (forall k :: k in a.exceptions ==> k in b.exceptions && a.exceptions[k] <= b.exceptions[k])
    && a.cycles <= b.cycles
    && (forall k :: k in a.claims ==> k in b.claims && a.claims[k] <= b.claims[k])
  }

  datatype Diff = Diff(newExceptions: map<string, nat>, oldExceptions: map<string, nat>,
                       newCycles: set<ComponentId>, oldCycles: set<ComponentId>,
                       newClaims: map<string, set<string>>, oldClaims: map<string, set<string>>) {
    predicate NothingNew() { newExceptions == map[] && newCycles == {} && newClaims == map[] }
    predicate NothingStale() { oldExceptions == map[] && oldCycles == {} && oldClaims == map[] }
  }

  /** Nothing new means within the record; nothing stale means the record is within. */
  method Difference(observed: Debt, recorded: Debt) returns (d: Diff)
    ensures d.NothingNew() <==> Within(observed, recorded)
    ensures d.NothingStale() <==> Within(recorded, observed)
  {
    var newExceptions, oldExceptions := CompareCounted(observed.exceptions, recorded.exceptions);
    var (newCycles, oldCycles) := ComparePresent(observed.cycles, recorded.cycles);
    var newClaims, oldClaims := CompareMembered(observed.claims, recorded.claims);
    d := Diff(newExceptions, oldExceptions, newCycles, oldCycles, newClaims, oldClaims);
    NothingInExcess(observed.claims, recorded.claims, newClaims);
    NothingInExcess(recorded.claims, observed.claims, oldClaims);
    assert observed.cycles <= (observed.cycles - recorded.cycles) + recorded.cycles;
    assert recorded.cycles <= (recorded.cycles - observed.cycles) + observed.cycles;
  }

  lemma NothingInExcess(more: map<string, set<string>>, less: map<string, set<string>>, r: map<string, set<string>>)
    requires IsExcess(more, less, r)
    ensures r == map[] <==> forall k :: k in more ==> k in less && more[k] <= less[k]
  {
    if r == map[] {
      forall k | k in more ensures k in less && more[k] <= less[k] {
        assert !IsExtra(more, less, k) by { assert k !in r; }
        assert forall x :: x in more[k] && x !in less[k] ==> x in more[k] - less[k];
      }
    } else {
      var k :| k in r;
      assert IsExtra(more, less, k);
      if k in less { var x :| x in more[k] - less[k]; }
    }
  }

  /** Debt within each other is the same debt. */
  lemma WithinAntisymmetric(a: Debt, b: Debt)
    ensures Within(a, b) && Within(b, a) <==> a == b
  {
    if Within(a, b) && Within(b, a) {
      assert a.exceptions.Keys == b.exceptions.Keys && a.claims.Keys == b.claims.Keys;
      assert forall k :: k in a.claims ==> a.claims[k] == b.claims[k];
    }
  }

  /** _refuse_downgraded_components: a recorded effective cycle that is observed at module top. */
  predicate Downgrades(observed: Observed, recorded: Debt) {
    exists id ::
      id in recorded.cycles && id.graph != TopGraph && ComponentId(TopGraph, id.members) in observed.debt.cycles
  }

  /** Some members make a recorded cycle of the effective graph and an observed one of the
      module-top graph. */
  lemma DowngradesIff(observed: Observed, recorded: Debt)
    ensures Downgrades(observed, recorded) <==>
              exists members :: ComponentId(EffectiveGraph, members) in recorded.cycles &&
                                ComponentId(TopGraph, members) in observed.debt.cycles
  {
    if id :| id in recorded.cycles && id.graph != TopGraph &&
             ComponentId(TopGraph, id.members) in observed.debt.cycles {
      assert ComponentId(EffectiveGraph, id.members) == id;
    }
    if members :| ComponentId(EffectiveGraph, members) in recorded.cycles &&
                  ComponentId(TopGraph, members) in observed.debt.cycles {
      assert ComponentId(EffectiveGraph, members).members == members;
    }
  }

  /** Clean exactly when the baseline downgrades nothing, no absolute rule is broken, no
      link is, every component relied on is recorded, and observed equals recorded. */
  method Check(observed: Observed, recorded: Debt) returns (clean: bool)
    ensures clean <==> IsClean(observed, recorded)
  {
    if Downgrades(observed, recorded) { return false; }
    var d := Difference(observed.debt, recorded);
    var unrecorded := observed.relied - recorded.cycles;
    WithinAntisymmetric(observed.debt, recorded);
    assert observed.relied <= unrecorded + recorded.cycles;
    var failed := observed.absolute != {} || observed.brokenLinks != {} || unrecorded != {};
    clean := !failed && d.NothingNew() && d.NothingStale();
  }

  ghost predicate IsClean(observed: Observed, recorded: Debt) {
    && !Downgrades(observed, recorded) && observed.absolute == {} && observed.brokenLinks == {}
    && observed.relied <= recorded.cycles && observed.debt == recorded
  }

  /** --write-baseline. */
  method RunWrite(observed: Observed, recorded: Debt, bootstrapping: bool) returns (wrote: bool, after: Debt)
    ensures wrote <==>
              && !Downgrades(observed, recorded) && observed.absolute == {}
              && (bootstrapping || Within(observed.debt, recorded))
    ensures after == if wrote then observed.debt else recorded
  {
    if Downgrades(observed, recorded) || observed.absolute != {} { return false, recorded; }
    if !bootstrapping {
      var d := Difference(observed.debt, recorded);
      if !d.NothingNew() { return false, recorded; }
    }
    return true, observed.debt;
  }

  // ----- What an observation of a graph always satisfies -----

  datatype Claim = Claim(source: Node, targets: seq<Node>)

  /** The component that a supported claim relies on. */
  function ReliedOn(c: Claim, top: Membership, effective: Membership): set<ComponentId> {
    match ClassifyClaim(c.targets, c.source, top, effective).0
    case SupportedModuleTop => Get(top, c.source)
    case SupportedEffective => Get(effective, c.source)
    case Unsupported => {}
  }

  /** _supported_claim_components */
  function Relied(claims: seq<Claim>, top: Membership, effective: Membership): set<ComponentId> {
    set c, id | c in claims && id in ReliedOn(c, top, effective) :: id
  }

  /** The claim names targets, and all are on one cycle of the graph with its source. */
  ghost predicate IsBorneOut(edges: seq<Edge>, c: Claim) {
    c.targets != [] && OnCycle(edges, c.source) && AllMutual(edges, c.source, c.targets)
  }

  ghost predicate IsCycleThrough(edges: seq<Edge>, members: seq<Node>, n: Node) {
    IsCycleOf(edges, members) && n in members
  }

  /** Relied on are the module-top cycles through the sources of claims that the module-top
      graph bears out, and the effective ones of those that only the effective graph does. */
  lemma ReliedIff(g: Graph, claims: seq<Claim>, top: Membership, effective: Membership, id: ComponentId)
    requires IsMembership(g.moduleTop, TopGraph, top) && IsMembership(g.Effective(), EffectiveGraph, effective)
    ensures id in Relied(claims, top, effective) <==>
              exists c :: c in claims &&
                match id.graph
                case TopGraph => IsBorneOut(g.moduleTop, c) && IsCycleThrough(g.moduleTop, id.members, c.source)
                case EffectiveGraph =>
                  && IsBorneOut(g.Effective(), c) && !IsBorneOut(g.moduleTop, c)
                  && IsCycleThrough(g.Effective(), id.members, c.source)
  {
    forall c | c in claims
      ensures id in ReliedOn(c, top, effective) <==>
                match id.graph
                case TopGraph => IsBorneOut(g.moduleTop, c) && IsCycleThrough(g.moduleTop, id.members, c.source)
                case EffectiveGraph =>
                  && IsBorneOut(g.Effective(), c) && !IsBorneOut(g.moduleTop, c)
                  && IsCycleThrough(g.Effective(), id.members, c.source)
    {
      ReliedOnIs(g, c, top, effective, id);
    }
    hide ReliedOn, IsBorneOut, IsCycleThrough;
  }

  lemma ReliedOnIs(g: Graph, c: Claim, top: Membership, effective: Membership, id: ComponentId)
    requires IsMembership(g.moduleTop, TopGraph, top) && IsMembership(g.Effective(), EffectiveGraph, effective)
    ensures id in ReliedOn(c, top, effective) <==>
              match id.graph
              case TopGraph => IsBorneOut(g.moduleTop, c) && IsCycleThrough(g.moduleTop, id.members, c.source)
              case EffectiveGraph =>
                && IsBorneOut(g.Effective(), c) && !IsBorneOut(g.moduleTop, c)
                && IsCycleThrough(g.Effective(), id.members, c.source)
  {
    hide IsMembership, ClassifyClaim, OnCycle, AllMutual, IsCycleThrough, Get;
    VerdictIsMutuality(g, c.targets, c.source, top, effective);
    GetIs(g.moduleTop, TopGraph, top, c.source, id);
    GetIs(g.Effective(), EffectiveGraph, effective, c.source, id);
    if IsBorneOut(g.moduleTop, c) { TopSupportIsEffective(g, c.source, c.targets); }
  }

  /** A module's membership is the cycle through it. */
  lemma GetIs(edges: seq<Edge>, name: GraphName, m: Membership, n: Node, id: ComponentId)
    requires IsMembership(edges, name, m)
    ensures id in Get(m, n) <==> id.graph == name && IsCycleThrough(edges, id.members, n)
  {
    hide IsCycleOf, OnCycle;
    if IsCycleThrough(edges, id.members, n) {
      CycleMembersOnCycle(edges, id.members, n);
      SameCycle(edges, id.members, m[n].members, n);
    }
  }

  /** The cycles are those reported of the graph, and the components relied on those of
      the supported claims. */
  ghost predicate IsObservationOf(g: Graph, found: set<Component>, claims: seq<Claim>, top: Membership,
                                  effective: Membership, observed: Observed) {
    && AreReported(g, found) && observed.debt.cycles == (set c | c in found :: c.id)
    && IsMembership(g.moduleTop, TopGraph, top) && IsMembership(g.Effective(), EffectiveGraph, effective)
    && observed.relied == Relied(claims, top, effective)
  }

  lemma ReliedIsObserved(g: Graph, found: set<Component>, claims: seq<Claim>, top: Membership, effective: Membership,
                         observed: Observed)
    requires IsObservationOf(g, found, claims, top, effective, observed)
    ensures observed.relied <= observed.debt.cycles
  {
    hide AreReported, IsMembership, ClassifyClaim;
    forall c | c in claims ensures ReliedOn(c, top, effective) <= observed.debt.cycles {
      if ClassifyClaim(c.targets, c.source, top, effective).0 != Unsupported {
        SupportedClaimIsReported(g, found, c.targets, c.source, top, effective);
      }
    }
    hide ReliedOn;
  }

  lemma ObservedDowngradesNothing(g: Graph, found: set<Component>, observed: Observed)
    requires AreReported(g, found) && observed.debt.cycles == (set c | c in found :: c.id)
    ensures !Downgrades(observed, observed.debt)
  {
    hide IsCycleOf;
  }

  /** Of an observation of a graph the check is clean exactly when it is the recorded
      debt and no absolute rule and no link is broken: nothing can be unrecorded or
      downgraded besides. */
  lemma CheckIsEquality(g: Graph, found: set<Component>, claims: seq<Claim>, top: Membership, effective: Membership,
                        observed: Observed, recorded: Debt)
    requires IsObservationOf(g, found, claims, top, effective, observed)
    ensures IsClean(observed, recorded) <==>
            observed.absolute == {} && observed.brokenLinks == {} && observed.debt == recorded
  {
    ReliedIsObserved(g, found, claims, top, effective, observed);
    ObservedDowngradesNothing(g, found, observed);
    hide Downgrades, Relied, AreReported, IsMembership;
  }

  /** A check right after an accepted write is clean exactly when no link is broken. */
  lemma CheckAfterWrite(g: Graph, found: set<Component>, claims: seq<Claim>, top: Membership, effective: Membership,
                        observed: Observed, recorded: Debt)
    requires IsObservationOf(g, found, claims, top, effective, observed)
    requires IsAccepted(recorded, observed)
    ensures IsClean(observed, Rewritten(recorded, observed)) <==> observed.brokenLinks == {}
  {
    hide IsObservationOf, Downgrades;
    CheckIsEquality(g, found, claims, top, effective, observed, observed.debt);
    hide IsClean, Within;
  }

  // ----- Whole runs -----

  /** When RunWrite accepts a rewrite of an existing baseline. */
  ghost predicate IsAccepted(recorded: Debt, observed: Observed) {
    !Downgrades(observed, recorded) && observed.absolute == {} && Within(observed.debt, recorded)
  }

  /** A recorded baseline after one rewrite attempt, as RunWrite leaves it. */
  ghost function Rewritten(recorded: Debt, observed: Observed): Debt {
    if IsAccepted(recorded, observed) then observed.debt else recorded
  }

  ghost predicate IsHistory(records: seq<Debt>, observations: seq<Observed>) {
    |records| == |observations| + 1 &&
    forall i :: 0 <= i < |observations| ==> records[i + 1] == Rewritten(records[i], observations[i])
  }

  /** Whatever the code does between the rewrites: recorded counts never grow, recorded
      cycles only disappear, and recorded claims only lose targets. */
  lemma {:induction false} RecordOnlyShrinks(records: seq<Debt>, observations: seq<Observed>, i: nat, j: nat)
    requires IsHistory(records, observations) && i <= j < |records|
    ensures Within(records[j], records[i])
    decreases j
  {
    if i < j {
      RecordOnlyShrinks(records, observations, i, j - 1);
      assert records[j - 1 + 1] == Rewritten(records[j - 1], observations[j - 1]);
    }
  }
}
