/** What the selection artifact says, entry by entry (scripts/select_e2e_scopes.py). */
module ScopeArtifact {
  import opened Ordering
  import opened ScopeGlob
  import opened ScopeSelection
  import opened ScopeBuild
  import opened ScopeTheorems
  import opened ScopeAcceptance
  import opened Wrappers

  // ----- The reason for one path -----

  ghost predicate Unmatched(doc: ScopeMap, p: string) {
    forall r, q :: r in doc.rules && q in r.patterns ==> !Matches(p, q)
  }

  ghost predicate IsOutcome(w: Rule, outcome: Outcome) {
    match w.decision
    case Full => outcome == Escalate
    case SafeIgnore => outcome == Ignore
    case Selected => outcome.Select? && Ascending(outcome.scopes) && forall x :: x in outcome.scopes <==> x in w.scopes
  }

  /** The winning rule with the least id and what it decides; a path that no rule matches
      escalates, by whether it lies under a known root. */
  ghost predicate IsReasonFor(doc: ScopeMap, p: string, rule: string, outcome: Outcome) {
    if Unmatched(doc, p) then
      && outcome == Escalate
      && ((exists q :: q in doc.roots && Matches(p, q)) ==> rule == "unknown-production")
      && (!(exists q :: q in doc.roots && Matches(p, q)) ==> rule == "unknown-path")
    else
      && (exists w :: IsWinner(doc, p, w) && w.id == rule && IsOutcome(w, outcome))
      && forall v :: IsWinner(doc, p, v) ==> Leq(rule, v.id)
  }

  lemma UnmatchedIff(doc: ScopeMap, p: string)
    ensures Unmatched(doc, p) <==> !IsKnown(doc, p)
    ensures InRoots(doc, p) <==> exists q :: q in doc.roots && Matches(p, q)
  {
    hide Matches;
    if !IsKnown(doc, p) {
      forall r, q | r in doc.rules && q in r.patterns ensures !Matches(p, q) { assert !RuleMatches(r, p); }
    }
  }

  lemma OutcomeIs(w: Rule)
    ensures IsOutcome(w, OutcomeOf(w.decision, w.scopes))
    ensures forall o :: IsOutcome(w, o) ==> o == OutcomeOf(w.decision, w.scopes)
  {
    forall o | IsOutcome(w, o) ensures o == OutcomeOf(w.decision, w.scopes) {
      if o.Select? { AscendingUnique(o.scopes, Sorted(set s | s in w.scopes)); }
    }
  }

  /** The rule of the least id among the winners, all of which decide alike. */
  lemma LeastWinner(doc: ScopeMap, p: string) returns (w: Rule)
    requires IsKnown(doc, p) && Classify(doc, p).Ok?
    ensures IsWinner(doc, p, w) && Classify(doc, p).value == (w.id, OutcomeOf(w.decision, w.scopes))
    ensures forall v :: IsWinner(doc, p, v) ==>
              Leq(w.id, v.id) && OutcomeOf(v.decision, v.scopes) == OutcomeOf(w.decision, w.scopes)
  {
    hide IsWinner, Leq, InRoots;
    var winners := set r | r in doc.rules && IsWinner(doc, p, r);
    WinnersAreRules(doc, p);
    var v := SomeWinner(doc, p);
    var ids, signatures := (set r | r in winners :: r.id), Signatures(winners);
    assert v in winners && (v.decision, v.scopes) in signatures && v.id in ids;
    OneElement(signatures);
    w :| w in winners && w.id == Least(ids);
    assert (w.decision, w.scopes) in signatures;
    forall u | IsWinner(doc, p, u)
      ensures Leq(w.id, u.id) && OutcomeOf(u.decision, u.scopes) == OutcomeOf(w.decision, w.scopes)
    {
      assert u in winners && u.id in ids && (u.decision, u.scopes) in signatures;
    }
  }

  /** The reason is determined, and classifying finds it. */
  lemma ReasonIs(doc: ScopeMap, p: string, rule: string, outcome: Outcome)
    requires Classify(doc, p).Ok?
    ensures Classify(doc, p).value == (rule, outcome) <==> IsReasonFor(doc, p, rule, outcome)
  {
    hide IsWinner, OutcomeOf, IsOutcome, Unmatched, Leq, Matches;
    UnmatchedIff(doc, p);
    if IsKnown(doc, p) {
      var w := LeastWinner(doc, p);
      OutcomeIs(w);
      hide Classify;
      if IsReasonFor(doc, p, rule, outcome) {
        var v :| IsWinner(doc, p, v) && v.id == rule && IsOutcome(v, outcome);
        OutcomeIs(v);
        LeqAntisymmetric(rule, w.id);
      }
    }
  }

  // ----- The order of the reasons -----

  /** A, C, D, M, R. */
  ghost function Rank(s: Status): nat {
    match s case Added => 0 case Copied => 1 case Deleted => 2 case Modified => 3 case Renamed => 4
  }

  /** By path, and under one path by status. */
  ghost predicate Precedes(a: Reason, b: Reason) {
    Less(a.path, b.path) || (a.path == b.path && Rank(a.change.status) < Rank(b.change.status))
  }

  lemma KeysAscend(rs: set<Reason>)
    ensures var l := SortedReasons(rs); forall i, j :: 0 <= i < j < |l| ==> Less(Key(l[i]), Key(l[j]))
  {
    hide Key, Less, Sorted, Listed, InOrder;
    var keys := Sorted(set r | r in rs :: Key(r));
    var l := SortedReasons(rs);
    assert |l| == |keys| && forall i :: 0 <= i < |l| ==> Key(l[i]) == keys[i];
  }

  /** A smaller key is a reason that precedes, when no path occurs twice under one status. */
  lemma SmallerKeyPrecedes(a: Reason, b: Reason)
    requires NoControl(a.path) && NoControl(b.path) && Leq(Key(a), Key(b))
    requires !(a.path == b.path && a.change.status == b.change.status)
    ensures Precedes(a, b)
  {
    var x, y := [Letter(a.change.status), '\0'] + a.rule, [Letter(b.change.status), '\0'] + b.rule;
    assert Key(a) == a.path + ['\0'] + x && Key(b) == b.path + ['\0'] + y;
    KeyOrderIsTupleOrder(a.path, x, b.path, y);
    assert x[0] == Letter(a.change.status) && y[0] == Letter(b.change.status);
  }

  // ----- The artifact -----

  ghost predicate IsRollback(doc: ScopeMap, event: string) {
    doc.forceFull && event == "pull_request"
  }

  /** A reason that the artifact shows for some change. */
  ghost predicate IsShown(doc: ScopeMap, event: string, changes: seq<Change>, r: Reason) {
    && r.change in changes && Names(r.change, r.path)
    && if IsRollback(doc, event) then r.rule == "rollback-force-full" && r.outcome == Escalate
       else IsReasonFor(doc, r.path, r.rule, r.outcome)
  }

  lemma ShownIff(doc: ScopeMap, event: string, changes: seq<Change>, r: Reason)
    requires AllClassified(doc, set c | c in changes)
    ensures r in Shown(doc, event, set c | c in changes) <==> IsShown(doc, event, changes, r)
  {
    hide IsReasonFor, Classify;
    WellFormedIff(r.change);
    EventIff(event);
    hide SELECTIVE_EVENTS, Names, Identities;
    if r.change in changes && Names(r.change, r.path) { ReasonIs(doc, r.path, r.rule, r.outcome); }
  }

  /** Under one status a path occurs in one change. */
  lemma OneChange(changes: seq<Change>, c: Change, d: Change, p: string)
    requires IsNormal(changes) && c in changes && d in changes && c.status == d.status && Names(c, p) && Names(d, p)
    ensures c == d
  {
    NormalIff(changes);
    var i :| 0 <= i < |changes| && changes[i] == c;
    var j :| 0 <= j < |changes| && changes[j] == d;
    hide IsWellFormed, IsNormal;
    assert Collide(c, d) && Collide(d, c);
  }

  lemma SameReason(doc: ScopeMap, event: string, changes: seq<Change>, a: Reason, b: Reason)
    requires IsNormal(changes) && AllClassified(doc, set c | c in changes)
    requires IsShown(doc, event, changes, a) && IsShown(doc, event, changes, b)
    requires a.path == b.path && a.change.status == b.change.status
    ensures a == b
  {
    hide IsNormal, AllClassified, IsReasonFor, Names, Classify;
    OneChange(changes, a.change, b.change, a.path);
    ClassifiedPath(doc, changes, a);
    if !IsRollback(doc, event) {
      ReasonIs(doc, a.path, a.rule, a.outcome);
      ReasonIs(doc, b.path, b.rule, b.outcome);
    }
  }

  lemma ClassifiedPath(doc: ScopeMap, changes: seq<Change>, r: Reason)
    requires AllClassified(doc, set c | c in changes) && r.change in changes && Names(r.change, r.path)
    ensures Classify(doc, r.path).Ok?
    ensures IsNormal(changes) ==> NoControl(r.path)
  {
    hide Classify;
    WellFormedIff(r.change);
  }

  lemma ReasonsAscend(doc: ScopeMap, event: string, changes: seq<Change>)
    requires IsNormal(changes) && AllClassified(doc, set c | c in changes)
    ensures var l := SortedReasons(Shown(doc, event, set c | c in changes));
            && (forall r :: r in l <==> IsShown(doc, event, changes, r))
            && forall i, j :: 0 <= i < j < |l| ==> Precedes(l[i], l[j])
  {
    hide IsNormal, AllClassified, IsShown, Shown, Names, Key, Leq, Precedes, SortedReasons;
    var shown := Shown(doc, event, set c | c in changes);
    var l := SortedReasons(shown);
    forall r ensures r in shown <==> IsShown(doc, event, changes, r) { ShownIff(doc, event, changes, r); }
    KeysTellApart(doc, event, changes);
    KeysAscend(shown);
    forall i, j | 0 <= i < j < |l| ensures Precedes(l[i], l[j]) {
      assert l[i] in l && l[j] in l && Less(Key(l[i]), Key(l[j]));
      ShownPath(doc, event, changes, l[i]);
      ShownPath(doc, event, changes, l[j]);
      if l[i].path == l[j].path && l[i].change.status == l[j].change.status {
        SameReason(doc, event, changes, l[i], l[j]);
      }
      SmallerKeyPrecedes(l[i], l[j]);
    }
  }

  lemma ShownPath(doc: ScopeMap, event: string, changes: seq<Change>, r: Reason)
    requires IsNormal(changes) && AllClassified(doc, set c | c in changes) && IsShown(doc, event, changes, r)
    ensures NoControl(r.path)
  {
    hide IsNormal, AllClassified, IsReasonFor, Names;
    ClassifiedPath(doc, changes, r);
  }

  lemma KeysTellApart(doc: ScopeMap, event: string, changes: seq<Change>)
    requires IsNormal(changes) && AllClassified(doc, set c | c in changes)
    ensures KeysDistinct(Shown(doc, event, set c | c in changes))
  {
    hide IsNormal, AllClassified, IsShown, Shown, Names, Key;
    var shown := Shown(doc, event, set c | c in changes);
    forall a, b | a in shown && b in shown && Key(a) == Key(b) ensures a == b {
      ShownIff(doc, event, changes, a);
      ShownIff(doc, event, changes, b);
      ShownPath(doc, event, changes, a);
      ShownPath(doc, event, changes, b);
      KeyParts(a, b);
      SameReason(doc, event, changes, a, b);
    }
  }

  /** What a mode runs, given the reasons. */
  ghost predicate RunsWhatItShould(doc: ScopeMap, s: Selection) {
    && Ascending(s.scopes) && Ascending(s.specPaths)
    && match s.mode
       case FullMode => (forall x :: x in s.scopes <==> x in doc.fullScopes) && s.specPaths == [doc.fullSpecPath]
       case NoneMode => s.scopes == [] && s.specPaths == []
       case SelectedMode =>
         && (forall x :: x in s.scopes <==>
               x in doc.always || exists r :: r in s.reasons && r.outcome.Select? && x in r.outcome.scopes)
         && (forall p :: p in s.specPaths <==> exists x :: x in s.scopes && x in doc.scopes && doc.scopes[x] == p)
  }

  lemma ListsAre(doc: ScopeMap, s: Selection, shown: set<Reason>)
    requires s.scopes == Sorted(ScopesOf(doc, s.mode, shown))
    requires s.specPaths == Sorted(PathsOf(doc, s.mode, ScopesOf(doc, s.mode, shown)))
    requires forall r :: r in s.reasons <==> r in shown
    ensures RunsWhatItShould(doc, s)
  {
    hide Ascending, Less, Sorted, ScopesOf, PathsOf;
    match s.mode
    case FullMode => FullLists(doc, shown);
    case NoneMode => NoLists(doc, shown);
    case SelectedMode => SelectedScopes(doc, shown);
  }

  lemma FullLists(doc: ScopeMap, shown: set<Reason>)
    ensures forall x :: x in ScopesOf(doc, FullMode, shown) <==> x in doc.fullScopes
    ensures Sorted(PathsOf(doc, FullMode, ScopesOf(doc, FullMode, shown))) == [doc.fullSpecPath]
  {
    hide Sorted;
    var paths := Sorted({doc.fullSpecPath});
    assert |paths| == 1 && paths[0] in paths;
  }

  lemma NoLists(doc: ScopeMap, shown: set<Reason>)
    ensures Sorted(ScopesOf(doc, NoneMode, shown)) == [] == Sorted(PathsOf(doc, NoneMode, {}))
    ensures ScopesOf(doc, NoneMode, shown) == {}
  {
  }

  lemma SelectedScopes(doc: ScopeMap, shown: set<Reason>)
    ensures var scopes := ScopesOf(doc, SelectedMode, shown);
            && (forall x :: x in scopes <==>
                  x in doc.always || exists r :: r in shown && r.outcome.Select? && x in r.outcome.scopes)
            && forall p :: p in PathsOf(doc, SelectedMode, scopes) <==>
                 exists x :: x in scopes && x in doc.scopes && doc.scopes[x] == p
  {
    var scopes := ScopesOf(doc, SelectedMode, shown);
    var chosen := set r, x | r in shown && x in SelectedBy(r) :: x;
    assert scopes == (set x | x in doc.always) + chosen;
    forall x ensures x in chosen <==> exists r :: r in shown && r.outcome.Select? && x in r.outcome.scopes {
      if r :| r in shown && r.outcome.Select? && x in r.outcome.scopes { assert x in SelectedBy(r); }
    }
  }

  lemma AssembledAs(doc: ScopeMap, event: string, base: string, head: string, mergeBase: string, changes: seq<Change>,
                    s: Selection)
    requires Assemble(doc, event, base, head, mergeBase, changes) == Ok(s)
    ensures s.event == event && s.base == base && s.head == head && s.mergeBase == mergeBase
    ensures s.digested == set c | c in changes
    ensures IsNormal(changes) && AllClassified(doc, set c | c in changes)
    ensures var shown := Shown(doc, event, set c | c in changes);
            && s.reasons == SortedReasons(shown) && s.scopes == Sorted(ScopesOf(doc, s.mode, shown))
            && s.specPaths == Sorted(PathsOf(doc, s.mode, ScopesOf(doc, s.mode, shown)))
  {
    hide IsNormal, AllClassified, SortedReasons, Sorted, IsSha, ScopesOf, PathsOf, Reasons, RollbackReasons, ModeOf;
  }

  /** The artifact: what it was made for, one reason for each path of each change, by path
      and status, and the scopes and spec paths that the reasons call for. */
  lemma ArtifactIs(doc: ScopeMap, event: string, base: string, head: string, mergeBase: string, changes: seq<Change>,
                   s: Selection)
    requires Assemble(doc, event, base, head, mergeBase, changes) == Ok(s)
    ensures s.event == event && s.base == base && s.head == head && s.mergeBase == mergeBase
    ensures forall c :: c in s.digested <==> c in changes
    ensures forall r :: r in s.reasons <==> IsShown(doc, event, changes, r)
    ensures forall i, j :: 0 <= i < j < |s.reasons| ==> Precedes(s.reasons[i], s.reasons[j])
    ensures RunsWhatItShould(doc, s)
  {
    hide *;
    AssembledAs(doc, event, base, head, mergeBase, changes, s);
    var shown := Shown(doc, event, set c | c in changes);
    ReasonsAscend(doc, event, changes);
    forall r ensures r in shown <==> IsShown(doc, event, changes, r) { ShownIff(doc, event, changes, r); }
    ListsAre(doc, s, shown);
  }

  // ----- What the validators hold an artifact to -----

  lemma SelectedReason(doc: ScopeMap, event: string, base: string, head: string, mergeBase: string,
                       changes: seq<Change>, s: Selection) returns (r: Reason)
    requires Assemble(doc, event, base, head, mergeBase, changes) == Ok(s) && s.mode == SelectedMode
    ensures AllClassified(doc, set c | c in changes) && r in Shown(doc, event, set c | c in changes)
    ensures r.outcome.Select?
  {
    hide IsNormal, AllClassified, SortedReasons, Sorted, IsSha, ScopesOf, PathsOf, Reasons, RollbackReasons;
    var reasons := Reasons(doc, set c | c in changes);
    SomethingChangedIf(doc, changes);
    r :| r in reasons && r.outcome != Ignore;
  }

  lemma SelectsSomething(doc: ScopeMap, event: string, base: string, head: string, mergeBase: string,
                         changes: seq<Change>, s: Selection) returns (r: Reason)
    requires Assemble(doc, event, base, head, mergeBase, changes) == Ok(s) && s.mode == SelectedMode
    ensures r in s.reasons && r.outcome.Select?
  {
    hide *;
    r := SelectedReason(doc, event, base, head, mergeBase, changes, s);
    AssembledAs(doc, event, base, head, mergeBase, changes, s);
    ReasonsAscend(doc, event, changes);
    ShownIff(doc, event, changes, r);
  }

  /** An artifact with the reasons of a selective run is accepted only when it runs at
      least what that run does: not as an empty selection, and when it is a selective one,
      with every scope and every spec path. */
  lemma AcceptedRunsNoLess(doc: ScopeMap, specs: set<string>, event: string, base: string, head: string,
                           mergeBase: string, changes: seq<Change>, s: Selection, u: Selection)
    requires Assemble(doc, event, base, head, mergeBase, changes) == Ok(s) && s.mode == SelectedMode
    requires ValidSelection(u, doc, specs) && u.reasons == s.reasons
    ensures u.mode == SelectedMode || (u.mode == FullMode && u.specPaths == [doc.fullSpecPath])
    ensures u.mode == SelectedMode ==>
              (forall x :: x in s.scopes ==> x in u.scopes) && forall p :: p in s.specPaths ==> p in u.specPaths
  {
    hide Assemble, Ascending, IsShown, Precedes, InOrder, ValidReasonIdentities, AreSortedNames, IsRelative, IsSha;
    ArtifactIs(doc, event, base, head, mergeBase, changes, s);
    var r := SelectsSomething(doc, event, base, head, mergeBase, changes, s);
    assert r in u.reasons && r.outcome != Ignore;
    if u.mode == SelectedMode {
      forall x | x in s.scopes ensures x in u.scopes {
        if q :| q in s.reasons && q.outcome.Select? && x in q.outcome.scopes {
          assert ValidReason(q, doc, u.mode, u.scopes);
        }
      }
    }
  }

  /** The gate, which has no scope map, holds it to the scopes. */
  lemma GateRunsNoLess(doc: ScopeMap, event: string, base: string, head: string, mergeBase: string,
                       changes: seq<Change>, s: Selection, u: Selection)
    requires Assemble(doc, event, base, head, mergeBase, changes) == Ok(s) && s.mode == SelectedMode
    requires BasicSelection(u) && u.reasons == s.reasons && doc.always == ["legacy-smoke", "smoke"]
    ensures u.mode == SelectedMode || (u.mode == FullMode && u.specPaths == ["spec"])
    ensures u.mode == SelectedMode ==> forall x :: x in s.scopes ==> x in u.scopes
  {
    hide Assemble, Ascending, IsShown, Precedes, InOrder, AreSortedNames, IsPosix, IsToken, IsSha;
    ArtifactIs(doc, event, base, head, mergeBase, changes, s);
    var r := SelectsSomething(doc, event, base, head, mergeBase, changes, s);
    assert r in u.reasons && r.outcome != Ignore;
    if u.mode == SelectedMode {
      forall x | x in s.scopes ensures x in u.scopes {
        if q :| q in s.reasons && q.outcome.Select? && x in q.outcome.scopes {
          assert BasicReason(q, u.mode, u.scopes);
        }
      }
    }
  }
}
