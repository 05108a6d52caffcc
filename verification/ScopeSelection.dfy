/** Selecting E2E scopes for a change set (scripts/select_e2e_scopes.py). */
module ScopeSelection {
  import opened Ordering
  import opened ScopeGlob
  import opened Wrappers

  datatype Decision = SafeIgnore | Selected | Full
  datatype Rule = Rule(id: string, decision: Decision, patterns: seq<string>, scopes: seq<string>)

  /** The scope map: each scope's spec path, the rules, and the rest of the policy. */
  datatype ScopeMap = ScopeMap(
    scopes: map<string, string>,
    rules: seq<Rule>,
    roots: seq<string>,
    always: seq<string>,
    fullScopes: seq<string>,
    fullSpecPath: string,
    forceFull: bool,
    switchPath: string)

  datatype Status = Added | Copied | Deleted | Modified | Renamed
  datatype Change = Change(status: Status, old_: Option<string>, new_: Option<string>)

  datatype Outcome = Escalate | Ignore | Select(scopes: seq<string>)
  datatype Reason = Reason(path: string, change: Change, rule: string, outcome: Outcome)

  datatype Mode = NoneMode | SelectedMode | FullMode
  datatype Selection = Selection(
    mode: Mode, event: string, base: string, head: string, mergeBase: string,
    digested: set<Change>, scopes: seq<string>, specPaths: seq<string>, reasons: seq<Reason>)

  const SELECTIVE_EVENTS: set<string> := {"pull_request"}
  const FULL_EVENTS: set<string> := {"push", "schedule", "workflow_dispatch", "workflow_call", "release", "merge_group"}

  // ----- Well-formed strings -----

  predicate NoControl(s: string) {
    forall c :: c in s ==> c > '\U{1f}' && c != '\U{7f}'
  }

  predicate IsName(s: string) { s != "" && NoControl(s) }

  predicate IsDrive(s: string) {
    |s| >= 2 && s[1] == ':' && ('A' <= s[0] <= 'Z' || 'a' <= s[0] <= 'z')
  }

  predicate IsPosix(s: string) {
    IsName(s) && '\\' !in s && s[0] != '/' && !IsDrive(s) &&
    forall part :: part in Split(s) ==> part != "" && part != "." && part != ".."
  }

  /** _validate_relative_path without globs. */
  predicate IsRelative(s: string) { IsPosix(s) && IsLiteral(s) }

  predicate IsToken(s: string) {
    s != "" && s[0] != ':' && s[0] != '-' &&
    forall c :: c in s ==> 'a' <= c <= 'z' || '0' <= c <= '9' || c == ':' || c == '-'
  }

  predicate IsSha(s: string) {
    |s| == 40 && forall c :: c in s ==> 'a' <= c <= 'f' || '0' <= c <= '9'
  }

  predicate Beneath(path: string, root: string) {
    path == root || root + "/" <= path
  }

  // ----- The validated map -----

  predicate NoDuplicates(s: seq<string>) {
    forall i, j :: 0 <= i < j < |s| ==> s[i] != s[j]
  }

  predicate ValidRule(doc: ScopeMap, r: Rule) {
    && IsToken(r.id)
    && r.patterns != [] && (forall p :: p in r.patterns ==> Pieces(p).Ok?)
    && (r.decision == Selected ==>
          r.scopes != [] && NoDuplicates(r.scopes) && forall s :: s in r.scopes ==>
            s in doc.scopes && s !in doc.fullScopes)
    && (r.decision != Selected ==> r.scopes == [])
  }

  /** No safe-ignore pattern may overlap another rule's pattern or a production root. */
  predicate SafeBoundaries(doc: ScopeMap) {
    forall r, p :: r in doc.rules && r.decision == SafeIgnore && p in r.patterns ==>
      && (forall q, o :: q in doc.rules && q.decision != SafeIgnore && o in q.patterns ==> !PatternsMayOverlap(p, o))
      && (forall o :: o in doc.roots ==> !PatternsMayOverlap(p, o))
  }

  /** validate_scope_map with catalog scopes and spec evidence; `specs` are the paths
      under which test files were found. */
  predicate ValidMap(doc: ScopeMap, specs: set<string>) {
    && doc.rules != [] && (forall r :: r in doc.rules ==> ValidRule(doc, r))
    && (forall i, j :: 0 <= i < j < |doc.rules| ==> doc.rules[i].id != doc.rules[j].id)
    && doc.roots != [] && (forall p :: p in doc.roots ==> Pieces(p).Ok?)
    && SafeBoundaries(doc)
    && (exists r :: r in doc.rules && r.decision == Full && RuleMatches(r, doc.switchPath))
    && (forall s :: s in doc.scopes ==>
          IsName(s) && IsRelative(doc.scopes[s]) && Beneath(doc.scopes[s], doc.fullSpecPath) && doc.scopes[s] in specs)
    && doc.always == ["legacy-smoke", "smoke"] && doc.fullScopes == ["all"] && doc.fullSpecPath == "spec"
    && "legacy-smoke" in doc.scopes && "smoke" in doc.scopes && "all" in doc.scopes
       && doc.scopes["all"] == doc.fullSpecPath
  }

  // ----- Classifying one path -----

  predicate RuleMatches(r: Rule, path: string) {
    exists p :: p in r.patterns && Matches(path, p)
  }

  function Priority(d: Decision): nat {
    match d case SafeIgnore => 1 case Selected => 2 case Full => 3
  }

  /** Longest literal prefix first, then longest pattern. */
  predicate SpecificityLeq(a: (int, int), b: (int, int)) {
    a.0 < b.0 || (a.0 == b.0 && a.1 <= b.1)
  }

  function Specificity(patterns: seq<string>, path: string): (int, int) {
    if patterns == [] then (-1, -1) else
      var rest := Specificity(patterns[1..], path);
      var first := (|LiteralPrefix(patterns[0])|, |patterns[0]|);
      if Matches(path, patterns[0]) && SpecificityLeq(rest, first) then first else rest
  }

  /** Rule r is at least as high in priority as q, and on a par at least as specific. */
  predicate Yields(q: Rule, r: Rule, path: string) {
    || Priority(q.decision) < Priority(r.decision)
    || (q.decision == r.decision && SpecificityLeq(Specificity(q.patterns, path), Specificity(r.patterns, path)))
  }

  predicate IsWinner(doc: ScopeMap, path: string, r: Rule) {
    && r in doc.rules && RuleMatches(r, path)
    && forall q :: q in doc.rules && RuleMatches(q, path) ==> Yields(q, r, path)
  }

  predicate IsKnown(doc: ScopeMap, path: string) {
    exists r :: r in doc.rules && RuleMatches(r, path)
  }

  predicate InRoots(doc: ScopeMap, path: string) {
    exists p :: p in doc.roots && Matches(path, p)
  }

  function OutcomeOf(decision: Decision, scopes: seq<string>): Outcome {
    match decision
    case Full => Escalate
    case SafeIgnore => Ignore
    case Selected => Select(Sorted(set s | s in scopes))
  }

  function Signatures(winners: set<Rule>): set<(Decision, seq<string>)> {
    set r | r in winners :: (r.decision, r.scopes)
  }

  /** The rule's id and outcome for a path; an error when the best rules disagree. */
  function Classify(doc: ScopeMap, path: string): Result<(string, Outcome), Refusal> {
    if !IsKnown(doc, path) then
      Ok((if InRoots(doc, path) then "unknown-production" else "unknown-path", Escalate))
    else
      var winners := set r | r in doc.rules && IsWinner(doc, path, r);
      var signatures := Signatures(winners);
      if |signatures| != 1 then Err(Invalid) else
        assert forall a, b :: a in signatures && b in signatures ==> a == b by { OneElement(signatures); }
        var ids := set r | r in winners :: r.id;
        assert forall r :: r in winners ==> r.id in ids && (r.decision, r.scopes) in signatures;
        var signature :| signature in signatures;
        Ok((Least(ids), OutcomeOf(signature.0, signature.1)))
  }

  lemma OneElement<T>(s: set<T>)
    requires |s| == 1
    ensures forall a, b :: a in s && b in s ==> a == b
  {
    forall a, b | a in s && b in s ensures a == b {
      assert |s - {a}| == 0 && b !in s - {a};
    }
  }

  /** Some matching rule wins. */
  lemma {:induction false} BestOf(rules: seq<Rule>, path: string) returns (best: Rule)
    requires exists r :: r in rules && RuleMatches(r, path)
    ensures best in rules && RuleMatches(best, path)
    ensures forall q :: q in rules && RuleMatches(q, path) ==> Yields(q, best, path)
  {
    var first, rest := rules[0], rules[1..];
    assert forall r :: r in rules <==> r == first || r in rest;
    if exists r :: r in rest && RuleMatches(r, path) {
      best := BestOf(rest, path);
      if RuleMatches(first, path) && !Yields(first, best, path) {
        best := first;
      }
    } else {
      best := first;
    }
  }

  /** What Classify says of a path that a rule matches: some winning rule's outcome. */
  lemma ClassifiedByWinner(doc: ScopeMap, path: string) returns (w: Rule)
    requires IsKnown(doc, path) && Classify(doc, path).Ok?
    ensures IsWinner(doc, path, w) && Classify(doc, path).value.1 == OutcomeOf(w.decision, w.scopes)
    ensures exists r :: r in doc.rules && r.id == Classify(doc, path).value.0
  {
    w := BestOf(doc.rules, path);
    var winners := set r | r in doc.rules && IsWinner(doc, path, r);
    assert w in winners && (w.decision, w.scopes) in Signatures(winners);
    OneElement(Signatures(winners));
    var ids := set r | r in winners :: r.id;
    var r :| r in winners && r.id == Least(ids);
  }
}
