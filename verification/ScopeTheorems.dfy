/** What a selection guarantees. */
module ScopeTheorems {
  import opened Ordering
  import opened ScopeGlob
  import opened ScopeSelection
  import opened ScopeBuild
  import opened Wrappers

  /** A changed path. */
  ghost predicate IsChanged(changes: seq<Change>, p: string) {
    exists c :: c in changes && p in Identities(c)
  }

  // ----- Fail closed -----

  lemma ReasonOfChange(doc: ScopeMap, changes: seq<Change>, p: string) returns (r: Reason)
    requires IsChanged(changes, p) && AllClassified(doc, set c | c in changes)
    ensures r in Reasons(doc, set c | c in changes) && r.path == p && Classify(doc, p) == Ok((r.rule, r.outcome))
  {
    var c :| c in changes && p in Identities(c);
    r := ReasonFor(doc, c, p);
  }

  /** A selection of nothing: no changed path is matched by a full or selected rule or
      by a known production root, and a safe-ignore rule matches each. */
  lemma NoneMeansSafe(doc: ScopeMap, specs: set<string>, event: string, base: string, head: string, mergeBase: string,
                      changes: seq<Change>, s: Selection, p: string)
    requires ValidMap(doc, specs) && Assemble(doc, event, base, head, mergeBase, changes) == Ok(s)
    requires s.mode == NoneMode && IsChanged(changes, p)
    ensures exists r :: r in doc.rules && r.decision == SafeIgnore && RuleMatches(r, p)
    ensures forall r :: r in doc.rules && r.decision != SafeIgnore ==> !RuleMatches(r, p)
    ensures !InRoots(doc, p)
  {
    hide ValidMap, Classify, SortedReasons, IsNormal, IsSha;
    var r := ReasonOfChange(doc, changes, p);
    assert r.outcome == Ignore;
    IgnoredIsSafe(doc, specs, p);
  }

  lemma IgnoredIsSafe(doc: ScopeMap, specs: set<string>, p: string)
    requires ValidMap(doc, specs) && Classify(doc, p).Ok? && Classify(doc, p).value.1 == Ignore
    ensures exists r :: r in doc.rules && r.decision == SafeIgnore && RuleMatches(r, p)
    ensures forall r :: r in doc.rules && r.decision != SafeIgnore ==> !RuleMatches(r, p)
    ensures !InRoots(doc, p)
  {
    assert IsKnown(doc, p);
    var w := ClassifiedByWinner(doc, p);
    assert SafeBoundaries(doc);
    hide ValidMap, Classify;
    if o :| o in doc.roots && Matches(p, o) {
      var q :| q in w.patterns && Matches(p, q);
      assert !PatternsMayOverlap(q, o);
      NoOverlapIsDisjoint(q, o, p);
    }
  }

  /** What a selection has to do with each of its reasons. */
  lemma ReasonIsHeeded(doc: ScopeMap, base: string, head: string, mergeBase: string, changes: seq<Change>, s: Selection,
                       r: Reason)
    requires Assemble(doc, "pull_request", base, head, mergeBase, changes) == Ok(s)
    requires AllClassified(doc, set c | c in changes) && r in Reasons(doc, set c | c in changes)
    ensures r.outcome == Escalate ==> s.mode == FullMode
    ensures r.outcome.Select? ==> s.mode != NoneMode
    ensures s.mode == SelectedMode ==> forall x :: x in SelectedBy(r) ==>
              x in s.scopes && (x in doc.scopes ==> doc.scopes[x] in s.specPaths)
  {
    hide Classify, SortedReasons, IsNormal, IsSha, RollbackReasons, AllClassified, Reasons;
  }

  lemma WinnerScopes(doc: ScopeMap, specs: set<string>, w: Rule)
    requires ValidMap(doc, specs) && w in doc.rules
    ensures ValidRule(doc, w)
  {
  }

  lemma WinnerIsHeeded(doc: ScopeMap, specs: set<string>, r: Reason, w: Rule, s: Selection)
    requires ValidMap(doc, specs) && w in doc.rules && r.outcome == OutcomeOf(w.decision, w.scopes)
    requires forall x :: x in SelectedBy(r) ==> x in s.scopes && (x in doc.scopes ==> doc.scopes[x] in s.specPaths)
    ensures forall x :: x in w.scopes ==> x in s.scopes && x in doc.scopes && doc.scopes[x] in s.specPaths
  {
    WinnerScopes(doc, specs, w);
    hide ValidMap;
    forall x | x in w.scopes ensures x in SelectedBy(r) {}
  }

  lemma OutcomeKinds(decision: Decision, scopes: seq<string>)
    ensures decision == Full ==> OutcomeOf(decision, scopes) == Escalate
    ensures decision == Selected ==> OutcomeOf(decision, scopes).Select?
  {
  }

  lemma KnownIffMatched(doc: ScopeMap, p: string)
    ensures IsKnown(doc, p) <==> exists r :: r in doc.rules && RuleMatches(r, p)
  {
  }

  lemma UnknownEscalates(doc: ScopeMap, p: string)
    requires !IsKnown(doc, p)
    ensures Classify(doc, p).Ok? && Classify(doc, p).value.1 == Escalate
    ensures Classify(doc, p).value.0 in {"unknown-production", "unknown-path"}
  {
  }

  /** For a pull request, a changed path that no rule matches, or that a full rule
      matches, selects everything; one that a selected rule matches selects something,
      and unless everything is selected, the spec paths of the winning rule's scopes. */
  lemma SelectionFailsClosed(doc: ScopeMap, specs: set<string>, base: string, head: string, mergeBase: string,
                             changes: seq<Change>, s: Selection, p: string)
    requires ValidMap(doc, specs) && Assemble(doc, "pull_request", base, head, mergeBase, changes) == Ok(s)
    requires IsChanged(changes, p)
    ensures !IsKnown(doc, p) ==> s.mode == FullMode
    ensures (exists r :: r in doc.rules && r.decision == Full && RuleMatches(r, p)) ==> s.mode == FullMode
    ensures (exists r :: r in doc.rules && r.decision == Selected && RuleMatches(r, p)) ==> s.mode != NoneMode
    ensures s.mode == SelectedMode ==>
              exists w :: IsWinner(doc, p, w) && w.decision != Full &&
                forall x :: x in w.scopes ==> x in s.scopes && x in doc.scopes && doc.scopes[x] in s.specPaths
  {
    hide *;
    AssembledIsClassified(doc, "pull_request", base, head, mergeBase, changes, s);
    var r := ReasonOfChange(doc, changes, p);
    ReasonIsHeeded(doc, base, head, mergeBase, changes, s, r);
    KnownIffMatched(doc, p);
    if !IsKnown(doc, p) {
      UnknownEscalates(doc, p);
    } else {
      var w := ClassifiedByWinner(doc, p);
      WinnerDecides(doc, p, w);
      OutcomeKinds(w.decision, w.scopes);
      if s.mode == SelectedMode { WinnerIsHeeded(doc, specs, r, w, s); }
    }
  }

  // ----- Exactly when -----

  /** A path that no rule matches, or that some full rule matches. */
  ghost predicate Escalates(doc: ScopeMap, p: string) {
    !IsKnown(doc, p) || exists r :: r in doc.rules && r.decision == Full && RuleMatches(r, p)
  }

  /** A path that rules match, all of them safe-ignore rules. */
  ghost predicate IsIgnorable(doc: ScopeMap, p: string) {
    IsKnown(doc, p) && forall r :: r in doc.rules && RuleMatches(r, p) ==> r.decision == SafeIgnore
  }

  /** A path cannot be classified exactly when its best rules disagree. */
  lemma RefusedIffAmbiguous(doc: ScopeMap, p: string)
    ensures Classify(doc, p).Err? <==>
              exists a, b ::
                IsWinner(doc, p, a) && IsWinner(doc, p, b) && (a.decision, a.scopes) != (b.decision, b.scopes)
  {
    hide IsWinner, InRoots;
    if IsKnown(doc, p) {
      var w := SomeWinner(doc, p);
      var winners := set r | r in doc.rules && IsWinner(doc, p, r);
      WinnersAreRules(doc, p);
      var signatures := Signatures(winners);
      assert (w.decision, w.scopes) in signatures;
      forall a, b | IsWinner(doc, p, a) && IsWinner(doc, p, b)
        ensures (a.decision, a.scopes) in signatures && (b.decision, b.scopes) in signatures {}
      if |signatures| == 1 {
        OneElement(signatures);
      } else {
        assert |signatures - {(w.decision, w.scopes)}| == |signatures| - 1;
        var other :| other in signatures - {(w.decision, w.scopes)};
        var v :| v in winners && (v.decision, v.scopes) == other;
      }
    } else {
      WinnersAreRules(doc, p);
    }
  }

  lemma WinnersAreRules(doc: ScopeMap, p: string)
    ensures forall r :: IsWinner(doc, p, r) ==> r in doc.rules && IsKnown(doc, p)
  {
    hide RuleMatches;
  }

  lemma SomeWinner(doc: ScopeMap, p: string) returns (w: Rule)
    requires IsKnown(doc, p)
    ensures w in doc.rules && IsWinner(doc, p, w)
  {
    hide RuleMatches, Yields;
    w := BestOf(doc.rules, p);
  }

  lemma OutcomeIsExact(doc: ScopeMap, p: string)
    requires Classify(doc, p).Ok?
    ensures Classify(doc, p).value.1 == Escalate <==> Escalates(doc, p)
    ensures Classify(doc, p).value.1 == Ignore <==> IsIgnorable(doc, p)
  {
    if IsKnown(doc, p) {
      var w := ClassifiedByWinner(doc, p);
      hide Classify, RuleMatches;
      WinnerDecides(doc, p, w);
      if w.decision == SafeIgnore {
        forall r | r in doc.rules && RuleMatches(r, p) ensures r.decision == SafeIgnore {
          assert r.decision == Full || r.decision == Selected || r.decision == SafeIgnore;
        }
      }
    }
  }

  lemma ChangeOfReason(doc: ScopeMap, changes: seq<Change>, r: Reason)
    requires AllClassified(doc, set c | c in changes) && r in Reasons(doc, set c | c in changes)
    ensures IsChanged(changes, r.path) && Classify(doc, r.path) == Ok((r.rule, r.outcome))
  {
    hide Classify;
  }

  /** The mode of a pull request: everything exactly when the rollback switch is set, no
      path changed or some changed path escalates; nothing exactly when the switch is not
      set and there are changed paths, all of which can be ignored. */
  lemma ModeIsExact(doc: ScopeMap, base: string, head: string, mergeBase: string, changes: seq<Change>, s: Selection)
    requires Assemble(doc, "pull_request", base, head, mergeBase, changes) == Ok(s)
    ensures s.mode == FullMode <==>
              doc.forceFull || changes == [] || exists p :: IsChanged(changes, p) && Escalates(doc, p)
    ensures s.mode == NoneMode <==>
              !doc.forceFull && changes != [] && forall p :: IsChanged(changes, p) ==> IsIgnorable(doc, p)
  {
    hide Assemble, Reasons, ModeOf, AllClassified, Classify, IsChanged, Escalates, IsIgnorable;
    if doc.forceFull || changes == [] {
      FullAnyway(doc, base, head, mergeBase, changes, s);
      return;
    }
    AssembledParts(doc, base, head, mergeBase, changes, s);
    var reasons := Reasons(doc, set c | c in changes);
    ModeOfReasons(doc, base == head == mergeBase, reasons, s.mode);
    forall r | r in reasons ensures IsExplained(doc, changes, r) { Explained(doc, changes, r); }
    forall p | IsChanged(changes, p) ensures IsReasoned(reasons, p) {
      var r := ReasonOfChange(doc, changes, p);
    }
  }

  lemma FullAnyway(doc: ScopeMap, base: string, head: string, mergeBase: string, changes: seq<Change>, s: Selection)
    requires Assemble(doc, "pull_request", base, head, mergeBase, changes) == Ok(s)
    requires doc.forceFull || changes == []
    ensures s.mode == FullMode
  {
    hide IsNormal, AllClassified, Classify, SortedReasons, Sorted, IsSha, ScopesOf, PathsOf, Reasons, RollbackReasons;
  }

  /** A reason concerns a changed path, and its outcome is right for it. */
  ghost predicate IsExplained(doc: ScopeMap, changes: seq<Change>, r: Reason) {
    && IsChanged(changes, r.path)
    && (r.outcome == Escalate <==> Escalates(doc, r.path)) && (r.outcome == Ignore <==> IsIgnorable(doc, r.path))
  }

  ghost predicate IsReasoned(reasons: set<Reason>, p: string) {
    exists r :: r in reasons && r.path == p
  }

  lemma Explained(doc: ScopeMap, changes: seq<Change>, r: Reason)
    requires AllClassified(doc, set c | c in changes) && r in Reasons(doc, set c | c in changes)
    ensures IsExplained(doc, changes, r)
  {
    hide *;
    ChangeOfReason(doc, changes, r);
    OutcomeIsExact(doc, r.path);
    ExplainedBy(doc, changes, r);
  }

  lemma ExplainedBy(doc: ScopeMap, changes: seq<Change>, r: Reason)
    requires IsChanged(changes, r.path)
    requires r.outcome == Escalate <==> Escalates(doc, r.path)
    requires r.outcome == Ignore <==> IsIgnorable(doc, r.path)
    ensures IsExplained(doc, changes, r)
  {
    hide IsChanged, Escalates, IsIgnorable;
  }

  lemma ModeOfReasons(doc: ScopeMap, sameCommit: bool, reasons: set<Reason>, mode: Mode)
    requires ModeOf(doc, "pull_request", false, sameCommit, reasons) == Ok(mode) && reasons != {} && !doc.forceFull
    ensures mode == FullMode <==> exists r :: r in reasons && r.outcome == Escalate
    ensures mode == NoneMode <==> forall r :: r in reasons ==> r.outcome == Ignore
  {
    var r :| r in reasons;
  }

  /** A push, a schedule or any other event but a pull request runs everything. */
  lemma OtherEventsRunAll(doc: ScopeMap, event: string, base: string, head: string, mergeBase: string,
                          changes: seq<Change>, s: Selection)
    requires Assemble(doc, event, base, head, mergeBase, changes) == Ok(s) && event != "pull_request"
    ensures s.mode == FullMode && s.specPaths == [doc.fullSpecPath]
  {
    hide Classify, SortedReasons, IsNormal, IsSha, Sorted, Reasons, AllClassified;
    AscendingUnique(Sorted({doc.fullSpecPath}), [doc.fullSpecPath]);
  }

  /** A narrow selection runs nothing without cause: each scope always runs, or is named
      by the winning rule of some changed path; and each spec path is a scope's. */
  lemma NothingSuperfluous(doc: ScopeMap, base: string, head: string, mergeBase: string, changes: seq<Change>,
                           s: Selection)
    requires Assemble(doc, "pull_request", base, head, mergeBase, changes) == Ok(s) && s.mode == SelectedMode
    ensures forall x :: x in s.scopes ==> x in doc.always || IsCaused(doc, changes, x)
    ensures forall q :: q in s.specPaths ==> exists x :: x in s.scopes && x in doc.scopes && doc.scopes[x] == q
  {
    var reasons := Reasons(doc, set c | c in changes);
    hide *;
    forall x | x in s.scopes && x !in doc.always ensures IsCaused(doc, changes, x) {
      var r :| r in reasons && x in SelectedBy(r);
      Caused(doc, changes, r, x);
    }
  }

  /** The winning rule of some changed path names the scope. */
  ghost predicate IsCaused(doc: ScopeMap, changes: seq<Change>, x: string) {
    exists p, w :: IsChanged(changes, p) && IsWinner(doc, p, w) && w.decision == Selected && x in w.scopes
  }

  lemma Caused(doc: ScopeMap, changes: seq<Change>, r: Reason, x: string)
    requires AllClassified(doc, set c | c in changes) && r in Reasons(doc, set c | c in changes) && x in SelectedBy(r)
    ensures IsCaused(doc, changes, x)
  {
    ChangeOfReason(doc, changes, r);
    hide Classify, IsChanged, Reasons, AllClassified, IsWinner, Ascending;
    var w := ClassifiedByWinner(doc, r.path);
    assert x in w.scopes;
  }

  /** The winner's decision is at least that of every rule that matches. */
  lemma WinnerDecides(doc: ScopeMap, p: string, w: Rule)
    requires IsWinner(doc, p, w)
    ensures w in doc.rules
    ensures (exists r :: r in doc.rules && r.decision == Full && RuleMatches(r, p)) ==> w.decision == Full
    ensures (exists r :: r in doc.rules && r.decision == Selected && RuleMatches(r, p)) ==> w.decision != SafeIgnore
  {
    hide RuleMatches, Specificity, SpecificityLeq;
  }

  lemma AssembledIsClassified(doc: ScopeMap, event: string, base: string, head: string, mergeBase: string,
                              changes: seq<Change>, s: Selection)
    requires Assemble(doc, event, base, head, mergeBase, changes) == Ok(s)
    ensures AllClassified(doc, set c | c in changes)
  {
    hide Classify, SortedReasons, IsNormal, IsSha, AllClassified;
  }

  // ----- The artifact always passes both validators -----

  /** What a validated map says of each reason. */
  ghost predicate SoundReason(doc: ScopeMap, r: Reason) {
    && ValidReasonIdentities(r) && IsToken(r.rule)
    && (r.rule in {"unknown-production", "unknown-path", "rollback-force-full"} ||
        exists q :: q in doc.rules && q.id == r.rule)
    && (r.outcome.Select? ==>
          && r.outcome.scopes != [] && AreSortedNames(r.outcome.scopes)
          && forall x :: x in r.outcome.scopes ==> x in doc.scopes)
  }

  lemma RulesAreValid(doc: ScopeMap, specs: set<string>)
    requires ValidMap(doc, specs)
    ensures forall r :: r in doc.rules ==> ValidRule(doc, r) && IsToken(r.id)
  {
    hide SafeBoundaries, RuleMatches, IsToken, Pieces;
  }

  lemma ReasonIsSound(doc: ScopeMap, specs: set<string>, c: Change, p: string)
    requires ValidMap(doc, specs) && ValidChange(c) && p in Identities(c) && Classify(doc, p).Ok?
    ensures SoundReason(doc, ReasonFor(doc, c, p))
  {
    hide *;
    var r := ReasonFor(doc, c, p);
    IdentitiesAreValid(doc, c, p);
    if IsKnown(doc, p) {
      var w := ClassifiedByWinner(doc, p);
      KnownIsSound(doc, specs, p, w, r);
    } else {
      UnknownEscalates(doc, p);
      UnknownIsSound(doc, r);
    }
  }

  lemma IdentitiesAreValid(doc: ScopeMap, c: Change, p: string)
    requires ValidChange(c) && p in Identities(c) && Classify(doc, p).Ok?
    ensures var r := ReasonFor(doc, c, p); ValidReasonIdentities(r) && (r.rule, r.outcome) == Classify(doc, p).value
  {
    hide Classify, IsPosix;
  }

  lemma UnknownIsSound(doc: ScopeMap, r: Reason)
    requires ValidReasonIdentities(r) && r.rule in {"unknown-production", "unknown-path"} && r.outcome == Escalate
    ensures SoundReason(doc, r)
  {
    hide ValidReasonIdentities, AreSortedNames;
  }

  lemma KnownIsSound(doc: ScopeMap, specs: set<string>, p: string, w: Rule, r: Reason)
    requires ValidMap(doc, specs) && ValidReasonIdentities(r)
    requires IsWinner(doc, p, w) && r.outcome == OutcomeOf(w.decision, w.scopes)
    requires exists q :: q in doc.rules && q.id == r.rule
    ensures SoundReason(doc, r)
  {
    hide ValidMap, ValidReasonIdentities, AreSortedNames, IsToken, RuleMatches, Pieces, Sorted;
    RulesAreValid(doc, specs);
    if w.decision == Selected { SelectedIsSound(doc, specs, w); }
  }

  lemma SelectedIsSound(doc: ScopeMap, specs: set<string>, w: Rule)
    requires ValidMap(doc, specs) && ValidRule(doc, w) && w.decision == Selected
    ensures var l := Sorted(set s | s in w.scopes);
            l != [] && AreSortedNames(l) && forall x :: x in l ==> x in doc.scopes
  {
    hide Sorted, IsRelative;
    var l := Sorted(set s | s in w.scopes);
    assert w.scopes[0] in l;
  }

  lemma RollbackIsSound(doc: ScopeMap, c: Change, p: string)
    requires ValidChange(c) && p in Identities(c)
    ensures SoundReason(doc, Reason(p, c, "rollback-force-full", Escalate))
  {
  }

  ghost predicate AllSound(doc: ScopeMap, rs: set<Reason>) {
    forall r :: r in rs ==> SoundReason(doc, r)
  }

  lemma ReasonsAreSound(doc: ScopeMap, specs: set<string>, changes: set<Change>)
    requires ValidMap(doc, specs) && AllClassified(doc, changes) && forall c :: c in changes ==> ValidChange(c)
    ensures AllSound(doc, Reasons(doc, changes)) && AllSound(doc, RollbackReasons(changes))
  {
    hide ValidMap, Classify, SoundReason, ValidChange;
    forall r | r in Reasons(doc, changes) ensures SoundReason(doc, r) {
      var c, p :| c in changes && p in Identities(c) && r == ReasonFor(doc, c, p);
      ReasonIsSound(doc, specs, c, p);
    }
    forall r | r in RollbackReasons(changes) ensures SoundReason(doc, r) {
      var c, p :| c in changes && p in Identities(c) && r == Reason(p, c, "rollback-force-full", Escalate);
      RollbackIsSound(doc, c, p);
    }
  }

  /** The keys tell the reasons apart: no path occurs twice under one status. */
  lemma KeysAreDistinct(changes: seq<Change>, rs: set<Reason>)
    requires IsNormal(changes)
    requires forall r :: r in rs ==> r.change in changes && r.path in Identities(r.change)
    requires forall a, b :: a in rs && b in rs && a.path == b.path && a.change == b.change ==> a == b
    ensures KeysDistinct(rs)
  {
    forall a, b | a in rs && b in rs && Key(a) == Key(b) ensures a == b {
      assert ValidChange(a.change) && ValidChange(b.change);
      KeyParts(a, b);
      var i :| 0 <= i < |changes| && changes[i] == a.change;
      var j :| 0 <= j < |changes| && changes[j] == b.change;
      assert a.path in Identities(changes[i]) && a.path in Identities(changes[j]);
      assert i == j;
    }
  }

  /** Comparing keys is comparing (path, status, rule). */
  lemma {:induction false} KeyOrderIsTupleOrder(p: string, x: string, q: string, y: string)
    requires NoControl(p) && NoControl(q)
    ensures Leq(p + ['\0'] + x, q + ['\0'] + y) <==> Less(p, q) || (p == q && Leq(x, y))
  {
    var a, b := p + ['\0'] + x, q + ['\0'] + y;
    assert p != [] ==> a[0] == p[0] && p[0] in p && a[1..] == p[1..] + ['\0'] + x;
    assert q != [] ==> b[0] == q[0] && q[0] in q && b[1..] == q[1..] + ['\0'] + y;
    if p != [] && q != [] {
      assert (forall c :: c in p[1..] ==> c in p) && forall c :: c in q[1..] ==> c in q;
      KeyOrderIsTupleOrder(p[1..], x, q[1..], y);
      assert p == [p[0]] + p[1..] && q == [q[0]] + q[1..];
    } else {
      assert p == [] ==> a[1..] == x;
      assert q == [] ==> b[1..] == y;
    }
  }

  lemma KeyParts(a: Reason, b: Reason)
    requires Key(a) == Key(b) && NoControl(a.path) && NoControl(b.path)
    ensures a.path == b.path && a.change.status == b.change.status
  {
    var x, y := [Letter(a.change.status), '\0'] + a.rule, [Letter(b.change.status), '\0'] + b.rule;
    assert Key(a) == a.path + ['\0'] + x && Key(b) == b.path + ['\0'] + y;
    LeqReflexive(Key(a));
    KeyOrderIsTupleOrder(a.path, x, b.path, y);
    KeyOrderIsTupleOrder(b.path, y, a.path, x);
    hide Leq;
    assert a.path == b.path by { if a.path != b.path { LeqAntisymmetric(a.path, b.path); } }
    LeqAntisymmetric(x, y);
    assert x[0] == y[0];
  }

  lemma RelativeIsPosix(p: string)
    requires IsRelative(p)
    ensures IsPosix(p) && IsName(p)
  {
  }

  /** A sound reason within the selected scopes passes both reason validators. */
  lemma SoundReasonPasses(doc: ScopeMap, r: Reason, mode: Mode, scopes: seq<string>)
    requires SoundReason(doc, r) && (mode == FullMode || forall x :: x in SelectedBy(r) ==> x in scopes)
    ensures ValidReason(r, doc, mode, scopes) && BasicReason(r, mode, scopes)
  {
    hide IsRelative, IsPosix, IsName, IsToken;
    RelativeIsPosix(r.path);
    if r.change.old_.Some? { RelativeIsPosix(r.change.old_.value); }
    if r.change.new_.Some? { RelativeIsPosix(r.change.new_.value); }
    if r.outcome.Select? {
      assert forall x :: x in r.outcome.scopes ==> x in SelectedBy(r);
    }
  }

  /** The scopes and paths of every mode are names the map declares. */
  lemma ScopesAreNames(doc: ScopeMap, specs: set<string>, mode: Mode, rs: set<Reason>)
    requires ValidMap(doc, specs) && AllSound(doc, rs)
    ensures var scopes := ScopesOf(doc, mode, rs);
            && (forall x :: x in scopes ==> x in doc.scopes && IsName(x))
            && (forall p :: p in PathsOf(doc, mode, scopes) ==> IsRelative(p) && Beneath(p, "spec") && p in specs)
  {
    hide IsRelative, IsName, Beneath, SafeBoundaries, ValidRule, IsToken, ValidReasonIdentities, AreSortedNames;
  }

  /** The reasons a selection shows. */
  ghost function Shown(doc: ScopeMap, event: string, records: set<Change>): set<Reason>
    requires AllClassified(doc, records)
  {
    if doc.forceFull && event in SELECTIVE_EVENTS then RollbackReasons(records) else Reasons(doc, records)
  }

  /** A selection put together from sound reasons with distinct keys. */
  ghost predicate IsPutTogether(s: Selection, doc: ScopeMap, shown: set<Reason>) {
    && s.event in SELECTIVE_EVENTS + FULL_EVENTS && IsSha(s.base) && IsSha(s.head) && IsSha(s.mergeBase)
    && s.scopes == Sorted(ScopesOf(doc, s.mode, shown))
    && s.specPaths == Sorted(PathsOf(doc, s.mode, ScopesOf(doc, s.mode, shown)))
    && s.reasons == SortedReasons(shown)
    && AllSound(doc, shown) && KeysDistinct(shown)
  }

  lemma AssembledIsPutTogether(doc: ScopeMap, specs: set<string>, event: string, base: string, head: string,
                               mergeBase: string, changes: seq<Change>, s: Selection)
    requires ValidMap(doc, specs) && Assemble(doc, event, base, head, mergeBase, changes) == Ok(s)
    ensures AllClassified(doc, set c | c in changes) && IsPutTogether(s, doc, Shown(doc, event, set c | c in changes))
  {
    hide ValidMap, Classify, SortedReasons, Sorted, IsSha, SoundReason, ScopesOf, PathsOf;
    var records := set c | c in changes;
    ReasonsAreSound(doc, specs, records);
    KeysAreDistinct(changes, Reasons(doc, records));
    KeysAreDistinct(changes, RollbackReasons(records));
  }

  lemma ReasonsPass(doc: ScopeMap, s: Selection, shown: set<Reason>)
    requires IsPutTogether(s, doc, shown)
    requires s.mode == NoneMode ==> forall r :: r in shown ==> r.outcome == Ignore
    ensures InOrder(s.reasons) && forall r :: r in s.reasons ==>
              ValidReason(r, doc, s.mode, s.scopes) && BasicReason(r, s.mode, s.scopes)
    ensures forall r :: r in s.reasons <==> r in shown
  {
    hide SoundReason, ValidReason, BasicReason, IsSha, PathsOf, SortedReasons, KeysDistinct;
    forall r | r in s.reasons ensures ValidReason(r, doc, s.mode, s.scopes) && BasicReason(r, s.mode, s.scopes) {
      assert r in shown;
      SoundReasonPasses(doc, r, s.mode, s.scopes);
    }
  }

  lemma ListsPass(doc: ScopeMap, specs: set<string>, s: Selection, shown: set<Reason>)
    requires ValidMap(doc, specs) && IsPutTogether(s, doc, shown)
    ensures AreSortedNames(s.scopes) && AreSortedNames(s.specPaths)
    ensures forall x :: x in s.scopes ==> x in doc.scopes
    ensures forall p :: p in s.specPaths ==> IsRelative(p) && IsPosix(p) && Beneath(p, "spec") && p in specs
  {
    ScopesAreNames(doc, specs, s.mode, shown);
    hide ValidMap, Sorted, IsRelative, IsName, Beneath, SoundReason, IsPosix, ScopesOf, PathsOf, SortedReasons, IsSha;
    forall p | p in s.specPaths ensures IsPosix(p) && IsName(p) { RelativeIsPosix(p); }
  }

  /** The mode's own clauses, in the selector's validator and in the gate's. */
  ghost predicate ModeClauses(s: Selection, doc: ScopeMap, specs: set<string>) {
    match s.mode
    case NoneMode => s.scopes == [] && s.specPaths == [] && forall r :: r in s.reasons ==> r.outcome == Ignore
    case FullMode =>
      s.scopes == Sorted(set x | x in doc.fullScopes) == ["all"] && s.specPaths == [doc.fullSpecPath] == ["spec"]
      && doc.fullSpecPath in specs
    case SelectedMode =>
      && s.scopes != [] && s.specPaths != [] && s.reasons != []
      && (forall x :: x in doc.always ==> x in s.scopes) && "legacy-smoke" in s.scopes && "smoke" in s.scopes
      && s.specPaths == Sorted(set x | x in s.scopes && x in doc.scopes :: doc.scopes[x])
      && exists r, x :: r in s.reasons && x in SelectedBy(r)
  }

  lemma ModePasses(doc: ScopeMap, specs: set<string>, s: Selection, shown: set<Reason>)
    requires ValidMap(doc, specs) && IsPutTogether(s, doc, shown) && forall r :: r in s.reasons <==> r in shown
    requires s.mode == NoneMode ==> forall r :: r in shown ==> r.outcome == Ignore
    requires s.mode == SelectedMode ==> exists r :: r in shown && r.outcome.Select?
    ensures ModeClauses(s, doc, specs)
  {
    hide SoundReason, Sorted, IsSha, InOrder, KeysDistinct, SortedReasons;
    var scopes := ScopesOf(doc, s.mode, shown);
    match s.mode {
      case NoneMode =>
      case FullMode =>
        FullLists(doc, specs);
        hide ValidMap;
      case SelectedMode =>
        SelectedLists(doc, specs, shown);
        hide ValidMap, ScopesOf;
        assert (set x | x in s.scopes && x in doc.scopes :: doc.scopes[x]) == PathsOf(doc, s.mode, scopes);
    }
  }

  lemma FullLists(doc: ScopeMap, specs: set<string>)
    requires ValidMap(doc, specs)
    ensures Sorted(set x | x in doc.fullScopes) == ["all"] && Sorted({doc.fullSpecPath}) == ["spec"]
            && doc.fullSpecPath in specs
  {
    hide Sorted, SafeBoundaries, ValidRule, IsRelative, IsToken;
    AscendingUnique(Sorted(set x | x in doc.fullScopes), ["all"]);
    AscendingUnique(Sorted({doc.fullSpecPath}), ["spec"]);
  }

  lemma SelectedLists(doc: ScopeMap, specs: set<string>, shown: set<Reason>)
    requires ValidMap(doc, specs) && AllSound(doc, shown) && exists r :: r in shown && r.outcome.Select?
    ensures var scopes := ScopesOf(doc, SelectedMode, shown);
            && (forall x :: x in doc.always ==> x in scopes) && scopes != {} && PathsOf(doc, SelectedMode, scopes) != {}
    ensures exists r, x :: r in shown && x in SelectedBy(r)
  {
    hide SafeBoundaries, ValidRule, IsRelative, IsToken, AreSortedNames, ValidReasonIdentities;
    var scopes := ScopesOf(doc, SelectedMode, shown);
    assert doc.always[0] in scopes && doc.scopes[doc.always[0]] in PathsOf(doc, SelectedMode, scopes);
    var r :| r in shown && r.outcome.Select?;
    assert SoundReason(doc, r) && r.outcome.scopes[0] in SelectedBy(r);
  }

  /** build_selection never rejects what it built, and the gate accepts it. */
  lemma ArtifactAlwaysPasses(doc: ScopeMap, specs: set<string>, event: string, base: string, head: string,
                             mergeBase: string, changes: seq<Change>, s: Selection)
    requires ValidMap(doc, specs) && Assemble(doc, event, base, head, mergeBase, changes) == Ok(s)
    ensures ValidSelection(s, doc, specs) && BasicSelection(s)
  {
    AssembledIsPutTogether(doc, specs, event, base, head, mergeBase, changes, s);
    var shown := Shown(doc, event, set c | c in changes);
    ModeIsExplained(doc, event, base, head, mergeBase, changes, s);
    ReasonsPass(doc, s, shown);
    ListsPass(doc, specs, s, shown);
    ModePasses(doc, specs, s, shown);
    hide *;
    Conclude(doc, specs, s);
  }

  lemma Conclude(doc: ScopeMap, specs: set<string>, s: Selection)
    requires s.event in SELECTIVE_EVENTS + FULL_EVENTS && IsSha(s.base) && IsSha(s.head) && IsSha(s.mergeBase)
    requires InOrder(s.reasons) && forall r :: r in s.reasons ==>
               ValidReason(r, doc, s.mode, s.scopes) && BasicReason(r, s.mode, s.scopes)
    requires AreSortedNames(s.scopes) && AreSortedNames(s.specPaths) && forall x :: x in s.scopes ==> x in doc.scopes
    requires forall p :: p in s.specPaths ==> IsRelative(p) && IsPosix(p) && Beneath(p, "spec") && p in specs
    requires ModeClauses(s, doc, specs)
    ensures ValidSelection(s, doc, specs) && BasicSelection(s)
  {
    hide IsSha, InOrder, ValidReason, BasicReason, AreSortedNames, IsRelative, IsPosix, Beneath, Sorted, SelectedBy;
  }

  /** Nothing selected means every reason ignores; a narrow selection has a reason
      that selects. */
  lemma ModeIsExplained(doc: ScopeMap, event: string, base: string, head: string, mergeBase: string,
                        changes: seq<Change>, s: Selection)
    requires Assemble(doc, event, base, head, mergeBase, changes) == Ok(s)
    ensures AllClassified(doc, set c | c in changes)
    ensures var shown := Shown(doc, event, set c | c in changes);
            && (s.mode == NoneMode ==> forall r :: r in shown ==> r.outcome == Ignore)
            && (s.mode == SelectedMode ==> exists r :: r in shown && r.outcome.Select?)
  {
    hide Classify, SortedReasons, Sorted, IsSha, PathsOf, ScopesOf;
    if s.mode == SelectedMode { SomethingChanged(doc, changes); }
  }

  lemma SomethingChanged(doc: ScopeMap, changes: seq<Change>)
    requires IsNormal(changes) && changes != [] && AllClassified(doc, set c | c in changes)
    ensures Reasons(doc, set c | c in changes) != {}
  {
    hide Classify;
    var c := changes[0];
    assert c in changes && ValidChange(c);
    var p :| p in Identities(c);
    assert ReasonFor(doc, c, p) in Reasons(doc, set c | c in changes);
  }

  // ----- The order of the changes does not matter -----

  lemma {:induction false} TwiceMeansTwoPlaces(changes: seq<Change>, c: Change) returns (i: nat, j: nat)
    requires multiset(changes)[c] >= 2
    ensures i < j < |changes| && changes[i] == c == changes[j]
  {
    assert changes == [changes[0]] + changes[1..];
    if changes[0] == c {
      assert c in multiset(changes[1..]);
      i, j := 0, 1;
      while changes[j] != c
        invariant 1 <= j < |changes| && c in changes[j..]
        decreases |changes| - j
      {
        j := j + 1;
      }
    } else {
      i, j := TwiceMeansTwoPlaces(changes[1..], c);
      i, j := i + 1, j + 1;
    }
  }

  lemma ReorderedIsNormal(a: seq<Change>, b: seq<Change>)
    requires multiset(a) == multiset(b) && IsNormal(a)
    ensures IsNormal(b) && (set c | c in a) == (set c | c in b)
  {
    hide ValidChange;
    assert forall c :: c in b <==> c in multiset(b);
    assert forall c :: c in a <==> c in multiset(a);
    forall i, j | 0 <= i < j < |b| && b[i].status == b[j].status ensures Identities(b[i]) !! Identities(b[j]) {
      var k, l;
      if b[i] == b[j] {
        TwoPlacesMeanTwice(b, i, j);
        k, l := TwiceMeansTwoPlaces(a, b[i]);
      } else {
        assert b[i] in b && b[j] in b && b[i] in a && b[j] in a;
        k :| 0 <= k < |a| && a[k] == b[i];
        l :| 0 <= l < |a| && a[l] == b[j];
      }
      assert k < l || l < k;
    }
  }

  lemma TwoPlacesMeanTwice(changes: seq<Change>, i: nat, j: nat)
    requires i < j < |changes| && changes[i] == changes[j]
    ensures multiset(changes)[changes[i]] >= 2
  {
    assert changes == changes[..j] + changes[j..] && changes[..j][i] == changes[i] && changes[j..][0] == changes[j];
    assert changes[i] in multiset(changes[..j]) && changes[i] in multiset(changes[j..]);
  }

  /** The artifact, or the refusal, is the same for every order of the same changes. */
  lemma OrderDoesNotMatter(doc: ScopeMap, event: string, base: string, head: string, mergeBase: string, a: seq<Change>,
                           b: seq<Change>)
    requires multiset(a) == multiset(b)
    ensures Assemble(doc, event, base, head, mergeBase, a) == Assemble(doc, event, base, head, mergeBase, b)
  {
    hide IsNormal, AllClassified, Classify, SortedReasons, Sorted, IsSha, ScopesOf, PathsOf, ModeOf, Reasons,
         RollbackReasons;
    assert |multiset(a)| == |a| && |multiset(b)| == |b|;
    if IsNormal(a) { ReorderedIsNormal(a, b); }
    if IsNormal(b) { ReorderedIsNormal(b, a); }
  }

  // ----- More changes never select less -----

  function Rank(m: Mode): nat {
    match m case NoneMode => 0 case SelectedMode => 1 case FullMode => 2
  }

  /** Every spec under a path of `less` is under a path of `more`. */
  ghost predicate CoversSpecs(more: seq<string>, less: seq<string>) {
    forall p :: p in less ==> exists q :: q in more && Beneath(p, q)
  }

  lemma AssembledParts(doc: ScopeMap, base: string, head: string, mergeBase: string, changes: seq<Change>, s: Selection)
    requires Assemble(doc, "pull_request", base, head, mergeBase, changes) == Ok(s) && changes != []
    ensures var records := set c | c in changes;
            && AllClassified(doc, records) && Reasons(doc, records) != {}
            && ModeOf(doc, "pull_request", false, base == head == mergeBase, Reasons(doc, records)) == Ok(s.mode)
            && (s.mode == SelectedMode ==>
                  && !doc.forceFull
                  && s.specPaths ==
                     Sorted(PathsOf(doc, SelectedMode, ScopesOf(doc, SelectedMode, Reasons(doc, records)))))
            && (s.mode == FullMode ==> s.specPaths == Sorted({doc.fullSpecPath}))
            && (s.mode == NoneMode ==> s.specPaths == [])
  {
    SomethingChangedIf(doc, changes);
    hide IsNormal, AllClassified, Classify, SortedReasons, Sorted, IsSha, ScopesOf, Reasons, RollbackReasons;
  }

  lemma SomethingChangedIf(doc: ScopeMap, changes: seq<Change>)
    requires changes != []
    ensures IsNormal(changes) && AllClassified(doc, set c | c in changes) ==> Reasons(doc, set c | c in changes) != {}
  {
    if IsNormal(changes) && AllClassified(doc, set c | c in changes) { SomethingChanged(doc, changes); }
  }

  /** Adding changes to a non-empty pull request that is accepted before and after
      never lowers the mode, and never drops a spec that would have run. */
  lemma MoreChangesSelectMore(doc: ScopeMap, specs: set<string>, base: string, head: string, mergeBase: string,
                              small: seq<Change>, large: seq<Change>, s: Selection, t: Selection)
    requires ValidMap(doc, specs) && small != [] && forall c :: c in small ==> c in large
    requires Assemble(doc, "pull_request", base, head, mergeBase, small) == Ok(s)
    requires Assemble(doc, "pull_request", base, head, mergeBase, large) == Ok(t)
    ensures Rank(s.mode) <= Rank(t.mode) && CoversSpecs(t.specPaths, s.specPaths)
  {
    hide *;
    assert small[0] in large;
    AssembledParts(doc, base, head, mergeBase, small, s);
    AssembledParts(doc, base, head, mergeBase, large, t);
    var sameCommit := base == head == mergeBase;
    var before, after := set c | c in small, set c | c in large;
    assert before <= after;
    ReasonsGrow(doc, before, after);
    var a, b := Reasons(doc, before), Reasons(doc, after);
    SpecsAreBeneath(doc, specs, a, s);
    ModeGrows(doc, sameCommit, a, b, s.mode, t.mode);
    SpecsGrow(doc, a, b, s, t);
  }

  lemma ReasonsGrow(doc: ScopeMap, small: set<Change>, large: set<Change>)
    requires small <= large && AllClassified(doc, large)
    ensures AllClassified(doc, small)
    ensures var a, b := Reasons(doc, small), Reasons(doc, large);
            a <= b && PathsOf(doc, SelectedMode, ScopesOf(doc, SelectedMode, a)) <=
              PathsOf(doc, SelectedMode, ScopesOf(doc, SelectedMode, b))
  {
    hide Classify;
  }

  lemma SpecsAreBeneath(doc: ScopeMap, specs: set<string>, rs: set<Reason>, s: Selection)
    requires ValidMap(doc, specs)
    requires s.mode == SelectedMode ==>
               s.specPaths == Sorted(PathsOf(doc, SelectedMode, ScopesOf(doc, SelectedMode, rs)))
    requires s.mode == FullMode ==> s.specPaths == Sorted({doc.fullSpecPath})
    requires s.mode == NoneMode ==> s.specPaths == []
    ensures forall p :: p in s.specPaths ==> Beneath(p, doc.fullSpecPath)
  {
    hide Ascending;
  }

  lemma ModeGrows(doc: ScopeMap, sameCommit: bool, small: set<Reason>, large: set<Reason>, m: Mode, n: Mode)
    requires small != {} && small <= large
    requires ModeOf(doc, "pull_request", false, sameCommit, small) == Ok(m)
    requires ModeOf(doc, "pull_request", false, sameCommit, large) == Ok(n)
    ensures Rank(m) <= Rank(n)
  {
  }

  lemma SpecsGrow(doc: ScopeMap, small: set<Reason>, large: set<Reason>, s: Selection, t: Selection)
    requires Rank(s.mode) <= Rank(t.mode)
    requires PathsOf(doc, SelectedMode, ScopesOf(doc, SelectedMode, small)) <=
               PathsOf(doc, SelectedMode, ScopesOf(doc, SelectedMode, large))
    requires s.mode == SelectedMode ==>
               s.specPaths == Sorted(PathsOf(doc, SelectedMode, ScopesOf(doc, SelectedMode, small)))
    requires t.mode == SelectedMode ==>
               t.specPaths == Sorted(PathsOf(doc, SelectedMode, ScopesOf(doc, SelectedMode, large)))
    requires t.mode == FullMode ==> t.specPaths == Sorted({doc.fullSpecPath})
    requires s.mode == NoneMode ==> s.specPaths == []
    requires forall p :: p in s.specPaths ==> Beneath(p, doc.fullSpecPath)
    ensures CoversSpecs(t.specPaths, s.specPaths)
  {
    hide PathsOf, ScopesOf, Ascending;
    forall p | p in s.specPaths ensures exists q :: q in t.specPaths && Beneath(p, q) {
      if t.mode == FullMode {
        assert doc.fullSpecPath in t.specPaths;
      } else {
        assert p in t.specPaths && Beneath(p, p);
      }
    }
  }

}
