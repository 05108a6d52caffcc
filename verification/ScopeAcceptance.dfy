/** Which change sets build_selection accepts, and which rules win a path, in terms of the
    inputs alone (scripts/select_e2e_scopes.py). */
module ScopeAcceptance {
  import opened Ordering
  import opened ScopeGlob
  import opened ScopeSelection
  import opened ScopeBuild
  import opened ScopeTheorems
  import opened ScopeExample
  import opened Wrappers

  // ----- Paths -----

  function Joined(parts: seq<string>): string
    requires parts != []
  {
    if |parts| == 1 then parts[0] else parts[0] + "/" + Joined(parts[1..])
  }

  /** The segments of a path are what stands between its slashes. */
  lemma {:induction false} SplitIs(s: string)
    ensures Joined(Split(s)) == s && forall part :: part in Split(s) ==> '/' !in part
    decreases |s|
  {
    var k := Find(s, '/', 0);
    assert forall c :: c in s[..k] ==> c != '/';
    if k < |s| {
      SplitIs(s[k + 1..]);
      assert Split(s)[1..] == Split(s[k + 1..]) && s == s[..k] + "/" + s[k + 1..];
    } else {
      assert s[..k] == s;
    }
  }

  /** The literal prefix is the longest run of leading segments without '*', '?' or '['. */
  lemma LiteralPrefixIs(pattern: string)
    ensures var l, parts := LiteralPrefix(pattern), Split(pattern);
            && l <= parts
            && (forall part :: part in l ==> '*' !in part && '?' !in part && '[' !in part)
            && (|l| < |parts| ==> var next := parts[|l|]; '*' in next || '?' in next || '[' in next)
  {
    LiteralSegmentsAre(Split(pattern));
  }

  lemma {:induction false} LiteralSegmentsAre(parts: seq<string>)
    ensures var l := LiteralSegments(parts);
            && l <= parts
            && (forall part :: part in l ==> '*' !in part && '?' !in part && '[' !in part)
            && (|l| < |parts| ==> var next := parts[|l|]; '*' in next || '?' in next || '[' in next)
  {
    if parts != [] && IsLiteral(parts[0]) { LiteralSegmentsAre(parts[1..]); }
  }

  /** A path within the repository: no control or pattern characters, no backslash, not
      absolute, no drive, and no empty, dot or parent segment. */
  ghost predicate IsRepositoryPath(s: string) {
    && s != "" && s[0] != '/'
    && (forall c :: c in s ==> '\U{20}' <= c && c != '\U{7f}' && c != '\\' && c != '*' && c != '?' && c != '[')
    && !(|s| >= 2 && s[1] == ':' && ('a' <= s[0] <= 'z' || 'A' <= s[0] <= 'Z'))
    && forall part :: part in Split(s) ==> part != "" && part != "." && part != ".."
  }

  lemma RelativeIff(s: string)
    ensures IsRelative(s) <==> IsRepositoryPath(s)
  {
    hide Split;
  }

  // ----- The change set -----

  ghost predicate Names(c: Change, p: string) {
    c.old_ == Some(p) || c.new_ == Some(p)
  }

  /** An added or modified file has a new path, a deleted one an old path, a renamed or
      copied one both. */
  ghost predicate HasItsSides(c: Change) {
    match c.status
    case Added => c.old_.None? && c.new_.Some?
    case Modified => c.old_.None? && c.new_.Some?
    case Deleted => c.old_.Some? && c.new_.None?
    case Renamed => c.old_.Some? && c.new_.Some?
    case Copied => c.old_.Some? && c.new_.Some?
  }

  ghost predicate IsWellFormed(c: Change) {
    HasItsSides(c) && forall p :: Names(c, p) ==> IsRepositoryPath(p)
  }

  lemma WellFormedIff(c: Change)
    ensures ValidChange(c) <==> IsWellFormed(c)
    ensures forall p :: p in Identities(c) <==> Names(c, p)
  {
    hide IsRelative, IsRepositoryPath;
    if c.old_.Some? {
      RelativeIff(c.old_.value);
      assert Names(c, c.old_.value);
    }
    if c.new_.Some? {
      RelativeIff(c.new_.value);
      assert Names(c, c.new_.value);
    }
  }

  /** Two changes of one status name the same path. */
  ghost predicate Collide(c: Change, d: Change) {
    c.status == d.status && exists p :: Names(c, p) && Names(d, p)
  }

  lemma NoRepeatsIff(changes: seq<Change>)
    ensures NoRepeats(changes) <==> forall i, j :: 0 <= i < j < |changes| ==> !Collide(changes[i], changes[j])
  {
    forall i, j | 0 <= i < j < |changes|
      ensures Collide(changes[i], changes[j]) <==>
                changes[i].status == changes[j].status && !(Identities(changes[i]) !! Identities(changes[j]))
    {
      WellFormedIff(changes[i]);
      WellFormedIff(changes[j]);
      hide Names, Identities;
      if !(Identities(changes[i]) !! Identities(changes[j])) {
        var p :| p in Identities(changes[i]) && p in Identities(changes[j]);
        assert Names(changes[i], p) && Names(changes[j], p);
      }
    }
    hide Collide;
  }

  ghost predicate BestRulesAgree(doc: ScopeMap, p: string) {
    forall a, b :: IsWinner(doc, p, a) && IsWinner(doc, p, b) ==> a.decision == b.decision && a.scopes == b.scopes
  }

  lemma ClassifiedIff(doc: ScopeMap, changes: seq<Change>)
    ensures AllClassified(doc, set c | c in changes) <==>
              forall c, p :: c in changes && Names(c, p) ==> BestRulesAgree(doc, p)
  {
    hide Classify, IsWinner;
    forall c, p | c in changes ensures p in Identities(c) <==> Names(c, p) { WellFormedIff(c); }
    hide Identities, Names;
    forall p ensures Classify(doc, p).Ok? <==> BestRulesAgree(doc, p) { RefusedIffAmbiguous(doc, p); }
    hide BestRulesAgree;
  }

  ghost predicate IsCommit(s: string) {
    |s| == 40 && forall i :: 0 <= i < 40 ==> '0' <= s[i] <= '9' || 'a' <= s[i] <= 'f'
  }

  lemma CommitIff(s: string)
    ensures IsSha(s) <==> IsCommit(s)
  {
    assert forall i :: 0 <= i < |s| ==> s[i] in s;
  }

  lemma NormalIff(changes: seq<Change>)
    ensures IsNormal(changes) <==>
              && (forall c :: c in changes ==> IsWellFormed(c))
              && (forall i, j :: 0 <= i < j < |changes| ==> !Collide(changes[i], changes[j]))
  {
    hide ValidChange, IsWellFormed, NoRepeats, Collide;
    forall c | c in changes ensures ValidChange(c) <==> IsWellFormed(c) { WellFormedIff(c); }
    NoRepeatsIff(changes);
  }

  lemma EventIff(event: string)
    ensures event in SELECTIVE_EVENTS + FULL_EVENTS <==>
              event in {"pull_request", "push", "schedule", "workflow_dispatch", "workflow_call", "release",
                        "merge_group"}
    ensures event in SELECTIVE_EVENTS <==> event == "pull_request"
  {
  }

  lemma AssembledIff(doc: ScopeMap, event: string, base: string, head: string, mergeBase: string, changes: seq<Change>)
    ensures Assemble(doc, event, base, head, mergeBase, changes).Ok? <==>
              && event in SELECTIVE_EVENTS + FULL_EVENTS && IsSha(base) && IsSha(head) && IsSha(mergeBase)
              && IsNormal(changes) && AllClassified(doc, set c | c in changes)
              && (event in SELECTIVE_EVENTS && changes == [] ==> base == head == mergeBase)
  {
    hide IsSha, IsNormal, AllClassified, Reasons, RollbackReasons, SortedReasons, Sorted, ScopesOf, PathsOf,
         SELECTIVE_EVENTS, FULL_EVENTS;
  }

  /** build_selection accepts its inputs exactly when the event is known, the three commits
      are written as such, each change has its sides and repository paths, no path occurs
      twice under one status, the best rules of every changed path agree, and a pull
      request without changes is of one commit. */
  lemma AcceptedIff(doc: ScopeMap, event: string, base: string, head: string, mergeBase: string, changes: seq<Change>)
    ensures Assemble(doc, event, base, head, mergeBase, changes).Ok? <==>
              && event in {"pull_request", "push", "schedule", "workflow_dispatch", "workflow_call", "release",
                           "merge_group"}
              && IsCommit(base) && IsCommit(head) && IsCommit(mergeBase)
              && (forall c :: c in changes ==> IsWellFormed(c))
              && (forall i, j :: 0 <= i < j < |changes| ==> !Collide(changes[i], changes[j]))
              && (forall c, p :: c in changes && Names(c, p) ==> BestRulesAgree(doc, p))
              && (event == "pull_request" && changes == [] ==> base == head && head == mergeBase)
  {
    hide *;
    AssembledIff(doc, event, base, head, mergeBase, changes);
    EventIff(event);
    CommitIff(base);
    CommitIff(head);
    CommitIff(mergeBase);
    NormalIff(changes);
    ClassifiedIff(doc, changes);
  }

  // ----- The rules that win -----

  /** How much a pattern says: whole literal segments first, then its length. */
  ghost predicate SaysNoMore(o: string, p: string) {
    |LiteralPrefix(o)| < |LiteralPrefix(p)| || (|LiteralPrefix(o)| == |LiteralPrefix(p)| && |o| <= |p|)
  }

  ghost predicate Outranks(a: Decision, b: Decision) {
    (a == Full && b != Full) || (a == Selected && b == SafeIgnore)
  }

  /** One pattern of a rule matches the path and says the most of those that do. */
  lemma {:induction false} SpecificityIs(patterns: seq<string>, path: string) returns (best: string)
    requires exists p :: p in patterns && Matches(path, p)
    ensures best in patterns && Matches(path, best)
    ensures Specificity(patterns, path) == (|LiteralPrefix(best)|, |best|)
    ensures forall p :: p in patterns && Matches(path, p) ==> SaysNoMore(p, best)
  {
    hide Matches, LiteralPrefix;
    var rest := patterns[1..];
    assert forall p :: p in patterns <==> p == patterns[0] || p in rest;
    if exists p :: p in rest && Matches(path, p) {
      best := SpecificityIs(rest, path);
      if Matches(path, patterns[0]) && SaysNoMore(best, patterns[0]) { best := patterns[0]; }
    } else {
      NothingMatches(rest, path);
      best := patterns[0];
    }
  }

  lemma {:induction false} NothingMatches(patterns: seq<string>, path: string)
    requires forall p :: p in patterns ==> !Matches(path, p)
    ensures Specificity(patterns, path) == (-1, -1)
  {
    hide Matches;
    if patterns != [] { NothingMatches(patterns[1..], path); }
  }

  /** A rule wins a path exactly when one of its patterns matches, and every pattern of any
      rule that matches belongs to a rule it outranks, or to one of its own decision while
      saying no more than that pattern. */
  lemma WinnerIff(doc: ScopeMap, path: string, w: Rule)
    ensures IsWinner(doc, path, w) <==>
              && w in doc.rules
              && exists p :: p in w.patterns && Matches(path, p) &&
                   forall q, o :: q in doc.rules && o in q.patterns && Matches(path, o) ==>
                     Outranks(w.decision, q.decision) || (w.decision == q.decision && SaysNoMore(o, p))
  {
    hide Matches, LiteralPrefix, Specificity;
    if w in doc.rules && RuleMatches(w, path) {
      var best := SpecificityIs(w.patterns, path);
      forall q | q in doc.rules && RuleMatches(q, path)
        ensures Yields(q, w, path) <==>
                  Outranks(w.decision, q.decision) ||
                  (w.decision == q.decision &&
                   forall o :: o in q.patterns && Matches(path, o) ==> SaysNoMore(o, best))
      {
        var other := SpecificityIs(q.patterns, path);
        assert SaysNoMore(other, best) ==> forall o :: o in q.patterns && Matches(path, o) ==> SaysNoMore(o, best);
      }
      if p :| p in w.patterns && Matches(path, p) &&
              forall q, o :: q in doc.rules && o in q.patterns && Matches(path, o) ==>
                Outranks(w.decision, q.decision) || (w.decision == q.decision && SaysNoMore(o, p)) {
        assert SaysNoMore(p, best);
      }
    }
  }

  // ----- A copy together with its source -----

  lemma UnmatchedAgree(p: string)
    requires p == "a" || p == "b"
    ensures BestRulesAgree(MAP, p)
  {
    hide LiteralPrefix, Specificity;
    ExamplePieces();
    forall r | r in MAP.rules ensures !RuleMatches(r, p) {
      assert !Matches(p, "f") && !Matches(p, "d/*");
    }
  }

  lemma ExamplePath(p: string)
    requires p == "a" || p == "b"
    ensures IsRepositoryPath(p)
  {
    assert Find(p, '/', 0) == 1 && Split(p) == [p];
  }

  /** What git lists for a modified file and a copy of it: the path occurs twice, under two
      statuses, and the pull request is accepted. */
  lemma CopyWithItsSource() returns (changes: seq<Change>)
    ensures changes == [Change(Modified, None, Some("a")), Change(Copied, Some("a"), Some("b"))]
    ensures Assemble(MAP, "pull_request", SHA, SHA, SHA, changes).Ok?
  {
    hide IsRepositoryPath, BestRulesAgree, Assemble;
    changes := [Change(Modified, None, Some("a")), Change(Copied, Some("a"), Some("b"))];
    UnmatchedAgree("a");
    UnmatchedAgree("b");
    ExamplePath("a");
    ExamplePath("b");
    assert forall i :: 0 <= i < |SHA| ==> SHA[i] == '0';
    AcceptedIff(MAP, "pull_request", SHA, SHA, SHA, changes);
  }
}
