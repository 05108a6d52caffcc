/** Building the selection artifact, and the two validators it has to pass
    (scripts/select_e2e_scopes.py, scripts/check_e2e_gate.py). */
module ScopeBuild {
  import opened Ordering
  import opened ScopeSelection
  import opened Wrappers

  // ----- The change set -----

  /** Which sides each status names; present paths are repository-relative. */
  predicate ValidChange(c: Change) {
    && (c.old_.Some? <==> c.status in {Deleted, Renamed, Copied})
    && (c.new_.Some? <==> c.status != Deleted)
    && (c.old_.Some? ==> IsRelative(c.old_.value))
    && (c.new_.Some? ==> IsRelative(c.new_.value))
  }

  function Identities(c: Change): set<string> {
    (if c.old_.Some? then {c.old_.value} else {}) + (if c.new_.Some? then {c.new_.value} else {})
  }

  /** No path is named twice under one status. */
  predicate NoRepeats(changes: seq<Change>) {
    forall i, j :: 0 <= i < j < |changes| && changes[i].status == changes[j].status ==>
                     Identities(changes[i]) !! Identities(changes[j])
  }

  predicate IsNormal(changes: seq<Change>) {
    (forall c :: c in changes ==> ValidChange(c)) && NoRepeats(changes)
  }

  // ----- The reasons -----

  predicate AllClassified(doc: ScopeMap, changes: set<Change>) {
    forall c, p :: c in changes && p in Identities(c) ==> Classify(doc, p).Ok?
  }

  function ReasonFor(doc: ScopeMap, c: Change, p: string): Reason
    requires Classify(doc, p).Ok?
  {
    Reason(p, c, Classify(doc, p).value.0, Classify(doc, p).value.1)
  }

  function Reasons(doc: ScopeMap, changes: set<Change>): set<Reason>
    requires AllClassified(doc, changes)
  {
    set c, p | c in changes && p in Identities(c) :: ReasonFor(doc, c, p)
  }

  function RollbackReasons(changes: set<Change>): set<Reason> {
    set c, p | c in changes && p in Identities(c) :: Reason(p, c, "rollback-force-full", Escalate)
  }

  function Letter(s: Status): char {
    match s case Added => 'A' case Copied => 'C' case Deleted => 'D' case Modified => 'M' case Renamed => 'R'
  }

  /** The sort key (path, status, rule), joined by a character below all others. */
  function Key(r: Reason): string {
    r.path + ['\0', Letter(r.change.status), '\0'] + r.rule
  }

  ghost predicate KeysDistinct(rs: set<Reason>) {
    forall a, b :: a in rs && b in rs && Key(a) == Key(b) ==> a == b
  }

  predicate InOrder(rs: seq<Reason>) {
    forall i, j :: 0 <= i < j < |rs| ==> Leq(Key(rs[i]), Key(rs[j]))
  }

  /** The reasons with these keys, in this order. */
  ghost function Listed(keys: seq<string>, rs: set<Reason>): (l: seq<Reason>)
    requires forall k :: k in keys ==> exists r :: r in rs && Key(r) == k
    ensures |l| == |keys| && forall i :: 0 <= i < |l| ==> l[i] in rs && Key(l[i]) == keys[i]
  {
    if keys == [] then [] else
      assert keys[0] in keys && forall k :: k in keys[1..] ==> k in keys;
      var r :| r in rs && Key(r) == keys[0];
      [r] + Listed(keys[1..], rs)
  }

  ghost function SortedReasons(rs: set<Reason>): (l: seq<Reason>)
    ensures InOrder(l) && forall r :: r in l ==> r in rs
    ensures KeysDistinct(rs) ==> forall r :: r in rs ==> r in l
  {
    var keys := Sorted(set r | r in rs :: Key(r));
    var l := Listed(keys, rs);
    assert forall r :: r in rs ==> Key(r) in keys;
    l
  }

  // ----- Mode, scopes and paths -----

  ghost function ModeOf(doc: ScopeMap, event: string, noChanges: bool, sameCommit: bool,
                        reasons: set<Reason>): Result<Mode, Refusal> {
    if noChanges && event in SELECTIVE_EVENTS && !sameCommit then Err(Invalid)
    else if doc.forceFull && event in SELECTIVE_EVENTS then Ok(FullMode)
    else if event in FULL_EVENTS || noChanges then Ok(FullMode)
    else if exists r :: r in reasons && r.outcome == Escalate then Ok(FullMode)
    else if reasons != {} && forall r :: r in reasons ==> r.outcome == Ignore then Ok(NoneMode)
    else Ok(SelectedMode)
  }

  ghost function SelectedBy(r: Reason): set<string> {
    if r.outcome.Select? then set s | s in r.outcome.scopes else {}
  }

  ghost function ScopesOf(doc: ScopeMap, mode: Mode, reasons: set<Reason>): set<string> {
    match mode
    case FullMode => set s | s in doc.fullScopes
    case NoneMode => {}
    case SelectedMode => (set s | s in doc.always) + set r, s | r in reasons && s in SelectedBy(r) :: s
  }

  ghost function PathsOf(doc: ScopeMap, mode: Mode, scopes: set<string>): set<string> {
    match mode
    case FullMode => {doc.fullSpecPath}
    case NoneMode => {}
    case SelectedMode => set s | s in scopes && s in doc.scopes :: doc.scopes[s]
  }

  /** build_selection before its final validation. */
  ghost function Assemble(doc: ScopeMap, event: string, base: string, head: string, mergeBase: string,
                          changes: seq<Change>): Result<Selection, Refusal> {
    if event !in SELECTIVE_EVENTS + FULL_EVENTS || !IsSha(base) || !IsSha(head) || !IsSha(mergeBase)
       || !IsNormal(changes) then Err(Invalid) else
      var records := set c | c in changes;
      if !AllClassified(doc, records) then Err(Invalid) else
        var reasons := Reasons(doc, records);
        var mode := ModeOf(doc, event, changes == [], base == head == mergeBase, reasons);
        if mode.Err? then Err(Invalid) else
          var shown := if doc.forceFull && event in SELECTIVE_EVENTS then RollbackReasons(records) else reasons;
          var scopes := ScopesOf(doc, mode.value, shown);
          Ok(Selection(mode.value, event, base, head, mergeBase, records, Sorted(scopes),
                       Sorted(PathsOf(doc, mode.value, scopes)), SortedReasons(shown)))
  }

  // ----- The selector's own validator -----

  predicate ValidReasonIdentities(r: Reason) {
    ValidChange(r.change) && IsRelative(r.path) && r.path in Identities(r.change)
  }

  ghost predicate ValidReason(r: Reason, doc: ScopeMap, mode: Mode, scopes: seq<string>) {
    && ValidReasonIdentities(r)
    && (r.rule in {"unknown-production", "unknown-path", "rollback-force-full"} ||
        exists q :: q in doc.rules && q.id == r.rule)
    && (r.outcome.Select? ==> r.outcome.scopes != [] && Ascending(r.outcome.scopes)
                              && forall s :: s in r.outcome.scopes ==> IsName(s) && (mode == FullMode || s in scopes))
  }

  ghost predicate AreSortedNames(s: seq<string>) {
    Ascending(s) && forall x :: x in s ==> IsName(x)
  }

  /** validate_selection */
  ghost predicate ValidSelection(s: Selection, doc: ScopeMap, specs: set<string>) {
    && s.event in SELECTIVE_EVENTS + FULL_EVENTS && IsSha(s.base) && IsSha(s.head) && IsSha(s.mergeBase)
    && AreSortedNames(s.scopes) && AreSortedNames(s.specPaths)
    && (forall x :: x in s.scopes ==> x in doc.scopes || x in doc.fullScopes)
    && InOrder(s.reasons) && (forall r :: r in s.reasons ==> ValidReason(r, doc, s.mode, s.scopes))
    && match s.mode
       case NoneMode => s.scopes == [] && s.specPaths == [] && forall r :: r in s.reasons ==> r.outcome == Ignore
       case FullMode => s.scopes == Sorted(set x | x in doc.fullScopes) && s.specPaths == [doc.fullSpecPath]
            && doc.fullSpecPath in specs
       case SelectedMode =>
         && s.scopes != [] && s.specPaths != [] && (forall x :: x in doc.always ==> x in s.scopes)
         && s.specPaths == Sorted(set x | x in s.scopes && x in doc.scopes :: doc.scopes[x])
         && (forall p :: p in s.specPaths ==> IsRelative(p) && p in specs)
         && exists r, x :: r in s.reasons && x in SelectedBy(r)
  }

  // ----- The gate's validator, which has no scope map -----

  ghost predicate BasicReason(r: Reason, mode: Mode, scopes: seq<string>) {
    && IsPosix(r.path) && (r.change.old_.Some? ==> IsPosix(r.change.old_.value))
       && (r.change.new_.Some? ==> IsPosix(r.change.new_.value))
    && (r.change.old_.Some? <==> r.change.status in {Deleted, Renamed, Copied})
    && (r.change.new_.Some? <==> r.change.status != Deleted)
    && r.path in Identities(r.change) && IsToken(r.rule)
    && (r.outcome.Select? ==> r.outcome.scopes != [] && AreSortedNames(r.outcome.scopes)
                              && (mode == FullMode || forall s :: s in r.outcome.scopes ==> s in scopes))
  }

  /** _basic_selection */
  ghost predicate BasicSelection(s: Selection) {
    && s.event in SELECTIVE_EVENTS + FULL_EVENTS && IsSha(s.base) && IsSha(s.head) && IsSha(s.mergeBase)
    && AreSortedNames(s.scopes) && AreSortedNames(s.specPaths)
    && InOrder(s.reasons) && (forall r :: r in s.reasons ==> BasicReason(r, s.mode, s.scopes))
    && match s.mode
       case NoneMode => s.scopes == [] && s.specPaths == [] && forall r :: r in s.reasons ==> r.outcome == Ignore
       case FullMode => s.scopes == ["all"] && s.specPaths == ["spec"]
       case SelectedMode =>
         && s.scopes != [] && s.specPaths != [] && s.reasons != [] && "legacy-smoke" in s.scopes && "smoke" in s.scopes
         && forall p :: p in s.specPaths ==> IsPosix(p) && Beneath(p, "spec")
  }
}
