/** A scope map that passes every check, and a pull request for which it selects nothing:
    the premises of the selection theorems can all be met at once. */
module ScopeExample {
  import opened Ordering
  import opened ScopeGlob
  import opened ScopeSelection
  import opened ScopeBuild
  import opened Wrappers

  const SHA: string := "0000000000000000000000000000000000000000"
  const MAP: ScopeMap := ScopeMap(
    map["all" := "spec", "smoke" := "spec/s", "legacy-smoke" := "spec/l"],
    [Rule("full", Full, ["f"], []), Rule("docs", SafeIgnore, ["d/*"], [])],
    ["p"], ["legacy-smoke", "smoke"], ["all"], "spec", false, "f")
  const SPECS: set<string> := {"spec", "spec/s", "spec/l"}

  lemma CompilesTo(ps: seq<Piece>, s: string)
    requires Pattern(ps) == s && forall i :: 0 <= i < |ps| ==> IsWritable(ps, i)
    ensures Pieces(s) == Ok(ps)
  {
    CompileReadsBack(ps);
  }

  lemma ExamplePieces()
    ensures Pieces("f") == Ok([Lit('f')]) && Pieces("p") == Ok([Lit('p')])
            && Pieces("d/*") == Ok([Lit('d'), Lit('/'), AnyRun])
  {
    hide Pieces;
    assert [Lit('d'), Lit('/'), AnyRun][1..] == [Lit('/'), AnyRun] && [Lit('/'), AnyRun][1..] == [AnyRun]
           && [AnyRun][1..] == [];
    assert [Lit('f')][1..] == [] && [Lit('p')][1..] == [];
    CompilesTo([Lit('f')], "f");
    CompilesTo([Lit('p')], "p");
    CompilesTo([Lit('d'), Lit('/'), AnyRun], "d/*");
  }

  lemma ExampleMatches()
    ensures Matches("f", "f") && Matches("d/x", "d/*") && !Matches("d/x", "f")
  {
    ExamplePieces();
    assert "f"[1..] == "";
    assert [Lit('d'), Lit('/'), AnyRun][1..] == [Lit('/'), AnyRun] && [Lit('/'), AnyRun][1..] == [AnyRun];
    assert "d/x"[1..] == "/x" && "/x"[1..] == "x" && "x"[1..] == "";
    assert MatchesPieces([], "");
    assert MatchesPieces([AnyRun], "");
    assert MatchesPieces([AnyRun], "x");
    assert MatchesPieces([Lit('/'), AnyRun], "/x");
  }

  lemma ExampleIsDisjoint()
    ensures !PatternsMayOverlap("d/*", "f") && !PatternsMayOverlap("d/*", "p")
  {
    assert Split("f") == ["f"] && Split("p") == ["p"];
    assert "d/*"[..1] == "d" && "d/*"[2..] == "*";
    assert Find("d/*", '/', 1) == 1;
    assert Split("d/*") == ["d"] + Split("*");
    assert Split("*") == ["*"];
    assert ["f"][1..] == [] && ["p"][1..] == [];
    assert ["d", "*"][1..] == ["*"];
    assert '*' in "*";
    assert LiteralSegments(["*"]) == [];
    assert LiteralPrefix("f") == ["f"] && LiteralPrefix("p") == ["p"] && LiteralPrefix("d/*") == ["d"];
  }

  lemma ExampleRules()
    ensures (forall r :: r in MAP.rules ==> ValidRule(MAP, r)) && SafeBoundaries(MAP)
    ensures (exists r :: r in MAP.rules && r.decision == Full && RuleMatches(r, MAP.switchPath))
            && forall p :: p in MAP.roots ==> Pieces(p).Ok?
  {
    ExamplePieces();
    ExampleMatches();
    ExampleIsDisjoint();
    hide Pieces, Matches, PatternsMayOverlap;
    assert ValidRule(MAP, MAP.rules[0]) && ValidRule(MAP, MAP.rules[1]) && RuleMatches(MAP.rules[0], "f");
  }

  lemma SpecPath(path: string, name: string)
    requires (path == "spec/s" && name == "s") || (path == "spec/l" && name == "l")
    ensures IsRelative("spec") && IsRelative(path)
  {
    assert path[..4] == "spec" && path[5..] == name;
    FindIs(path, '/', 4);
    hide Find;
    assert Split(path) == ["spec"] + Split(name);
    hide Split;
  }

  lemma ExampleScopes()
    ensures forall x :: x in MAP.scopes ==>
              IsName(x) && IsRelative(MAP.scopes[x]) && Beneath(MAP.scopes[x], MAP.fullSpecPath)
              && MAP.scopes[x] in SPECS
  {
    SpecPath("spec/s", "s");
    SpecPath("spec/l", "l");
    hide IsRelative;
  }

  lemma ExampleIsValid()
    ensures ValidMap(MAP, SPECS)
  {
    ExampleRules();
    ExampleScopes();
    hide ValidRule, SafeBoundaries, RuleMatches, Pieces, IsRelative, IsName, Beneath;
  }

  lemma ExampleWinner()
    ensures IsKnown(MAP, "d/x") && (set r | r in MAP.rules && IsWinner(MAP, "d/x", r)) ==
              {Rule("docs", SafeIgnore, ["d/*"], [])}
  {
    ExampleMatches();
    var docs := MAP.rules[1];
    hide Matches, Specificity;
    assert docs.patterns[0] == "d/*";
    assert RuleMatches(docs, "d/x") && !RuleMatches(MAP.rules[0], "d/x");
    assert IsWinner(MAP, "d/x", docs);
  }

  lemma ExampleIsIgnored()
    ensures Classify(MAP, "d/x") == Ok(("docs", Ignore)) && !MAP.forceFull
  {
    ExampleWinner();
    hide InRoots, IsWinner, IsKnown;
    var winners := {Rule("docs", SafeIgnore, ["d/*"], [])};
    assert Signatures(winners) == {(SafeIgnore, [])};
    assert (set r | r in winners :: r.id) == {"docs"};
  }

  lemma OneIgnoredChange(doc: ScopeMap, sha: string, c: Change, p: string)
    requires IsSha(sha) && ValidChange(c) && Identities(c) == {p} && Classify(doc, p).Ok?
             && Classify(doc, p).value.1 == Ignore && !doc.forceFull
    ensures Assemble(doc, "pull_request", sha, sha, sha, [c]).Ok?
            && Assemble(doc, "pull_request", sha, sha, sha, [c]).value.mode == NoneMode
  {
    hide Classify, SortedReasons, Sorted, IsSha, ValidChange, Identities;
    var records := set d | d in [c];
    assert records == {c} && IsNormal([c]) && AllClassified(doc, records);
    assert Reasons(doc, records) == {ReasonFor(doc, c, p)};
  }

  lemma ExampleChange(c: Change)
    requires c == Change(Added, None, Some("d/x"))
    ensures ValidChange(c) && Identities(c) == {"d/x"} && IsSha(SHA)
  {
    assert Find("d/x", '/', 1) == 1;
    assert "d/x"[..1] == "d" && "d/x"[2..] == "x" && Split("x") == ["x"];
    assert Split("d/x") == ["d"] + Split("x");
    assert IsRelative("d/x");
  }

  /** The map is valid, the artifact is built, and it selects nothing. */
  lemma SomethingIsIgnored() returns (doc: ScopeMap, specs: set<string>, changes: seq<Change>, s: Selection)
    ensures ValidMap(doc, specs) && Assemble(doc, "pull_request", SHA, SHA, SHA, changes) == Ok(s) && s.mode == NoneMode
            && changes != []
  {
    doc, specs := MAP, SPECS;
    hide *;
    ExampleIsValid();
    ExampleIsIgnored();
    var c := Change(Added, None, Some("d/x"));
    changes := [c];
    ExampleChange(c);
    OneIgnoredChange(doc, SHA, c, "d/x");
    s := Assemble(doc, "pull_request", SHA, SHA, SHA, changes).value;
  }
}
