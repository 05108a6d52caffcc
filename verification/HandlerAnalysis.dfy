/** The analysis as the source computes it, with sets built up in loops. */
module HandlerAnalysis {
  import opened HandlerPaths

  method AnalyseBlock(statements: seq<Stmt>, initial: set<Path>, bound: string) returns (paths: set<Path>)
    ensures paths == BlockPaths(statements, initial, bound, false)
    decreases statements, 0
  {
    paths := initial;
    for i := 0 to |statements|
      invariant BlockPaths(statements[i..], paths, bound, false) == BlockPaths(statements, initial, bound, false)
    {
      var statement := statements[i];
      assert statements[i..][1..] == statements[i + 1..];
      if statement.Docstring? { continue; }
      var nextPaths := {};
      var rest := paths;
      while rest != {}
        invariant rest <= paths && nextPaths == Through(statement, paths - rest, bound, false)
      {
        var p :| p in rest;
        assert paths - (rest - {p}) == (paths - rest) + {p};
        rest := rest - {p};
        if p.outcome != Fallthrough {
          nextPaths := nextPaths + {p};
        } else {
          var after := AnalyseStatement(statement, p.logged, bound);
          nextPaths := nextPaths + after;
        }
      }
      assert paths - rest == paths;
      paths := nextPaths;
    }
  }

  method AnalyseStatement(s: Stmt, logged: bool, bound: string) returns (paths: set<Path>)
    ensures paths == StmtPaths(s, logged, bound, false)
    decreases s, 2
  {
    match s
    case RaiseStmt(exc) => paths := {Path(if IsReraise(exc, bound) then Reraise else Raise, logged)};
    case ReturnStmt => paths := {Path(Return, logged)};
    case BreakStmt => paths := {Path(Break, logged)};
    case ContinueStmt => paths := {Path(Continue, logged)};
    case If(test, body, orelse) =>
      paths := {};
      if test != False { paths := AnalyseBlock(body, {Path(Fallthrough, logged)}, bound); }
      if test != True {
        var other := AnalyseBlock(orelse, {Path(Fallthrough, logged)}, bound);
        paths := paths + other;
      }
    case Loop(_, _) => paths := AnalyseLoop(s, logged, bound);
    case With(body) => paths := AnalyseBlock(body, {Path(Fallthrough, logged)}, bound);
    case Try(_, _, _, _, _) => paths := AnalyseTry(s, logged, bound);
    case Match(_) => paths := AnalyseMatch(s, logged, bound);
    case Simple(logs) => paths := {Path(Fallthrough, logged || logs)};
    case _ => paths := {Path(Fallthrough, logged)};
  }

  method AnalyseLoop(s: Stmt, logged: bool, bound: string) returns (paths: set<Path>)
    requires s.Loop?
    ensures paths == StmtPaths(s, logged, bound, false)
    decreases s, 1
  {
    var normalPaths, breakPaths, terminalPaths := {Path(Fallthrough, logged)}, {}, {};
    var bodyPaths := AnalyseBlock(s.body, {Path(Fallthrough, logged)}, bound);
    assert bodyPaths == From(s.body, logged, bound, false);
    hide From, BlockPaths;
    var rest := bodyPaths;
    while rest != {}
      invariant rest <= bodyPaths
      invariant normalPaths == LoopNormal(bodyPaths - rest, logged)
      invariant breakPaths == LoopBroken(bodyPaths - rest)
      invariant terminalPaths == LoopTerminal(bodyPaths - rest)
    {
      var p :| p in rest;
      LoopOne(bodyPaths - rest, p, logged);
      assert bodyPaths - (rest - {p}) == (bodyPaths - rest) + {p};
      rest := rest - {p};
      if p.outcome == Break {
        breakPaths := breakPaths + {Path(Fallthrough, p.logged)};
      } else if p.outcome in {Fallthrough, Continue} {
        normalPaths := normalPaths + {Path(Fallthrough, p.logged)};
      } else {
        terminalPaths := terminalPaths + {p};
      }
    }
    assert bodyPaths - rest == bodyPaths;
    var afterElse := normalPaths;
    if s.orelse != [] { afterElse := AnalyseBlock(s.orelse, normalPaths, bound); }
    assert afterElse == BlockPaths(s.orelse, normalPaths, bound, false) by { EmptyBlock(normalPaths, bound); }
    paths := terminalPaths + breakPaths + afterElse;
  }

  lemma EmptyBlock(paths: set<Path>, bound: string)
    ensures BlockPaths([], paths, bound, false) == paths
  {
  }

  lemma LoopOne(paths: set<Path>, p: Path, logged: bool)
    ensures LoopNormal(paths + {p}, logged) == LoopNormal(paths, logged)
            + (if p.outcome in {Fallthrough, Continue} then {Path(Fallthrough, p.logged)} else {})
    ensures LoopBroken(paths + {p}) ==
              LoopBroken(paths) + (if p.outcome == Break then {Path(Fallthrough, p.logged)} else {})
    ensures LoopTerminal(paths + {p}) ==
              LoopTerminal(paths) + (if p.outcome in {Fallthrough, Continue, Break} then {} else {p})
  {
    var all := paths + {p};
    assert forall q :: q in all <==> q in paths || q == p;
    assert forall q :: q in LoopNormal(all, logged) ==>
             q in LoopNormal(paths, logged)
             || (p.outcome in {Fallthrough, Continue} && q == Path(Fallthrough, p.logged));
    assert forall q :: q in LoopBroken(all) ==>
             q in LoopBroken(paths) || (p.outcome == Break && q == Path(Fallthrough, p.logged));
    assert p in all;
  }

  method ApplyFinally(paths: set<Path>, finalbody: seq<Stmt>, bound: string) returns (result: set<Path>)
    ensures result == FinallyPaths(paths, finalbody, bound, false)
    decreases finalbody, 1
  {
    if finalbody == [] { return paths; }
    result := {};
    var rest := paths;
    assert FinallyPaths({}, finalbody, bound, false) == {};
    assert paths - rest == {};
    hide FinallyPaths, After;
    while rest != {}
      invariant rest <= paths && result == FinallyPaths(paths - rest, finalbody, bound, false)
    {
      var p :| p in rest;
      assert paths - (rest - {p}) == (paths - rest) + {p};
      rest := rest - {p};
      var finalPaths := AnalyseBlock(finalbody, {Path(Fallthrough, p.logged)}, bound);
      FromIs(finalbody, p.logged, bound);
      hide From, BlockPaths;
      result := result + After(p, finalPaths);
    }
    assert paths - rest == paths;
  }

  method AnalyseHandlers(s: Stmt, logged: bool, bound: string) returns (paths: set<Path>)
    requires s.Try?
    ensures paths == ProtectingPaths(s.handlers, logged, bound)
    decreases s, 0
  {
    paths := {};
    hide BlockPaths;
    for i := 0 to |s.handlers|
      invariant paths == ProtectingPaths(s.handlers[..i], logged, bound)
    {
      var h := s.handlers[i];
      assert h in s.handlers;
      assert s.handlers[..i + 1] == s.handlers[..i] + [h];
      var handlerPaths := AnalyseBlock(h.body, {Path(Fallthrough, logged)}, BoundIn(h, bound));
      FromIs(h.body, logged, BoundIn(h, bound));
      hide From, ProtectingPaths, BoundIn;
      paths := paths + handlerPaths;
    }
    assert s.handlers[..|s.handlers|] == s.handlers;
  }

  lemma TryPathsAre(s: Stmt, logged: bool, bound: string)
    requires s.Try?
    ensures var body := From(s.body, logged, bound, false);
            TryPaths(s, logged, bound, false) ==
            (body - FellThrough(body)) + BlockPaths(s.orelse, FellThrough(body), bound, false) +
            ProtectingPaths(s.handlers, logged, bound) + (if s.handlers == [] then {Path(Raise, logged)} else {})
  {
    hide From, BlockPaths;
  }

  lemma TryIs(s: Stmt, logged: bool, bound: string)
    requires s.Try?
    ensures StmtPaths(s, logged, bound, false) ==
              FinallyPaths(TryPaths(s, logged, bound, false), s.finalbody, bound, false)
  {
    hide FinallyPaths, TryPaths;
  }

  method AnalyseTry(s: Stmt, logged: bool, bound: string) returns (paths: set<Path>)
    requires s.Try?
    ensures paths == StmtPaths(s, logged, bound, false)
    decreases s, 1
  {
    hide *;
    TryIs(s, logged, bound);
    TryPathsAre(s, logged, bound);
    var bodyPaths := AnalyseBlock(s.body, {Path(Fallthrough, logged)}, bound);
    FromIs(s.body, logged, bound);
    var normal := set p | p in bodyPaths && p.outcome == Fallthrough;
    FellThroughIs(bodyPaths, normal);
    paths := bodyPaths - normal;
    var afterElse := normal;
    EmptyBlock(normal, bound);
    if s.orelse != [] { afterElse := AnalyseBlock(s.orelse, normal, bound); }
    paths := paths + afterElse;
    var handlerPaths := AnalyseHandlers(s, logged, bound);
    paths := paths + handlerPaths;
    if s.handlers == [] { paths := paths + {Path(Raise, logged)}; }
    assert paths == TryPaths(s, logged, bound, false);
    paths := ApplyFinally(paths, s.finalbody, bound);
  }

  lemma FellThroughIs(paths: set<Path>, normal: set<Path>)
    requires forall p :: p in normal <==> p in paths && p.outcome == Fallthrough
    ensures normal == FellThrough(paths)
  {
  }

  lemma FromIs(ss: seq<Stmt>, logged: bool, bound: string)
    ensures From(ss, logged, bound, false) == BlockPaths(ss, {Path(Fallthrough, logged)}, bound, false)
  {
  }

  ghost function ProtectingPaths(handlers: seq<Handler>, logged: bool, bound: string): set<Path> {
    set h, p | h in handlers && p in From(h.body, logged, BoundIn(h, bound), false) :: p
  }

  ghost function CasePaths(cases: seq<Case>, logged: bool, bound: string): set<Path> {
    set c, p | c in cases && p in From(c.body, logged, bound, false) :: p
  }

  method AnalyseMatch(s: Stmt, logged: bool, bound: string) returns (paths: set<Path>)
    requires s.Match?
    ensures paths == StmtPaths(s, logged, bound, false)
    decreases s, 1
  {
    paths := {};
    var hasCatchAll := false;
    for i := 0 to |s.cases|
      invariant paths == CasePaths(s.cases[..i], logged, bound)
      invariant hasCatchAll <==> exists c :: c in s.cases[..i] && c.catchAll
    {
      var c := s.cases[i];
      assert c in s.cases;
      assert s.cases[..i + 1] == s.cases[..i] + [c];
      if c.catchAll { hasCatchAll := true; }
      var casePaths := AnalyseBlock(c.body, {Path(Fallthrough, logged)}, bound);
      assert casePaths == From(c.body, logged, bound, false);
      hide From, BlockPaths;
      paths := paths + casePaths;
    }
    assert s.cases[..|s.cases|] == s.cases;
    if !hasCatchAll { paths := paths + {Path(Fallthrough, logged)}; }
  }

  method Classify(statements: seq<Stmt>, bound: string) returns (class_: Class)
    ensures class_ == ClassifyBody(statements, bound, false)
  {
    if forall s :: s in statements ==> s.Docstring? || s.Pass? { return PassOnly; }
    var paths := AnalyseBlock(statements, {Path(Fallthrough, false)}, bound);
    FromIs(statements, false, bound);
    hide From, BlockPaths;
    class_ := Reduce(paths);
  }

  method Reduce(paths: set<Path>) returns (class_: Class)
    ensures class_ == ClassOf(paths)
  {
    var outcomes := set p | p in paths :: p.outcome;
    OutcomesOf(paths, outcomes);
    if outcomes != {} && outcomes <= {Reraise, Raise} {
      if outcomes == {Reraise} { return CleanupReraise; }
      return if forall p :: p in paths ==> p.logged then LogAndRaise else RaiseClass;
    }
    var swallowing := set p | p in paths && p.outcome in {Fallthrough, Return, Break, Continue};
    assert forall p :: p in swallowing <==> p in paths && !Propagates(p.outcome);
    return if swallowing != {} && forall p :: p in swallowing ==> p.logged then LogOnly else Silent;
  }

  lemma OutcomesOf(paths: set<Path>, outcomes: set<Outcome>)
    requires outcomes == set p | p in paths :: p.outcome
    ensures outcomes == {} <==> paths == {}
    ensures outcomes <= {Reraise, Raise} <==> forall p :: p in paths ==> Propagates(p.outcome)
    ensures outcomes <= {Reraise} <==> forall p :: p in paths ==> p.outcome == Reraise
  {
    assert forall p :: p in paths ==> p.outcome in outcomes;
  }
}
