/** What a handler's class says about its runs. */
module HandlerVerdicts {
  import opened HandlerPaths
  import opened HandlerRuns

  // ----- Every path is the path of a run -----

  lemma {:induction false} BlockComplete(ss: seq<Stmt>, paths: set<Path>, bound: string, full: bool, all: bool, p: Path)
    returns (p0: Path)
    requires p in BlockPaths(ss, paths, bound, full) && (full ==> all)
    ensures p0 in paths
    ensures if p0.outcome.Fallthrough? then RunsBlock(ss, bound, all, p0.logged, EndOf(p.outcome), p.logged)
            else p == p0
    decreases ss, 0
  {
    if ss == [] {
      p0 := p;
    } else {
      var next := if ss[0].Docstring? then paths else Through(ss[0], paths, bound, full);
      var q := BlockComplete(ss[1..], next, bound, full, all, p);
      if q in paths && (ss[0].Docstring? || !q.outcome.Fallthrough?) {
        p0 := q;
        if q.outcome.Fallthrough? { assert Runs(ss[0], bound, all, q.logged, Done, q.logged); }
      } else {
        var l := Path(Fallthrough, false) !in paths || q !in StmtPaths(ss[0], false, bound, full);
        StmtComplete(ss[0], l, bound, full, all, q);
        p0 := Path(Fallthrough, l);
        assert Runs(ss[0], bound, all, l, EndOf(q.outcome), q.logged);
      }
    }
  }

  lemma {:induction false} FromComplete(ss: seq<Stmt>, l: bool, bound: string, full: bool, all: bool, p: Path)
    requires p in From(ss, l, bound, full) && (full ==> all)
    ensures RunsBlock(ss, bound, all, l, EndOf(p.outcome), p.logged)
    decreases ss, 1
  {
    var _ := BlockComplete(ss, {Path(Fallthrough, l)}, bound, full, all, p);
  }

  lemma {:induction false} StmtComplete(s: Stmt, l: bool, bound: string, full: bool, all: bool, p: Path)
    requires p in StmtPaths(s, l, bound, full) && (full ==> all)
    ensures Runs(s, bound, all, l, EndOf(p.outcome), p.logged)
    decreases s, 3
  {
    hide From, BlockPaths, TryPaths, FinallyPaths, RunsBlock, RunsTry, RunsLoop, LoopTerminal, LoopBroken, LoopNormal;
    match s
    case If(test, body, orelse) =>
      if !test.False? && p in From(body, l, bound, full) {
        FromComplete(body, l, bound, full, all, p);
      } else {
        FromComplete(orelse, l, bound, full, all, p);
      }
    case Loop(_, _) => LoopComplete(s, l, bound, full, all, p);
    case With(body) => FromComplete(body, l, bound, full, all, p);
    case Try(_, _, _, _, _) => FinallyComplete(s, l, bound, full, all, p);
    case Match(cases) =>
      if c :| c in cases && p in From(c.body, l, bound, full) { FromComplete(c.body, l, bound, full, all, p); }
    case _ =>
  }

  lemma {:induction false} LoopComplete(s: Stmt, l: bool, bound: string, full: bool, all: bool, p: Path)
    requires s.Loop? && p in StmtPaths(s, l, bound, full) && (full ==> all)
    ensures Runs(s, bound, all, l, EndOf(p.outcome), p.logged)
    decreases s, 2
  {
    hide From, RunsBlock, BlockPaths;
    var e, m := EndOf(p.outcome), p.logged;
    var body := From(s.body, l, bound, full);
    if p in LoopTerminal(body) {
      FromComplete(s.body, l, bound, full, all, p);
      assert RunsLoop(s, bound, all, 1, l, e, m);
    } else if p in LoopBroken(body) {
      FromComplete(s.body, l, bound, full, all, Path(Break, m));
      assert RunsLoop(s, bound, all, 1, l, e, m);
    } else {
      var p0 := BlockComplete(s.orelse, LoopNormal(body, l), bound, full, all, p);
      assert RunsLoop(s, bound, all, 0, p0.logged, e, m);
      if p0.logged != l {
        var q := if Path(Continue, p0.logged) in body then Path(Continue, p0.logged) else Path(Fallthrough, p0.logged);
        FromComplete(s.body, l, bound, full, all, q);
        assert RunsLoop(s, bound, all, 1, l, e, m);
      }
    }
  }

  lemma {:induction false} HandlerRunsFrom(s: Stmt, bound: string, all: bool, i: nat, j: nat, l: bool, e: End, m: bool)
    requires s.Try? && i <= j < |s.handlers|
    requires RunsBlock(s.handlers[j].body, NameIn(s.handlers[j], bound), all, l, e, m)
    ensures RunsHandlers(s, bound, all, i, l, e, m)
    decreases j - i
  {
    if i < j { HandlerRunsFrom(s, bound, all, i + 1, j, l, e, m); }
  }

  lemma TryRun(s: Stmt, bound: string, all: bool, l: bool, e1: End, m1: bool, e: End, m: bool)
    requires s.Try? && RunsBlock(s.body, bound, all, l, e1, m1)
    requires if e1 == Done then RunsBlock(s.orelse, bound, all, m1, e, m)
             else (e1 != Failed && e == e1 && m == m1) || (Raises(e1) && RunsHandlers(s, bound, all, 0, m1, e, m))
                  || (e1 == Failed && (s.handlers == [] || all) && e == RaisedAnew && m == m1)
    ensures RunsTry(s, bound, all, l, e, m)
  {
  }

  lemma BodyMayFail(body: seq<Stmt>, bound: string, all: bool, l: bool)
    ensures RunsBlock(body, bound, all, l, Failed, l)
  {
  }

  lemma TryPathFrom(s: Stmt, l: bool, bound: string, full: bool, p: Path)
    requires s.Try? && p in TryPaths(s, l, bound, full)
    ensures var body := From(s.body, l, bound, full);
            || p in body - FellThrough(body)
            || p in BlockPaths(s.orelse, FellThrough(body), bound, full)
            || (exists h :: h in s.handlers && p in From(h.body, l, BoundIn(h, bound), full))
            || (p == Path(Raise, l) && (s.handlers == [] || full))
  {
    hide From, BlockPaths, FellThrough;
  }

  lemma {:induction false} TryComplete(s: Stmt, l: bool, bound: string, full: bool, all: bool, p: Path)
    requires s.Try? && p in TryPaths(s, l, bound, full) && (full ==> all)
    ensures RunsTry(s, bound, all, l, EndOf(p.outcome), p.logged)
    decreases s, 1
  {
    hide From, RunsBlock, BlockPaths, RunsTry, RunsHandlers, TryPaths, StmtPaths, Runs;
    var body := From(s.body, l, bound, full);
    var e, m := EndOf(p.outcome), p.logged;
    TryPathFrom(s, l, bound, full, p);
    BodyMayFail(s.body, bound, all, l);
    if p in body - FellThrough(body) {
      FromComplete(s.body, l, bound, full, all, p);
      TryRun(s, bound, all, l, e, m, e, m);
    } else if p in BlockPaths(s.orelse, FellThrough(body), bound, full) {
      ElseComplete(s, l, bound, full, all, p);
    } else if h :| h in s.handlers && p in From(h.body, l, BoundIn(h, bound), full) {
      HandlerComplete(s, h, l, bound, full, all, p);
    } else {
      TryRun(s, bound, all, l, Failed, l, e, m);
    }
  }

  lemma {:induction false} HandlerComplete(s: Stmt, h: Handler, l: bool, bound: string, full: bool, all: bool, p: Path)
    requires s.Try? && h in s.handlers && p in From(h.body, l, BoundIn(h, bound), full) && (full ==> all)
    ensures RunsTry(s, bound, all, l, EndOf(p.outcome), p.logged)
    decreases s, 0
  {
    BodyMayFail(s.body, bound, all, l);
    hide From, RunsBlock, RunsTry, RunsHandlers;
    assert NameIn(h, bound) == BoundIn(h, bound);
    var j :| 0 <= j < |s.handlers| && s.handlers[j] == h;
    FromComplete(h.body, l, BoundIn(h, bound), full, all, p);
    HandlerRunsFrom(s, bound, all, 0, j, l, EndOf(p.outcome), p.logged);
    TryRun(s, bound, all, l, Failed, l, EndOf(p.outcome), p.logged);
  }

  lemma {:induction false} ElseComplete(s: Stmt, l: bool, bound: string, full: bool, all: bool, p: Path)
    requires s.Try? && p in BlockPaths(s.orelse, FellThrough(From(s.body, l, bound, full)), bound, full)
    requires full ==> all
    ensures RunsTry(s, bound, all, l, EndOf(p.outcome), p.logged)
    decreases s, 0
  {
    hide From, RunsBlock, BlockPaths, RunsTry;
    var p0 := BlockComplete(s.orelse, FellThrough(From(s.body, l, bound, full)), bound, full, all, p);
    FromComplete(s.body, l, bound, full, all, p0);
    TryRun(s, bound, all, l, Done, p0.logged, EndOf(p.outcome), p.logged);
  }

  lemma TryStatementRun(s: Stmt, bound: string, all: bool, l: bool, e1: End, m1: bool, e2: End, m: bool)
    requires s.Try? && RunsTry(s, bound, all, l, e1, m1) && RunsBlock(s.finalbody, bound, all, m1, e2, m)
    ensures Runs(s, bound, all, l, Overridden(e1, e2, all), m)
  {
    hide RunsTry, RunsBlock;
  }

  lemma OverriddenFrom(paths: set<Path>, finalbody: seq<Stmt>, bound: string, full: bool, p: Path)
    returns (p1: Path, q: Path)
    requires finalbody != [] && p in FinallyPaths(paths, finalbody, bound, full)
    ensures p1 in paths && q in From(finalbody, p1.logged, bound, full)
    ensures p.logged == q.logged && EndOf(p.outcome) == if EndOf(q.outcome) == Done then EndOf(p1.outcome)
                                                        else EndOf(q.outcome)
  {
    hide From;
    p1 :| p1 in paths && p in After(p1, From(finalbody, p1.logged, bound, full));
    q :| q in From(finalbody, p1.logged, bound, full) && p == Path(Override(p1.outcome, q.outcome), q.logged);
  }

  lemma {:induction false} FinallyComplete(s: Stmt, l: bool, bound: string, full: bool, all: bool, p: Path)
    requires s.Try? && p in FinallyPaths(TryPaths(s, l, bound, full), s.finalbody, bound, full) && (full ==> all)
    ensures Runs(s, bound, all, l, EndOf(p.outcome), p.logged)
    decreases s, 2
  {
    hide From, TryPaths, RunsTry, StmtPaths, BlockPaths, RunsBlock, Runs, EndOf;
    var paths := TryPaths(s, l, bound, full);
    if s.finalbody == [] {
      NothingRuns(bound, all, p.logged);
      TryComplete(s, l, bound, full, all, p);
      TryStatementRun(s, bound, all, l, EndOf(p.outcome), p.logged, Done, p.logged);
    } else {
      var p1, q := OverriddenFrom(paths, s.finalbody, bound, full, p);
      TryComplete(s, l, bound, full, all, p1);
      FromComplete(s.finalbody, p1.logged, bound, full, all, q);
      NeverFailed(p1.outcome);
      TryStatementRun(s, bound, all, l, EndOf(p1.outcome), p1.logged, EndOf(q.outcome), q.logged);
    }
  }

  lemma NothingRuns(bound: string, all: bool, l: bool)
    ensures RunsBlock([], bound, all, l, Done, l)
  {
  }

  lemma NeverFailed(o: Outcome)
    ensures EndOf(o) != Failed
  {
  }

  // ----- What the classes mean -----

  /** On some run the failure is not passed on. */
  ghost predicate MaySwallow(body: seq<Stmt>, bound: string) {
    exists e, m :: RunsBlock(body, bound, true, false, e, m) && Swallows(e)
  }

  /** On every run, the failure is passed on or a log was made. */
  ghost predicate SwallowsLogged(body: seq<Stmt>, bound: string) {
    forall e, m :: RunsBlock(body, bound, true, false, e, m) && Swallows(e) ==> m
  }

  lemma {:induction false} PassOnlySwallows(body: seq<Stmt>, bound: string, all: bool)
    requires IsPassOnly(body)
    ensures RunsBlock(body, bound, all, false, Done, false)
  {
    if body != [] {
      assert body[0] in body && forall s :: s in body[1..] ==> s in body;
      PassOnlySwallows(body[1..], bound, all);
      assert Runs(body[0], bound, all, false, Done, false);
    }
  }

  lemma PathSwallows(body: seq<Stmt>, bound: string, full: bool, p: Path)
    requires p in From(body, false, bound, full) && !Propagates(p.outcome)
    ensures RunsBlock(body, bound, true, false, EndOf(p.outcome), p.logged) && Swallows(EndOf(p.outcome))
  {
    FromComplete(body, false, bound, full, true, p);
  }

  /** A handler is classed as propagating exactly when no run of it swallows: whatever
      raises, however often loops turn, whichever handlers match. */
  lemma PropagatingIffNeverSwallows(body: seq<Stmt>, bound: string, full: bool)
    ensures IsPropagating(ClassifyBody(body, bound, full)) <==> !MaySwallow(body, bound)
  {
    hide From, RunsBlock;
    var paths := From(body, false, bound, full);
    if IsPassOnly(body) {
      PassOnlySwallows(body, bound, true);
    } else if p :| p in paths && !Propagates(p.outcome) {
      PathSwallows(body, bound, full, p);
    } else {
      forall e, m | RunsBlock(body, bound, true, false, e, m) ensures !Swallows(e) {
        FromSound(body, false, bound, full, true, false, false, e, m);
      }
    }
  }

  /** With no escaping finally block, a handler classed log-only logs on every run on
      which it swallows. */
  lemma LogOnlyLogs(body: seq<Stmt>, bound: string)
    requires ClassifyBody(body, bound, false) == LogOnly && ContainedBlock(body, bound)
    ensures SwallowsLogged(body, bound)
  {
    hide From, RunsBlock, ContainedBlock;
    forall e, m | RunsBlock(body, bound, true, false, e, m) && Swallows(e) ensures m {
      FromSound(body, false, bound, false, true, true, false, e, m);
    }
  }

  /** The full path sets are exact: log-only on them is the property itself. */
  lemma FullLogOnlyIsExact(body: seq<Stmt>, bound: string)
    ensures ClassifyBody(body, bound, true) == LogOnly <==> MaySwallow(body, bound) && SwallowsLogged(body, bound)
  {
    hide From, RunsBlock;
    var paths := From(body, false, bound, true);
    if IsPassOnly(body) {
      PassOnlySwallows(body, bound, true);
    } else {
      PropagatingIffNeverSwallows(body, bound, true);
      forall e, m | RunsBlock(body, bound, true, false, e, m) && Swallows(e)
        ensures exists p :: p in paths && !Propagates(p.outcome) && (p.logged ==> m)
      {
        FromSound(body, false, bound, true, true, true, false, e, m);
        var p :| p in paths && EndOf(p.outcome) == e && (p.logged ==> m);
        assert !Propagates(p.outcome);
      }
      forall p | p in paths && !Propagates(p.outcome)
        ensures RunsBlock(body, bound, true, false, EndOf(p.outcome), p.logged) && Swallows(EndOf(p.outcome))
      {
        PathSwallows(body, bound, true, p);
      }
    }
  }

  /** The source's log-only verdict is right exactly when restoring the dropped path
      does not change it. */
  lemma LogOnlyIsRightIff(body: seq<Stmt>, bound: string)
    requires ClassifyBody(body, bound, false) == LogOnly
    ensures SwallowsLogged(body, bound) <==> ClassifyBody(body, bound, true) == LogOnly
  {
    FullLogOnlyIsExact(body, bound);
    PropagatingIffNeverSwallows(body, bound, false);
  }

  /** It can be wrong: the protected call and the handler both log, but an exception
      that no handler takes meets the return in the finally block. */
  lemma LogOnlyCanBeSilent(bound: string) returns (body: seq<Stmt>)
    ensures ClassifyBody(body, bound, false) == LogOnly && !SwallowsLogged(body, bound)
  {
    var log, ret := [Simple(true)], [ReturnStmt];
    var s := Try(false, log, [Handler("", log)], [], ret);
    body := [s];
    hide *;
    LoggedTry(s, bound);
    OnePathClass(s, bound);
    SilentReturn(s, bound);
  }

  lemma OnePathClass(s: Stmt, bound: string)
    requires StmtPaths(s, false, bound, false) == {Path(Return, true)} && s.Try?
    ensures ClassifyBody([s], bound, false) == LogOnly
  {
    OnePath(s, false, bound, Path(Return, true));
    hide From, StmtPaths;
    assert s in [s] && Path(Return, true) in {Path(Return, true)};
  }

  lemma LoggedBeforeFinally(s: Stmt, bound: string)
    requires s.Try? && s.body == [Simple(true)] && s.handlers == [Handler("", [Simple(true)])] && s.orelse == []
    ensures TryPaths(s, false, bound, false) == {Path(Fallthrough, true)}
  {
    var logged := {Path(Fallthrough, true)};
    OnePath(Simple(true), false, bound, Path(Fallthrough, true));
    assert s.handlers[0] in s.handlers && BoundIn(s.handlers[0], bound) == bound;
    assert FellThrough(logged) == logged && BlockPaths([], logged, bound, false) == logged;
    hide From, BlockPaths;
  }

  /** The analysis sees one path: it has logged, and returns. */
  lemma LoggedTry(s: Stmt, bound: string)
    requires s == Try(false, [Simple(true)], [Handler("", [Simple(true)])], [], [ReturnStmt])
    ensures StmtPaths(s, false, bound, false) == {Path(Return, true)}
  {
    LoggedBeforeFinally(s, bound);
    ReturnOverrides(bound);
    hide From, BlockPaths, TryPaths, FinallyPaths;
  }

  lemma ReturnOverrides(bound: string)
    ensures FinallyPaths({Path(Fallthrough, true)}, [ReturnStmt], bound, false) == {Path(Return, true)}
  {
    OnePath(ReturnStmt, true, bound, Path(Return, true));
    hide From;
    assert After(Path(Fallthrough, true), {Path(Return, true)}) == {Path(Return, true)};
  }

  /** The run on which nothing is logged. */
  lemma SilentReturn(s: Stmt, bound: string)
    requires s == Try(false, [Simple(true)], [Handler("", [Simple(true)])], [], [ReturnStmt])
    ensures RunsBlock([s], bound, true, false, Returned, false)
    ensures !SwallowsLogged([s], bound)
  {
    BodyMayFail(s.body, bound, true, false);
    TryRun(s, bound, true, false, Failed, false, RaisedAnew, false);
    OneStatement(ReturnStmt, bound, false, Returned, false);
    OneStatement(s, bound, false, Returned, false);
  }

  lemma OnePath(s: Stmt, l: bool, bound: string, p: Path)
    requires StmtPaths(s, l, bound, false) == {p} && !s.Docstring?
    ensures From([s], l, bound, false) == {p}
  {
    assert Through(s, {Path(Fallthrough, l)}, bound, false) == {p};
    assert [s][1..] == [] && BlockPaths([], {p}, bound, false) == {p};
  }

  lemma OneStatement(s: Stmt, bound: string, l: bool, e: End, m: bool)
    requires Runs(s, bound, true, l, e, m)
    ensures RunsBlock([s], bound, true, l, e, m)
  {
    assert [s][1..] == [] && RunsBlock([], bound, true, m, Done, m);
    assert Runs([s][0], bound, true, l, e, m);
  }

  // ----- Each class -----

  /** A run that no exception of its own making has ended: with `all` false, on which an
      exception that a `try` with handlers meets is taken by one of them. */
  ghost predicate IsRun(body: seq<Stmt>, bound: string, all: bool, e: End, m: bool) {
    RunsBlock(body, bound, all, false, e, m) && e != Failed
  }

  /** What each class says of the runs. With `full` false this is the source's class: a
      body is pass-only when it does nothing, and cleanup-reraise when all its runs end by
      passing the failure on; else log-and-raise or raise when all raise, by whether all
      have logged; log-only when each that swallows has logged, and silent otherwise. */
  lemma ClassIsExact(body: seq<Stmt>, bound: string, full: bool)
    ensures var c := ClassifyBody(body, bound, full);
            && (c == PassOnly <==> forall s :: s in body ==> s.Docstring? || s.Pass?)
            && (c == CleanupReraise <==> forall e, m :: IsRun(body, bound, full, e, m) ==> e == Reraised)
            && (c == LogAndRaise <==>
                  && (forall e, m :: IsRun(body, bound, full, e, m) ==> (e == Reraised || e == RaisedAnew) && m)
                  && exists e, m :: IsRun(body, bound, full, e, m) && e == RaisedAnew)
            && (c == RaiseClass <==>
                  && (forall e, m :: IsRun(body, bound, full, e, m) ==> e == Reraised || e == RaisedAnew)
                  && (exists e, m :: IsRun(body, bound, full, e, m) && e == RaisedAnew)
                  && exists e, m :: IsRun(body, bound, full, e, m) && !m)
            && (c == LogOnly <==>
                  && (exists e, m :: IsRun(body, bound, full, e, m) && e != Reraised && e != RaisedAnew)
                  && forall e, m :: IsRun(body, bound, full, e, m) && e != Reraised && e != RaisedAnew ==> m)
            && (c == Silent <==>
                  && (exists s :: s in body && !s.Docstring? && !s.Pass?)
                  && exists e, m :: IsRun(body, bound, full, e, m) && e != Reraised && e != RaisedAnew && !m)
  {
    hide From, RunsBlock;
    if IsPassOnly(body) {
      PassOnlySwallows(body, bound, full);
      assert IsRun(body, bound, full, Done, false);
    } else {
      PathsAreRuns(body, bound, full);
      ClassOfRuns(body, bound, full, From(body, false, bound, full));
    }
  }

  /** The paths are exactly the runs, up to logs that a run makes beyond its path. */
  ghost predicate AreRuns(body: seq<Stmt>, bound: string, full: bool, paths: set<Path>) {
    && paths != {}
    && (forall p :: p in paths ==> IsRun(body, bound, full, EndOf(p.outcome), p.logged))
    && (forall e, m :: IsRun(body, bound, full, e, m) ==> Accounts(paths, e, m, true))
  }

  lemma PathsAreRuns(body: seq<Stmt>, bound: string, full: bool)
    ensures AreRuns(body, bound, full, From(body, false, bound, full))
  {
    hide From, RunsBlock;
    var paths := From(body, false, bound, full);
    forall p | p in paths ensures IsRun(body, bound, full, EndOf(p.outcome), p.logged) {
      FromComplete(body, false, bound, full, full, p);
    }
    forall e, m | IsRun(body, bound, full, e, m) ensures Accounts(paths, e, m, true) {
      FromSound(body, false, bound, full, full, true, false, e, m);
    }
  }

  lemma ClassOfRuns(body: seq<Stmt>, bound: string, full: bool, paths: set<Path>)
    requires AreRuns(body, bound, full, paths)
    ensures var c := ClassOf(paths);
            && c != PassOnly
            && (c == CleanupReraise <==> forall e, m :: IsRun(body, bound, full, e, m) ==> e == Reraised)
            && (c == LogAndRaise <==>
                  && (forall e, m :: IsRun(body, bound, full, e, m) ==> (e == Reraised || e == RaisedAnew) && m)
                  && exists e, m :: IsRun(body, bound, full, e, m) && e == RaisedAnew)
            && (c == RaiseClass <==>
                  && (forall e, m :: IsRun(body, bound, full, e, m) ==> e == Reraised || e == RaisedAnew)
                  && (exists e, m :: IsRun(body, bound, full, e, m) && e == RaisedAnew)
                  && exists e, m :: IsRun(body, bound, full, e, m) && !m)
            && (c == LogOnly <==>
                  && (exists e, m :: IsRun(body, bound, full, e, m) && e != Reraised && e != RaisedAnew)
                  && forall e, m :: IsRun(body, bound, full, e, m) && e != Reraised && e != RaisedAnew ==> m)
            && (c == Silent <==>
                  exists e, m :: IsRun(body, bound, full, e, m) && e != Reraised && e != RaisedAnew && !m)
  {
    hide IsRun;
  }

  // ----- The prohibited scopes -----

  /** The categories each prohibited domain allows for a swallowing handler. */
  const ALLOWED_SWALLOWING: map<string, set<string>> := map[
    "authentication" := {"availability-tradeoff", "boundary-isolation"},
    "transactional" := {"boundary-isolation", "task-isolation"}
  ]

  function AllowedIn(domain: string): set<string> {
    if domain in ALLOWED_SWALLOWING then ALLOWED_SWALLOWING[domain] else {}
  }

  /** An absent category is "". */
  predicate IsProhibitedViolation(domains: set<string>, class_: Class, category: string) {
    if domains == {} || IsPropagating(class_) then false
    else if class_ != LogOnly || category == "" then true
    else exists d :: d in domains && category !in AllowedIn(d)
  }

  /** What a prohibited scope admits, by name: handlers that propagate, and handlers that
      log under a category that each of its domains tolerates. */
  lemma AdmittedIff(domains: set<string>, class_: Class, category: string)
    ensures !IsProhibitedViolation(domains, class_, category) <==>
              || domains == {} || class_ in {CleanupReraise, LogAndRaise, RaiseClass}
              || (class_ == LogOnly && category != "" && forall d :: d in domains ==>
                    || (d == "authentication" && category in {"availability-tradeoff", "boundary-isolation"})
                    || (d == "transactional" && category in {"boundary-isolation", "task-isolation"}))
  {
    forall d ensures category in AllowedIn(d) <==>
                       || (d == "authentication" && category in {"availability-tradeoff", "boundary-isolation"})
                       || (d == "transactional" && category in {"boundary-isolation", "task-isolation"})
    {
    }
    hide AllowedIn;
  }

  /** A handler in a prohibited scope that is no violation: each of its runs passes the
      failure on, or has logged under a category that every one of its domains allows. */
  lemma AdmittedHandlerReports(domains: set<string>, body: seq<Stmt>, bound: string, category: string, e: End, m: bool)
    requires domains != {} && ContainedBlock(body, bound)
    requires !IsProhibitedViolation(domains, ClassifyBody(body, bound, false), category)
    requires RunsBlock(body, bound, true, false, e, m)
    ensures Raises(e) || (m && forall d :: d in domains ==> category in AllowedIn(d))
  {
    hide From, RunsBlock, ContainedBlock;
    if IsPropagating(ClassifyBody(body, bound, false)) {
      PropagatingIffNeverSwallows(body, bound, false);
    } else {
      LogOnlyLogs(body, bound);
    }
  }

  /** Each run passes the failure on, or has logged under a category that every one of
      the handler's domains allows. */
  ghost predicate Reports(domains: set<string>, body: seq<Stmt>, bound: string, category: string) {
    forall e, m :: RunsBlock(body, bound, true, false, e, m) ==>
                     Raises(e) || (m && category != "" && forall d :: d in domains ==> category in AllowedIn(d))
  }

  /** Whether the handler is admitted on the full path sets is exactly whether it reports. */
  lemma FullVerdictIsExact(domains: set<string>, body: seq<Stmt>, bound: string, category: string)
    requires domains != {}
    ensures !IsProhibitedViolation(domains, ClassifyBody(body, bound, true), category) <==>
            Reports(domains, body, bound, category)
  {
    hide From, RunsBlock, ClassifyBody;
    PropagatingIffNeverSwallows(body, bound, true);
    FullLogOnlyIsExact(body, bound);
  }

  /** The gate's own decision: the handlers it admits report exactly when keeping the
      dropped path would not have it refuse them. */
  lemma AdmittedReportsIff(domains: set<string>, body: seq<Stmt>, bound: string, category: string)
    requires domains != {} && !IsProhibitedViolation(domains, ClassifyBody(body, bound, false), category)
    ensures Reports(domains, body, bound, category) <==>
            !IsProhibitedViolation(domains, ClassifyBody(body, bound, true), category)
    ensures Reports(domains, body, bound, category) <==>
              IsPropagating(ClassifyBody(body, bound, false)) || ClassifyBody(body, bound, true) == LogOnly
  {
    hide From, RunsBlock, ClassifyBody, Reports;
    FullVerdictIsExact(domains, body, bound, category);
    PropagatingIffNeverSwallows(body, bound, false);
    PropagatingIffNeverSwallows(body, bound, true);
  }

  /** The gate refuses no handler that reports. */
  lemma ReportingIsAdmitted(domains: set<string>, body: seq<Stmt>, bound: string, category: string)
    requires domains != {} && Reports(domains, body, bound, category)
    ensures !IsProhibitedViolation(domains, ClassifyBody(body, bound, false), category)
  {
    hide From, RunsBlock;
    var paths := From(body, false, bound, false);
    PropagatingIffNeverSwallows(body, bound, false);
    if IsPassOnly(body) {
      PassOnlySwallows(body, bound, true);
    } else {
      forall p | p in paths && !Propagates(p.outcome) ensures p.logged { PathSwallows(body, bound, false, p); }
    }
  }
}
