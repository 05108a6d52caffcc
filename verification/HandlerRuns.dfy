/** What a handler body may do when it runs, after sections 7 and 8 of the Python
    Language Reference, and how the analysis of HandlerPaths relates to it.

    Conditions, iteration counts, matching handlers and match cases are chosen freely.
    An exception may arise before, inside or after any statement. `logged` says whether
    a log call has completed; it may also become true where the analysis expects no log.
    A `with` statement suppresses nothing.

    A run ends as Failed when an exception that no `raise` statement raised ends it. Such
    an exception in the protected block of a `try` may be taken by any handler; with `all`
    it may also pass them, and it always passes when there are none: then the `try` is
    what raises. Without `all`, one that arises elsewhere marks the run for good. */
module HandlerRuns {
  import opened HandlerPaths

  datatype End = Done | Reraised | RaisedAnew | Failed | Returned | Broke | Continued

  function EndOf(o: Outcome): End {
    match o
    case Fallthrough => Done
    case Reraise => Reraised
    case Raise => RaisedAnew
    case Return => Returned
    case Break => Broke
    case Continue => Continued
  }

  predicate Raises(e: End) { e.Reraised? || e.RaisedAnew? || e.Failed? }

  /** The failure being handled is not passed on. */
  predicate Swallows(e: End) { !Raises(e) }

  /** A bare `raise`, or one of the name bound to the failure, passes the failure on. */
  function RaiseEnd(exc: Exc, bound: string): End {
    match exc
    case Bare => Reraised
    case Named(name) => if name == bound && name != "" then Reraised else RaisedAnew
    case Other => RaisedAnew
  }

  /** The name bound to the failure inside a nested handler. */
  function NameIn(h: Handler, bound: string): string {
    if h.name == "" then bound else h.name
  }

  /** Block ss, entered with log state l, may end as e with log state m. */
  ghost predicate RunsBlock(ss: seq<Stmt>, bound: string, all: bool, l: bool, e: End, m: bool)
    decreases ss, 0
  {
    || (e == Failed && (l ==> m))
    || (ss == [] && e == Done && (l ==> m))
    || (ss != [] && exists e1, m1 ::
          && Runs(ss[0], bound, all, l, e1, m1)
          && (if e1 == Done then RunsBlock(ss[1..], bound, all, m1, e, m) else e == e1 && m == m1))
  }

  ghost predicate Runs(s: Stmt, bound: string, all: bool, l: bool, e: End, m: bool)
    decreases s, 3
  {
    match s
    case Docstring => EndsAs(Done, l, e, m)
    case Pass => EndsAs(Done, l, e, m)
    case Simple(logs) => (e == Failed && (l ==> m)) || (e == Done && (l || logs ==> m))
    case RaiseStmt(exc) => EndsAs(RaiseEnd(exc, bound), l, e, m)
    case ReturnStmt => EndsAs(Returned, l, e, m)
    case BreakStmt => EndsAs(Broke, l, e, m)
    case ContinueStmt => EndsAs(Continued, l, e, m)
    case If(test, body, orelse) =>
           (!test.False? && RunsBlock(body, bound, all, l, e, m))
           || (!test.True? && RunsBlock(orelse, bound, all, l, e, m))
    case Loop(_, _) => exists n: nat :: RunsLoop(s, bound, all, n, l, e, m)
    case With(body) => RunsBlock(body, bound, all, l, e, m)
    case Try(_, _, _, _, finalbody) =>
      exists e1, m1, e2 ::
        RunsTry(s, bound, all, l, e1, m1) && RunsBlock(finalbody, bound, all, m1, e2, m) && e == Overridden(e1, e2, all)
    case Match(cases) =>
      || (exists c :: c in cases && RunsBlock(c.body, bound, all, l, e, m))
      || ((forall c :: c in cases ==> !c.catchAll) && EndsAs(Done, l, e, m))
  }

  /** A finally block that does not fall through overrides what was pending. */
  function Overridden(pending: End, final: End, all: bool): End {
    if final == Done || (!all && pending == Failed) then pending else final
  }

  predicate EndsAs(usual: End, l: bool, e: End, m: bool) {
    (e == Failed || e == usual) && (l ==> m)
  }

  /** At most n further turns of a loop; running out of items reaches the else block,
      a break skips it. */
  ghost predicate RunsLoop(s: Stmt, bound: string, all: bool, n: nat, l: bool, e: End, m: bool)
    requires s.Loop?
    decreases s, 2, n
  {
    || RunsBlock(s.orelse, bound, all, l, e, m)
    || (n > 0 && exists e1, m1 ::
          && RunsBlock(s.body, bound, all, l, e1, m1)
          && (match e1
              case Done => RunsLoop(s, bound, all, n - 1, m1, e, m)
              case Continued => RunsLoop(s, bound, all, n - 1, m1, e, m)
              case Broke => e == Done && m == m1
              case _ => e == e1 && m == m1))
  }

  /** A try statement before its finally block: an exception of the protected block may
      match any handler, or pass them. */
  ghost predicate RunsTry(s: Stmt, bound: string, all: bool, l: bool, e: End, m: bool)
    requires s.Try?
    decreases s, 2
  {
    exists e1, m1 ::
      && RunsBlock(s.body, bound, all, l, e1, m1)
      && (match e1
          case Done => RunsBlock(s.orelse, bound, all, m1, e, m)
          case Failed =>
            || ((s.handlers == [] || all) && e == RaisedAnew && m == m1)
            || RunsHandlers(s, bound, all, 0, m1, e, m)
          case _ => (e == e1 && m == m1) || (Raises(e1) && RunsHandlers(s, bound, all, 0, m1, e, m)))
  }

  /** One handler from the i-th on runs; of `except*` handlers, one or more in order. */
  ghost predicate RunsHandlers(s: Stmt, bound: string, all: bool, i: nat, l: bool, e: End, m: bool)
    requires s.Try?
    decreases s, 1, |s.handlers| - i
  {
    i < |s.handlers| &&
    (|| RunsHandlers(s, bound, all, i + 1, l, e, m)
     || RunsBlock(s.handlers[i].body, NameIn(s.handlers[i], bound), all, l, e, m)
     || (s.star && exists m1 ::
           && RunsBlock(s.handlers[i].body, NameIn(s.handlers[i], bound), all, l, Done, m1)
           && RunsHandlers(s, bound, all, i + 1, m1, e, m)))
  }

  // ----- Soundness -----

  /** A path of the analysis that accounts for a run: same end, and (when logs count)
      no claim of a log that the run did not make. */
  ghost predicate Accounts(paths: set<Path>, e: End, m: bool, logs: bool) {
    exists p :: p in paths && EndOf(p.outcome) == e && (logs && p.logged ==> m)
  }

  /** With `most`, all exceptions are excused, else only those that no statement raised. */
  ghost predicate Covered(paths: set<Path>, e: End, m: bool, logs: bool, most: bool) {
    e == Failed || (most && Raises(e)) || Accounts(paths, e, m, logs)
  }

  /** A finally block that may return, break or continue. */
  predicate Escapes(finalbody: seq<Stmt>, bound: string) {
    exists l, p :: p in From(finalbody, l, bound, false) && p.outcome in {Return, Break, Continue}
  }

  /** No finally block in the statement escapes. */
  predicate Contained(s: Stmt, bound: string)
    decreases s, 1
  {
    match s
    case If(_, body, orelse) => ContainedBlock(body, bound) && ContainedBlock(orelse, bound)
    case Loop(body, orelse) => ContainedBlock(body, bound) && ContainedBlock(orelse, bound)
    case With(body) => ContainedBlock(body, bound)
    case Try(_, body, handlers, orelse, finalbody) =>
      && ContainedBlock(body, bound) && ContainedBlock(orelse, bound) && ContainedBlock(finalbody, bound)
      && (forall h :: h in handlers ==> ContainedBlock(h.body, BoundIn(h, bound)))
      && !Escapes(finalbody, bound)
    case Match(cases) => forall c :: c in cases ==> ContainedBlock(c.body, bound)
    case _ => true
  }

  predicate ContainedBlock(ss: seq<Stmt>, bound: string)
    decreases ss, 0
  {
    ss == [] || (Contained(ss[0], bound) && ContainedBlock(ss[1..], bound))
  }

  lemma {:induction false} SettledStays(ss: seq<Stmt>, paths: set<Path>, bound: string, full: bool, p: Path)
    requires p in paths && !p.outcome.Fallthrough?
    ensures p in BlockPaths(ss, paths, bound, full)
    decreases ss
  {
    if ss != [] {
      SettledStays(ss[1..], if ss[0].Docstring? then paths else Through(ss[0], paths, bound, full), bound, full, p);
    }
  }

  /** A completed log stays completed. */
  lemma {:induction false} BlockMonotone(ss: seq<Stmt>, bound: string, all: bool, l: bool, e: End, m: bool)
    requires RunsBlock(ss, bound, all, l, e, m)
    ensures l ==> m
    decreases ss, 0
  {
    if ss != [] && !(e == Failed && (l ==> m)) {
      var e1, m1 :| Runs(ss[0], bound, all, l, e1, m1) && if e1 == Done then RunsBlock(ss[1..], bound, all, m1, e, m)
                                                          else e == e1 && m == m1;
      StmtMonotone(ss[0], bound, all, l, e1, m1);
      if e1 == Done { BlockMonotone(ss[1..], bound, all, m1, e, m); }
    }
  }

  lemma {:induction false} StmtMonotone(s: Stmt, bound: string, all: bool, l: bool, e: End, m: bool)
    requires Runs(s, bound, all, l, e, m)
    ensures l ==> m
    decreases s, 3
  {
    match s
    case If(test, body, orelse) =>
      if !test.False? && RunsBlock(body, bound, all, l, e, m) {
        BlockMonotone(body, bound, all, l, e, m);
      } else {
        BlockMonotone(orelse, bound, all, l, e, m);
      }
    case Loop(_, _) =>
      var n: nat :| RunsLoop(s, bound, all, n, l, e, m);
      LoopMonotone(s, bound, all, n, l, e, m);
    case With(body) => BlockMonotone(body, bound, all, l, e, m);
    case Try(_, _, _, _, finalbody) =>
      var e1, m1, e2 :| RunsTry(s, bound, all, l, e1, m1) && RunsBlock(finalbody, bound, all, m1, e2, m)
                        && e == Overridden(e1, e2, all);
      TryMonotone(s, bound, all, l, e1, m1);
      BlockMonotone(finalbody, bound, all, m1, e2, m);
    case Match(cases) =>
      if c :| c in cases && RunsBlock(c.body, bound, all, l, e, m) { BlockMonotone(c.body, bound, all, l, e, m); }
    case _ =>
  }

  lemma {:induction false} LoopMonotone(s: Stmt, bound: string, all: bool, n: nat, l: bool, e: End, m: bool)
    requires s.Loop? && RunsLoop(s, bound, all, n, l, e, m)
    ensures l ==> m
    decreases s, 2, n
  {
    if RunsBlock(s.orelse, bound, all, l, e, m) {
      BlockMonotone(s.orelse, bound, all, l, e, m);
    } else {
      var e1, m1 :| RunsBlock(s.body, bound, all, l, e1, m1) &&
        match e1
        case Done => RunsLoop(s, bound, all, n - 1, m1, e, m)
        case Continued => RunsLoop(s, bound, all, n - 1, m1, e, m)
        case Broke => e == Done && m == m1
        case _ => e == e1 && m == m1;
      BlockMonotone(s.body, bound, all, l, e1, m1);
      if e1 == Done || e1 == Continued { LoopMonotone(s, bound, all, n - 1, m1, e, m); }
    }
  }

  lemma {:induction false} TryMonotone(s: Stmt, bound: string, all: bool, l: bool, e: End, m: bool)
    requires s.Try? && RunsTry(s, bound, all, l, e, m)
    ensures l ==> m
    decreases s, 2
  {
    var e1, m1 :| RunsBlock(s.body, bound, all, l, e1, m1) &&
      match e1
      case Done => RunsBlock(s.orelse, bound, all, m1, e, m)
      case Failed =>
        || ((s.handlers == [] || all) && e == RaisedAnew && m == m1)
        || RunsHandlers(s, bound, all, 0, m1, e, m)
      case _ => (e == e1 && m == m1) || (Raises(e1) && RunsHandlers(s, bound, all, 0, m1, e, m));
    BlockMonotone(s.body, bound, all, l, e1, m1);
    if e1 == Done { BlockMonotone(s.orelse, bound, all, m1, e, m); }
    if Raises(e1) && RunsHandlers(s, bound, all, 0, m1, e, m) { HandlersMonotone(s, bound, all, 0, m1, e, m); }
  }

  lemma {:induction false} HandlersMonotone(s: Stmt, bound: string, all: bool, i: nat, l: bool, e: End, m: bool)
    requires s.Try? && RunsHandlers(s, bound, all, i, l, e, m)
    ensures l ==> m
    decreases s, 1, |s.handlers| - i
  {
    if RunsHandlers(s, bound, all, i + 1, l, e, m) {
      HandlersMonotone(s, bound, all, i + 1, l, e, m);
    } else if RunsBlock(s.handlers[i].body, NameIn(s.handlers[i], bound), all, l, e, m) {
      BlockMonotone(s.handlers[i].body, NameIn(s.handlers[i], bound), all, l, e, m);
    } else {
      var m1 :| RunsBlock(s.handlers[i].body, NameIn(s.handlers[i], bound), all, l, Done, m1)
                && RunsHandlers(s, bound, all, i + 1, m1, e, m);
      BlockMonotone(s.handlers[i].body, NameIn(s.handlers[i], bound), all, l, Done, m1);
      HandlersMonotone(s, bound, all, i + 1, m1, e, m);
    }
  }

  /** Every run is accounted for. With `logs` the run's log state counts too, which
      needs the full path sets or finally blocks that do not escape. */
  lemma {:induction false} BlockSound(ss: seq<Stmt>, paths: set<Path>, a: bool, bound: string, full: bool, all: bool,
                                      logs: bool,
                                      l: bool, e: End, m: bool)
    requires Path(Fallthrough, a) in paths && RunsBlock(ss, bound, all, l, e, m)
    requires logs ==> (a ==> l) && (full || !all || ContainedBlock(ss, bound))
    ensures Covered(BlockPaths(ss, paths, bound, full), e, m, logs, all && !full)
    decreases ss, 1
  {
    if e == Failed {
    } else if ss == [] {
      assert EndOf(Path(Fallthrough, a).outcome) == Done;
    } else {
      var e1, m1 :| Runs(ss[0], bound, all, l, e1, m1) && if e1 == Done then RunsBlock(ss[1..], bound, all, m1, e, m)
                                                          else e == e1 && m == m1;
      hide Runs, RunsBlock;
      StmtSound(ss[0], a, bound, full, all, logs, l, e1, m1);
      assert e1 != Failed;
      hide StmtPaths, Through, Contained, Covered;
      RestSound(ss, paths, a, bound, full, all, logs, e1, m1, e, m);
    }
  }

  lemma {:induction false} RestSound(ss: seq<Stmt>, paths: set<Path>, a: bool, bound: string, full: bool, all: bool,
                                     logs: bool,
                                     e1: End, m1: bool, e: End, m: bool)
    requires ss != [] && Path(Fallthrough, a) in paths
             && Covered(StmtPaths(ss[0], a, bound, full), e1, m1, logs, all && !full)
             && e1 != Failed
    requires if e1 == Done then RunsBlock(ss[1..], bound, all, m1, e, m) else e == e1 && m == m1
    requires logs ==> full || !all || ContainedBlock(ss[1..], bound)
    ensures Covered(BlockPaths(ss, paths, bound, full), e, m, logs, all && !full)
    decreases ss, 0
  {
    if all && !full && Raises(e1) { return; }
    hide RunsBlock, StmtPaths, ContainedBlock;
    var q :| q in StmtPaths(ss[0], a, bound, full) && EndOf(q.outcome) == e1 && (logs && q.logged ==> m1);
    var next := if ss[0].Docstring? then paths else Through(ss[0], paths, bound, full);
    PathGoesOn(ss[0], paths, a, bound, full, q);
    hide Through;
    if e1 == Done {
      assert q == Path(Fallthrough, q.logged);
      BlockSound(ss[1..], next, q.logged, bound, full, all, logs, m1, e, m);
    } else {
      SettledStays(ss[1..], next, bound, full, q);
    }
  }

  lemma PathGoesOn(s: Stmt, paths: set<Path>, a: bool, bound: string, full: bool, q: Path)
    requires Path(Fallthrough, a) in paths && q in StmtPaths(s, a, bound, full)
    ensures q in if s.Docstring? then paths else Through(s, paths, bound, full)
  {
  }

  lemma {:induction false} FromSound(ss: seq<Stmt>, a: bool, bound: string, full: bool, all: bool, logs: bool, l: bool,
                                     e: End,
                                     m: bool)
    requires RunsBlock(ss, bound, all, l, e, m)
    requires logs ==> (a ==> l) && (full || !all || ContainedBlock(ss, bound))
    ensures Covered(From(ss, a, bound, full), e, m, logs, all && !full)
    decreases ss, 2
  {
    BlockSound(ss, {Path(Fallthrough, a)}, a, bound, full, all, logs, l, e, m);
  }

  lemma {:induction false} StmtSound(s: Stmt, a: bool, bound: string, full: bool, all: bool, logs: bool, l: bool,
                                     e: End, m: bool)
    requires Runs(s, bound, all, l, e, m)
    requires logs ==> (a ==> l) && (full || !all || Contained(s, bound))
    ensures Covered(StmtPaths(s, a, bound, full), e, m, logs, all && !full)
    decreases s, 4
  {
    hide RunsBlock, From, BlockPaths, TryPaths, FinallyPaths, RunsTry, RunsLoop, LoopTerminal, LoopBroken, LoopNormal;
    match s
    case If(_, _, _) => IfSound(s, a, bound, full, all, logs, l, e, m);
    case Loop(_, _) =>
      var n: nat :| RunsLoop(s, bound, all, n, l, e, m);
      LoopSound(s, n, a, bound, full, all, logs, l, e, m);
    case With(body) => FromSound(body, a, bound, full, all, logs, l, e, m);
    case Try(_, _, _, _, finalbody) =>
      var e1, m1, e2 :| RunsTry(s, bound, all, l, e1, m1) && RunsBlock(finalbody, bound, all, m1, e2, m)
                        && e == Overridden(e1, e2, all);
      if e != Failed { FinallySound(s, a, bound, full, all, logs, l, e1, m1, e2, m); }
    case Match(cases) => MatchSound(s, a, bound, full, all, logs, l, e, m);
    case _ => LeafSound(s, a, bound, full, all, logs, l, e, m);
  }

  lemma {:induction false} IfSound(s: Stmt, a: bool, bound: string, full: bool, all: bool, logs: bool, l: bool, e: End,
                                   m: bool)
    requires s.If? && Runs(s, bound, all, l, e, m)
    requires logs ==> (a ==> l) && (full || !all || Contained(s, bound))
    ensures Covered(StmtPaths(s, a, bound, full), e, m, logs, all && !full)
    decreases s, 3
  {
    hide RunsBlock, From;
    if !s.test.False? && RunsBlock(s.body, bound, all, l, e, m) {
      FromSound(s.body, a, bound, full, all, logs, l, e, m);
      assert From(s.body, a, bound, full) <= StmtPaths(s, a, bound, full);
    } else {
      FromSound(s.orelse, a, bound, full, all, logs, l, e, m);
      assert From(s.orelse, a, bound, full) <= StmtPaths(s, a, bound, full);
    }
  }

  lemma {:induction false} MatchSound(s: Stmt, a: bool, bound: string, full: bool, all: bool, logs: bool, l: bool,
                                      e: End, m: bool)
    requires s.Match? && Runs(s, bound, all, l, e, m)
    requires logs ==> (a ==> l) && (full || !all || Contained(s, bound))
    ensures Covered(StmtPaths(s, a, bound, full), e, m, logs, all && !full)
    decreases s, 3
  {
    hide RunsBlock;
    if c :| c in s.cases && RunsBlock(c.body, bound, all, l, e, m) {
      hide StmtPaths, Contained, ContainedBlock, Covered;
      FromSound(c.body, a, bound, full, all, logs, l, e, m);
      Widen(From(c.body, a, bound, full), StmtPaths(s, a, bound, full), e, m, logs, all && !full);
    } else if e != Failed {
      assert Path(Fallthrough, a) in StmtPaths(s, a, bound, full) && EndOf(Path(Fallthrough, a).outcome) == Done;
    }
  }

  predicate IsLeaf(s: Stmt) {
    !s.If? && !s.Loop? && !s.With? && !s.Try? && !s.Match?
  }

  lemma LeafSound(s: Stmt, a: bool, bound: string, full: bool, all: bool, logs: bool, l: bool, e: End, m: bool)
    requires IsLeaf(s) && Runs(s, bound, all, l, e, m) && (logs ==> (a ==> l))
    ensures Covered(StmtPaths(s, a, bound, full), e, m, logs, all && !full)
  {
    var p := match s
      case Simple(logs) => Path(Fallthrough, a || logs)
      case RaiseStmt(exc) => Path(if IsReraise(exc, bound) then Reraise else Raise, a)
      case ReturnStmt => Path(Return, a)
      case BreakStmt => Path(Break, a)
      case ContinueStmt => Path(Continue, a)
      case _ => Path(Fallthrough, a);
    assert e != Failed ==> p in StmtPaths(s, a, bound, full) && EndOf(p.outcome) == e;
  }

  lemma {:induction false} LoopSound(s: Stmt, n: nat, a: bool, bound: string, full: bool, all: bool, logs: bool,
                                     l: bool, e: End,
                                     m: bool)
    requires s.Loop? && RunsLoop(s, bound, all, n, l, e, m)
    requires logs ==> (a ==> l) && (full || !all || Contained(s, bound))
    ensures Covered(StmtPaths(s, a, bound, full), e, m, logs, all && !full)
    decreases s, 2, n
  {
    hide RunsBlock, Contained, StmtPaths, Covered;
    if RunsBlock(s.orelse, bound, all, l, e, m) {
      ExhaustedSound(s, a, bound, full, all, logs, l, e, m);
    } else {
      var e1, m1 :| RunsBlock(s.body, bound, all, l, e1, m1) &&
        match e1
        case Done => RunsLoop(s, bound, all, n - 1, m1, e, m)
        case Continued => RunsLoop(s, bound, all, n - 1, m1, e, m)
        case Broke => e == Done && m == m1
        case _ => e == e1 && m == m1;
      BlockMonotone(s.body, bound, all, l, e1, m1);
      if e1 == Done || e1 == Continued {
        LoopSound(s, n - 1, a, bound, full, all, logs, m1, e, m);
      } else {
        LeavingSound(s, a, bound, full, all, logs, l, e1, m1);
      }
    }
  }

  /** No further turn: the else block. */
  lemma {:induction false} ExhaustedSound(s: Stmt, a: bool, bound: string, full: bool, all: bool, logs: bool, l: bool,
                                          e: End,
                                          m: bool)
    requires s.Loop? && RunsBlock(s.orelse, bound, all, l, e, m)
    requires logs ==> (a ==> l) && (full || !all || Contained(s, bound))
    ensures Covered(StmtPaths(s, a, bound, full), e, m, logs, all && !full)
    decreases s, 1
  {
    hide From, RunsBlock, BlockPaths;
    var normal := LoopNormal(From(s.body, a, bound, full), a);
    BlockSound(s.orelse, normal, a, bound, full, all, logs, l, e, m);
    hide Covered, Contained;
    Widen(BlockPaths(s.orelse, normal, bound, full), StmtPaths(s, a, bound, full), e, m, logs, all && !full);
  }

  /** A turn that leaves the loop. */
  lemma {:induction false} LeavingSound(s: Stmt, a: bool, bound: string, full: bool, all: bool, logs: bool, l: bool,
                                        e: End,
                                        m: bool)
    requires s.Loop? && e != Done && e != Continued && RunsBlock(s.body, bound, all, l, e, m)
    requires logs ==> (a ==> l) && (full || !all || Contained(s, bound))
    ensures Covered(StmtPaths(s, a, bound, full), if e == Broke then Done else e, m, logs, all && !full)
    decreases s, 1
  {
    hide From, BlockPaths, RunsBlock;
    FromSound(s.body, a, bound, full, all, logs, l, e, m);
    hide Contained, ContainedBlock;
    if e != Failed && !(all && !full && Raises(e)) {
      var body := From(s.body, a, bound, full);
      var q :| q in body && EndOf(q.outcome) == e && (logs && q.logged ==> m);
      if e == Broke {
        assert Path(Fallthrough, q.logged) in LoopBroken(body) && EndOf(Path(Fallthrough, q.logged).outcome) == Done;
      } else {
        assert q in LoopTerminal(body);
      }
    }
  }

  lemma {:induction false} TrySound(s: Stmt, a: bool, bound: string, full: bool, all: bool, logs: bool, l: bool, e: End,
                                    m: bool)
    requires s.Try? && RunsTry(s, bound, all, l, e, m)
    requires logs ==> (a ==> l) && (full || !all || Contained(s, bound))
    ensures Covered(TryPaths(s, a, bound, full), e, m, logs, all && !full)
    decreases s, 2, 0
  {
    var e1, m1 :| RunsBlock(s.body, bound, all, l, e1, m1) &&
      match e1
      case Done => RunsBlock(s.orelse, bound, all, m1, e, m)
      case Failed =>
        || ((s.handlers == [] || all) && e == RaisedAnew && m == m1)
        || RunsHandlers(s, bound, all, 0, m1, e, m)
      case _ => (e == e1 && m == m1) || (Raises(e1) && RunsHandlers(s, bound, all, 0, m1, e, m));
    BlockMonotone(s.body, bound, all, l, e1, m1);
    if Raises(e1) && RunsHandlers(s, bound, all, 0, m1, e, m) {
      HandlersSound(s, 0, a, bound, full, all, logs, m1, e, m);
    } else if e1 == Failed {
      assert (all && !full) || Path(Raise, a) in TryPaths(s, a, bound, full);
    } else {
      BodySound(s, a, bound, full, all, logs, l, e1, m1, e, m);
    }
  }

  lemma Widen(paths: set<Path>, wider: set<Path>, e: End, m: bool, logs: bool, most: bool)
    requires Covered(paths, e, m, logs, most) && paths <= wider
    ensures Covered(wider, e, m, logs, most)
  {
  }

  lemma {:induction false} BodySound(s: Stmt, a: bool, bound: string, full: bool, all: bool, logs: bool, l: bool,
                                     e1: End,
                                     m1: bool, e: End, m: bool)
    requires s.Try? && RunsBlock(s.body, bound, all, l, e1, m1) && e1 != Failed
    requires if e1 == Done then RunsBlock(s.orelse, bound, all, m1, e, m) else e == e1 && m == m1
    requires logs ==> (a ==> l) && (full || !all || Contained(s, bound))
    ensures Covered(TryPaths(s, a, bound, full), e, m, logs, all && !full)
    decreases s, 1
  {
    if all && !full && Raises(e1) { return; }
    var body := From(s.body, a, bound, full);
    FromSound(s.body, a, bound, full, all, logs, l, e1, m1);
    hide TryPaths, From, BlockPaths, RunsBlock, ContainedBlock;
    var q :| q in body && EndOf(q.outcome) == e1 && (logs && q.logged ==> m1);
    if e1 == Done {
      assert q == Path(Fallthrough, q.logged);
      BlockSound(s.orelse, FellThrough(body), q.logged, bound, full, all, logs, m1, e, m);
      hide Contained, Covered, FellThrough;
      Widen(BlockPaths(s.orelse, FellThrough(body), bound, full), TryPaths(s, a, bound, full), e, m, logs,
            all && !full);
    } else {
      hide Contained;
      assert q in body - FellThrough(body);
    }
  }

  lemma {:induction false} HandlersSound(s: Stmt, i: nat, a: bool, bound: string, full: bool, all: bool, logs: bool,
                                         l: bool,
                                         e: End, m: bool)
    requires s.Try? && RunsHandlers(s, bound, all, i, l, e, m)
    requires logs ==> (a ==> l) && (full || !all || Contained(s, bound))
    ensures Covered(TryPaths(s, a, bound, full), e, m, logs, all && !full)
    decreases s, 1, |s.handlers| - i
  {
    var h, inner := s.handlers[i], NameIn(s.handlers[i], bound);
    assert inner == BoundIn(h, bound);
    if RunsHandlers(s, bound, all, i + 1, l, e, m) {
      HandlersSound(s, i + 1, a, bound, full, all, logs, l, e, m);
    } else if RunsBlock(h.body, inner, all, l, e, m) {
      assert h in s.handlers;
      FromSound(h.body, a, inner, full, all, logs, l, e, m);
      assert From(h.body, a, inner, full) <= TryPaths(s, a, bound, full);
    } else {
      var m1 :| RunsBlock(h.body, inner, all, l, Done, m1) && RunsHandlers(s, bound, all, i + 1, m1, e, m);
      BlockMonotone(h.body, inner, all, l, Done, m1);
      HandlersSound(s, i + 1, a, bound, full, all, logs, m1, e, m);
    }
  }

  /** Before the finally block: a path to go on from, which claims no log too many. */
  lemma {:induction false} PriorPath(s: Stmt, a: bool, bound: string, full: bool, all: bool, logs: bool, l: bool,
                                     e1: End, m1: bool) returns (p: Path)
    requires s.Try? && RunsTry(s, bound, all, l, e1, m1) && (all || e1 != Failed)
    requires logs ==> (a ==> l) && (full || !all || Contained(s, bound))
    ensures p in TryPaths(s, a, bound, full)
    ensures e1 != Failed && !(all && !full && Raises(e1)) ==> EndOf(p.outcome) == e1
    ensures !(all && !full && Raises(e1)) ==> (logs && p.logged ==> m1)
    decreases s, 2, 1
  {
    TrySound(s, a, bound, full, all, logs, l, e1, m1);
    TryMonotone(s, bound, all, l, e1, m1);
    if e1 == Failed && full { assert Path(Raise, a) in TryPaths(s, a, bound, full); }
    hide TryPaths, RunsTry;
    if e1 == Failed && full {
      p := Path(Raise, a);
    } else if all && !full && Raises(e1) {
      p :| p in TryPaths(s, a, bound, full);
    } else {
      p :| p in TryPaths(s, a, bound, full) && EndOf(p.outcome) == e1 && (logs && p.logged ==> m1);
    }
  }

  /** The finally block swallows although the block before it raised: it escapes. */
  lemma {:induction false} SwallowEscapes(finalbody: seq<Stmt>, bound: string, all: bool, l: bool, e: End, m: bool)
    requires RunsBlock(finalbody, bound, all, l, e, m) && !Raises(e) && e != Done
    ensures Escapes(finalbody, bound)
    decreases finalbody, 3
  {
    FromSound(finalbody, false, bound, false, all, false, l, e, m);
    hide From, RunsBlock;
    var q :| q in From(finalbody, false, bound, false) && EndOf(q.outcome) == e;
  }

  /** From a prior path to the path after the finally block. */
  lemma {:induction false} FinalSound(paths: set<Path>, p: Path, finalbody: seq<Stmt>, bound: string, full: bool,
                                      all: bool, logs: bool, e1: End, l: bool, e2: End, m: bool)
    requires p in paths && (e1 != Failed && !(all && !full && Raises(e1)) ==> EndOf(p.outcome) == e1)
    requires logs && p.logged ==> l
    requires RunsBlock(finalbody, bound, all, l, e2, m) && (all || e1 != Failed)
    requires logs ==> full || !all || ContainedBlock(finalbody, bound)
    ensures Covered(FinallyPaths(paths, finalbody, bound, full), Overridden(e1, e2, all), m, logs, all && !full)
    decreases finalbody, 3
  {
    var e := Overridden(e1, e2, all);
    if finalbody != [] && e != Failed && !(all && !full && Raises(e)) {
      FromSound(finalbody, p.logged, bound, full, all, logs, l, e2, m);
      hide From, RunsBlock, ContainedBlock, FinallyPaths;
      var q :| q in From(finalbody, p.logged, bound, full) && EndOf(q.outcome) == e2 && (logs && q.logged ==> m);
      PathIsOverridden(paths, p, finalbody, bound, full, q);
    }
  }

  lemma PathIsOverridden(paths: set<Path>, p: Path, finalbody: seq<Stmt>, bound: string, full: bool, q: Path)
    requires finalbody != [] && p in paths && q in From(finalbody, p.logged, bound, full)
    ensures Path(Override(p.outcome, q.outcome), q.logged) in FinallyPaths(paths, finalbody, bound, full)
    ensures EndOf(Override(p.outcome, q.outcome)) == if EndOf(q.outcome) == Done then EndOf(p.outcome)
                                                     else EndOf(q.outcome)
  {
    hide From;
    assert Path(Override(p.outcome, q.outcome), q.logged) in After(p, From(finalbody, p.logged, bound, full));
  }

  /** The finally block: a run was accounted for before it, or its own escape is among
      the paths. */
  lemma {:induction false} FinallySound(s: Stmt, a: bool, bound: string, full: bool, all: bool, logs: bool, l: bool,
                                        e1: End, m1: bool, e2: End, m: bool)
    requires s.Try? && RunsTry(s, bound, all, l, e1, m1) && RunsBlock(s.finalbody, bound, all, m1, e2, m)
    requires logs ==> (a ==> l) && (full || !all || Contained(s, bound))
    ensures Covered(FinallyPaths(TryPaths(s, a, bound, full), s.finalbody, bound, full), Overridden(e1, e2, all), m,
                    logs, all && !full)
    decreases s, 3, 1
  {
    var e := Overridden(e1, e2, all);
    if e != Failed && !(all && !full && Raises(e)) {
      var p := PriorPath(s, a, bound, full, all, logs, l, e1, m1);
      hide TryPaths, RunsTry, From, RunsBlock, FinallyPaths, Covered, Escapes;
      if all && !full && Raises(e1) && logs {
        SwallowEscapes(s.finalbody, bound, all, m1, e2, m);
      } else {
        FinalSound(TryPaths(s, a, bound, full), p, s.finalbody, bound, full, all, logs, e1, m1, e2, m);
      }
    }
  }

}
