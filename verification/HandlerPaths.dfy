/** The abstract interpreter that classifies exception handlers
    (scripts/exception_policy.py, _analyse_block to classify_body). */
module HandlerPaths {

  /** raise; raise name; raise of anything else. */
  datatype Exc = Bare | Named(name: string) | Other

  datatype Test = True | False | Unknown

  /** Statements as far as the analysis looks at them. Any statement without a body of
      its own is Simple; the bit says that executing it to the end logs.
      An absent name is "". */
  datatype Stmt =
    | Docstring
    | Pass
    | Simple(logs: bool)
    | RaiseStmt(exc: Exc)
    | ReturnStmt
    | BreakStmt
    | ContinueStmt
    | If(test: Test, body: seq<Stmt>, orelse: seq<Stmt>)
    | Loop(body: seq<Stmt>, orelse: seq<Stmt>)
    | With(body: seq<Stmt>)
    | Try(star: bool, body: seq<Stmt>, handlers: seq<Handler>, orelse: seq<Stmt>, finalbody: seq<Stmt>)
    | Match(cases: seq<Case>)
  datatype Handler = Handler(name: string, body: seq<Stmt>)
  datatype Case = Case(catchAll: bool, body: seq<Stmt>)

  datatype Outcome = Fallthrough | Reraise | Raise | Return | Break | Continue
  datatype Path = Path(outcome: Outcome, logged: bool)

  predicate IsReraise(exc: Exc, bound: string) {
    exc.Bare? || (exc.Named? && bound != "" && exc.name == bound)
  }

  /** handler.name or bound_name */
  function BoundIn(h: Handler, bound: string): string {
    if h.name != "" then h.name else bound
  }

  // ----- The analysis as functions -----
  //
  // With `full` false this is the source's analysis. With `full` true the path on
  // which the protected block of a `try` raises and no handler takes it is kept also
  // when there are handlers; the source keeps it only when there are none.

  function BlockPaths(ss: seq<Stmt>, paths: set<Path>, bound: string, full: bool): (r: set<Path>)
    ensures paths != {} ==> r != {}
    decreases ss, 0
  {
    if ss == [] then paths
    else BlockPaths(ss[1..], if ss[0].Docstring? then paths else Through(ss[0], paths, bound, full), bound, full)
  }

  /** Every path that has not fallen through stays; the others go through s. */
  function Through(s: Stmt, paths: set<Path>, bound: string, full: bool): (r: set<Path>)
    ensures paths != {} ==> r != {}
    decreases s, 2
  {
    assert paths != {} ==>
             exists p ::
               && p in paths
               && (p == Path(Fallthrough, false) || p == Path(Fallthrough, true) || p.outcome != Fallthrough);
    (set p | p in paths && p.outcome != Fallthrough) +
    (if Path(Fallthrough, false) in paths then StmtPaths(s, false, bound, full) else {}) +
    (if Path(Fallthrough, true) in paths then StmtPaths(s, true, bound, full) else {})
  }

  function From(ss: seq<Stmt>, logged: bool, bound: string, full: bool): (r: set<Path>)
    ensures r != {}
    decreases ss, 1
  {
    BlockPaths(ss, {Path(Fallthrough, logged)}, bound, full)
  }

  function StmtPaths(s: Stmt, logged: bool, bound: string, full: bool): (r: set<Path>)
    ensures r != {}
    decreases s, 1
  {
    match s
    case Docstring => {Path(Fallthrough, logged)}
    case Pass => {Path(Fallthrough, logged)}
    case Simple(logs) => {Path(Fallthrough, logged || logs)}
    case RaiseStmt(exc) => {Path(if IsReraise(exc, bound) then Reraise else Raise, logged)}
    case ReturnStmt => {Path(Return, logged)}
    case BreakStmt => {Path(Break, logged)}
    case ContinueStmt => {Path(Continue, logged)}
    case If(test, body, orelse) =>
      (if test.False? then {} else From(body, logged, bound, full)) +
      (if test.True? then {} else From(orelse, logged, bound, full))
    case Loop(body, orelse) =>
      LoopTerminal(From(body, logged, bound, full)) + LoopBroken(From(body, logged, bound, full)) +
      BlockPaths(orelse, LoopNormal(From(body, logged, bound, full), logged), bound, full)
    case With(body) => From(body, logged, bound, full)
    case Try(_, _, _, _, finalbody) => FinallyPaths(TryPaths(s, logged, bound, full), finalbody, bound, full)
    case Match(cases) =>
      assert forall c :: c in cases ==> From(c.body, logged, bound, full) != {};
      (set c, p | c in cases && p in From(c.body, logged, bound, full) :: p) +
      (if exists c :: c in cases && c.catchAll then {} else {Path(Fallthrough, logged)})
  }

  function LoopTerminal(paths: set<Path>): set<Path> {
    set p | p in paths && (p.outcome.Return? || p.outcome.Raise? || p.outcome.Reraise?)
  }

  function LoopBroken(paths: set<Path>): set<Path> {
    set p | p in paths && p.outcome.Break? :: Path(Fallthrough, p.logged)
  }

  function LoopNormal(paths: set<Path>, logged: bool): set<Path> {
    {Path(Fallthrough, logged)} +
    set p | p in paths && (p.outcome.Fallthrough? || p.outcome.Continue?) :: Path(Fallthrough, p.logged)
  }

  function FellThrough(paths: set<Path>): set<Path> {
    set p | p in paths && p.outcome.Fallthrough?
  }

  /** A try statement before its finally block. */
  function TryPaths(s: Stmt, logged: bool, bound: string, full: bool): (r: set<Path>)
    requires s.Try?
    ensures r != {}
    decreases s, 0
  {
    var body := From(s.body, logged, bound, full);
    assert body == (body - FellThrough(body)) + FellThrough(body);
    (body - FellThrough(body)) + BlockPaths(s.orelse, FellThrough(body), bound, full) +
    (set h, p | h in s.handlers && p in From(h.body, logged, BoundIn(h, bound), full) :: p) +
    (if s.handlers == [] || full then {Path(Raise, logged)} else {})
  }

  function Override(prior: Outcome, final: Outcome): Outcome {
    if final.Fallthrough? then prior else final
  }

  /** A terminating finally path overrides the pending outcome. */
  function After(prior: Path, final: set<Path>): (r: set<Path>)
    ensures final != {} ==> r != {}
  {
    var r := set q | q in final :: Path(Override(prior.outcome, q.outcome), q.logged);
    assert forall q :: q in final ==> Path(Override(prior.outcome, q.outcome), q.logged) in r;
    r
  }

  function FinallyPaths(paths: set<Path>, finalbody: seq<Stmt>, bound: string, full: bool): (r: set<Path>)
    ensures paths != {} ==> r != {}
    decreases finalbody, 2
  {
    if finalbody == [] then paths
    else
      var r := set p, o | p in paths && o in After(p, From(finalbody, p.logged, bound, full)) :: o;
      assert forall p :: p in paths ==> After(p, From(finalbody, p.logged, bound, full)) <= r;
      r
  }

  // ----- Classification -----

  datatype Class = CleanupReraise | LogAndRaise | RaiseClass | LogOnly | Silent | PassOnly

  predicate Propagates(o: Outcome) { o.Reraise? || o.Raise? }

  predicate IsPropagating(c: Class) { c.CleanupReraise? || c.LogAndRaise? || c.RaiseClass? }

  predicate IsPassOnly(body: seq<Stmt>) {
    forall s :: s in body ==> s.Docstring? || s.Pass?
  }

  function ClassOf(paths: set<Path>): Class {
    if paths != {} && forall p :: p in paths ==> Propagates(p.outcome) then
      if forall p :: p in paths ==> p.outcome.Reraise? then CleanupReraise
      else if forall p :: p in paths ==> p.logged then LogAndRaise else RaiseClass
    else if (exists p :: p in paths && !Propagates(p.outcome)) && forall p :: p in paths && !Propagates(p.outcome) ==>
              p.logged
    then LogOnly else Silent
  }

  function ClassifyBody(body: seq<Stmt>, bound: string, full: bool): Class {
    if IsPassOnly(body) then PassOnly else ClassOf(From(body, false, bound, full))
  }
}
