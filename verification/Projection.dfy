/** What the type checker is shown of a module of which only some definitions are
    admitted (scripts/check_typing_policy.py). */
module Projection {
  /** A line span, from `first` up to but not including `last`. */
  datatype Span = Span(first: nat, last: nat)

  /** One imported name: the name it binds, and how it is written. */
  datatype Alias = Alias(bound: string, written: string)
  datatype Import = Import(span: Span, future: bool, aliases: seq<Alias>)

  /** A function body: the line on which its first statement begins, decorators included;
      the lines from the `def`, `class` or other keyword of that statement on; and the byte
      offset of that keyword in its line. */
  datatype Body = Body(begin: nat, span: Span, offset: nat)

  /** Top-level statements. A guard is an `if` that holds imports only, in its body and
      its `else`; a definition carries its outermost function bodies. */
  datatype Statement =
    | Definition(span: Span, bodies: seq<Body>)
    | ImportStatement(imp: Import)
    | Guard(span: Span, body: seq<Import>, orelse: seq<Import>, test: set<string>)
    | Assignment(span: Span, bound: set<string>, loaded: set<string>)
    | Other(span: Span)

  // ----- The names the projection needs -----

  function BoundNames(imp: Import): set<string> {
    set a | a in imp.aliases :: a.bound
  }

  function GuardNames(imports: seq<Import>): set<string> {
    set i, n | i in imports && n in BoundNames(i) :: n
  }

  /** An assignment or a guard that gives a required name. */
  predicate IsNeeded(s: Statement, required: set<string>) {
    match s
    case Assignment(_, bound, _) => bound * required != {}
    case Guard(_, body, orelse, _) => GuardNames(body + orelse) * required != {}
    case _ => false
  }

  function Needs(s: Statement): set<string> {
    match s
    case Assignment(_, _, loaded) => loaded
    case Guard(_, _, _, test) => test
    case _ => {}
  }

  ghost predicate IsClosed(statements: seq<Statement>, names: set<string>) {
    forall s :: s in statements && IsNeeded(s, names) ==> Needs(s) <= names
  }

  /** The least set with the signature names that is closed. */
  ghost predicate IsLeastClosed(statements: seq<Statement>, signature: set<string>, names: set<string>) {
    && signature <= names && IsClosed(statements, names)
    && forall other :: signature <= other && IsClosed(statements, other) ==> names <= other
  }

  /** Closed names: those that an assignment loads when it binds one of them, and those that
      the test of a guard loads when one of its imports, in either branch, binds one. */
  lemma ClosedIff(statements: seq<Statement>, names: set<string>)
    ensures IsClosed(statements, names) <==>
              forall j :: 0 <= j < |statements| ==>
                match statements[j]
                case Assignment(_, bound, loaded) => (exists n :: n in bound && n in names) ==> loaded <= names
                case Guard(_, body, orelse, test) =>
                  (exists i, x :: (i in body || i in orelse) && x in i.aliases && x.bound in names) ==> test <= names
                case _ => true
  {
    forall j | 0 <= j < |statements| && statements[j].Assignment?
      ensures IsNeeded(statements[j], names) <==> exists n :: n in statements[j].bound && n in names
    {
      if n :| n in statements[j].bound && n in names { assert n in statements[j].bound * names; }
    }
    forall j | 0 <= j < |statements| && statements[j].Guard?
      ensures IsNeeded(statements[j], names) <==>
                exists i, x :: (i in statements[j].body || i in statements[j].orelse) && x in i.aliases &&
                               x.bound in names
    {
      GuardNeededIff(statements[j], names);
    }
    hide IsNeeded;
    assert forall s :: s in statements <==> exists j :: 0 <= j < |statements| && statements[j] == s;
  }

  /** A guard gives a required name when an import in either of its branches binds one. */
  lemma GuardNeededIff(s: Statement, required: set<string>)
    requires s.Guard?
    ensures IsNeeded(s, required) <==>
              exists i, x :: (i in s.body || i in s.orelse) && x in i.aliases && x.bound in required
  {
    if i, x :| (i in s.body || i in s.orelse) && x in i.aliases && x.bound in required {
      assert i in s.body + s.orelse && x.bound in BoundNames(i);
      assert x.bound in GuardNames(s.body + s.orelse) * required;
    }
    if n :| n in GuardNames(s.body + s.orelse) * required {
      var i :| i in s.body + s.orelse && n in BoundNames(i);
      var x :| x in i.aliases && x.bound == n;
      assert i in s.body || i in s.orelse;
    }
  }

  /** Statements whose needs have been taken in. */
  ghost predicate Served(statements: seq<Statement>, served: set<nat>, required: set<string>) {
    forall k :: k in served ==> k < |statements| && Needs(statements[k]) <= required
  }

  ghost predicate BelowClosed(statements: seq<Statement>, signature: set<string>, required: set<string>) {
    forall other :: signature <= other && IsClosed(statements, other) ==> required <= other
  }

  lemma NeededMonotone(s: Statement, small: set<string>, large: set<string>)
    requires small <= large && IsNeeded(s, small)
    ensures IsNeeded(s, large)
  {
    match s
    case Assignment(_, bound, _) => var n :| n in bound * small; assert n in bound * large;
    case Guard(_, body, orelse, _) =>
      var n :| n in GuardNames(body + orelse) * small;
      assert n in GuardNames(body + orelse) * large;
  }

  lemma StaysBelow(statements: seq<Statement>, signature: set<string>, required: set<string>, s: Statement)
    requires BelowClosed(statements, signature, required) && s in statements && IsNeeded(s, required)
    ensures BelowClosed(statements, signature, required + Needs(s))
  {
    forall other | signature <= other && IsClosed(statements, other) ensures required + Needs(s) <= other {
      NeededMonotone(s, required, other);
    }
  }

  /** One pass over the statements. */
  method Round(statements: seq<Statement>, signature: set<string>, previous: set<string>, ghost before: set<nat>)
    returns (required: set<string>, ghost served: set<nat>)
    requires BelowClosed(statements, signature, previous) && Served(statements, before, previous)
    ensures previous <= required && BelowClosed(statements, signature, required)
    ensures before <= served && Served(statements, served, required)
    ensures required != previous ==> served != before
    ensures required == previous ==> IsClosed(statements, previous)
  {
    required, served := previous, before;
    for j := 0 to |statements|
      invariant previous <= required && BelowClosed(statements, signature, required)
      invariant before <= served && Served(statements, served, required)
      invariant required != previous ==> served != before
      invariant forall k :: 0 <= k < j && IsNeeded(statements[k], previous) ==> Needs(statements[k]) <= required
    {
      var s := statements[j];
      assert s in statements;
      if IsNeeded(s, previous) { NeededMonotone(s, previous, required); }
      if IsNeeded(s, required) {
        StaysBelow(statements, signature, required, s);
        if required + Needs(s) != required { assert j !in served; }
        required, served := required + Needs(s), served + {j};
      }
    }
  }

  lemma ServedIsBounded(statements: seq<Statement>, served: set<nat>)
    requires forall k :: k in served ==> k < |statements|
    ensures |served| <= |statements|
  {
    SubsetIsSmaller(served, Below(|statements|));
  }

  ghost function Below(n: nat): (r: set<nat>)
    ensures |r| == n && forall k: nat :: k in r <==> k < n
  {
    if n == 0 then {} else Below(n - 1) + {n - 1}
  }

  lemma SubsetIsSmaller<T>(part: set<T>, whole: set<T>)
    requires part <= whole
    ensures |part| <= |whole| && (part != whole ==> |part| < |whole|)
  {
    assert whole == part + (whole - part) && |whole| == |part| + |whole - part|;
  }

  /** The bounded loop always ends at a fixpoint: each round that adds a name serves a
      statement that no round served before. */
  method RequiredNames(statements: seq<Statement>, signature: set<string>) returns (required: set<string>)
    ensures IsLeastClosed(statements, signature, required)
  {
    required := signature;
    ghost var served := {};
    for round := 0 to |statements| + 1
      invariant signature <= required && BelowClosed(statements, signature, required)
      invariant Served(statements, served, required) && |served| >= round
    {
      ghost var before := served;
      var previous := required;
      required, served := Round(statements, signature, previous, served);
      if required == previous { return; }
      SubsetIsSmaller(before, served);
    }
    ServedIsBounded(statements, served);
  }

  // ----- What becomes of the lines -----

  type Lines = seq<string>
  type Renderer = (Import, seq<Alias>) -> string

  predicate IsSpan(lines: Lines, s: Span) { s.first < s.last <= |lines| }

  predicate Inside(s: Span, outer: Span) { outer.first <= s.first && s.last <= outer.last }

  predicate IsFitting(lines: Lines, s: Statement) {
    IsSpan(lines, SpanOf(s)) &&
    match s
    case Definition(span, bodies) =>
      forall b :: b in bodies ==> IsSpan(lines, b.span) && Inside(b.span, span) && span.first <= b.begin <= b.span.first
    case Guard(span, body, orelse, _) => forall i :: i in body + orelse ==>
           IsSpan(lines, i.span) && Inside(i.span, span)
    case _ => true
  }

  function SpanOf(s: Statement): Span {
    if s.ImportStatement? then s.imp.span else s.span
  }

  function Copied(lines: Lines, out: Lines, s: Span): Lines
    requires IsSpan(lines, s) && |out| == |lines|
  {
    out[..s.first] + lines[s.first..s.last] + out[s.last..]
  }

  function Blanked(out: Lines, s: Span): (r: Lines)
    requires IsSpan(out, s)
    ensures |r| == |out|
  {
    out[..s.first] + seq(s.last - s.first, _ => "") + out[s.last..]
  }

  function Indentation(line: string): string {
    if line == [] || line[0] !in {' ', '\t', '\U{c}'} then [] else [line[0]] + Indentation(line[1..])
  }

  /** The aliases that the projection keeps. */
  function Wanted(imp: Import, required: set<string>): seq<Alias> {
    if imp.future then imp.aliases else WantedOf(imp.aliases, required)
  }

  function WantedOf(aliases: seq<Alias>, required: set<string>): seq<Alias> {
    if aliases == [] then []
    else (if aliases[0].bound in required then [aliases[0]] else []) + WantedOf(aliases[1..], required)
  }

  function ImportCopied(render: Renderer, lines: Lines, out: Lines, imp: Import, required: set<string>): (r: Lines)
    requires IsSpan(lines, imp.span) && |out| == |lines|
    ensures |r| == |out|
  {
    var blank, kept := Blanked(out, imp.span), Wanted(imp, required);
    if kept == [] then blank else blank[imp.span.first := Indentation(lines[imp.span.first]) + render(imp, kept)]
  }

  function ImportsCopied(render: Renderer, lines: Lines, out: Lines, imports: seq<Import>,
                         required: set<string>): (r: Lines)
    requires |out| == |lines| && forall i :: i in imports ==> IsSpan(lines, i.span)
    ensures |r| == |out|
    decreases |imports|
  {
    if imports == [] then out
    else ImportsCopied(render, lines, ImportCopied(render, lines, out, imports[0], required), imports[1..], required)
  }

  const STUB: string := "raise NotImplementedError"

  /** line[:offset], with the byte offset taken as a number of characters. */
  function Cut(line: string, offset: nat): string {
    if offset < |line| then line[..offset] else line
  }

  function BodyStubbed(lines: Lines, out: Lines, b: Body): (r: Lines)
    requires IsSpan(lines, b.span) && |out| == |lines|
    ensures |r| == |out|
  {
    Blanked(out, b.span)[b.span.first := Cut(lines[b.span.first], b.offset) + STUB]
  }

  function BodiesStubbed(lines: Lines, out: Lines, bodies: seq<Body>): (r: Lines)
    requires |out| == |lines| && forall b :: b in bodies ==> IsSpan(lines, b.span)
    ensures |r| == |out|
    decreases |bodies|
  {
    if bodies == [] then out else BodiesStubbed(lines, BodyStubbed(lines, out, bodies[0]), bodies[1..])
  }

  /** _project_statement */
  function Projected(render: Renderer, lines: Lines, out: Lines, s: Statement, admitted: bool,
                     required: set<string>): (r: Lines)
    requires IsFitting(lines, s) && |out| == |lines|
    ensures |r| == |out|
  {
    match s
    case Definition(span, bodies) => if admitted then BodiesStubbed(lines, Copied(lines, out, span), bodies) else out
    case ImportStatement(imp) => if BoundNames(imp) * required != {} || imp.future
                                 then ImportCopied(render, lines, out, imp, required) else out
    case Guard(span, body, orelse, _) =>
      if IsNeeded(s, required) then ImportsCopied(render, lines, Copied(lines, out, span), body + orelse, required)
      else out
    case Assignment(span, _, _) => if IsNeeded(s, required) then Copied(lines, out, span) else out
    case Other(_) => out
  }

  function AllProjected(render: Renderer, lines: Lines, out: Lines, statements: seq<Statement>, admitted: seq<bool>,
                        required: set<string>): (r: Lines)
    requires |admitted| == |statements| && |out| == |lines| && forall s :: s in statements ==> IsFitting(lines, s)
    ensures |r| == |out|
    decreases |statements|
  {
    if statements == [] then out
    else
      AllProjected(render, lines, Projected(render, lines, out, statements[0], admitted[0], required), statements[1..],
                   admitted[1..], required)
  }

  // ----- The projection in place -----

  method CopySpan(lines: Lines, projected: array<string>, s: Span)
    requires IsSpan(lines, s) && projected.Length == |lines|
    modifies projected
    ensures projected[..] == Copied(lines, old(projected[..]), s)
  {
    for index := s.first to s.last
      invariant forall i :: 0 <= i < |lines| ==>
                  projected[i] == if s.first <= i < index then lines[i] else old(projected[i])
    {
      projected[index] := lines[index];
    }
  }

  method BlankSpan(projected: array<string>, s: Span)
    requires s.first < s.last <= projected.Length
    modifies projected
    ensures projected[..] == Blanked(old(projected[..]), s)
  {
    for index := s.first to s.last
      invariant forall i :: 0 <= i < projected.Length ==>
                  projected[i] == if s.first <= i < index then "" else old(projected[i])
    {
      projected[index] := "";
    }
  }

  method CopyImport(render: Renderer, lines: Lines, projected: array<string>, imp: Import, required: set<string>)
    requires IsSpan(lines, imp.span) && projected.Length == |lines|
    modifies projected
    ensures projected[..] == ImportCopied(render, lines, old(projected[..]), imp, required)
  {
    var aliases := Wanted(imp, required);
    BlankSpan(projected, imp.span);
    if aliases == [] { return; }
    projected[imp.span.first] := Indentation(lines[imp.span.first]) + render(imp, aliases);
  }

  method StubBodies(lines: Lines, projected: array<string>, bodies: seq<Body>)
    requires projected.Length == |lines| && forall b :: b in bodies ==> IsSpan(lines, b.span)
    modifies projected
    ensures projected[..] == BodiesStubbed(lines, old(projected[..]), bodies)
  {
    for k := 0 to |bodies|
      invariant BodiesStubbed(lines, old(projected[..]), bodies) == BodiesStubbed(lines, projected[..], bodies[k..])
    {
      assert bodies[k..][1..] == bodies[k + 1..];
      BlankSpan(projected, bodies[k].span);
      projected[bodies[k].span.first] := Cut(lines[bodies[k].span.first], bodies[k].offset) + STUB;
    }
  }

  method CopyImports(render: Renderer, lines: Lines, projected: array<string>, imports: seq<Import>,
                     required: set<string>)
    requires projected.Length == |lines| && forall i :: i in imports ==> IsSpan(lines, i.span)
    modifies projected
    ensures projected[..] == ImportsCopied(render, lines, old(projected[..]), imports, required)
  {
    for k := 0 to |imports|
      invariant ImportsCopied(render, lines, old(projected[..]), imports, required) ==
                  ImportsCopied(render, lines, projected[..], imports[k..], required)
    {
      assert imports[k..][1..] == imports[k + 1..];
      hide ImportCopied;
      CopyImport(render, lines, projected, imports[k], required);
    }
  }

  method ProjectStatement(render: Renderer, lines: Lines, projected: array<string>, s: Statement, admitted: bool,
                          required: set<string>)
    requires IsFitting(lines, s) && projected.Length == |lines|
    modifies projected
    ensures projected[..] == Projected(render, lines, old(projected[..]), s, admitted, required)
  {
    hide Copied, ImportCopied, ImportsCopied, BodiesStubbed, IsNeeded;
    match s
    case Definition(span, bodies) =>
      if admitted {
        CopySpan(lines, projected, span);
        StubBodies(lines, projected, bodies);
      }
    case ImportStatement(imp) =>
      if BoundNames(imp) * required != {} || imp.future { CopyImport(render, lines, projected, imp, required); }
    case Guard(span, body, orelse, _) =>
      if IsNeeded(s, required) {
        CopySpan(lines, projected, span);
        CopyImports(render, lines, projected, body + orelse, required);
      }
    case Assignment(span, _, _) =>
      if IsNeeded(s, required) { CopySpan(lines, projected, span); }
    case Other(_) =>
  }

  function Blanks(n: nat): (r: Lines)
    ensures |r| == n
  {
    seq(n, _ => "")
  }
}
