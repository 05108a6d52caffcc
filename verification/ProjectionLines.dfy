/** What the type checker sees on each line of a projection, when statements, imports or
    bodies share lines as well (scripts/check_typing_policy.py). */
module ProjectionLines {
  import opened DiffPaths
  import opened Projection

  predicate In(s: Span, i: nat) { s.first <= i < s.last }

  predicate Covers(s: Statement, i: nat) { In(SpanOf(s), i) }

  // ----- The last of several -----

  /** The last position that is flagged, or the length when none is. */
  function Last(flags: seq<bool>): (k: nat)
    ensures k <= |flags| && (k < |flags| ==> flags[k]) && forall j :: k < j < |flags| ==> !flags[j]
    ensures k == |flags| ==> forall j :: 0 <= j < |flags| ==> !flags[j]
  {
    if flags == [] then 0
    else
      var k := Last(flags[1..]);
      if k < |flags| - 1 then k + 1 else if flags[0] then 0 else |flags|
  }

  lemma LastTail(flags: seq<bool>)
    requires flags != []
    ensures var k := Last(flags[1..]);
            Last(flags) == if k < |flags| - 1 then k + 1 else if flags[0] then 0 else |flags|
  {
  }

  lemma LastIs(flags: seq<bool>, k: nat)
    requires k < |flags| && flags[k] && forall j :: k < j < |flags| ==> !flags[j]
    ensures Last(flags) == k
  {
    assert flags[k] && Last(flags) <= |flags|;
  }

  function BodyFlags(bodies: seq<Body>, i: nat): seq<bool> {
    seq(|bodies|, k requires 0 <= k < |bodies| => In(bodies[k].span, i))
  }

  function ImportFlags(imports: seq<Import>, i: nat): seq<bool> {
    seq(|imports|, k requires 0 <= k < |imports| => In(imports[k].span, i))
  }

  /** Whether anything of a statement is shown. */
  predicate IsShown(s: Statement, admitted: bool, required: set<string>) {
    match s
    case Definition(_, _) => admitted
    case ImportStatement(imp) => imp.future || BoundNames(imp) * required != {}
    case Guard(_, _, _, _) => IsNeeded(s, required)
    case Assignment(_, _, _) => IsNeeded(s, required)
    case Other(_) => false
  }

  function ShownFlags(statements: seq<Statement>, admitted: seq<bool>, required: set<string>, i: nat): seq<bool>
    requires |admitted| == |statements|
  {
    seq(|statements|, k requires 0 <= k < |statements| =>
          IsShown(statements[k], admitted[k], required) && Covers(statements[k], i))
  }

  // ----- What a line shows -----

  /** An import with the names that are wanted, on its first line. */
  function ImportLine(render: Renderer, lines: Lines, imp: Import, required: set<string>, i: nat): string
    requires IsSpan(lines, imp.span) && In(imp.span, i)
  {
    var kept := Wanted(imp, required);
    if i == imp.span.first && kept != [] then Indentation(lines[i]) + render(imp, kept) else ""
  }

  /** A stub on the first line of a body, behind what stands before it. */
  function BodyLine(lines: Lines, b: Body, i: nat): string
    requires IsSpan(lines, b.span) && In(b.span, i)
  {
    if i == b.span.first then Cut(lines[i], b.offset) + STUB else ""
  }

  /** What a definition or a guard leaves of one of its lines: the line itself, unless a
      body or an import covers it. */
  function DefinitionLine(lines: Lines, bodies: seq<Body>, i: nat): string
    requires i < |lines| && forall b :: b in bodies ==> IsSpan(lines, b.span)
  {
    var b := Last(BodyFlags(bodies, i));
    if b == |bodies| then lines[i] else BodyLine(lines, bodies[b], i)
  }

  function GuardLine(render: Renderer, lines: Lines, imports: seq<Import>, required: set<string>, i: nat): string
    requires i < |lines| && forall m :: m in imports ==> IsSpan(lines, m.span)
  {
    var m := Last(ImportFlags(imports, i));
    if m == |imports| then lines[i] else ImportLine(render, lines, imports[m], required, i)
  }

  /** What a statement shows on a line that it covers. */
  function OwnLine(render: Renderer, lines: Lines, s: Statement, required: set<string>, i: nat): string
    requires IsFitting(lines, s) && Covers(s, i)
  {
    match s
    case Definition(_, bodies) => DefinitionLine(lines, bodies, i)
    case ImportStatement(imp) => ImportLine(render, lines, imp, required, i)
    case Guard(_, body, orelse, _) => GuardLine(render, lines, body + orelse, required, i)
    case _ => lines[i]
  }

  /** What the projection shows on a line: what the last shown statement there shows. */
  function ShownLine(render: Renderer, lines: Lines, statements: seq<Statement>, admitted: seq<bool>,
                     required: set<string>, i: nat): string
    requires |admitted| == |statements| && i < |lines| && forall s :: s in statements ==> IsFitting(lines, s)
  {
    var k := Last(ShownFlags(statements, admitted, required, i));
    if k == |statements| then "" else OwnLine(render, lines, statements[k], required, i)
  }

  // ----- The projection in place agrees -----

  lemma BlankedAt(out: Lines, s: Span, i: nat)
    requires IsSpan(out, s) && i < |out|
    ensures Blanked(out, s)[i] == if In(s, i) then "" else out[i]
  {
  }

  lemma BodyStubbedAt(lines: Lines, out: Lines, b: Body, i: nat)
    requires IsSpan(lines, b.span) && |out| == |lines| && i < |lines|
    ensures BodyStubbed(lines, out, b)[i] == if In(b.span, i) then BodyLine(lines, b, i) else out[i]
  {
    BlankedAt(out, b.span, i);
  }

  lemma ImportCopiedAt(render: Renderer, lines: Lines, out: Lines, imp: Import, required: set<string>, i: nat)
    requires IsSpan(lines, imp.span) && |out| == |lines| && i < |lines|
    ensures ImportCopied(render, lines, out, imp, required)[i] ==
            if In(imp.span, i) then ImportLine(render, lines, imp, required, i) else out[i]
  {
    BlankedAt(out, imp.span, i);
    hide Blanked, Wanted, Indentation;
  }

  lemma {:induction false} BodiesStubbedAt(lines: Lines, out: Lines, bodies: seq<Body>, i: nat)
    requires |out| == |lines| && i < |lines| && forall b :: b in bodies ==> IsSpan(lines, b.span)
    ensures var b := Last(BodyFlags(bodies, i));
            BodiesStubbed(lines, out, bodies)[i] == if b == |bodies| then out[i] else BodyLine(lines, bodies[b], i)
    decreases |bodies|
  {
    if bodies != [] {
      assert bodies[0] in bodies && forall b :: b in bodies[1..] ==> b in bodies;
      assert BodyFlags(bodies, i)[1..] == BodyFlags(bodies[1..], i);
      var next := BodyStubbed(lines, out, bodies[0]);
      BodyStubbedAt(lines, out, bodies[0], i);
      hide BodyStubbed, BodyLine;
      BodiesStubbedAt(lines, next, bodies[1..], i);
    }
  }

  lemma LastOfImports(imports: seq<Import>, i: nat)
    requires imports != []
    ensures var k := Last(ImportFlags(imports[1..], i));
            k < |imports| &&
            Last(ImportFlags(imports, i)) ==
              if k < |imports| - 1 then k + 1 else if In(imports[0].span, i) then 0 else |imports|
  {
    hide In;
    var flags := ImportFlags(imports, i);
    assert flags[1..] == ImportFlags(imports[1..], i);
    LastTail(flags);
  }

  lemma {:induction false} ImportsCopiedAt(render: Renderer, lines: Lines, out: Lines, imports: seq<Import>,
                                           required: set<string>, i: nat)
    requires |out| == |lines| && i < |lines| && forall m :: m in imports ==> IsSpan(lines, m.span)
    ensures var m := Last(ImportFlags(imports, i));
            ImportsCopied(render, lines, out, imports, required)[i] ==
            if m == |imports| then out[i] else ImportLine(render, lines, imports[m], required, i)
    decreases |imports|
  {
    if imports != [] {
      hide ImportCopied, ImportLine, ImportFlags, Last, In;
      var first, rest := imports[0], imports[1..];
      assert first in imports && forall m :: m in rest ==> m in imports;
      var next, m := ImportCopied(render, lines, out, first, required), Last(ImportFlags(rest, i));
      ImportCopiedAt(render, lines, out, first, required, i);
      LastOfImports(imports, i);
      ImportsCopiedAt(render, lines, next, rest, required, i);
      assert m < |rest| ==> rest[m] == imports[m + 1];
    }
  }

  lemma NoBodyOutside(bodies: seq<Body>, span: Span, i: nat)
    requires (forall b :: b in bodies ==> Inside(b.span, span)) && !In(span, i)
    ensures Last(BodyFlags(bodies, i)) == |bodies|
  {
    forall k | 0 <= k < |bodies| ensures !In(bodies[k].span, i) { assert bodies[k] in bodies; }
  }

  lemma NoImportOutside(imports: seq<Import>, span: Span, i: nat)
    requires (forall m :: m in imports ==> Inside(m.span, span)) && !In(span, i)
    ensures Last(ImportFlags(imports, i)) == |imports|
  {
    forall k | 0 <= k < |imports| ensures !In(imports[k].span, i) { assert imports[k] in imports; }
  }

  /** What one statement does to a line does not depend on what stood there. */
  lemma ProjectedAt(render: Renderer, lines: Lines, out: Lines, s: Statement, admitted: bool, required: set<string>,
                    i: nat)
    requires IsFitting(lines, s) && |out| == |lines| && i < |lines|
    ensures Projected(render, lines, out, s, admitted, required)[i] ==
            if IsShown(s, admitted, required) && Covers(s, i) then OwnLine(render, lines, s, required, i) else out[i]
  {
    hide BodiesStubbed, ImportsCopied, ImportCopied, ImportLine, BodyLine, Last, BodyFlags, ImportFlags;
    match s
    case Definition(span, bodies) =>
      BodiesStubbedAt(lines, Copied(lines, out, span), bodies, i);
      if !In(span, i) { NoBodyOutside(bodies, span, i); }
    case ImportStatement(imp) => ImportCopiedAt(render, lines, out, imp, required, i);
    case Guard(span, body, orelse, _) =>
      ImportsCopiedAt(render, lines, Copied(lines, out, span), body + orelse, required, i);
      if !In(span, i) { NoImportOutside(body + orelse, span, i); }
    case _ =>
  }

  lemma {:induction false} AllProjectedAt(render: Renderer, lines: Lines, out: Lines, statements: seq<Statement>,
                                          admitted: seq<bool>, required: set<string>, i: nat)
    requires |admitted| == |statements| && |out| == |lines| && i < |lines| && forall s :: s in statements ==>
               IsFitting(lines, s)
    ensures var k := Last(ShownFlags(statements, admitted, required, i));
            AllProjected(render, lines, out, statements, admitted, required)[i] ==
            if k == |statements| then out[i] else OwnLine(render, lines, statements[k], required, i)
    decreases |statements|
  {
    hide Projected, IsFitting, OwnLine, IsShown, Covers;
    if statements != [] {
      assert statements[0] in statements && forall s :: s in statements[1..] ==> s in statements;
      assert ShownFlags(statements, admitted, required, i)[1..] ==
               ShownFlags(statements[1..], admitted[1..], required, i);
      ProjectedAt(render, lines, out, statements[0], admitted[0], required, i);
      AllProjectedAt(render, lines, Projected(render, lines, out, statements[0], admitted[0], required),
                     statements[1..], admitted[1..], required, i);
    }
  }

  /** Each line of the projection is what the last shown statement that covers it shows,
      and blank when there is none: filling the lines in place, statement by statement,
      is the same as asking for each line. */
  lemma LineIsDecided(render: Renderer, lines: Lines, statements: seq<Statement>, admitted: seq<bool>,
                      required: set<string>, i: nat)
    requires |admitted| == |statements| && i < |lines| && forall s :: s in statements ==> IsFitting(lines, s)
    ensures AllProjected(render, lines, Blanks(|lines|), statements, admitted, required)[i] ==
            ShownLine(render, lines, statements, admitted, required, i)
  {
    AllProjectedAt(render, lines, Blanks(|lines|), statements, admitted, required, i);
    hide AllProjected, OwnLine, IsFitting, Last;
  }

  /** The projection has the module's lines, each at its place: it is what the last shown
      statement there shows, for the least names that are needed. */
  method ProjectSymbols(render: Renderer, lines: Lines, statements: seq<Statement>, admitted: seq<bool>,
                        signature: set<string>)
    returns (projection: Lines)
    requires |admitted| == |statements| && forall s :: s in statements ==> IsFitting(lines, s)
    ensures |projection| == |lines|
    ensures exists required :: IsLeastClosed(statements, signature, required) &&
              forall i :: 0 <= i < |lines| ==>
                projection[i] == ShownLine(render, lines, statements, admitted, required, i)
  {
    var projected := new string[|lines|](_ => "");
    assert projected[..] == Blanks(|lines|);
    var required := RequiredNames(statements, signature);
    for k := 0 to |statements|
      invariant AllProjected(render, lines, Blanks(|lines|), statements, admitted, required) ==
                AllProjected(render, lines, projected[..], statements[k..], admitted[k..], required)
    {
      assert statements[k..][1..] == statements[k + 1..] && admitted[k..][1..] == admitted[k + 1..];
      ProjectStatement(render, lines, projected, statements[k], admitted[k], required);
    }
    projection := projected[..];
    forall i | 0 <= i < |lines| ensures projection[i] == ShownLine(render, lines, statements, admitted, required, i) {
      LineIsDecided(render, lines, statements, admitted, required, i);
    }
  }

  // ----- What that means for each kind of statement -----

  /** The k-th statement is shown on line i, and no later one is. */
  predicate Decides(statements: seq<Statement>, admitted: seq<bool>, required: set<string>, k: nat, i: nat)
    requires |admitted| == |statements|
  {
    && k < |statements| && IsShown(statements[k], admitted[k], required) && Covers(statements[k], i)
    && forall j :: k < j < |statements| ==> !(IsShown(statements[j], admitted[j], required) && Covers(statements[j], i))
  }

  lemma DecidesIsLast(statements: seq<Statement>, admitted: seq<bool>, required: set<string>, k: nat, i: nat)
    requires |admitted| == |statements|
    ensures Decides(statements, admitted, required, k, i) <==>
              k < |statements| && Last(ShownFlags(statements, admitted, required, i)) == k
  {
    hide IsShown, Covers;
    var flags := ShownFlags(statements, admitted, required, i);
    if Decides(statements, admitted, required, k, i) {
      LastIs(flags, k);
    }
    if k < |statements| && Last(flags) == k {
      forall j | k < j < |statements|
        ensures !(IsShown(statements[j], admitted[j], required) && Covers(statements[j], i))
      {
        assert !flags[j];
      }
    }
  }

  /** A shown definition: outside the lines that bodies take the line itself, a stub on the
      first of these, nothing else of them. */
  lemma DefinitionIsStubbed(render: Renderer, lines: Lines, statements: seq<Statement>, admitted: seq<bool>,
                            required: set<string>, k: nat, i: nat)
    requires |admitted| == |statements| && i < |lines| && forall s :: s in statements ==> IsFitting(lines, s)
    requires Decides(statements, admitted, required, k, i) && statements[k].Definition?
    ensures var line, bodies := ShownLine(render, lines, statements, admitted, required, i), statements[k].bodies;
            && ((forall b :: b in bodies ==> !In(b.span, i)) ==> line == lines[i])
            && (forall b: nat ::
                  && b < |bodies| && In(bodies[b].span, i)
                  && (forall c :: b < c < |bodies| ==> !In(bodies[c].span, i)) ==>
                    line == if i == bodies[b].span.first then Cut(lines[i], bodies[b].offset) + STUB else "")
  {
    DecidesIsLast(statements, admitted, required, k, i);
    var bodies := statements[k].bodies;
    assert statements[k] in statements;
    hide Cut, Decides, ShownFlags;
    var flags := BodyFlags(bodies, i);
    if Last(flags) < |bodies| { assert bodies[Last(flags)] in bodies; }
    forall b: nat | b < |bodies| && In(bodies[b].span, i) && forall c :: b < c < |bodies| ==> !In(bodies[c].span, i)
      ensures Last(flags) == b
    {
      LastIs(flags, b);
    }
  }

  /** Of a body, only the stub is left: no other line from its beginning to its end. */
  predicate IsHidden(lines: Lines, bodies: seq<Body>, b: Body)
    requires b.begin <= b.span.first && IsSpan(lines, b.span) && forall c :: c in bodies ==> IsSpan(lines, c.span)
  {
    forall i :: b.begin <= i < b.span.last && i != b.span.first ==> DefinitionLine(lines, bodies, i) == ""
  }

  /** The stub takes the place of the whole body exactly when no decorator stands before its
      first statement: decorators lie above the line from which the body is blanked. */
  lemma StubHidesBodyIff(lines: Lines, bodies: seq<Body>, k: nat)
    requires k < |bodies| && IsSpan(lines, bodies[k].span) && bodies[k].begin <= bodies[k].span.first
    requires forall c :: c in bodies ==> IsSpan(lines, c.span)
    requires bodies[k].begin < bodies[k].span.first ==> lines[bodies[k].begin] != ""
    requires forall c, i :: 0 <= c < |bodies| && c != k && bodies[k].begin <= i < bodies[k].span.last ==>
                              !In(bodies[c].span, i)
    ensures IsHidden(lines, bodies, bodies[k]) <==> bodies[k].begin == bodies[k].span.first
  {
    var b := bodies[k];
    hide Cut;
    forall i | b.begin <= i < b.span.last
      ensures Last(BodyFlags(bodies, i)) == if In(b.span, i) then k else |bodies|
    {
      var flags := BodyFlags(bodies, i);
      assert flags[k] == In(b.span, i) && forall c :: 0 <= c < |bodies| && c != k ==> !flags[c];
      if In(b.span, i) { LastIs(flags, k); }
    }
    if b.begin < b.span.first {
      assert !In(b.span, b.begin) && DefinitionLine(lines, bodies, b.begin) == lines[b.begin];
    }
  }

  /** The decorator of a function that is defined first thing in another one is left with
      nothing to decorate. */
  lemma DecoratorIsLeft(render: Renderer)
    ensures var lines := ["def f():", "    @d", "    def g(): pass", "    return g"];
            var f := Definition(Span(0, 4), [Body(1, Span(2, 4), 4)]);
            && IsFitting(lines, f)
            && OwnLine(render, lines, f, {}, 0) == "def f():"
            && OwnLine(render, lines, f, {}, 1) == "    @d"
            && OwnLine(render, lines, f, {}, 2) == "    " + STUB
            && OwnLine(render, lines, f, {}, 3) == ""
  {
    var bodies := [Body(1, Span(2, 4), 4)];
    assert bodies[0] in bodies;
    assert !BodyFlags(bodies, 0)[0] && !BodyFlags(bodies, 1)[0];
    LastIs(BodyFlags(bodies, 2), 0);
    LastIs(BodyFlags(bodies, 3), 0);
    assert "    def g(): pass"[..4] == "    ";
  }

  /** The names that an import binds and the projection needs, in the import's order. */
  lemma {:induction false} WantedIsExact(aliases: seq<Alias>, required: set<string>, a: Alias)
    ensures a in WantedOf(aliases, required) <==> a in aliases && a.bound in required
  {
    if aliases != [] {
      WantedIsExact(aliases[1..], required, a);
      assert aliases == [aliases[0]] + aliases[1..];
    }
  }

  /** What is shown: admitted definitions, imports of the future or of a required name,
      guards with an import of one in either branch, and assignments that bind one. */
  lemma ShownIff(s: Statement, admitted: bool, required: set<string>)
    ensures IsShown(s, admitted, required) <==>
              match s
              case Definition(_, _) => admitted
              case ImportStatement(imp) => imp.future || exists a :: a in imp.aliases && a.bound in required
              case Guard(_, body, orelse, _) =>
                exists i, a :: (i in body || i in orelse) && a in i.aliases && a.bound in required
              case Assignment(_, bound, _) => exists n :: n in bound && n in required
              case Other(_) => false
  {
    match s
    case ImportStatement(imp) =>
      if a :| a in imp.aliases && a.bound in required { assert a.bound in BoundNames(imp) * required; }
    case Guard(_, body, orelse, _) => GuardNeededIff(s, required);
    case Assignment(_, bound, _) =>
      if n :| n in bound && n in required { assert n in bound * required; }
    case _ =>
  }

  /** The indentation is the longest run of spaces, tabs and form feeds in front. */
  lemma {:induction false} IndentationIs(line: string)
    ensures var n := |Indentation(line)|;
            && n <= |line| && Indentation(line) == line[..n]
            && (forall i :: 0 <= i < n ==> line[i] == ' ' || line[i] == '\t' || line[i] == '\U{c}')
            && (n < |line| ==> line[n] != ' ' && line[n] != '\t' && line[n] != '\U{c}')
  {
    if line != [] && line[0] in {' ', '\t', '\U{c}'} {
      IndentationIs(line[1..]);
      assert line == [line[0]] + line[1..];
    }
  }

  ghost predicate IsIncreasing(at: seq<nat>) {
    forall j, k :: 0 <= j < k < |at| ==> at[j] < at[k]
  }

  ghost predicate Picks(aliases: seq<Alias>, at: seq<nat>, wanted: seq<Alias>) {
    |wanted| == |at| && forall k :: 0 <= k < |at| ==> at[k] < |aliases| && wanted[k] == aliases[at[k]]
  }

  /** The names written are those wanted, in the order in which the import has them. */
  lemma {:induction false} WantedInOrder(aliases: seq<Alias>, required: set<string>) returns (at: seq<nat>)
    ensures Picks(aliases, at, WantedOf(aliases, required)) && IsIncreasing(at)
    ensures forall p: nat :: p in at <==> p < |aliases| && aliases[p].bound in required
  {
    hide Picks, IsIncreasing, OneLater;
    at := [];
    if aliases == [] {
      NothingPicked();
    } else {
      var later := WantedInOrder(aliases[1..], required);
      at := OneLater(aliases[0].bound in required, later);
      PicksLater(aliases, later, WantedOf(aliases[1..], required), aliases[0].bound in required);
    }
  }

  /** Positions in a list, counted with its first entry, which may be one of them. */
  ghost function OneLater(first: bool, later: seq<nat>): (at: seq<nat>)
    ensures forall p: nat :: p in at <==> if p == 0 then first else p - 1 in later
    ensures IsIncreasing(later) ==> IsIncreasing(at)
    ensures |at| == |later| + (if first then 1 else 0)
    ensures forall k :: 0 <= k < |at| ==>
              at[k] == if first && k == 0 then 0 else later[if first then k - 1 else k] + 1
  {
    var shifted := seq(|later|, k requires 0 <= k < |later| => later[k] + 1);
    assert forall k :: 0 <= k < |later| ==> shifted[k] == later[k] + 1;
    (if first then [0] else []) + shifted
  }

  lemma NothingPicked()
    ensures Picks([], [], []) && IsIncreasing([])
  {
  }

  lemma PicksLater(aliases: seq<Alias>, later: seq<nat>, wanted: seq<Alias>, first: bool)
    requires aliases != [] && Picks(aliases[1..], later, wanted)
    ensures Picks(aliases, OneLater(first, later), (if first then [aliases[0]] else []) + wanted)
  {
    hide OneLater;
    var at := OneLater(first, later);
    var all := (if first then [aliases[0]] else []) + wanted;
    forall k | 0 <= k < |at| ensures at[k] < |aliases| && all[k] == aliases[at[k]] {
      if !(first && k == 0) {
        var j := if first then k - 1 else k;
        assert all[k] == wanted[j] && aliases[1..][later[j]] == aliases[later[j] + 1];
      }
    }
  }

  /** A shown import leaves, on its first line, exactly its wanted names, of which there
      is one unless it is an empty __future__ import; and blanks its other lines. */
  lemma ImportIsFiltered(render: Renderer, lines: Lines, statements: seq<Statement>, admitted: seq<bool>,
                         required: set<string>, k: nat, i: nat)
    requires |admitted| == |statements| && i < |lines| && forall s :: s in statements ==> IsFitting(lines, s)
    requires Decides(statements, admitted, required, k, i) && statements[k].ImportStatement?
    ensures var line, imp := ShownLine(render, lines, statements, admitted, required, i), statements[k].imp;
            && (i == imp.span.first && imp.aliases != [] ==>
                  line == Indentation(lines[i]) + render(imp, Wanted(imp, required)))
            && (i != imp.span.first ==> line == "")
            && (imp.aliases != [] ==> Wanted(imp, required) != [])
            && forall a :: a in Wanted(imp, required) <==> a in imp.aliases && (imp.future || a.bound in required)
  {
    DecidesIsLast(statements, admitted, required, k, i);
    var imp := statements[k].imp;
    forall a ensures a in Wanted(imp, required) <==> a in imp.aliases && (imp.future || a.bound in required) {
      WantedIsExact(imp.aliases, required, a);
    }
    hide Wanted, WantedOf, Indentation, ShownFlags;
    if !imp.future {
      var n :| n in BoundNames(imp) * required;
      var a :| a in imp.aliases && a.bound == n;
      assert a in Wanted(imp, required);
    }
  }

  /** A needed assignment stands as it is on a line that it decides. */
  lemma AssignmentStays(render: Renderer, lines: Lines, statements: seq<Statement>, admitted: seq<bool>,
                        required: set<string>, k: nat, i: nat)
    requires |admitted| == |statements| && i < |lines| && forall s :: s in statements ==> IsFitting(lines, s)
    requires Decides(statements, admitted, required, k, i) && statements[k].Assignment?
    ensures ShownLine(render, lines, statements, admitted, required, i) == lines[i]
  {
    DecidesIsLast(statements, admitted, required, k, i);
    hide ShownFlags, Decides;
  }

  /** A statement is visible on a line only when it decides it: when a later shown
      statement covers the line, any other statement in its place leaves it the same. */
  lemma OvertakenIsLost(render: Renderer, lines: Lines, statements: seq<Statement>, admitted: seq<bool>,
                        required: set<string>, k: nat, j: nat, i: nat, other: Statement, shown: bool)
    requires |admitted| == |statements| && i < |lines| && forall s :: s in statements ==> IsFitting(lines, s)
    requires k < j < |statements| && IsShown(statements[j], admitted[j], required) && Covers(statements[j], i)
             && IsFitting(lines, other)
    ensures ShownLine(render, lines, statements[k := other], admitted[k := shown], required, i) ==
            ShownLine(render, lines, statements, admitted, required, i)
  {
    hide IsShown, Covers, OwnLine, IsFitting;
    var flags, changed := ShownFlags(statements, admitted, required, i),
                          ShownFlags(statements[k := other], admitted[k := shown], required, i);
    assert flags[j] && forall m :: k < m < |flags| ==> changed[m] == flags[m];
    LastIs(changed, Last(flags));
  }

  // ----- Statements that share a line -----

  const IMPORT_A: Import := Import(Span(0, 1), false, [Alias("a", "a")])
  const IMPORT_B: Import := Import(Span(0, 1), false, [Alias("b", "b")])

  /** Of `import a; import b`, with both names needed, only the second import is left. */
  lemma SharedImportIsLost(render: Renderer)
    ensures AllProjected(render, ["import a; import b"], [""], [ImportStatement(IMPORT_A), ImportStatement(IMPORT_B)],
                         [false, false], {"a", "b"}) ==
            [render(IMPORT_B, [Alias("b", "b")])]
  {
    var lines, statements := ["import a; import b"], [ImportStatement(IMPORT_A), ImportStatement(IMPORT_B)];
    var b := Alias("b", "b");
    OneWanted(b, {"a", "b"});
    assert Indentation("import a; import b") == "" && "" + render(IMPORT_B, [b]) == render(IMPORT_B, [b]);
    SecondDecides(lines, statements, {"a", "b"});
    assert Blanks(1) == [""];
    LineIsDecided(render, lines, statements, [false, false], {"a", "b"}, 0);
    hide AllProjected, ShownFlags;
  }

  /** Of `A = int; import b`, with both names needed, only the import is left. */
  lemma SharedAssignmentIsLost(render: Renderer)
    ensures AllProjected(render, ["A = int; import b"], [""],
                         [Assignment(Span(0, 1), {"A"}, {"int"}), ImportStatement(IMPORT_B)], [false, false],
                         {"A", "b"}) ==
            [render(IMPORT_B, [Alias("b", "b")])]
  {
    var lines, statements := ["A = int; import b"], [Assignment(Span(0, 1), {"A"}, {"int"}), ImportStatement(IMPORT_B)];
    var b := Alias("b", "b");
    OneWanted(b, {"A", "b"});
    assert Indentation("A = int; import b") == "" && "" + render(IMPORT_B, [b]) == render(IMPORT_B, [b]);
    SecondDecides(lines, statements, {"A", "b"});
    assert Blanks(1) == [""];
    LineIsDecided(render, lines, statements, [false, false], {"A", "b"}, 0);
    hide AllProjected, ShownFlags;
  }

  lemma OneWanted(a: Alias, required: set<string>)
    requires a.bound in required
    ensures WantedOf([a], required) == [a]
  {
    assert [a][1..] == [] && [a] + [] == [a];
  }

  lemma SecondDecides(lines: Lines, statements: seq<Statement>, required: set<string>)
    requires |statements| == 2 && statements[1] == ImportStatement(IMPORT_B) && "b" in required
    ensures Last(ShownFlags(statements, [false, false], required, 0)) == 1
  {
    var flags := ShownFlags(statements, [false, false], required, 0);
    assert Alias("b", "b") in IMPORT_B.aliases && "b" in BoundNames(IMPORT_B) * required;
    LastIs(flags, 1);
  }

  // ----- Guards -----

  /** The p-th import of a guard leaves its wanted names in the guard's text. */
  predicate IsKept(imports: seq<Import>, required: set<string>, p: nat)
    requires p < |imports|
  {
    Wanted(imports[p], required) != [] && forall q :: p < q < |imports| ==> !In(imports[q].span, imports[p].span.first)
  }

  /** What IsKept says of the text. */
  lemma KeptIsShown(render: Renderer, lines: Lines, imports: seq<Import>, required: set<string>, p: nat)
    requires p < |imports| && (forall m :: m in imports ==> IsSpan(lines, m.span)) && IsSpan(lines, imports[p].span)
    requires IsKept(imports, required, p)
    ensures var i := imports[p].span.first;
            GuardLine(render, lines, imports, required, i) ==
              Indentation(lines[i]) + render(imports[p], Wanted(imports[p], required))
  {
    assert imports[p] in imports;
    LastIs(ImportFlags(imports, imports[p].span.first), p);
    hide Wanted, Indentation;
  }

  /** A later import takes the first line of the p-th. */
  predicate IsOvertaken(imports: seq<Import>, p: nat)
    requires p < |imports|
  {
    exists q :: p < q < |imports| && In(imports[q].span, imports[p].span.first)
  }

  /** Some of what the import binds is wanted. */
  predicate Contributes(imp: Import, required: set<string>) {
    BoundNames(imp) * required != {} || (imp.future && imp.aliases != [])
  }

  lemma LastIsKept(imports: seq<Import>, required: set<string>, i: nat)
    requires var last := Last(ImportFlags(imports, i));
             last < |imports| && imports[last].span.first == i && Wanted(imports[last], required) != []
    ensures IsKept(imports, required, Last(ImportFlags(imports, i)))
  {
    hide Wanted;
    var flags := ImportFlags(imports, i);
    forall q | Last(flags) < q < |imports| ensures !In(imports[q].span, i) { assert !flags[q]; }
  }

  /** A line of imports of which none is kept there is blank. */
  lemma DroppedIsBlank(render: Renderer, lines: Lines, imports: seq<Import>, required: set<string>, i: nat)
    requires i < |lines| && forall m :: m in imports ==> IsSpan(lines, m.span)
    requires exists m :: m in imports && In(m.span, i)
    requires forall p :: 0 <= p < |imports| && IsKept(imports, required, p) ==> imports[p].span.first != i
    ensures GuardLine(render, lines, imports, required, i) == ""
  {
    var flags := ImportFlags(imports, i);
    var m :| m in imports && In(m.span, i);
    var p :| 0 <= p < |imports| && imports[p] == m;
    assert flags[p];
    var last := Last(flags);
    if imports[last].span.first == i && Wanted(imports[last], required) != [] { LastIsKept(imports, required, i); }
  }

  /** A branch of a guard: the imports from lo up to hi. */
  predicate IsEmptied(imports: seq<Import>, required: set<string>, lo: nat, hi: nat)
    requires lo <= hi <= |imports|
  {
    forall p :: lo <= p < hi ==> !IsKept(imports, required, p)
  }

  /** Whatever line an import of an emptied branch decides is blank. */
  lemma EmptiedIsBlank(render: Renderer, lines: Lines, imports: seq<Import>, required: set<string>,
                       lo: nat, hi: nat, i: nat)
    requires i < |lines| && forall m :: m in imports ==> IsSpan(lines, m.span)
    requires lo <= hi <= |imports| && IsEmptied(imports, required, lo, hi)
    requires lo <= Last(ImportFlags(imports, i)) < hi
    ensures GuardLine(render, lines, imports, required, i) == ""
  {
    var flags := ImportFlags(imports, i);
    var last := Last(flags);
    if imports[last].span.first == i && Wanted(imports[last], required) != [] { LastIsKept(imports, required, i); }
  }

  lemma WantedIff(imp: Import, required: set<string>)
    ensures Wanted(imp, required) != [] <==> Contributes(imp, required)
  {
    if imp.future {
      if n :| n in BoundNames(imp) * required { assert exists a :: a in imp.aliases && a.bound == n; }
      return;
    }
    forall a ensures a in Wanted(imp, required) <==> a in imp.aliases && a.bound in required {
      WantedIsExact(imp.aliases, required, a);
    }
    hide WantedOf;
    if Wanted(imp, required) != [] {
      var a := Wanted(imp, required)[0];
      assert a in Wanted(imp, required) && a.bound in BoundNames(imp) * required;
    }
    if n :| n in BoundNames(imp) * required {
      var a :| a in imp.aliases && a.bound == n;
      assert a in Wanted(imp, required);
    }
  }

  /** A branch is left with nothing exactly when each import of it that binds a wanted name
      has its first line taken by a later one. */
  lemma BranchIsEmptiedIff(imports: seq<Import>, required: set<string>, lo: nat, hi: nat)
    requires lo <= hi <= |imports|
    ensures IsEmptied(imports, required, lo, hi) <==>
              forall p :: lo <= p < hi && Contributes(imports[p], required) ==> IsOvertaken(imports, p)
  {
    hide Wanted, Contributes, In;
    forall p | lo <= p < hi
      ensures IsKept(imports, required, p) <==> Contributes(imports[p], required) && !IsOvertaken(imports, p)
    {
      WantedIff(imports[p], required);
    }
  }

  /** Something of the branch is wanted and not overtaken. */
  predicate Holds(imports: seq<Import>, required: set<string>, lo: nat, hi: nat)
    requires lo <= hi <= |imports|
  {
    exists p :: lo <= p < hi && Contributes(imports[p], required) && !IsOvertaken(imports, p)
  }

  /** Neither branch of a guard that has imports is left without them: exactly when each
      has one that binds a wanted name and whose first line no later import takes. */
  lemma GuardStaysWholeIff(g: Statement, required: set<string>)
    requires g.Guard?
    ensures var all, n := g.body + g.orelse, |g.body|;
            (g.body != [] ==> !IsEmptied(all, required, 0, n))
            && (g.orelse != [] ==> !IsEmptied(all, required, n, |all|)) <==>
            (g.body != [] ==> Holds(all, required, 0, n))
            && (g.orelse != [] ==> Holds(all, required, n, |all|))
  {
    var all, n := g.body + g.orelse, |g.body|;
    hide IsEmptied, Contributes, IsOvertaken;
    BranchIsEmptiedIff(all, required, 0, n);
    BranchIsEmptiedIff(all, required, n, |all|);
  }

  /** No import begins on a line of a later one. */
  predicate AreOnOwnLines(imports: seq<Import>) {
    forall p :: 0 <= p < |imports| ==> !IsOvertaken(imports, p)
  }

  /** There the first line of an import that is not kept is blank. */
  lemma UnkeptIsBlank(render: Renderer, lines: Lines, imports: seq<Import>, required: set<string>, p: nat)
    requires p < |imports| && IsSpan(lines, imports[p].span) && forall m :: m in imports ==> IsSpan(lines, m.span)
    requires AreOnOwnLines(imports) && !IsKept(imports, required, p)
    ensures GuardLine(render, lines, imports, required, imports[p].span.first) == ""
  {
    var i := imports[p].span.first;
    assert imports[p] in imports && In(imports[p].span, i);
    forall q | 0 <= q < |imports| && imports[q].span.first == i ensures q == p {
      assert imports[q] in imports && In(imports[q].span, i);
      assert !IsOvertaken(imports, q) && !IsOvertaken(imports, p);
    }
    DroppedIsBlank(render, lines, imports, required, i);
  }

  lemma HoldsOnOwnLines(imports: seq<Import>, required: set<string>, lo: nat, hi: nat)
    requires lo <= hi <= |imports| && AreOnOwnLines(imports) && forall m :: m in imports ==> !m.future
    ensures Holds(imports, required, lo, hi) <==> GuardNames(imports[lo..hi]) * required != {}
  {
    var branch := imports[lo..hi];
    hide IsOvertaken, BoundNames;
    assert forall p :: 0 <= p < |imports| ==> imports[p] in imports;
    if n :| n in GuardNames(branch) * required {
      var m :| m in branch && n in BoundNames(m);
      var p :| 0 <= p < |branch| && branch[p] == m;
      assert imports[lo + p] == m && n in BoundNames(m) * required;
    }
    forall p | lo <= p < hi && Contributes(imports[p], required) ensures GuardNames(branch) * required != {} {
      var n :| n in BoundNames(imports[p]) * required;
      assert branch[p - lo] == imports[p] && n in GuardNames(branch);
    }
  }

  /** With imports on lines of their own, the condition is that each branch binds a
      required name. */
  lemma GuardOnOwnLinesIff(g: Statement, required: set<string>)
    requires g.Guard? && AreOnOwnLines(g.body + g.orelse) && forall m :: m in g.body + g.orelse ==> !m.future
    ensures var all, n := g.body + g.orelse, |g.body|;
            (g.body != [] ==> !IsEmptied(all, required, 0, n))
            && (g.orelse != [] ==> !IsEmptied(all, required, n, |all|)) <==>
            (g.body != [] ==> GuardNames(g.body) * required != {})
            && (g.orelse != [] ==> GuardNames(g.orelse) * required != {})
  {
    hide IsEmptied, Holds, GuardNames, AreOnOwnLines;
    var all, n := g.body + g.orelse, |g.body|;
    assert all[0..n] == g.body && all[n..|all|] == g.orelse;
    GuardStaysWholeIff(g, required);
    HoldsOnOwnLines(all, required, 0, n);
    HoldsOnOwnLines(all, required, n, |all|);
  }

  /** With only x needed, this guard loses its body: the second import blanks the line that
      the first has just written. */
  lemma GuardLosesBody(render: Renderer)
    ensures var lines := ["if t:", "    import x; import y"];
            var x := Import(Span(1, 2), false, [Alias("x", "x")]);
            var y := Import(Span(1, 2), false, [Alias("y", "y")]);
            var g := Guard(Span(0, 2), [x, y], [], {"t"});
            && IsShown(g, false, {"x"}) && IsFitting(lines, g) && "x" in GuardNames(g.body)
            && OwnLine(render, lines, g, {"x"}, 0) == "if t:" && OwnLine(render, lines, g, {"x"}, 1) == ""
            && IsEmptied([x, y], {"x"}, 0, 2)
  {
    var x, y := Import(Span(1, 2), false, [Alias("x", "x")]), Import(Span(1, 2), false, [Alias("y", "y")]);
    NeededForX(x, y);
    SecondImportDecides(render, x, y);
    assert [x, y] + [] == [x, y];
    hide IsNeeded, ImportFlags, IsEmptied, GuardNames, GuardLine;
  }

  lemma NeededForX(x: Import, y: Import)
    requires x.aliases == [Alias("x", "x")]
    ensures "x" in GuardNames([x, y]) && IsNeeded(Guard(Span(0, 2), [x, y], [], {"t"}), {"x"})
  {
    assert Alias("x", "x") in x.aliases && "x" in BoundNames(x) && x in [x, y] && [x, y] + [] == [x, y];
    assert "x" in GuardNames([x, y]) * {"x"};
  }

  lemma SecondImportDecides(render: Renderer, x: Import, y: Import)
    requires x.span == y.span == Span(1, 2) && !y.future && y.aliases == [Alias("y", "y")]
    ensures var lines := ["if t:", "    import x; import y"];
            && GuardLine(render, lines, [x, y], {"x"}, 0) == "if t:"
            && GuardLine(render, lines, [x, y], {"x"}, 1) == ""
    ensures IsEmptied([x, y], {"x"}, 0, 2)
  {
    hide Indentation;
    var imports := [x, y];
    var first := ImportFlags(imports, 0);
    assert !first[0] && !first[1] && Last(first) == 2;
    LastIs(ImportFlags(imports, 1), 1);
    assert [Alias("y", "y")][1..] == [] && WantedOf([Alias("y", "y")], {"x"}) == [];
    assert In(imports[1].span, imports[0].span.first);
  }

  const IMPORT_X: Import := Import(Span(1, 2), false, [Alias("x", "x")])
  const IMPORT_Y: Import := Import(Span(3, 4), false, [Alias("y", "y")])

  /** With only x needed, the `else` of this guard is left with nothing under it. */
  lemma GuardLosesElse(render: Renderer)
    ensures var lines := ["if t:", "    import x", "else:", "    import y"];
            var g := Guard(Span(0, 4), [IMPORT_X], [IMPORT_Y], {"t"});
            && IsShown(g, false, {"x"}) && IsFitting(lines, g)
            && OwnLine(render, lines, g, {"x"}, 2) == "else:" && OwnLine(render, lines, g, {"x"}, 3) == ""
            && IsEmptied([IMPORT_X, IMPORT_Y], {"x"}, 1, 2)
  {
    var lines := ["if t:", "    import x", "else:", "    import y"];
    var imports := [IMPORT_X] + [IMPORT_Y];
    assert imports == [IMPORT_X, IMPORT_Y] && IMPORT_X in imports;
    assert Alias("x", "x") in IMPORT_X.aliases && "x" in BoundNames(IMPORT_X) && "x" in GuardNames(imports) * {"x"};
    var third := ImportFlags(imports, 2);
    assert !third[0] && !third[1] && Last(third) == 2;
    LastIs(ImportFlags(imports, 3), 1);
    assert [Alias("y", "y")][1..] == [] && WantedOf([Alias("y", "y")], {"x"}) == [];
  }

  /** The header of a guard stays as it is unless an import begins on its line, as in
      `if t: import x`; then the test is lost and the import stands alone. */
  lemma GuardHeaderStaysIff(render: Renderer, lines: Lines, g: Statement, required: set<string>)
    requires g.Guard? && IsFitting(lines, g)
    ensures var all, i := g.body + g.orelse, g.span.first;
            if forall m :: m in all ==> !In(m.span, i) then OwnLine(render, lines, g, required, i) == lines[i]
            else exists m :: m in all && m.span.first == i && OwnLine(render, lines, g, required, i) ==
                   if Wanted(m, required) == [] then "" else Indentation(lines[i]) + render(m, Wanted(m, required))
  {
    var all, i := g.body + g.orelse, g.span.first;
    var flags := ImportFlags(all, i);
    hide Wanted, Indentation;
    if Last(flags) < |all| {
      var m := all[Last(flags)];
      assert m in all && IsSpan(lines, m.span) && Inside(m.span, g.span);
    } else {
      forall m | m in all ensures !In(m.span, i) {
        var p :| 0 <= p < |all| && all[p] == m;
        assert !flags[p];
      }
    }
  }

  /** The offset of a body in its line is in bytes: the stub line keeps exactly the text
      before the body if and only if that text is ASCII. */
  lemma StubKeepsHeaderIff(header: string, body: string)
    requires body != []
    ensures Cut(header + body, |Utf8(header)|) == header <==> forall c :: c in header ==> c < '\U{80}'
  {
    BytesOfAscii(header);
    assert (header + body)[..|header|] == header;
  }

  lemma {:induction false} BytesOfAscii(s: string)
    ensures |Utf8(s)| >= |s| && (|Utf8(s)| == |s| <==> forall c :: c in s ==> c < '\U{80}')
  {
    if s != [] {
      BytesOfAscii(s[1..]);
      assert forall c :: c in s <==> c == s[0] || c in s[1..];
      assert s == [s[0]] + s[1..];
      assert s[0] in s && (|Utf8Char(s[0])| == 1 <==> s[0] < '\U{80}');
      assert |Utf8(s)| == |Utf8Char(s[0])| + |Utf8(s[1..])|;
    }
  }
}
