/** The reader of git diffs behind the differential coverage gate
    (scripts/check_diff_coverage.py). */
module DiffReader {
  import opened DiffPaths
  import opened DecimalDigits
  import opened Wrappers

  // ----- Hunk headers -----

  function Digits(s: string): (n: nat)
    ensures n <= |s| && forall i :: 0 <= i < n ==> IsDigit(s[i])
    ensures n < |s| ==> !IsDigit(s[n])
  {
    if s == [] || !IsDigit(s[0]) then 0 else 1 + Digits(s[1..])
  }

  /** \d+ at the start: the number, and what follows it. */
  function TakeNumber(s: string): Option<(nat, string)> {
    var n := Digits(s);
    if n == 0 then None else Some((Number(s[..n]), s[n..]))
  }

  /** \d+(?:,\d+)? at the start: the number, the count (1 when absent), and the rest. */
  function TakeRange(s: string): Option<(nat, nat, string)> {
    var first := TakeNumber(s);
    if first.None? then None
    else if !("," <= first.value.1) then Some((first.value.0, 1, first.value.1))
    else
      var second := TakeNumber(first.value.1[1..]);
      if second.None? then None else Some((first.value.0, second.value.0, second.value.1))
  }

  function HunkRange(line: string): Option<(nat, nat)> {
    if !("@@ -" <= line) then None else
      var old_ := TakeRange(line[4..]);
      if old_.None? || !(" +" <= old_.value.2) then None else
        var new_ := TakeRange(old_.value.2[2..]);
        if new_.None? || !(" @@" <= new_.value.2) then None else Some((new_.value.0, new_.value.1))
  }

  predicate InRun(i: nat, start: nat, count: nat) { start <= i < start + count }

  /** range(start, start + count) */
  function Run(start: nat, count: nat): set<nat> {
    set i: nat | i < start + count && InRun(i, start, count)
  }

  /** _hunk_line_numbers */
  function HunkLineNumbers(line: string): Result<set<nat>, Error> {
    var r := HunkRange(line);
    if r.None? then Err(Policy) else Ok(Run(r.value.0, r.value.1))
  }

  // ----- The state machine -----

  datatype State = InPreamble | InHeader | InHunk | InBinary

  datatype Reader = Reader(
    changed: map<string, set<nat>>,
    opaque_: set<string>,
    state: State,
    path: Option<string>,
    section: Option<string>,
    sawFileHeader: bool)

  const GIT_HEADER: string := "diff --git "

  predicate IsBodyLine(line: string) {
    line != [] && line[0] in {'+', '-', '\\'}
  }

  predicate StartsWithAny(line: string, prefixes: set<string>) {
    exists p :: p in prefixes && p <= line
  }

  const METADATA: set<string> := {
    "index ", "old mode ", "new mode ", "new file mode ", "deleted file mode ", "similarity index ",
    "dissimilarity index ", "rename from ", "copy from ", "--- "
  }
  const BINARY: set<string> := {"Binary files ", "GIT binary patch"}
  const UNANCHORED: set<string> := {"--- ", "+++ ", "@@"}

  function Lines(changed: map<string, set<nat>>, path: string): set<nat> {
    if path in changed then changed[path] else {}
  }

  function OpenHunk(r: Reader, line: string): Result<Reader, Error> {
    if r.path.None? then Ok(r)
    else
      var numbers := HunkLineNumbers(line);
      if numbers.Err? then Err(numbers.error)
      else Ok(r.(changed := r.changed[r.path.value := Lines(r.changed, r.path.value) + numbers.value]))
  }

  function NameFile(r: Reader, raw: string): Result<Reader, Error> {
    var path := PostChangePath(raw);
    if path.Err? then Err(path.error)
    else if path.value.None? then Ok(r.(sawFileHeader := true, path := None))
    else Ok(r.(sawFileHeader := true, path := path.value, section := path.value,
               changed := r.changed[path.value.value := Lines(r.changed, path.value.value)]))
  }

  function WithSection(r: Reader, section: Result<Option<string>, Error>): Result<Reader, Error> {
    if section.Err? then Err(section.error) else Ok(r.(section := section.value))
  }

  function ReadHeader(r: Reader, line: string): Result<Reader, Error> {
    if "+++ " <= line then NameFile(r, line[4..])
    else if "@@" <= line then if !r.sawFileHeader then Err(Policy) else OpenHunk(r.(state := InHunk), line)
    else if StartsWithAny(line, BINARY) then
      if r.section.None? then Err(Policy) else Ok(r.(opaque_ := r.opaque_ + {r.section.value}, state := InBinary))
    else if "rename to " <= line then WithSection(r, PostChangePath(line[10..]))
    else if "copy to " <= line then WithSection(r, PostChangePath(line[8..]))
    else if StartsWithAny(line, METADATA) then Ok(r)
    else Err(Policy)
  }

  function ReadBody(r: Reader, line: string): Result<Reader, Error> {
    if "@@" <= line then OpenHunk(r, line) else if IsBodyLine(line) then Ok(r) else Err(Policy)
  }

  /** One line. */
  function Step(r: Reader, line: string): Result<Reader, Error> {
    if GIT_HEADER <= line then
      WithSection(r.(state := InHeader, path := None, sawFileHeader := false), SectionPath(line[|GIT_HEADER|..]))
    else match r.state
      case InBinary => Ok(r)
      case InHunk => ReadBody(r, line)
      case InHeader => ReadHeader(r, line)
      case InPreamble => if StartsWithAny(line, UNANCHORED) then Err(Policy) else Ok(r)
  }

  function StepAll(r: Reader, lines: seq<string>): Result<Reader, Error>
    decreases |lines|
  {
    if lines == [] then Ok(r) else
      var next := Step(r, lines[0]);
      if next.Err? then next else StepAll(next.value, lines[1..])
  }

  const START: Reader := Reader(map[], {}, InPreamble, None, None, false)

  class LineReader {
    var changed: map<string, set<nat>>
    var opaque_: set<string>
    var state: State
    var path: Option<string>
    var section: Option<string>
    var sawFileHeader: bool

    ghost function Value(): Reader
      reads this
    {
      Reader(changed, opaque_, state, path, section, sawFileHeader)
    }

    constructor ()
      ensures Value() == START
    {
      changed, opaque_, state, path, section, sawFileHeader := map[], {}, InPreamble, None, None, false;
    }

    /** A refused line leaves the reader to be dropped. */
    method Read(line: string) returns (error: Option<Error>)
      modifies this
      ensures var r := Step(old(Value()), line);
              if r.Ok? then error == None && Value() == r.value else error == Some(r.error)
    {
      error := None;
      if GIT_HEADER <= line {
        state, path, sawFileHeader := InHeader, None, false;
        var named := ReadSectionPath(line[|GIT_HEADER|..]);
        if named.Err? { return Some(named.error); }
        section := named.value;
      } else if state == InBinary {
      } else if state == InHunk {
        if "@@" <= line {
          error := Open(line);
        } else if !IsBodyLine(line) {
          return Some(Policy);
        }
      } else if state == InHeader {
        error := Header(line);
      } else if StartsWithAny(line, UNANCHORED) {
        return Some(Policy);
      }
    }

    method Header(line: string) returns (error: Option<Error>)
      modifies this
      ensures var r := ReadHeader(old(Value()), line);
              if r.Ok? then error == None && Value() == r.value else error == Some(r.error)
    {
      error := None;
      if "+++ " <= line {
        sawFileHeader := true;
        var named := PostChangePath(line[4..]);
        if named.Err? { return Some(named.error); }
        path := named.value;
        if path.Some? {
          section := path;
          if path.value !in changed { changed := changed[path.value := {}]; }
        }
      } else if "@@" <= line {
        if !sawFileHeader { return Some(Policy); }
        state := InHunk;
        error := Open(line);
      } else if StartsWithAny(line, BINARY) {
        if section.None? { return Some(Policy); }
        opaque_ := opaque_ + {section.value};
        state := InBinary;
      } else if "rename to " <= line || "copy to " <= line {
        var named := PostChangePath(if "rename to " <= line then line[10..] else line[8..]);
        if named.Err? { return Some(named.error); }
        section := named.value;
      } else if !StartsWithAny(line, METADATA) {
        return Some(Policy);
      }
    }

    method Open(line: string) returns (error: Option<Error>)
      modifies this
      ensures var r := OpenHunk(old(Value()), line);
              if r.Ok? then error == None && Value() == r.value else error == Some(r.error)
    {
      if path.Some? {
        var numbers := HunkLineNumbers(line);
        if numbers.Err? { return Some(numbers.error); }
        changed := changed[path.value := Lines(changed, path.value) + numbers.value];
      }
      return None;
    }
  }

  /** What the gate goes on with: the paths with changed lines, and the opaque ones. */
  datatype Changes = Changes(changed: map<string, set<nat>>, opaque_: set<string>)

  function ResultOf(r: Reader): Changes {
    Changes(map p | p in r.changed && r.changed[p] != {} :: r.changed[p], r.opaque_)
  }

  method ParseDiff(lines: seq<string>) returns (r: Result<Changes, Error>)
    ensures var end := StepAll(START, lines); r == if end.Err? then Err(end.error) else Ok(ResultOf(end.value))
  {
    var reader := new LineReader();
    for i := 0 to |lines|
      invariant StepAll(START, lines) == StepAll(reader.Value(), lines[i..])
    {
      assert lines[i..][1..] == lines[i + 1..];
      var error := reader.Read(lines[i]);
      if error.Some? { return Err(error.value); }
    }
    return Ok(Changes(map p | p in reader.changed && reader.changed[p] != {} :: reader.changed[p], reader.opaque_));
  }

  // ----- File content cannot change the answer -----

  /** Equal lines, or body lines of a hunk that may differ in everything after, and
      in, their marks. */
  predicate Alike(r: Reader, a: string, b: string) {
    a == b || (r.state == InHunk && IsBodyLine(a) && IsBodyLine(b))
  }

  predicate SameButText(r: Reader, a: seq<string>, b: seq<string>)
    decreases |a|
  {
    if a == [] then b == []
    else b != [] && Alike(r, a[0], b[0]) && (Step(r, a[0]).Ok? ==> SameButText(Step(r, a[0]).value, a[1..], b[1..]))
  }

  lemma {:induction false} TextIsIgnored(r: Reader, a: seq<string>, b: seq<string>)
    requires SameButText(r, a, b)
    ensures StepAll(r, a) == StepAll(r, b)
    decreases |a|
  {
    if a != [] {
      assert Step(r, a[0]) == Step(r, b[0]);
      if Step(r, a[0]).Ok? { TextIsIgnored(Step(r, a[0]).value, a[1..], b[1..]); }
    }
  }

  lemma {:induction false} StepAllConcat(r: Reader, a: seq<string>, b: seq<string>)
    ensures StepAll(r, a + b) == if StepAll(r, a).Err? then StepAll(r, a) else StepAll(StepAll(r, a).value, b)
    decreases |a|
  {
    if a == [] {
      assert a + b == b;
    } else {
      assert (a + b)[1..] == a[1..] + b;
      if Step(r, a[0]).Ok? { StepAllConcat(Step(r, a[0]).value, a[1..], b); }
    }
  }

  // ----- A diff as git writes it -----

  function Decimal(n: nat): string {
    (if n < 10 then [] else Decimal(n / 10)) + [(48 + n % 10) as char]
  }

  function RangeText(start: nat, count: nat): string {
    if count == 1 then Decimal(start) else Decimal(start) + "," + Decimal(count)
  }

  datatype Hunk = Hunk(oldStart: nat, oldCount: nat, newStart: nat, newCount: nat, context: string, body: seq<string>)

  function HunkHeader(h: Hunk): string {
    "@@ -" + RangeText(h.oldStart, h.oldCount) + " +" + RangeText(h.newStart, h.newCount) + " @@" + h.context
  }

  /** Nothing but metadata, line by line, or without lines. */
  datatype Content = Unchanged | ByLine(deleted: bool, hunks: seq<Hunk>) | Opaque(marker: string, payload: seq<string>)

  /** A file section; a moved one was renamed or copied, and an added one has no old file.
      Metadata may stand before and after the lines that name a move. */
  datatype Section = Section(
    old_: string, new_: string, added: bool, moved: bool, copied: bool,
    metadata: seq<string>, index: seq<string>, content: Content)

  predicate HasBody(h: Hunk) {
    forall line :: line in h.body ==> IsBodyLine(line)
  }

  predicate ValidSection(s: Section) {
    && (!s.moved ==> s.old_ == s.new_)
    && s.new_ != "/dev/null"
    && (forall m :: m in s.metadata + s.index ==> StartsWithAny(m, METADATA))
    && match s.content
       case Unchanged => true
       case ByLine(_, hunks) => forall h :: h in hunks ==> HasBody(h)
       case Opaque(marker, payload) => StartsWithAny(marker, BINARY) && forall line :: line in payload ==>
              !(GIT_HEADER <= line)
  }

  function HunkText(hunks: seq<Hunk>): seq<string> {
    if hunks == [] then [] else [HunkHeader(hunks[0])] + hunks[0].body + HunkText(hunks[1..])
  }

  function MoveText(s: Section): seq<string> {
    if !s.moved then []
    else if s.copied then ["copy from " + Token(Utf8(s.old_)), "copy to " + Token(Utf8(s.new_))]
    else ["rename from " + Token(Utf8(s.old_)), "rename to " + Token(Utf8(s.new_))]
  }

  function ContentText(s: Section): seq<string> {
    match s.content
    case Unchanged => []
    case ByLine(deleted, hunks) =>
      ["--- " + (if s.added then "/dev/null" else Label(Utf8("a/" + s.old_))),
       "+++ " + (if deleted then "/dev/null" else Label(Utf8("b/" + s.new_)))] + HunkText(hunks)
    case Opaque(marker, payload) => [marker] + payload
  }

  function SectionHeader(s: Section): string {
    Header(s.old_, s.new_)
  }

  function SectionText(s: Section): seq<string> {
    [GIT_HEADER + SectionHeader(s)] + (s.metadata + (MoveText(s) + (s.index + ContentText(s))))
  }

  function DiffText(sections: seq<Section>): seq<string> {
    if sections == [] then [] else SectionText(sections[0]) + DiffText(sections[1..])
  }

  // ----- What the diff says -----

  function HunkLines(hunks: seq<Hunk>): set<nat> {
    if hunks == [] then {} else Run(hunks[0].newStart, hunks[0].newCount) + HunkLines(hunks[1..])
  }

  /** The lines a section gives a path. */
  function SectionLines(s: Section, path: string): set<nat> {
    if s.content.ByLine? && !s.content.deleted && Normalise(s.new_) == path then HunkLines(s.content.hunks) else {}
  }

  /** The name under which a section without lines is reported. */
  function SectionName(s: Section): string {
    Normalise(if s.moved && "b/" <= s.new_ then s.new_[2..] else s.new_)
  }

  function DiffLines(sections: seq<Section>, path: string): set<nat> {
    if sections == [] then {} else SectionLines(sections[0], path) + DiffLines(sections[1..], path)
  }

  function DiffOpaque(sections: seq<Section>): set<string> {
    if sections == [] then {}
    else (if sections[0].content.Opaque? then {SectionName(sections[0])} else {}) + DiffOpaque(sections[1..])
  }

  // ----- Hunk headers round trip -----

  lemma {:induction false} DecimalIsNumber(n: nat)
    ensures Decimal(n) != [] && (forall i :: 0 <= i < |Decimal(n)| ==> IsDigit(Decimal(n)[i]))
            && Number(Decimal(n)) == n
  {
    var tens, digit := n / 10, n % 10;
    var front := if n < 10 then [] else Decimal(tens);
    assert n == tens * 10 + digit;
    assert Decimal(n) == front + [(48 + digit) as char] && Number([]) == 0;
    hide Decimal, Number, IsDigit;
    if n >= 10 { DecimalIsNumber(tens); }
    assert Number(front) == tens;
  }

  lemma {:induction false} DigitsStop(s: string, rest: string)
    requires (forall i :: 0 <= i < |s| ==> IsDigit(s[i])) && (rest == [] || !IsDigit(rest[0]))
    ensures Digits(s + rest) == |s|
  {
    if s != [] {
      assert (s + rest)[1..] == s[1..] + rest;
      DigitsStop(s[1..], rest);
    } else {
      assert s + rest == rest;
    }
  }

  lemma NumberReadsBack(n: nat, rest: string)
    requires rest == [] || !IsDigit(rest[0])
    ensures TakeNumber(Decimal(n) + rest) == Some((n, rest))
  {
    DecimalIsNumber(n);
    DigitsStop(Decimal(n), rest);
    var s := Decimal(n) + rest;
    assert s[..|Decimal(n)|] == Decimal(n) && s[|Decimal(n)|..] == rest;
  }

  lemma RangeReadsBack(start: nat, count: nat, rest: string)
    requires rest != [] && !IsDigit(rest[0]) && rest[0] != ','
    ensures TakeRange(RangeText(start, count) + rest) == Some((start, count, rest))
  {
    hide Decimal, TakeNumber;
    if count == 1 {
      NumberReadsBack(start, rest);
    } else {
      var tail := [','] + (Decimal(count) + rest);
      NumberReadsBack(start, tail);
      NumberReadsBack(count, rest);
      assert RangeText(start, count) + rest == Decimal(start) + tail;
      assert tail[1..] == Decimal(count) + rest;
    }
  }

  lemma PartsReadBack(old_: string, new_: string, tail: string, a: nat, b: nat, c: nat, d: nat)
    requires TakeRange(new_) == Some((c, d, tail)) && " @@" <= tail
    requires TakeRange(old_) == Some((a, b, " +" + new_))
    ensures HunkRange("@@ -" + old_) == Some((c, d))
  {
    hide TakeRange;
    assert ("@@ -" + old_)[4..] == old_ && (" +" + new_)[2..] == new_;
  }

  lemma HunkReadsBack(h: Hunk)
    ensures HunkRange(HunkHeader(h)) == Some((h.newStart, h.newCount))
  {
    hide RangeText, TakeRange, HunkRange;
    var tail := " @@" + h.context;
    var new_ := RangeText(h.newStart, h.newCount) + tail;
    var old_ := RangeText(h.oldStart, h.oldCount) + (" +" + new_);
    RangeReadsBack(h.newStart, h.newCount, tail);
    RangeReadsBack(h.oldStart, h.oldCount, " +" + new_);
    PartsReadBack(old_, new_, tail, h.oldStart, h.oldCount, h.newStart, h.newCount);
    assert HunkHeader(h) == "@@ -" + old_;
  }

  // ----- Sections round trip -----

  lemma {:induction false} BodyIsSkipped(r: Reader, body: seq<string>)
    requires r.state == InHunk && forall line :: line in body ==> IsBodyLine(line)
    ensures StepAll(r, body) == Ok(r)
  {
    if body != [] {
      assert body[0] in body && forall line :: line in body[1..] ==> line in body;
      BodyIsSkipped(r, body[1..]);
    }
  }

  lemma {:induction false} PayloadIsSkipped(r: Reader, payload: seq<string>)
    requires r.state == InBinary && forall line :: line in payload ==> !(GIT_HEADER <= line)
    ensures StepAll(r, payload) == Ok(r)
  {
    if payload != [] {
      assert payload[0] in payload && forall line :: line in payload[1..] ==> line in payload;
      PayloadIsSkipped(r, payload[1..]);
    }
  }

  /** None of the metadata prefixes is read as anything else. */
  lemma MetadataLine(r: Reader, line: string)
    requires r.state == InHeader && StartsWithAny(line, METADATA)
    ensures Step(r, line) == Ok(r)
  {
    var p :| p in METADATA && p <= line;
    NothingElse(line);
    hide SectionPath, NameFile, OpenHunk, PostChangePath, StartsWithAny, HunkLineNumbers;
  }

  lemma NothingElse(line: string)
    requires |line| >= 4 && line[0] in {'i', 'o', 'n', 'd', 's', 'r', 'c', '-'}
    requires line[0] == 'd' ==> line[2] != 'f'
    requires line[0] == 'r' ==> |line| >= 8 && line[7] == 'f'
    requires line[0] == 'c' ==> |line| >= 6 && line[5] == 'f'
    ensures !(GIT_HEADER <= line) && !("+++ " <= line) && !("@@" <= line) && !("rename to " <= line)
            && !("copy to " <= line)
    ensures !StartsWithAny(line, BINARY)
  {
    assert forall q :: q in BINARY ==> q[0] == 'B' || q[0] == 'G';
  }

  lemma {:induction false} MetadataIsSkipped(r: Reader, metadata: seq<string>)
    requires r.state == InHeader && forall m :: m in metadata ==> StartsWithAny(m, METADATA)
    ensures StepAll(r, metadata) == Ok(r)
  {
    hide StartsWithAny;
    if metadata != [] {
      assert metadata[0] in metadata && forall m :: m in metadata[1..] ==> m in metadata;
      MetadataLine(r, metadata[0]);
      MetadataIsSkipped(r, metadata[1..]);
    }
  }

  /** A reader inside a file's header or hunks, which has changed p's lines by `more`. */
  ghost predicate Gained(r: Reader, t: Reader, path: Option<string>, more: set<nat>) {
    && t.opaque_ == r.opaque_
    && forall p :: Lines(t.changed, p) == Lines(r.changed, p) + (if path == Some(p) then more else {})
  }

  lemma StepHunk(r: Reader, line: string)
    requires r.state == InHunk || (r.state == InHeader && r.sawFileHeader)
    requires |line| >= 2 && line[0] == line[1] == '@'
    ensures Step(r, line) == OpenHunk(r.(state := InHunk), line)
  {
    hide OpenHunk;
    assert "@@" <= line;
  }

  lemma HunkLine(r: Reader, h: Hunk) returns (t: Reader)
    requires r.state == InHunk || (r.state == InHeader && r.sawFileHeader)
    ensures Step(r, HunkHeader(h)) == Ok(t) && t.state == InHunk && t.path == r.path
    ensures Gained(r, t, r.path, Run(h.newStart, h.newCount))
  {
    hide HunkHeader, HunkRange, Step, Run;
    HunkReadsBack(h);
    HunkHeaderStart(h);
    StepHunk(r, HunkHeader(h));
    t := OpenHunk(r.(state := InHunk), HunkHeader(h)).value;
  }

  lemma HunkHeaderStart(h: Hunk)
    ensures |HunkHeader(h)| >= 2 && HunkHeader(h)[0] == HunkHeader(h)[1] == '@'
  {
    hide RangeText;
    var rest := RangeText(h.oldStart, h.oldCount) + " +" + RangeText(h.newStart, h.newCount) + " @@" + h.context;
    assert HunkHeader(h) == "@@ -" + rest;
  }

  lemma HunkRead(r: Reader, h: Hunk) returns (t: Reader)
    requires r.state == InHunk || (r.state == InHeader && r.sawFileHeader)
    requires HasBody(h)
    ensures StepAll(r, [HunkHeader(h)] + h.body) == Ok(t) && t.state == InHunk && t.path == r.path
    ensures Gained(r, t, r.path, Run(h.newStart, h.newCount))
  {
    t := HunkLine(r, h);
    BodyIsSkipped(t, h.body);
    hide Step, HunkHeader, IsBodyLine, Gained, Run;
    ConsStep(r, HunkHeader(h), h.body);
    hide StepAll;
  }

  lemma {:induction false} HunksRead(r: Reader, hunks: seq<Hunk>) returns (t: Reader)
    requires r.state == InHunk || (r.state == InHeader && r.sawFileHeader)
    requires forall h :: h in hunks ==> HasBody(h)
    ensures StepAll(r, HunkText(hunks)) == Ok(t) && Gained(r, t, r.path, HunkLines(hunks))
    decreases |hunks|
  {
    hide HasBody, HunkHeader, Run;
    if hunks == [] {
      t := r;
    } else {
      hide StepAll, Gained;
      var u := HunkRead(r, hunks[0]);
      t := HunksRead(u, hunks[1..]);
      StepAllConcat(r, [HunkHeader(hunks[0])] + hunks[0].body, HunkText(hunks[1..]));
    }
  }

  lemma ConsStep(r: Reader, line: string, rest: seq<string>)
    ensures StepAll(r, [line] + rest) == if Step(r, line).Err? then Step(r, line)
                                         else StepAll(Step(r, line).value, rest)
  {
    assert ([line] + rest)[1..] == rest;
  }

  lemma StepDestination(r: Reader, line: string, to: string, copied: bool)
    requires r.state == InHeader && line == (if copied then "copy to " else "rename to ") + to
    ensures Step(r, line) == WithSection(r, PostChangePath(to))
  {
    hide PostChangePath;
    assert line[0] == 'c' || line[0] == 'r';
    assert copied ==> line[8..] == to;
    assert !copied ==> line[10..] == to;
    assert forall q :: q in BINARY ==> q[0] == 'B' || q[0] == 'G';
  }

  lemma DestinationIsRead(s: Section)
    requires ValidSection(s) && s.moved
    ensures PostChangePath(Token(Utf8(s.new_))) == Ok(Some(SectionName(s)))
  {
    UnquotePathToken(s.new_);
    assert Unquote("/dev/null") == Ok("/dev/null");
    hide Unquote, Token, Utf8, Normalise, WithoutTab;
  }

  /** Whatever the section header named, a move names the new path itself. */
  lemma MoveIsRead(r: Reader, s: Section)
    requires r.state == InHeader && ValidSection(s)
    requires !s.moved ==> r.section == Some(SectionName(s))
    ensures StepAll(r, MoveText(s)) == Ok(r.(section := Some(SectionName(s))))
  {
    if s.moved {
      var from, to := MoveText(s)[0], MoveText(s)[1];
      DestinationIsRead(s);
      assert StartsWithAny(from, METADATA) by {
        assert (if s.copied then "copy from " else "rename from ") in METADATA;
      }
      assert MoveText(s) == [from] + [to] && [to] + [] == [to];
      hide PostChangePath, Token, Utf8, Normalise, SectionName, Step, StartsWithAny;
      MetadataLine(r, from);
      StepDestination(r, to, Token(Utf8(s.new_)), s.copied);
      ConsStep(r, from, [to]);
      ConsStep(r, to, []);
      hide MoveText;
    }
  }

  lemma StepPlus(r: Reader, line: string, written: string)
    requires r.state == InHeader && line == "+++ " + written
    ensures Step(r, line) == NameFile(r, written)
  {
    hide NameFile;
    assert line[0] == '+' && line[4..] == written;
  }

  lemma FileHeaderIsRead(r: Reader, s: Section) returns (t: Reader)
    requires r.state == InHeader && s.content.ByLine?
    ensures StepAll(r, ContentText(s)[..2]) == Ok(t) && t.state == InHeader && t.sawFileHeader
    ensures t.path == (if s.content.deleted then None else Some(Normalise(s.new_))) && Gained(r, t, None, {})
  {
    var minus, plus := ContentText(s)[0], ContentText(s)[1];
    HeaderNamesPath(s.new_);
    var written := if s.content.deleted then "/dev/null" else Label(Utf8("b/" + s.new_));
    assert PostChangePath("/dev/null") == Ok(None);
    assert StartsWithAny(minus, METADATA) by { assert "--- " in METADATA && "--- " <= minus; }
    assert ContentText(s)[..2] == [minus] + [plus] && [plus] + [] == [plus];
    hide PostChangePath, Label, Utf8, Normalise, Step, StartsWithAny, HunkText;
    MetadataLine(r, minus);
    StepPlus(r, plus, written);
    t := NameFile(r, written).value;
    ConsStep(r, minus, [plus]);
    ConsStep(r, plus, []);
    hide ContentText;
  }

  /** What a section adds. */
  ghost predicate Added(r: Reader, t: Reader, s: Section) {
    && t.opaque_ == r.opaque_ + (if s.content.Opaque? then {SectionName(s)} else {})
    && forall p :: Lines(t.changed, p) == Lines(r.changed, p) + SectionLines(s, p)
  }

  lemma GainedIsAdded(r: Reader, u: Reader, t: Reader, s: Section)
    requires s.content.ByLine? && u.path == (if s.content.deleted then None else Some(Normalise(s.new_)))
    requires Gained(r, u, None, {}) && Gained(u, t, u.path, HunkLines(s.content.hunks))
    ensures Added(r, t, s)
  {
    hide Normalise, HunkLines, Lines;
  }

  lemma ContentParts(s: Section)
    requires s.content.ByLine?
    ensures |ContentText(s)| >= 2 && ContentText(s) == ContentText(s)[..2] + HunkText(s.content.hunks)
  {
  }

  lemma LinesAreRead(r: Reader, s: Section) returns (t: Reader)
    requires r.state == InHeader && ValidSection(s) && s.content.ByLine?
    ensures StepAll(r, ContentText(s)) == Ok(t) && Added(r, t, s)
  {
    var hunks := s.content.hunks;
    ContentParts(s);
    assert forall h :: h in hunks ==> HasBody(h);
    hide *;
    var u := FileHeaderIsRead(r, s);
    t := HunksRead(u, hunks);
    StepAllConcat(r, ContentText(s)[..2], HunkText(hunks));
    GainedIsAdded(r, u, t, s);
  }

  lemma ContentIsRead(r: Reader, s: Section) returns (t: Reader)
    requires r.state == InHeader && ValidSection(s) && r.section == Some(SectionName(s))
    ensures StepAll(r, ContentText(s)) == Ok(t) && Added(r, t, s)
  {
    match s.content
    case Unchanged => t := r;
    case ByLine(_, _) => t := LinesAreRead(r, s);
    case Opaque(_, _) =>
      OpaqueIsRead(r, s);
      t := r.(opaque_ := r.opaque_ + {SectionName(s)}, state := InBinary);
  }

  lemma OpaqueIsRead(r: Reader, s: Section)
    requires r.state == InHeader && ValidSection(s) && r.section == Some(SectionName(s)) && s.content.Opaque?
    ensures StepAll(r, ContentText(s)) == Ok(r.(opaque_ := r.opaque_ + {SectionName(s)}, state := InBinary))
  {
    var marker, payload := s.content.marker, s.content.payload;
    hide SectionName;
    var q :| q in BINARY && q <= marker;
    assert q[0] == marker[0] && (marker[0] == 'B' || marker[0] == 'G');
    var t := r.(opaque_ := r.opaque_ + {SectionName(s)}, state := InBinary);
    assert Step(r, marker) == Ok(t);
    PayloadIsSkipped(t, payload);
    ConsStep(r, marker, payload);
    hide Step, StepAll;
  }

  /** The header line can be split: not a quoted old path before an unquoted new path
      that has a space inside. */
  predicate IsReadable(s: Section) {
    !(NeedsQuotes(Utf8("a/" + s.old_)) && !NeedsQuotes(Utf8("b/" + s.new_)) && HasGap(s.new_))
  }

  lemma UnmovedIsNamed(s: Section)
    requires ValidSection(s) && !s.moved
    ensures SectionPath(SectionHeader(s)) == Ok(Some(SectionName(s)))
  {
    SectionHeaderNamesPath(s.new_);
  }

  /** A section is read for what it says, or refused. */
  lemma SectionIsRead(r: Reader, s: Section) returns (t: Reader)
    requires ValidSection(s)
    ensures !IsReadable(s) ==> StepAll(r, SectionText(s)).Err?
    ensures IsReadable(s) ==> StepAll(r, SectionText(s)) == Ok(t) && Added(r, t, s)
  {
    t := r;
    HeaderIsReadIff(s.old_, s.new_);
    if !s.moved { UnmovedIsNamed(s); }
    hide SectionPath, Header, Token, Utf8, NeedsQuotes, HasGap;
    var rest := MoveText(s) + (s.index + ContentText(s));
    assert forall m :: m in s.metadata || m in s.index ==> m in s.metadata + s.index;
    ConsStep(r, GIT_HEADER + SectionHeader(s), s.metadata + rest);
    if IsReadable(s) {
      var u := r.(state := InHeader, path := None, sawFileHeader := false,
                  section := SectionPath(SectionHeader(s)).value);
      MetadataIsSkipped(u, s.metadata);
      MoveIsRead(u, s);
      var v := u.(section := Some(SectionName(s)));
      MetadataIsSkipped(v, s.index);
      t := ContentIsRead(v, s);
      hide Step, StepAll, MoveText, ContentText, SectionName, SectionLines;
      StepAllConcat(u, s.metadata, rest);
      StepAllConcat(u, MoveText(s), s.index + ContentText(s));
      StepAllConcat(v, s.index, ContentText(s));
    }
  }

  /** Reading a diff that git wrote gives exactly what it says: for every path the
      post-change lines of its hunks, and the files it describes without lines. It is
      refused exactly when the header line of some moved file cannot be split. */
  lemma {:induction false} DiffReadsBack(r: Reader, sections: seq<Section>) returns (t: Reader)
    requires forall s :: s in sections ==> ValidSection(s)
    ensures StepAll(r, DiffText(sections)).Ok? <==> forall s :: s in sections ==> IsReadable(s)
    ensures StepAll(r, DiffText(sections)).Ok? ==>
              && StepAll(r, DiffText(sections)) == Ok(t)
              && t.opaque_ == r.opaque_ + DiffOpaque(sections)
              && forall p :: Lines(t.changed, p) == Lines(r.changed, p) + DiffLines(sections, p)
    decreases |sections|
  {
    t := r;
    if sections != [] {
      var s := sections[0];
      assert s in sections && forall u :: u in sections <==> u == s || u in sections[1..];
      StepAllConcat(r, SectionText(s), DiffText(sections[1..]));
      var u := SectionIsRead(r, s);
      hide StepAll, SectionText, ValidSection, SectionLines, SectionName;
      if IsReadable(s) {
        t := DiffReadsBack(u, sections[1..]);
        hide IsReadable;
      }
    }
  }

  /** The same for the gate's own result: a file appears exactly when some hunk gave it
      a line, with those lines. */
  lemma ParseReadsBack(sections: seq<Section>)
    requires forall s :: s in sections ==> ValidSection(s) && IsReadable(s)
    ensures var end := StepAll(START, DiffText(sections));
            end.Ok? && var result := ResultOf(end.value);
            && result.opaque_ == DiffOpaque(sections)
            && (forall p :: p in result.changed <==> DiffLines(sections, p) != {})
            && (forall p :: p in result.changed ==> result.changed[p] == DiffLines(sections, p))
  {
    var t := DiffReadsBack(START, sections);
    hide ValidSection, IsReadable, StepAll, DiffText, DiffOpaque, DiffLines;
    assert forall p :: Lines(START.changed, p) == {};
    assert forall p :: Lines(t.changed, p) == DiffLines(sections, p);
  }
}
