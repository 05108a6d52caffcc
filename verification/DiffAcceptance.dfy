/** Which sequences of lines the diff reader accepts, and what it then reads, in terms of
    where each line stands (scripts/check_diff_coverage.py). */
module DiffAcceptance {
  import opened DiffPaths
  import opened DiffReader
  import opened DecimalDigits
  import opened Wrappers

  // ----- Hunk headers -----

  ghost predicate AreDigits(s: string) {
    s != "" && forall i :: 0 <= i < |s| ==> IsDigit(s[i])
  }

  /** A start and a count; a count of one may be left out. */
  ghost predicate Denotes(text: string, start: nat, count: nat) {
    || (AreDigits(text) && Number(text) == start && count == 1)
    || (exists a, b ::
          text == a + "," + b && AreDigits(a) && AreDigits(b) && Number(a) == start && Number(b) == count)
  }

  ghost predicate IsRange(text: string) { exists start: nat, count: nat :: Denotes(text, start, count) }

  lemma NumberIsTaken(a: string, rest: string)
    requires AreDigits(a) && (rest == [] || !IsDigit(rest[0]))
    ensures TakeNumber(a + rest) == Some((Number(a), rest))
  {
    DigitsStop(a, rest);
    assert (a + rest)[..|a|] == a && (a + rest)[|a|..] == rest;
  }

  lemma RangeIsTaken(text: string, start: nat, count: nat, rest: string)
    requires Denotes(text, start, count) && rest != [] && !IsDigit(rest[0]) && rest[0] != ','
    ensures TakeRange(text + rest) == Some((start, count, rest))
  {
    hide TakeNumber, Number, IsDigit;
    if AreDigits(text) && Number(text) == start && count == 1 {
      NumberIsTaken(text, rest);
    } else {
      var a, b :| text == a + "," + b && AreDigits(a) && AreDigits(b) && Number(a) == start && Number(b) == count;
      var tail := "," + (b + rest);
      assert text + rest == a + tail && tail[1..] == b + rest;
      CommaIsNoDigit();
      NumberIsTaken(a, tail);
      NumberIsTaken(b, rest);
    }
  }

  lemma CommaIsNoDigit()
    ensures !IsDigit(',') && !IsDigit(' ')
  {
  }

  lemma TakenNumber(s: string) returns (a: string)
    requires TakeNumber(s).Some?
    ensures AreDigits(a) && Number(a) == TakeNumber(s).value.0 && s == a + TakeNumber(s).value.1
  {
    a := s[..Digits(s)];
  }

  lemma TakenRange(s: string) returns (text: string)
    requires TakeRange(s).Some?
    ensures Denotes(text, TakeRange(s).value.0, TakeRange(s).value.1) && s == text + TakeRange(s).value.2
  {
    hide TakeNumber, Number, IsDigit;
    var a := TakenNumber(s);
    var rest := TakeNumber(s).value.1;
    if "," <= rest {
      var b := TakenNumber(rest[1..]);
      assert rest == "," + rest[1..];
      text := a + "," + b;
      assert Denotes(text, TakeRange(s).value.0, TakeRange(s).value.1);
    } else {
      text := a;
    }
  }

  /** The post-change range of a hunk header, as its pattern gives it. */
  ghost predicate IsHunkHeader(line: string, start: nat, count: nat) {
    exists before, after, rest ::
      line == "@@ -" + before + " +" + after + " @@" + rest && IsRange(before) && Denotes(after, start, count)
  }

  lemma HunkRangeIff(line: string, start: nat, count: nat)
    ensures HunkRange(line) == Some((start, count)) <==> IsHunkHeader(line, start, count)
  {
    hide TakeRange, Denotes;
    if HunkRange(line) == Some((start, count)) {
      var before := TakenRange(line[4..]);
      var middle := TakeRange(line[4..]).value.2;
      var after := TakenRange(middle[2..]);
      var tail := TakeRange(middle[2..]).value.2;
      assert tail == " @@" + tail[3..] && middle == " +" + middle[2..] && line == "@@ -" + line[4..];
      assert line == "@@ -" + before + " +" + after + " @@" + tail[3..];
    }
    if IsHunkHeader(line, start, count) {
      var before, after, rest :|
        line == "@@ -" + before + " +" + after + " @@" + rest && IsRange(before) && Denotes(after, start, count);
      var s, c :| Denotes(before, s, c);
      var tail := " @@" + rest;
      var middle := " +" + (after + tail);
      CommaIsNoDigit();
      RangeIsTaken(before, s, c, middle);
      RangeIsTaken(after, start, count, tail);
      assert line == "@@ -" + (before + middle);
      assert line[4..] == before + middle && middle[2..] == after + tail;
    }
  }

  // ----- Where a line stands -----

  /** The kinds of lines that say where the others stand. */
  datatype Kind = Git | File | Mark | Naming

  ghost predicate IsBinaryMark(line: string) {
    "Binary files " <= line || "GIT binary patch" <= line
  }

  /** The path that a header line gives, if it gives one. */
  ghost function PathOf(raw: string): Option<string> {
    if PostChangePath(raw).Ok? then PostChangePath(raw).value else None
  }

  ghost predicate Is(kind: Kind, line: string) {
    match kind
    case Git => "diff --git " <= line
    case File => "+++ " <= line
    case Mark => "@@" <= line || IsBinaryMark(line)
    case Naming => "rename to " <= line || "copy to " <= line || ("+++ " <= line && PathOf(line[4..]).Some?)
  }

  /** The last line of a kind from lo up to hi; lo - 1 when there is none. */
  ghost function LastIn(lines: seq<string>, lo: nat, hi: nat, kind: Kind): (k: int)
    requires lo <= hi <= |lines|
    ensures lo - 1 <= k < hi && (k >= lo ==> Is(kind, lines[k]))
    ensures forall j :: k < j < hi && lo <= j ==> !Is(kind, lines[j])
    decreases hi - lo
  {
    if lo == hi then lo - 1 else if Is(kind, lines[hi - 1]) then hi - 1 else LastIn(lines, lo, hi - 1, kind)
  }

  /** The first one; hi when there is none. */
  ghost function FirstIn(lines: seq<string>, lo: nat, hi: nat, kind: Kind): (k: nat)
    requires lo <= hi <= |lines|
    ensures lo <= k <= hi && (k < hi ==> Is(kind, lines[k]))
    ensures forall j :: lo <= j < k ==> !Is(kind, lines[j])
    decreases hi - lo
  {
    if lo == hi then hi else if Is(kind, lines[lo]) then lo else FirstIn(lines, lo + 1, hi, kind)
  }

  lemma {:induction false} FirstGrows(lines: seq<string>, lo: nat, hi: nat, kind: Kind)
    requires lo <= hi < |lines|
    ensures var k := FirstIn(lines, lo, hi, kind);
            FirstIn(lines, lo, hi + 1, kind) ==
              if k < hi then k else if Is(kind, lines[hi]) then hi else hi + 1
    decreases hi - lo
  {
    hide Is;
    if lo < hi && !Is(kind, lines[lo]) { FirstGrows(lines, lo + 1, hi, kind); }
    if lo == hi { assert FirstIn(lines, hi + 1, hi + 1, kind) == hi + 1; }
  }

  /** The line that opens the section of line i; -1 before the first section. */
  ghost function Opening(lines: seq<string>, i: nat): int
    requires i <= |lines|
  {
    LastIn(lines, 0, i, Git)
  }

  /** The line that ends the header of that section before line i, else i. */
  ghost function HeaderEnd(lines: seq<string>, i: nat): (h: nat)
    requires i <= |lines|
    ensures Opening(lines, i) < h <= i
  {
    FirstIn(lines, Opening(lines, i) + 1, i, Mark)
  }

  /** The file that the header names so far with its last `+++ ` line. */
  ghost function FileAt(lines: seq<string>, i: nat): Option<string>
    requires i <= |lines|
  {
    var lo := Opening(lines, i) + 1;
    var k := LastIn(lines, lo, HeaderEnd(lines, i), File);
    if k < lo then None else PathOf(lines[k][4..])
  }

  ghost predicate HasFile(lines: seq<string>, i: nat)
    requires i <= |lines|
  {
    exists k :: Opening(lines, i) < k < HeaderEnd(lines, i) && "+++ " <= lines[k]
  }

  /** The name of the section so far: its last name in the header, else that of its first line. */
  ghost function NameAt(lines: seq<string>, i: nat): Option<string>
    requires i <= |lines| && Opening(lines, i) >= 0
  {
    var lo := Opening(lines, i) + 1;
    var k := LastIn(lines, lo, HeaderEnd(lines, i), Naming);
    if k < lo then
      var named := SectionPath(lines[lo - 1][11..]);
      if named.Ok? then named.value else None
    else if "+++ " <= lines[k] then PathOf(lines[k][4..])
    else if "rename to " <= lines[k] then PathOf(lines[k][10..])
    else PathOf(lines[k][8..])
  }

  ghost predicate IsParsed(line: string) { exists start: nat, count: nat :: IsHunkHeader(line, start, count) }

  ghost predicate IsMetadata(line: string) {
    || "index " <= line || "old mode " <= line || "new mode " <= line || "new file mode " <= line
    || "deleted file mode " <= line || "similarity index " <= line || "dissimilarity index " <= line
    || "rename from " <= line || "copy from " <= line || "--- " <= line
  }

  /** A line that may stand in the header of a section. */
  ghost predicate FitsHeader(lines: seq<string>, i: nat)
    requires i < |lines| && Opening(lines, i) >= 0
  {
    var line := lines[i];
    || IsMetadata(line)
    || ("+++ " <= line && PostChangePath(line[4..]).Ok?)
    || ("rename to " <= line && PostChangePath(line[10..]).Ok?)
    || ("copy to " <= line && PostChangePath(line[8..]).Ok?)
    || ("@@" <= line && HasFile(lines, i) && (FileAt(lines, i).Some? ==> IsParsed(line)))
    || (IsBinaryMark(line) && NameAt(lines, i).Some?)
  }

  ghost predicate FitsHunks(lines: seq<string>, i: nat)
    requires i < |lines|
  {
    var line := lines[i];
    || "+" <= line || "-" <= line || "\\" <= line
    || ("@@" <= line && (FileAt(lines, i).Some? ==> IsParsed(line)))
  }

  /** Line i stands where the format allows it. */
  ghost predicate StandsWell(lines: seq<string>, i: nat)
    requires i < |lines|
  {
    var line, h := lines[i], HeaderEnd(lines, i);
    if "diff --git " <= line then SectionPath(line[11..]).Ok?
    else if Opening(lines, i) < 0 then !("--- " <= line) && !("+++ " <= line) && !("@@" <= line)
    else if h == i then FitsHeader(lines, i)
    else if "@@" <= lines[h] then FitsHunks(lines, i)
    else true
  }

  // ----- The reader keeps to this -----

  ghost function StateAt(lines: seq<string>, i: nat): State
    requires i <= |lines|
  {
    var h := HeaderEnd(lines, i);
    if Opening(lines, i) < 0 then InPreamble else if h == i then InHeader
    else if "@@" <= lines[h] then InHunk else InBinary
  }

  /** A line that opens a hunk of a file. */
  ghost predicate Opens(lines: seq<string>, i: nat, path: string)
    requires i < |lines|
  {
    "@@" <= lines[i] && StateAt(lines, i) in {InHeader, InHunk} && FileAt(lines, i) == Some(path)
  }

  ghost predicate Gives(lines: seq<string>, i: nat, path: string, n: nat)
    requires i < |lines|
  {
    Opens(lines, i, path) &&
    exists start: nat, count: nat :: IsHunkHeader(lines[i], start, count) && start <= n < start + count
  }

  ghost predicate Marks(lines: seq<string>, i: nat, path: string)
    requires i < |lines|
  {
    IsBinaryMark(lines[i]) && StateAt(lines, i) == InHeader && NameAt(lines, i) == Some(path)
  }

  /** What the reader knows after the first i lines. */
  ghost predicate Knows(r: Reader, lines: seq<string>, i: nat)
    requires i <= |lines|
  {
    && r.state == StateAt(lines, i)
    && (Opening(lines, i) >= 0 ==>
          r.path == FileAt(lines, i) && r.section == NameAt(lines, i) && r.sawFileHeader == HasFile(lines, i))
  }

  ghost predicate HasRead(r: Reader, lines: seq<string>, i: nat)
    requires i <= |lines|
  {
    && (forall path, n :: n in Lines(r.changed, path) <==> exists j :: 0 <= j < i && Gives(lines, j, path, n))
    && (forall path :: path in r.opaque_ <==> exists j :: 0 <= j < i && Marks(lines, j, path))
  }

  lemma HasFileIff(lines: seq<string>, i: nat)
    requires i <= |lines|
    ensures var lo := Opening(lines, i) + 1; HasFile(lines, i) <==> LastIn(lines, lo, HeaderEnd(lines, i), File) >= lo
  {
    var lo, h := Opening(lines, i) + 1, HeaderEnd(lines, i);
    var k := LastIn(lines, lo, h, File);
    if k >= lo { assert "+++ " <= lines[k]; }
    forall j | lo <= j < h && "+++ " <= lines[j] ensures k >= lo { assert Is(File, lines[j]); }
  }

  /** A line that opens a section. */
  lemma GitLine(r: Reader, lines: seq<string>, i: nat)
    requires i < |lines| && "diff --git " <= lines[i]
    ensures Step(r, lines[i]).Ok? <==> StandsWell(lines, i)
    ensures Step(r, lines[i]).Ok? ==> Knows(Step(r, lines[i]).value, lines, i + 1)
  {
    hide SectionPath, PostChangePath;
    assert Opening(lines, i + 1) == i && HeaderEnd(lines, i + 1) == i + 1;
    HasFileIff(lines, i + 1);
  }

  /** Another line leaves the section open that is; its header goes on unless it has ended. */
  lemma OtherLine(lines: seq<string>, i: nat)
    requires i < |lines| && !("diff --git " <= lines[i])
    ensures Opening(lines, i + 1) == Opening(lines, i)
    ensures HeaderEnd(lines, i + 1) ==
              if HeaderEnd(lines, i) < i then HeaderEnd(lines, i) else if Is(Mark, lines[i]) then i else i + 1
  {
    FirstGrows(lines, Opening(lines, i) + 1, i, Mark);
  }

  // ----- One line -----

  lemma MetadataIff(line: string)
    ensures StartsWithAny(line, METADATA) <==> IsMetadata(line)
    ensures StartsWithAny(line, BINARY) <==> IsBinaryMark(line)
    ensures StartsWithAny(line, UNANCHORED) <==> "--- " <= line || "+++ " <= line || "@@" <= line
  {
  }

  /** A line has at most one of the prefixes. */
  lemma PrefixesDiffer(line: string)
    ensures "+++ " <= line ==> !("@@" <= line) && !("rename to " <= line) && !("copy to " <= line)
    ensures "+++ " <= line || "@@" <= line ==> !IsBinaryMark(line) && !IsMetadata(line)
    ensures "@@" <= line || IsBinaryMark(line) ==> !("rename to " <= line) && !("copy to " <= line)
    ensures IsBinaryMark(line) || "rename to " <= line || "copy to " <= line ==> !IsMetadata(line)
    ensures "rename to " <= line ==> !("copy to " <= line)
  {
    assert "+++ " <= line ==> line[0] == '+';
    assert "@@" <= line ==> line[0] == '@';
    assert "Binary files " <= line ==> line[0] == 'B';
    assert "GIT binary patch" <= line ==> line[0] == 'G';
    assert "rename to " <= line ==> line[0] == 'r' && line[7] == 't';
    assert "copy to " <= line ==> line[0] == 'c' && line[5] == 't';
    assert "rename from " <= line ==> line[0] == 'r' && line[7] == 'f';
    assert "copy from " <= line ==> line[0] == 'c' && line[5] == 'f';
    assert IsMetadata(line) ==>
             line[0] in {'i', 'o', 'n', 'd', 's', '-'} || "rename from " <= line || "copy from " <= line;
  }

  lemma NumbersIff(line: string)
    ensures HunkLineNumbers(line).Ok? <==> IsParsed(line)
    ensures HunkLineNumbers(line).Ok? ==>
              forall n :: n in HunkLineNumbers(line).value <==>
                exists start: nat, count: nat :: IsHunkHeader(line, start, count) && start <= n < start + count
  {
    hide HunkRange, IsHunkHeader;
    forall start: nat, count: nat
      ensures HunkRange(line) == Some((start, count)) <==> IsHunkHeader(line, start, count)
    {
      HunkRangeIff(line, start, count);
    }
    if HunkRange(line).Some? {
      var (start, count) := HunkRange(line).value;
      assert IsHunkHeader(line, start, count);
    }
  }

  lemma LastGoesOn(lines: seq<string>, i: nat, kind: Kind)
    requires i < |lines| && !("diff --git " <= lines[i]) && Opening(lines, i) >= 0 && HeaderEnd(lines, i) == i
    requires kind == File || kind == Naming
    ensures var lo := Opening(lines, i) + 1;
            LastIn(lines, lo, HeaderEnd(lines, i + 1), kind) ==
              if Is(kind, lines[i]) then i else LastIn(lines, lo, i, kind)
  {
    OtherLine(lines, i);
    PrefixesDiffer(lines[i]);
    hide Opening, HeaderEnd, IsBinaryMark;
  }

  /** What a line of the header does to the file. */
  lemma FileGoesOn(lines: seq<string>, i: nat)
    requires i < |lines| && !("diff --git " <= lines[i]) && Opening(lines, i) >= 0 && HeaderEnd(lines, i) == i
    ensures FileAt(lines, i + 1) == (if "+++ " <= lines[i] then PathOf(lines[i][4..]) else FileAt(lines, i))
    ensures HasFile(lines, i + 1) <==> "+++ " <= lines[i] || HasFile(lines, i)
  {
    hide PathOf, SectionPath, IsMetadata, LastIn, FirstIn, HasFile, Opening, HeaderEnd;
    OtherLine(lines, i);
    LastGoesOn(lines, i, File);
    HasFileIff(lines, i);
    HasFileIff(lines, i + 1);
  }

  /** What it does to the name. */
  lemma NameGoesOn(lines: seq<string>, i: nat)
    requires i < |lines| && !("diff --git " <= lines[i]) && Opening(lines, i) >= 0 && HeaderEnd(lines, i) == i
    ensures var line := lines[i];
            NameAt(lines, i + 1) ==
              if "+++ " <= line then
                if PathOf(line[4..]).Some? then PathOf(line[4..]) else NameAt(lines, i)
              else if "rename to " <= line then PathOf(line[10..])
              else if "copy to " <= line then PathOf(line[8..]) else NameAt(lines, i)
  {
    hide PathOf, SectionPath, IsMetadata, LastIn, FirstIn, Opening, HeaderEnd;
    OtherLine(lines, i);
    PrefixesDiffer(lines[i]);
    LastGoesOn(lines, i, Naming);
  }

  /** A line after the header changes neither. */
  lemma HeaderIsOver(lines: seq<string>, i: nat)
    requires i < |lines| && !("diff --git " <= lines[i]) && Opening(lines, i) >= 0 && HeaderEnd(lines, i) < i
    ensures FileAt(lines, i + 1) == FileAt(lines, i) && NameAt(lines, i + 1) == NameAt(lines, i)
    ensures HasFile(lines, i + 1) <==> HasFile(lines, i)
    ensures StateAt(lines, i + 1) == StateAt(lines, i)
  {
    hide Is, IsBinaryMark, PathOf, SectionPath, Opening, LastIn, FirstIn, HeaderEnd;
    OtherLine(lines, i);
  }

  lemma HeaderLine(r: Reader, lines: seq<string>, i: nat)
    requires i < |lines| && !("diff --git " <= lines[i]) && Knows(r, lines, i) && r.state == InHeader
    ensures ReadHeader(r, lines[i]).Ok? <==> FitsHeader(lines, i)
    ensures ReadHeader(r, lines[i]).Ok? ==> Knows(ReadHeader(r, lines[i]).value, lines, i + 1)
  {
    hide IsMetadata, StartsWithAny, HunkLineNumbers, IsParsed, FileAt, NameAt, HasFile, PostChangePath, Opening,
         HeaderEnd, IsHunkHeader, Lines;
    var line := lines[i];
    FileGoesOn(lines, i);
    NameGoesOn(lines, i);
    OtherLine(lines, i);
    PrefixesDiffer(line);
    MetadataIff(line);
    NumbersIff(line);
  }

  lemma LaterLine(r: Reader, lines: seq<string>, i: nat)
    requires i < |lines| && !("diff --git " <= lines[i]) && Knows(r, lines, i) && r.state in {InHunk, InBinary}
    ensures Step(r, lines[i]).Ok? <==> r.state == InBinary || FitsHunks(lines, i)
    ensures Step(r, lines[i]).Ok? ==> Knows(Step(r, lines[i]).value, lines, i + 1)
  {
    hide HunkLineNumbers, IsParsed, FileAt, NameAt, HasFile, Opening, HeaderEnd;
    var line := lines[i];
    HeaderIsOver(lines, i);
    OtherLine(lines, i);
    NumbersIff(line);
    assert line != [] && line[0] in {'+', '-', '\\'} <==> "+" <= line || "-" <= line || "\\" <= line;
  }

  lemma StepKnows(r: Reader, lines: seq<string>, i: nat)
    requires i < |lines| && Knows(r, lines, i)
    ensures Step(r, lines[i]).Ok? <==> StandsWell(lines, i)
    ensures Step(r, lines[i]).Ok? ==> Knows(Step(r, lines[i]).value, lines, i + 1)
  {
    var line := lines[i];
    hide ReadHeader, ReadBody, FitsHeader, FitsHunks, FileAt, NameAt, HasFile, SectionPath;
    if "diff --git " <= line {
      GitLine(r, lines, i);
    } else if r.state == InHeader {
      HeaderLine(r, lines, i);
    } else if r.state == InPreamble {
      OtherLine(lines, i);
      MetadataIff(line);
    } else {
      LaterLine(r, lines, i);
    }
  }

  // ----- All lines -----

  /** What one accepted line adds. */
  ghost predicate Adds(r: Reader, u: Reader, lines: seq<string>, i: nat)
    requires i < |lines|
  {
    && (forall path, n :: n in Lines(u.changed, path) <==> n in Lines(r.changed, path) || Gives(lines, i, path, n))
    && (forall path :: path in u.opaque_ <==> path in r.opaque_ || Marks(lines, i, path))
  }

  lemma QuietLine(r: Reader, u: Reader, lines: seq<string>, i: nat)
    requires i < |lines| && u.opaque_ == r.opaque_ && forall path :: Lines(u.changed, path) == Lines(r.changed, path)
    requires "@@" <= lines[i] ==> StateAt(lines, i) in {InPreamble, InBinary}
    requires IsBinaryMark(lines[i]) ==> StateAt(lines, i) != InHeader
    ensures Adds(r, u, lines, i)
  {
    hide FileAt, NameAt, IsHunkHeader, StateAt, IsBinaryMark, Lines;
    PrefixesDiffer(lines[i]);
    BinaryIsNoHunk(lines[i]);
  }

  lemma BinaryIsNoHunk(line: string)
    ensures !("@@" <= line && IsBinaryMark(line))
    ensures "diff --git " <= line ==> !("@@" <= line) && !IsBinaryMark(line)
  {
    assert "@@" <= line ==> line[0] == '@';
    assert IsBinaryMark(line) ==> line[0] in {'B', 'G'};
    assert "diff --git " <= line ==> line[0] == 'd';
  }

  lemma OpenReads(r: Reader, lines: seq<string>, i: nat)
    requires i < |lines| && r.path == FileAt(lines, i) && "@@" <= lines[i] && StateAt(lines, i) in {InHeader, InHunk}
    requires OpenHunk(r, lines[i]).Ok?
    ensures Adds(r, OpenHunk(r, lines[i]).value, lines, i)
  {
    hide FileAt, NameAt, IsHunkHeader, StateAt, IsBinaryMark, HunkLineNumbers;
    NumbersIff(lines[i]);
    BinaryIsNoHunk(lines[i]);
  }

  lemma MarkReads(r: Reader, u: Reader, lines: seq<string>, i: nat)
    requires i < |lines| && Opening(lines, i) >= 0 && r.section == NameAt(lines, i)
    requires IsBinaryMark(lines[i]) && StateAt(lines, i) == InHeader
    requires r.section.Some? && u.changed == r.changed && u.opaque_ == r.opaque_ + {r.section.value}
    ensures Adds(r, u, lines, i)
  {
    hide FileAt, NameAt, IsHunkHeader, StateAt, IsBinaryMark, Lines;
    BinaryIsNoHunk(lines[i]);
  }

  lemma NameFileKeeps(r: Reader, raw: string)
    requires NameFile(r, raw).Ok?
    ensures var u := NameFile(r, raw).value;
            u.opaque_ == r.opaque_ && forall path :: Lines(u.changed, path) == Lines(r.changed, path)
  {
    hide PostChangePath;
  }

  lemma HeaderReads(r: Reader, lines: seq<string>, i: nat)
    requires i < |lines| && !("diff --git " <= lines[i]) && Knows(r, lines, i) && r.state == InHeader
    requires ReadHeader(r, lines[i]).Ok?
    ensures Adds(r, ReadHeader(r, lines[i]).value, lines, i)
  {
    var line := lines[i];
    var u := ReadHeader(r, line).value;
    PrefixesDiffer(line);
    MetadataIff(line);
    hide FileAt, NameAt, HasFile, OpenHunk, NameFile, Adds, PostChangePath, IsMetadata, StartsWithAny, IsBinaryMark,
         Lines, Opening, HeaderEnd;
    if "+++ " <= line {
      NameFileKeeps(r, line[4..]);
      QuietLine(r, u, lines, i);
    } else if "@@" <= line {
      OpenReads(r.(state := InHunk), lines, i);
      AddsAlike(r.(state := InHunk), r, u, lines, i);
    } else if IsBinaryMark(line) {
      MarkReads(r, u, lines, i);
    } else {
      QuietLine(r, u, lines, i);
    }
  }

  lemma AddsAlike(r: Reader, s: Reader, u: Reader, lines: seq<string>, i: nat)
    requires i < |lines| && Adds(r, u, lines, i) && r.changed == s.changed && r.opaque_ == s.opaque_
    ensures Adds(s, u, lines, i)
  {
    hide Gives, Marks, Lines;
  }

  lemma StepReads(r: Reader, lines: seq<string>, i: nat)
    requires i < |lines| && Knows(r, lines, i) && Step(r, lines[i]).Ok?
    ensures Adds(r, Step(r, lines[i]).value, lines, i)
  {
    var line := lines[i];
    BinaryIsNoHunk(line);
    MetadataIff(line);
    hide FileAt, NameAt, HasFile, OpenHunk, ReadHeader, Adds, SectionPath, IsMetadata, StartsWithAny, IsBinaryMark,
         Lines, Opening, HeaderEnd;
    if r.state == InHeader && !("diff --git " <= line) {
      HeaderReads(r, lines, i);
    } else if r.state == InHunk && "@@" <= line {
      OpenReads(r, lines, i);
    } else {
      QuietLine(r, Step(r, line).value, lines, i);
    }
  }

  lemma HasReadGrows(r: Reader, u: Reader, lines: seq<string>, i: nat)
    requires i < |lines| && HasRead(r, lines, i) && Adds(r, u, lines, i)
    ensures HasRead(u, lines, i + 1)
  {
    hide Gives, Marks, Lines;
  }

  lemma NothingRead(lines: seq<string>)
    ensures StepAll(START, lines[..0]) == Ok(START) && Knows(START, lines, 0) && HasRead(START, lines, 0)
  {
    assert lines[..0] == [] && Opening(lines, 0) == -1;
  }

  lemma OneMoreStep(lines: seq<string>, i: nat)
    requires i < |lines|
    ensures var r := StepAll(START, lines[..i]);
            StepAll(START, lines[..i + 1]) == if r.Ok? then Step(r.value, lines[i]) else r
  {
    hide Step;
    assert lines[..i + 1] == lines[..i] + [lines[i]] && [lines[i]][1..] == [];
    StepAllConcat(START, lines[..i], [lines[i]]);
  }

  lemma {:induction false} ReadsUpTo(lines: seq<string>, i: nat)
    requires i <= |lines|
    ensures var r := StepAll(START, lines[..i]);
            && (r.Ok? <==> forall j :: 0 <= j < i ==> StandsWell(lines, j))
            && (r.Ok? ==> Knows(r.value, lines, i) && HasRead(r.value, lines, i))
  {
    hide *;
    if i == 0 {
      NothingRead(lines);
    } else {
      ReadsUpTo(lines, i - 1);
      OneMoreStep(lines, i - 1);
      var r := StepAll(START, lines[..i - 1]);
      if r.Ok? {
        StepKnows(r.value, lines, i - 1);
        var u := Step(r.value, lines[i - 1]);
        if u.Ok? {
          StepReads(r.value, lines, i - 1);
          HasReadGrows(r.value, u.value, lines, i - 1);
        }
      }
    }
  }

  /** The diff is read exactly when every line stands where the format allows it. */
  lemma ReadableIff(lines: seq<string>)
    ensures StepAll(START, lines).Ok? <==> forall i :: 0 <= i < |lines| ==> StandsWell(lines, i)
  {
    hide *;
    ReadsUpTo(lines, |lines|);
    assert lines[..|lines|] == lines;
  }

  /** A file's changed lines are then those that the hunk headers under its name give, and
      the opaque files are the sections with a binary marker. */
  lemma ReadsExactly(lines: seq<string>, path: string, n: nat)
    requires StepAll(START, lines).Ok?
    ensures var r := ResultOf(StepAll(START, lines).value);
            && (path in r.changed && n in r.changed[path] <==>
                  exists i :: 0 <= i < |lines| && Gives(lines, i, path, n))
            && (path in r.opaque_ <==> exists i :: 0 <= i < |lines| && Marks(lines, i, path))
  {
    hide Gives, Marks, StepAll, Knows, StandsWell;
    ReadsUpTo(lines, |lines|);
    assert lines[..|lines|] == lines;
    var r := StepAll(START, lines).value;
    assert n in Lines(r.changed, path) <==> exists i :: 0 <= i < |lines| && Gives(lines, i, path, n);
  }

  /** A diff without git's own section headers is refused. */
  lemma UnanchoredIsRefused()
    ensures StepAll(START, ["--- a.py", "+++ a.py", "@@ -7,0 +8,1 @@", "+x"]).Err?
  {
    var lines := ["--- a.py", "+++ a.py", "@@ -7,0 +8,1 @@", "+x"];
    hide StepAll;
    ReadableIff(lines);
    assert Opening(lines, 0) == -1 && lines[0][0] == '-' && !StandsWell(lines, 0);
  }
}
