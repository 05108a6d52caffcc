/** The path patterns of the E2E scope map, and the test that two of them cannot
    overlap (scripts/select_e2e_scopes.py). */
module ScopeGlob {
  import opened Wrappers

  /** What a pattern compiles to: a literal character, any run of characters (which
      may cross '/'), any number of whole directories, one character other than '/',
      or one character of a class. */
  datatype Piece = Lit(c: char) | AnyRun | Dirs | One | Class(content: string)

  /** How many stars the pattern starts with. */
  function Stars(pattern: string): (n: nat)
    ensures n <= |pattern|
  {
    if pattern == [] || pattern[0] != '*' then 0 else 1 + Stars(pattern[1..])
  }

  /** The position of the first c from position i on, or the length. */
  function Find(s: string, c: char, i: nat): (k: nat)
    requires i <= |s|
    ensures i <= k <= |s| && (k < |s| ==> s[k] == c) && forall j :: i <= j < k ==> s[j] != c
    decreases |s| - i
  {
    if i == |s| || s[i] == c then i else Find(s, c, i + 1)
  }

  /** A class is non-empty, without '/' or '\\', and its ranges do not run backwards. */
  predicate IsClass(content: string) {
    content != [] && '/' !in content && '\\' !in content && content != "!" &&
    RangesOk(if content[0] == '!' then content[1..] else content)
  }

  predicate RangesOk(items: string) {
    if |items| >= 3 && items[1] == '-' then items[0] <= items[2] && RangesOk(items[3..])
    else items == [] || RangesOk(items[1..])
  }

  predicate InItems(items: string, c: char) {
    if |items| >= 3 && items[1] == '-' then items[0] <= c <= items[2] || InItems(items[3..], c)
    else items != [] && (c == items[0] || InItems(items[1..], c))
  }

  predicate InClass(content: string, c: char)
    requires IsClass(content)
  {
    if content[0] == '!' then !InItems(content[1..], c) else InItems(content, c)
  }

  /** The pattern's next piece, and how much of the pattern it takes up. */
  function NextPiece(pattern: string): (r: Result<(Piece, nat), Refusal>)
    requires pattern != []
    ensures r.Ok? ==> 0 < r.value.1 <= |pattern| && (r.value.0.Class? ==> IsClass(r.value.0.content))
  {
    if pattern[0] == '*' then
      var n := Stars(pattern);
      if n < |pattern| && pattern[n] == '/' then Ok((Dirs, n + 1)) else Ok((AnyRun, n))
    else if pattern[0] == '?' then Ok((One, 1))
    else if pattern[0] == '[' then
      var end := Find(pattern, ']', 1);
      if end == |pattern| || !IsClass(pattern[1..end]) then Err(Invalid) else Ok((Class(pattern[1..end]), end + 1))
    else Ok((Lit(pattern[0]), 1))
  }

  /** Every class among the pieces is a proper one. */
  predicate Proper(ps: seq<Piece>) {
    forall p :: p in ps && p.Class? ==> IsClass(p.content)
  }

  /** The compiled pattern; Err(Invalid) when the pattern is malformed. */
  function Pieces(pattern: string): (r: Result<seq<Piece>, Refusal>)
    ensures r.Ok? ==> Proper(r.value)
  {
    if pattern == [] then Ok([]) else
      var next := NextPiece(pattern);
      if next.Err? then Err(Invalid) else
        var rest := Pieces(pattern[next.value.1..]);
        if rest.Err? then Err(Invalid) else Ok([next.value.0] + rest.value)
  }

  lemma PiecesStep(pattern: string, index: nat, pieces: seq<Piece>, all: Result<seq<Piece>, Refusal>)
    requires index < |pattern| && all == Prepend(pieces, Pieces(pattern[index..]))
    ensures var next := NextPiece(pattern[index..]);
            && (next.Err? ==> all == Err(Invalid))
            && (next.Ok? ==> all == Prepend(pieces + [next.value.0], Pieces(pattern[index + next.value.1..])))
  {
    var next := NextPiece(pattern[index..]);
    hide NextPiece;
    if next.Ok? {
      assert pattern[index..][next.value.1..] == pattern[index + next.value.1..];
      PrependTwice(pieces, [next.value.0], Pieces(pattern[index + next.value.1..]));
    }
  }

  lemma PiecesEnds(pieces: seq<Piece>, all: Result<seq<Piece>, Refusal>)
    ensures Pieces([]) == Ok([]) && Prepend(pieces, Pieces([])) == Ok(pieces) && Prepend([], all) == all
  {
    assert pieces + [] == pieces && (all.Ok? ==> [] + all.value == all.value);
  }

  method CompileGlob(pattern: string) returns (r: Result<seq<Piece>, Refusal>)
    ensures r == Pieces(pattern)
  {
    hide Pieces, NextPiece, Prepend;
    var pieces: seq<Piece>, index := [], 0;
    assert pattern[0..] == pattern;
    PiecesEnds([], Pieces(pattern));
    while index < |pattern|
      invariant index <= |pattern| && Pieces(pattern) == Prepend(pieces, Pieces(pattern[index..]))
    {
      PiecesStep(pattern, index, pieces, Pieces(pattern));
      var next := NextPiece(pattern[index..]);
      if next.Err? { return Err(Invalid); }
      var (piece, width) := next.value;
      pieces, index := pieces + [piece], index + width;
    }
    assert pattern[index..] == [];
    PiecesEnds(pieces, Err(Invalid));
    return Ok(pieces);
  }

  // ----- What a pattern of given pieces looks like -----

  function Written(p: Piece): string {
    match p
    case Lit(c) => [c]
    case AnyRun => "*"
    case Dirs => "*/"
    case One => "?"
    case Class(content) => "[" + content + "]"
  }

  function Pattern(ps: seq<Piece>): string {
    if ps == [] then [] else Written(ps[0]) + Pattern(ps[1..])
  }

  /** The piece can be written, whatever comes next: a run swallows further stars, and
      takes a '/' after it for the end of a directory. */
  predicate IsWritable(ps: seq<Piece>, i: nat)
    requires i < |ps|
  {
    && (ps[i].Lit? ==> !IsMeta(ps[i].c))
    && (ps[i].Class? ==> IsClass(ps[i].content) && ']' !in ps[i].content)
    && (ps[i].AnyRun? && i + 1 < |ps| ==> !ps[i + 1].AnyRun? && !ps[i + 1].Dirs? && ps[i + 1] != Lit('/'))
  }

  lemma RunReadsBack(rest: string)
    requires rest == [] || (rest[0] != '*' && rest[0] != '/')
    ensures NextPiece("*" + rest) == Ok((AnyRun, 1))
  {
    assert ("*" + rest)[1..] == rest && Stars(rest) == 0;
  }

  lemma DirsReadBack(rest: string)
    ensures NextPiece("*/" + rest) == Ok((Dirs, 2))
  {
    assert ("*/" + rest)[1..] == ['/'] + rest && Stars(['/'] + rest) == 0;
  }

  lemma ClassReadsBack(content: string, rest: string)
    requires IsClass(content) && ']' !in content
    ensures NextPiece("[" + content + "]" + rest) == Ok((Class(content), |content| + 2))
  {
    var all, end := "[" + content + "]" + rest, |content| + 1;
    assert all[end] == ']' && all[1..end] == content && forall j :: 1 <= j < end ==> all[j] == content[j - 1];
    hide Find, IsClass;
  }

  lemma PieceReadsBack(ps: seq<Piece>)
    requires ps != [] && IsWritable(ps, 0) && (|ps| > 1 ==> IsWritable(ps, 1))
    ensures var next := NextPiece(Pattern(ps)); next.Ok? && next.value.0 == ps[0] && next.value.1 == |Written(ps[0])|
    ensures Pattern(ps)[|Written(ps[0])|..] == Pattern(ps[1..])
  {
    var rest := Pattern(ps[1..]);
    if |ps| > 1 {
      assert rest == Written(ps[1]) + Pattern(ps[1..][1..]);
    }
    match ps[0] {
      case AnyRun => RunReadsBack(rest);
      case Dirs => DirsReadBack(rest);
      case Class(content) => ClassReadsBack(content, rest);
      case _ =>
    }
    hide IsClass, Find, Stars;
  }

  /** Only writable pieces are ever compiled. */
  lemma {:induction false} CompiledIsWritable(pattern: string, i: nat)
    requires Pieces(pattern).Ok? && i < |Pieces(pattern).value|
    ensures IsWritable(Pieces(pattern).value, i)
    decreases |pattern|
  {
    var ps, width := Pieces(pattern).value, NextPiece(pattern).value.1;
    var rest := pattern[width..];
    assert ps[1..] == Pieces(rest).value;
    if i > 0 {
      CompiledIsWritable(rest, i - 1);
      assert ps[i] == ps[1..][i - 1] && (i + 1 < |ps| ==> ps[i + 1] == ps[1..][i]);
    } else if ps[0].AnyRun? {
      StarsEnd(pattern);
      assert |ps| > 1 ==> ps[1] == NextPiece(rest).value.0 && rest[0] == pattern[width];
    } else if ps[0].Class? {
      assert forall j :: 0 <= j < |ps[0].content| ==> ps[0].content[j] == pattern[j + 1];
    }
  }

  lemma {:induction false} StarsEnd(pattern: string)
    ensures Stars(pattern) < |pattern| ==> pattern[Stars(pattern)] != '*'
  {
    if pattern != [] && pattern[0] == '*' { StarsEnd(pattern[1..]); }
  }

  /** Compiling the pattern written from some pieces gives back those pieces exactly when
      each can be written where it stands. */
  lemma CompileReadsBackIff(ps: seq<Piece>)
    ensures Pieces(Pattern(ps)) == Ok(ps) <==> forall i :: 0 <= i < |ps| ==> IsWritable(ps, i)
  {
    if Pieces(Pattern(ps)) == Ok(ps) {
      forall i | 0 <= i < |ps| ensures IsWritable(ps, i) { CompiledIsWritable(Pattern(ps), i); }
    } else if forall i :: 0 <= i < |ps| ==> IsWritable(ps, i) {
      CompileReadsBack(ps);
    }
  }

  lemma WritableTail(ps: seq<Piece>)
    requires ps != [] && forall i :: 0 <= i < |ps| ==> IsWritable(ps, i)
    ensures forall i :: 0 <= i < |ps[1..]| ==> IsWritable(ps[1..], i)
  {
    hide IsClass, IsMeta;
    forall i | 0 <= i < |ps[1..]| ensures IsWritable(ps[1..], i) {
      assert IsWritable(ps, i + 1) && ps[1..][i] == ps[i + 1];
    }
  }

  lemma {:induction false} CompileReadsBack(ps: seq<Piece>)
    requires forall i :: 0 <= i < |ps| ==> IsWritable(ps, i)
    ensures Pieces(Pattern(ps)) == Ok(ps)
  {
    if ps != [] {
      hide NextPiece, Written, Pattern, IsWritable;
      WritableTail(ps);
      CompileReadsBack(ps[1..]);
      PieceReadsBack(ps);
      assert ps == [ps[0]] + ps[1..];
    }
  }

  /** The path is matched in full by the pieces. A run does not cross a line break. */
  predicate MatchesPieces(ps: seq<Piece>, path: string)
    requires Proper(ps)
    decreases |ps|, |path|
  {
    if ps == [] then path == []
    else match ps[0]
      case Lit(c) => path != [] && path[0] == c && MatchesPieces(ps[1..], path[1..])
      case One => path != [] && path[0] != '/' && MatchesPieces(ps[1..], path[1..])
      case Class(content) => path != [] && (assert ps[0] in ps; InClass(content, path[0]))
           && MatchesPieces(ps[1..], path[1..])
      case AnyRun => MatchesPieces(ps[1..], path) || (path != [] && path[0] != '\n' && MatchesPieces(ps, path[1..]))
      case Dirs =>
        || MatchesPieces(ps[1..], path)
        || (var k := Find(path, '/', 0); 0 < k < |path| && MatchesPieces(ps, path[k + 1..]))
  }

  predicate Matches(path: string, pattern: string) {
    var ps := Pieces(pattern);
    ps.Ok? && MatchesPieces(ps.value, path)
  }

  // ----- What the pieces mean -----

  /** The words a single piece stands for. */
  ghost predicate Spells(p: Piece, word: string) {
    match p
    case Lit(c) => word == [c]
    case One => |word| == 1 && word[0] != '/'
    case Class(content) => IsClass(content) && |word| == 1 && InClass(content, word[0])
    case AnyRun => '\n' !in word
    case Dirs => IsDirs(word)
  }

  /** Zero or more non-empty names, each followed by '/'. */
  ghost predicate IsDirs(word: string)
    decreases |word|
  {
    word == [] || (var k := Find(word, '/', 0); 0 < k < |word| && IsDirs(word[k + 1..]))
  }

  /** The path is a concatenation of words, one for each piece. */
  ghost predicate IsSpelled(ps: seq<Piece>, path: string)
    decreases |ps|
  {
    if ps == [] then path == []
    else exists k :: 0 <= k <= |path| && Spells(ps[0], path[..k]) && IsSpelled(ps[1..], path[k..])
  }

  /** Matching from left to right, piece by piece, is concatenation of words. */
  lemma {:induction false} MatchingIsSpelling(ps: seq<Piece>, path: string)
    requires Proper(ps)
    ensures MatchesPieces(ps, path) <==> IsSpelled(ps, path)
    decreases |ps|, |path|
  {
    if ps != [] {
      match ps[0]
      case AnyRun => RunIsSpelling(ps, path);
      case Dirs => DirsIsSpelling(ps, path);
      case _ =>
        assert ps[0] in ps;
        if path != [] { MatchingIsSpelling(ps[1..], path[1..]); }
        if MatchesPieces(ps, path) { assert path[..1] == [path[0]] && Spells(ps[0], path[..1]); }
    }
  }

  lemma {:induction false} RunIsSpelling(ps: seq<Piece>, path: string)
    requires Proper(ps) && ps != [] && ps[0].AnyRun?
    ensures MatchesPieces(ps, path) <==> IsSpelled(ps, path)
    decreases |ps|, |path|, 0
  {
    MatchingIsSpelling(ps[1..], path);
    if path != [] { RunIsSpelling(ps, path[1..]); }
    hide MatchesPieces, IsSpelled;
    RunUnfold(ps, path);
  }

  /** Both sides either end the run here, or take one more character. */
  lemma RunUnfold(ps: seq<Piece>, path: string)
    requires ps != [] && ps[0].AnyRun?
    ensures IsSpelled(ps, path) <==>
            IsSpelled(ps[1..], path) || (path != [] && path[0] != '\n' && IsSpelled(ps, path[1..]))
    ensures Proper(ps) ==>
              (MatchesPieces(ps, path) <==>
               MatchesPieces(ps[1..], path) || (path != [] && path[0] != '\n' && MatchesPieces(ps, path[1..])))
  {
    hide IsSpelled;
    if IsSpelled(ps[1..], path) {
      assert path[0..] == path && path[..0] == [];
      OneMoreWord(ps, path, 0);
    }
    if path != [] && path[0] != '\n' && IsSpelled(ps, path[1..]) { RunLonger(ps, path); }
    if IsSpelled(ps, path) { RunShorter(ps, path); }
  }

  lemma FirstWord(ps: seq<Piece>, path: string) returns (k: nat)
    requires ps != [] && IsSpelled(ps, path)
    ensures k <= |path| && Spells(ps[0], path[..k]) && IsSpelled(ps[1..], path[k..])
  {
    hide Spells;
    k :| 0 <= k <= |path| && Spells(ps[0], path[..k]) && IsSpelled(ps[1..], path[k..]);
  }

  lemma SpelledWords(word: string)
    ensures Spells(AnyRun, word) <==> '\n' !in word
    ensures Spells(Dirs, word) <==> IsDirs(word)
  {
    hide IsDirs;
  }

  /** A run is one character and a run. */
  lemma RunWord(path: string, k: nat)
    requires 0 < k <= |path|
    ensures path[k..] == path[1..][k - 1..]
    ensures '\n' !in path[..k] <==> path[0] != '\n' && '\n' !in path[1..][..k - 1]
  {
    assert path[..k] == [path[0]] + path[1..][..k - 1];
  }

  lemma RunLonger(ps: seq<Piece>, path: string)
    requires ps != [] && ps[0].AnyRun? && path != [] && path[0] != '\n' && IsSpelled(ps, path[1..])
    ensures IsSpelled(ps, path)
  {
    hide *;
    var k := FirstWord(ps, path[1..]);
    SpelledWords(path[1..][..k]);
    RunWord(path, k + 1);
    SpelledWords(path[..k + 1]);
    OneMoreWord(ps, path, k + 1);
  }

  lemma RunShorter(ps: seq<Piece>, path: string)
    requires ps != [] && ps[0].AnyRun? && IsSpelled(ps, path)
    ensures IsSpelled(ps[1..], path) || (path != [] && path[0] != '\n' && IsSpelled(ps, path[1..]))
  {
    hide *;
    var k := FirstWord(ps, path);
    SpelledWords(path[..k]);
    if k == 0 {
      assert path[0..] == path;
    } else {
      RunWord(path, k);
      SpelledWords(path[1..][..k - 1]);
      OneMoreWord(ps, path[1..], k - 1);
    }
  }

  lemma {:induction false} DirsIsSpelling(ps: seq<Piece>, path: string)
    requires Proper(ps) && ps != [] && ps[0].Dirs?
    ensures MatchesPieces(ps, path) <==> IsSpelled(ps, path)
    decreases |ps|, |path|, 0
  {
    MatchingIsSpelling(ps[1..], path);
    var k := Find(path, '/', 0);
    if 0 < k < |path| { DirsIsSpelling(ps, path[k + 1..]); }
    hide MatchesPieces, IsSpelled;
    DirsUnfold(ps, path);
  }

  /** Both sides either end the directories here, or take one more. */
  lemma DirsUnfold(ps: seq<Piece>, path: string)
    requires ps != [] && ps[0].Dirs?
    ensures var k := Find(path, '/', 0);
            IsSpelled(ps, path) <==> IsSpelled(ps[1..], path) || (0 < k < |path| && IsSpelled(ps, path[k + 1..]))
    ensures Proper(ps) ==> var k := Find(path, '/', 0);
            MatchesPieces(ps, path) <==>
            MatchesPieces(ps[1..], path) || (0 < k < |path| && MatchesPieces(ps, path[k + 1..]))
  {
    var k := Find(path, '/', 0);
    if IsSpelled(ps[1..], path) {
      assert path[0..] == path && path[..0] == [] && Spells(Dirs, path[..0]);
    }
    if 0 < k < |path| && IsSpelled(ps, path[k + 1..]) { DirsLonger(ps, path, k); }
    if IsSpelled(ps, path) { DirsShorter(ps, path, k); }
  }

  lemma LongerDirs(path: string, k: nat, j: nat)
    requires k == Find(path, '/', 0) && 0 < k && k + 1 + j <= |path| && IsDirs(path[k + 1..][..j])
    ensures IsDirs(path[..k + 1 + j])
  {
    var word := path[..k + 1 + j];
    assert word[k] == '/' && forall i :: 0 <= i < k ==> word[i] == path[i];
    FindIs(word, '/', k);
    assert word[k + 1..] == path[k + 1..][..j];
  }

  lemma DirsLonger(ps: seq<Piece>, path: string, k: nat)
    requires ps != [] && ps[0].Dirs? && k == Find(path, '/', 0) && 0 < k < |path| && IsSpelled(ps, path[k + 1..])
    ensures IsSpelled(ps, path)
  {
    hide *;
    var rest := path[k + 1..];
    var j := FirstWord(ps, rest);
    SpelledWords(rest[..j]);
    LongerDirs(path, k, j);
    SpelledWords(path[..k + 1 + j]);
    assert path[k + 1 + j..] == rest[j..];
    OneMoreWord(ps, path, k + 1 + j);
  }

  lemma DirsShorter(ps: seq<Piece>, path: string, k: nat)
    requires ps != [] && ps[0].Dirs? && k == Find(path, '/', 0) && IsSpelled(ps, path)
    ensures IsSpelled(ps[1..], path) || (0 < k < |path| && IsSpelled(ps, path[k + 1..]))
  {
    hide *;
    var j := FirstWord(ps, path);
    if j == 0 {
      assert path[0..] == path;
    } else {
      DirsShorterBy(ps, path, k, j);
    }
  }

  lemma DirsShorterBy(ps: seq<Piece>, path: string, k: nat, j: nat)
    requires ps != [] && ps[0].Dirs? && k == Find(path, '/', 0) && 0 < j <= |path|
    requires Spells(Dirs, path[..j]) && IsSpelled(ps[1..], path[j..])
    ensures 0 < k < |path| && IsSpelled(ps, path[k + 1..])
  {
    hide Find, IsSpelled, IsDirs;
    FirstDir(path[..j], path, k);
    Shift(path, j, k);
    OneMoreWord(ps, path[k + 1..], j - k - 1);
  }

  lemma Shift(path: string, j: nat, k: nat)
    requires k < j <= |path|
    ensures path[..j][k + 1..] == path[k + 1..][..j - k - 1] && path[j..] == path[k + 1..][j - k - 1..]
  {
  }

  lemma FirstDir(word: string, path: string, k: nat)
    requires word != [] && word <= path && IsDirs(word) && k == Find(path, '/', 0)
    ensures 0 < k < |word| && IsDirs(word[k + 1..])
  {
    var n := Find(word, '/', 0);
    assert 0 < n < |word| && IsDirs(word[n + 1..]);
    hide IsDirs;
    assert forall i :: 0 <= i <= n ==> path[i] == word[i];
    FindIs(path, '/', n);
    hide Find;
  }

  lemma OneMoreWord(ps: seq<Piece>, path: string, j: nat)
    requires ps != [] && j <= |path| && Spells(ps[0], path[..j]) && IsSpelled(ps[1..], path[j..])
    ensures IsSpelled(ps, path)
  {
  }

  lemma FindIs(s: string, c: char, k: nat)
    requires k < |s| && s[k] == c && forall j :: 0 <= j < k ==> s[j] != c
    ensures Find(s, c, 0) == k
  {
  }

  // ----- Overlap -----

  function Split(s: string): (r: seq<string>)
    ensures r != []
    decreases |s|
  {
    var k := Find(s, '/', 0);
    if k == |s| then [s] else [s[..k]] + Split(s[k + 1..])
  }

  predicate IsMeta(c: char) { c == '*' || c == '?' || c == '[' }

  predicate IsLiteral(s: string) {
    forall c :: c in s ==> !IsMeta(c)
  }

  function LiteralSegments(segments: seq<string>): seq<string> {
    if segments == [] || !IsLiteral(segments[0]) then [] else [segments[0]] + LiteralSegments(segments[1..])
  }

  /** The leading segments that contain no pattern character. */
  function LiteralPrefix(pattern: string): seq<string> {
    LiteralSegments(Split(pattern))
  }

  function Min(a: nat, b: nat): nat { if a < b then a else b }

  predicate PatternsMayOverlap(first: string, second: string) {
    var a, b := LiteralPrefix(first), LiteralPrefix(second);
    var common := Min(|a|, |b|);
    if a[..common] != b[..common] then false
    else if Matches(first, second) || Matches(second, first) then true
    else true
  }

  /** The test rules an overlap out exactly when neither pattern's literal segments
      continue the other's. */
  lemma OverlapIff(first: string, second: string)
    ensures PatternsMayOverlap(first, second) <==>
              LiteralPrefix(first) <= LiteralPrefix(second) || LiteralPrefix(second) <= LiteralPrefix(first)
  {
    hide Matches, LiteralPrefix;
  }

  lemma LiteralFirst(pattern: string, path: string)
    requires pattern != [] && !IsMeta(pattern[0]) && Matches(path, pattern)
    ensures path != [] && path[0] == pattern[0] && Matches(path[1..], pattern[1..])
  {
    assert NextPiece(pattern) == Ok((Lit(pattern[0]), 1));
    hide NextPiece;
    assert Pieces(pattern).value[1..] == Pieces(pattern[1..]).value;
  }

  lemma LiteralTail(pattern: string, k: nat)
    requires 0 < k <= |pattern| && IsLiteral(pattern[..k])
    ensures !IsMeta(pattern[0]) && IsLiteral(pattern[1..][..k - 1])
  {
    hide IsMeta;
    assert pattern[..k][0] in pattern[..k] && pattern[1..][..k - 1] == pattern[..k][1..];
    assert forall c :: c in pattern[..k][1..] ==> c in pattern[..k];
  }

  /** A literal stretch of a pattern matches itself only. */
  lemma {:induction false} LiteralStretch(pattern: string, k: nat, path: string)
    requires k <= |pattern| && IsLiteral(pattern[..k]) && Matches(path, pattern)
    ensures k <= |path| && path[..k] == pattern[..k] && Matches(path[k..], pattern[k..])
    decreases k
  {
    hide *;
    if k == 0 {
      assert path[0..] == path && pattern[0..] == pattern;
    } else {
      LiteralTail(pattern, k);
      LiteralFirst(pattern, path);
      LiteralStretch(pattern[1..], k - 1, path[1..]);
      assert path[1..][k - 1..] == path[k..] && pattern[1..][k - 1..] == pattern[k..];
      assert path[..k] == [path[0]] + path[1..][..k - 1] && pattern[..k] == [pattern[0]] + pattern[1..][..k - 1];
    }
  }

  lemma AndSlash(s: string, k: nat)
    requires k < |s| && s[k] == '/' && IsLiteral(s[..k])
    ensures IsLiteral(s[..k + 1])
  {
    assert s[..k + 1] == s[..k] + ['/'];
  }

  /** A pattern that begins with a literal segment matches only paths that do, and the
      rest of it matches the rest of the path. */
  lemma LiteralSegment(pattern: string, path: string, k: nat)
    requires Matches(path, pattern) && k == Find(pattern, '/', 0) && IsLiteral(pattern[..k])
    ensures k == |pattern| ==> path == pattern
    ensures k < |pattern| ==>
              && Find(path, '/', 0) == k < |path| && path[..k] == pattern[..k]
              && Matches(path[k + 1..], pattern[k + 1..])
  {
    hide Matches, Find, IsLiteral;
    if k == |pattern| {
      LiteralStretch(pattern, k, path);
      assert pattern[k..] == [] && pattern[..k] == pattern && path == path[..k] + path[k..];
      EmptyPattern(path[k..]);
    } else {
      AndSlash(pattern, k);
      LiteralStretch(pattern, k + 1, path);
      assert forall j :: 0 <= j <= k ==> path[j] == path[..k + 1][j] && pattern[j] == pattern[..k + 1][j];
      FindIs(path, '/', k);
    }
  }

  lemma EmptyPattern(path: string)
    requires Matches(path, [])
    ensures path == []
  {
  }

  /** A path that a pattern matches begins with the pattern's literal segments. */
  lemma {:induction false} MatchHasLiteralPrefix(pattern: string, path: string)
    requires Matches(path, pattern)
    ensures LiteralPrefix(pattern) <= Split(path)
    decreases |pattern|
  {
    var k := Find(pattern, '/', 0);
    assert Split(pattern)[0] == pattern[..k] by { assert pattern[..|pattern|] == pattern; }
    if IsLiteral(pattern[..k]) {
      LiteralSegment(pattern, path, k);
      hide Matches;
      if k == |pattern| {
        assert Split(pattern) == [pattern] && LiteralSegments([]) == [];
      } else {
        MatchHasLiteralPrefix(pattern[k + 1..], path[k + 1..]);
        assert Split(pattern)[1..] == Split(pattern[k + 1..]) && Split(path)[1..] == Split(path[k + 1..]);
      }
    }
  }

  /** When the test rules an overlap out, no path matches both patterns. */
  lemma NoOverlapIsDisjoint(first: string, second: string, path: string)
    requires Matches(path, first) && Matches(path, second)
    ensures PatternsMayOverlap(first, second)
  {
    MatchHasLiteralPrefix(first, path);
    MatchHasLiteralPrefix(second, path);
    var a, b, segments := LiteralPrefix(first), LiteralPrefix(second), Split(path);
    var common := Min(|a|, |b|);
    assert a[..common] == segments[..common] && b[..common] == segments[..common];
  }
}
