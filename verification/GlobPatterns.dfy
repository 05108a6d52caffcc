/** Which texts are path patterns, and what each is a pattern of
    (scripts/select_e2e_scopes.py). */
module GlobPatterns {
  import opened ScopeGlob
  import opened Wrappers

  ghost predicate AreStars(s: string) {
    s != "" && forall i :: 0 <= i < |s| ==> s[i] == '*'
  }

  /** The ways to write one piece: a run takes any number of stars, and so do directories
      before their slash. */
  ghost predicate MayBeWritten(p: Piece, w: string) {
    match p
    case Lit(c) => w == [c]
    case AnyRun => AreStars(w)
    case Dirs => |w| >= 2 && AreStars(w[..|w| - 1]) && w[|w| - 1] == '/'
    case One => w == "?"
    case Class(content) => w == "[" + content + "]"
  }

  ghost predicate Writes(ps: seq<Piece>, pattern: string)
    decreases |ps|
  {
    if ps == [] then pattern == []
    else exists k :: 0 <= k <= |pattern| && MayBeWritten(ps[0], pattern[..k]) && Writes(ps[1..], pattern[k..])
  }

  ghost predicate AllWritable(ps: seq<Piece>) {
    forall i :: 0 <= i < |ps| ==> IsWritable(ps, i)
  }

  lemma {:induction false} StarsAre(pattern: string)
    ensures var n := Stars(pattern);
            (forall i :: 0 <= i < n ==> pattern[i] == '*') && (n < |pattern| ==> pattern[n] != '*')
  {
    if pattern != [] && pattern[0] == '*' { StarsAre(pattern[1..]); }
  }

  lemma {:induction false} StarsIs(pattern: string, n: nat)
    requires n <= |pattern| && forall i :: 0 <= i < n ==> pattern[i] == '*'
    requires n < |pattern| ==> pattern[n] != '*'
    ensures Stars(pattern) == n
  {
    if n > 0 { StarsIs(pattern[1..], n - 1); }
  }

  /** The piece that is read was written there. */
  lemma NextIsWritten(pattern: string)
    requires pattern != [] && NextPiece(pattern).Ok?
    ensures var (p, k) := NextPiece(pattern).value; MayBeWritten(p, pattern[..k])
  {
    StarsAre(pattern);
    var (p, k) := NextPiece(pattern).value;
    hide Stars, Find, IsClass;
    if p.Dirs? { assert pattern[..k][..k - 1] == pattern[..k - 1]; }
  }

  lemma {:induction false} ReadIsWritten(pattern: string)
    requires Pieces(pattern).Ok?
    ensures Writes(Pieces(pattern).value, pattern)
    decreases |pattern|
  {
    if pattern != [] {
      hide NextPiece, MayBeWritten;
      var (p, k) := NextPiece(pattern).value;
      NextIsWritten(pattern);
      ReadIsWritten(pattern[k..]);
      var ps := Pieces(pattern).value;
      assert ps[0] == p && ps[1..] == Pieces(pattern[k..]).value;
    }
  }

  /** What follows a run is no star and no slash. */
  lemma AfterRun(ps: seq<Piece>, rest: string)
    requires Writes(ps, rest) && (ps != [] ==> IsWritable(ps, 0) && !ps[0].AnyRun? && !ps[0].Dirs? && ps[0] != Lit('/'))
    ensures rest == [] || (rest[0] != '*' && rest[0] != '/')
  {
    if ps != [] {
      var k :| 0 <= k <= |rest| && MayBeWritten(ps[0], rest[..k]) && Writes(ps[1..], rest[k..]);
      assert rest[..k][0] == rest[0];
    }
  }

  lemma RunIsNext(pattern: string, k: nat)
    requires k <= |pattern| && AreStars(pattern[..k]) && (k < |pattern| ==> pattern[k] != '*' && pattern[k] != '/')
    ensures NextPiece(pattern) == Ok((AnyRun, k))
  {
    assert forall i :: 0 <= i < k ==> pattern[i] == pattern[..k][i];
    StarsIs(pattern, k);
  }

  lemma DirsAreNext(pattern: string, k: nat)
    requires 2 <= k <= |pattern| && AreStars(pattern[..k - 1]) && pattern[k - 1] == '/'
    ensures NextPiece(pattern) == Ok((Dirs, k))
  {
    assert forall i :: 0 <= i < k - 1 ==> pattern[i] == pattern[..k - 1][i];
    StarsIs(pattern, k - 1);
  }

  /** A piece that is written where it can be is read as that piece. */
  lemma WrittenIsNext(ps: seq<Piece>, pattern: string, k: nat)
    requires ps != [] && AllWritable(ps) && k <= |pattern|
    requires MayBeWritten(ps[0], pattern[..k]) && Writes(ps[1..], pattern[k..])
    ensures k > 0 && NextPiece(pattern) == Ok((ps[0], k))
  {
    hide Writes, IsClass, Find, Stars;
    assert IsWritable(ps, 0) && pattern == pattern[..k] + pattern[k..];
    match ps[0] {
      case AnyRun =>
        if |ps| > 1 { WritableLater(ps); }
        AfterRun(ps[1..], pattern[k..]);
        RunIsNext(pattern, k);
      case Dirs =>
        assert pattern[..k][..k - 1] == pattern[..k - 1];
        DirsAreNext(pattern, k);
      case Class(content) =>
        ClassReadsBack(content, pattern[k..]);
      case _ =>
    }
  }

  lemma WritableLater(ps: seq<Piece>)
    requires |ps| > 1 && AllWritable(ps)
    ensures AllWritable(ps[1..]) && IsWritable(ps[1..], 0)
  {
    WritableTail(ps);
  }

  lemma {:induction false} WrittenIsRead(ps: seq<Piece>, pattern: string)
    requires Writes(ps, pattern) && AllWritable(ps)
    ensures Pieces(pattern) == Ok(ps)
    decreases |ps|
  {
    if ps != [] {
      hide NextPiece, MayBeWritten, IsWritable;
      var k :| 0 <= k <= |pattern| && MayBeWritten(ps[0], pattern[..k]) && Writes(ps[1..], pattern[k..]);
      WritableTail(ps);
      WrittenIsRead(ps[1..], pattern[k..]);
      WrittenIsNext(ps, pattern, k);
      assert ps == [ps[0]] + ps[1..];
    }
  }

  /** A text is compiled to some pieces exactly when it is a way to write them and each can
      be written where it stands; otherwise it is refused. */
  lemma PatternIff(pattern: string, ps: seq<Piece>)
    ensures Pieces(pattern) == Ok(ps) <==> Writes(ps, pattern) && AllWritable(ps)
  {
    hide Writes, IsWritable, Pieces;
    if Pieces(pattern) == Ok(ps) {
      ReadIsWritten(pattern);
      forall i | 0 <= i < |ps| ensures IsWritable(ps, i) { CompiledIsWritable(pattern, i); }
    }
    if Writes(ps, pattern) && AllWritable(ps) { WrittenIsRead(ps, pattern); }
  }
}
