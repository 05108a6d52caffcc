/** Which quoted paths the coverage gate reads, and as what: any text, git's or not
    (scripts/check_diff_coverage.py). */
module DiffEscapes {
  import opened DiffPaths
  import opened Wrappers

  /** A character that stands for itself, an escape with a letter, or one with three digits. */
  datatype Unit = Plain(c: char) | Letter(c: char) | Octal(a: char, b: char, c: char)

  ghost predicate IsDigit(c: char) { '0' <= c && c <= '7' }

  ghost function Value(c: char): int { c as int - '0' as int }

  ghost function OctalNumber(a: char, b: char, c: char): int {
    64 * Value(a) + 8 * Value(b) + Value(c)
  }

  ghost predicate IsUnit(u: Unit) {
    match u
    case Plain(c) => c != '\\'
    case Letter(c) => c in "abtnvfr\\\""
    case Octal(a, b, c) => IsDigit(a) && IsDigit(b) && IsDigit(c) && OctalNumber(a, b, c) <= 255
  }

  ghost function Written(u: Unit): string {
    match u
    case Plain(c) => [c]
    case Letter(c) => ['\\', c]
    case Octal(a, b, c) => ['\\', a, b, c]
  }

  /** The bytes of a unit: of its character, of the control code of its letter, or one. */
  ghost function Bytes(u: Unit): seq<Byte>
    requires IsUnit(u)
  {
    match u
    case Plain(c) => Utf8([c])
    case Letter(c) =>
      if c == 'a' then [7] else if c == 'b' then [8] else if c == 't' then [9] else if c == 'n' then [10]
      else if c == 'v' then [11] else if c == 'f' then [12] else if c == 'r' then [13] else [c as int]
    case Octal(a, b, c) => [OctalNumber(a, b, c)]
  }

  ghost predicate AreUnits(us: seq<Unit>) { forall u :: u in us ==> IsUnit(u) }

  ghost function AllWritten(us: seq<Unit>): string {
    if us == [] then [] else Written(us[0]) + AllWritten(us[1..])
  }

  ghost function AllBytes(us: seq<Unit>): seq<Byte>
    requires AreUnits(us)
  {
    if us == [] then [] else Bytes(us[0]) + AllBytes(us[1..])
  }

  lemma OneCharacter(c: char)
    ensures Utf8([c]) == Utf8Char(c)
  {
    hide Utf8Char;
    assert [c][1..] == [] && Utf8([]) == [];
  }

  lemma LetterIsRead(c: char, rest: string)
    requires IsUnit(Letter(c))
    ensures Unescape(['\\', c] + rest) == Prepend(Bytes(Letter(c)), Unescape(rest))
  {
    hide Utf8, Utf8Char, OctalValue;
    var all := ['\\', c] + rest;
    assert all[1] == c && all[2..] == rest;
  }

  lemma OctalIsRead(a: char, b: char, c: char, rest: string)
    requires IsUnit(Octal(a, b, c))
    ensures Unescape(['\\', a, b, c] + rest) == Prepend(Bytes(Octal(a, b, c)), Unescape(rest))
  {
    hide Utf8, Utf8Char, OctalValue, OctalNumber;
    OctalAgrees(a, b, c);
    var all := ['\\', a, b, c] + rest;
    assert all[1..4] == [a, b, c] && all[4..] == rest && EscapedByte(a).None?;
  }

  lemma UnitIsRead(u: Unit, rest: string)
    requires IsUnit(u)
    ensures Unescape(Written(u) + rest) == Prepend(Bytes(u), Unescape(rest))
  {
    match u
    case Plain(c) =>
      hide Utf8, Utf8Char;
      OneCharacter(c);
      assert ([c] + rest)[1..] == rest;
    case Letter(c) => LetterIsRead(c, rest);
    case Octal(a, b, c) => OctalIsRead(a, b, c, rest);
  }

  lemma OctalAgrees(a: char, b: char, c: char)
    ensures (forall d :: d in [a, b, c] ==> IsOctal(d)) <==> IsDigit(a) && IsDigit(b) && IsDigit(c)
    ensures (forall d :: d in [a, b, c] ==> IsOctal(d)) ==> OctalValue([a, b, c]) == OctalNumber(a, b, c)
  {
    assert a in [a, b, c] && b in [a, b, c] && c in [a, b, c];
  }

  lemma {:induction false} UnitsAreRead(us: seq<Unit>)
    requires AreUnits(us)
    ensures Unescape(AllWritten(us)) == Ok(AllBytes(us))
  {
    if us != [] {
      hide Unescape, IsUnit, Written, Bytes;
      assert us[0] in us && forall u :: u in us[1..] ==> u in us;
      UnitsAreRead(us[1..]);
      UnitIsRead(us[0], AllWritten(us[1..]));
    } else {
      assert Unescape([]) == Ok([]);
    }
  }

  /** What is read was written in units. */
  lemma FirstUnit(body: string) returns (u: Unit, rest: string)
    requires body != [] && Unescape(body).Ok?
    ensures IsUnit(u) && body == Written(u) + rest && Unescape(rest).Ok? && |rest| < |body|
  {
    if body[0] != '\\' {
      u, rest := Plain(body[0]), body[1..];
    } else if Escape(body).value.1 == 2 {
      u, rest := Letter(body[1]), body[2..];
      assert body == ['\\', body[1]] + rest;
    } else {
      u, rest := Octal(body[1], body[2], body[3]), body[4..];
      assert body[1..4] == [body[1], body[2], body[3]];
      OctalAgrees(body[1], body[2], body[3]);
      assert body == ['\\', body[1], body[2], body[3]] + rest;
    }
  }

  lemma {:induction false} ReadInUnits(body: string) returns (us: seq<Unit>)
    requires Unescape(body).Ok?
    ensures AreUnits(us) && AllWritten(us) == body
    decreases |body|
  {
    us := [];
    if body != [] {
      var u, rest := FirstUnit(body);
      hide Unescape, IsUnit, Written;
      var more := ReadInUnits(rest);
      us := [u] + more;
      assert us[1..] == more;
    }
  }

  /** The inside of a quoted path is read exactly when it is written in units, as their bytes. */
  lemma UnescapedIff(body: string, bytes: seq<Byte>)
    ensures Unescape(body) == Ok(bytes) <==>
              exists us :: AreUnits(us) && AllWritten(us) == body && AllBytes(us) == bytes
  {
    hide Unescape, IsUnit, Written, Bytes, AllWritten, AllBytes;
    if Unescape(body) == Ok(bytes) {
      var us := ReadInUnits(body);
      UnitsAreRead(us);
    }
    if us :| AreUnits(us) && AllWritten(us) == body && AllBytes(us) == bytes { UnitsAreRead(us); }
  }

  /** Some units, then an escape above \377. */
  ghost predicate IsFar(body: string, us: seq<Unit>, a: char, b: char, c: char, rest: string) {
    && AreUnits(us) && body == AllWritten(us) + (['\\', a, b, c] + rest)
    && IsDigit(a) && IsDigit(b) && IsDigit(c) && OctalNumber(a, b, c) > 255
  }

  /** The one refusal that is not a policy error. */
  lemma ByteRangeIff(body: string)
    ensures Unescape(body) == Err(ByteRange) <==> exists us, a, b, c, rest :: IsFar(body, us, a, b, c, rest)
  {
    hide Unescape, IsUnit;
    if Unescape(body) == Err(ByteRange) {
      var us, a, b, c, rest := FarEscape(body);
    }
    if us, a, b, c, rest :| IsFar(body, us, a, b, c, rest) {
      FarIsRefused(a, b, c, rest);
      AfterUnits(us, ['\\', a, b, c] + rest);
    }
  }

  lemma FarIsRefused(a: char, b: char, c: char, rest: string)
    requires IsDigit(a) && IsDigit(b) && IsDigit(c) && OctalNumber(a, b, c) > 255
    ensures Unescape(['\\', a, b, c] + rest) == Err(ByteRange)
  {
    var all := ['\\', a, b, c] + rest;
    assert all[1..4] == [a, b, c] && EscapedByte(a).None?;
    OctalAgrees(a, b, c);
  }

  lemma {:induction false} AfterUnits(us: seq<Unit>, rest: string)
    requires AreUnits(us) && Unescape(rest).Err?
    ensures Unescape(AllWritten(us) + rest) == Unescape(rest)
  {
    hide Unescape, IsUnit, Written, Bytes;
    if us == [] {
      assert [] + rest == rest;
    } else {
      assert us[0] in us && forall u :: u in us[1..] ==> u in us;
      AfterUnits(us[1..], rest);
      UnitIsRead(us[0], AllWritten(us[1..]) + rest);
      assert AllWritten(us) + rest == Written(us[0]) + (AllWritten(us[1..]) + rest);
    }
  }

  lemma FarStart(body: string) returns (u: Unit, rest: string)
    requires body != [] && Unescape(body) == Err(ByteRange)
    ensures body == Written(u) + rest && |rest| < |body|
    ensures (IsUnit(u) && Unescape(rest) == Err(ByteRange)) ||
            (u.Octal? && IsDigit(u.a) && IsDigit(u.b) && IsDigit(u.c) && OctalNumber(u.a, u.b, u.c) > 255)
  {
    if body[0] != '\\' {
      u, rest := Plain(body[0]), body[1..];
    } else if |body| >= 2 && EscapedByte(body[1]).Some? {
      u, rest := Letter(body[1]), body[2..];
      assert body == ['\\', body[1]] + rest;
    } else {
      u, rest := Octal(body[1], body[2], body[3]), body[4..];
      assert body[1..4] == [body[1], body[2], body[3]];
      OctalAgrees(body[1], body[2], body[3]);
      assert body == ['\\', body[1], body[2], body[3]] + rest;
    }
  }

  lemma {:induction false} FarEscape(body: string)
    returns (us: seq<Unit>, a: char, b: char, c: char, rest: string)
    requires Unescape(body) == Err(ByteRange)
    ensures IsFar(body, us, a, b, c, rest)
    decreases |body|
  {
    hide Unescape, IsUnit, Written, AllWritten, IsFar;
    EmptyIsRead();
    var u, more := FarStart(body);
    if u.Octal? && IsDigit(u.a) && IsDigit(u.b) && IsDigit(u.c) && OctalNumber(u.a, u.b, u.c) > 255 {
      us, a, b, c, rest := [], u.a, u.b, u.c, more;
      FarAtOnce(body, a, b, c, rest);
    } else {
      us, a, b, c, rest := FarEscape(more);
      FarLater(u, more, us, a, b, c, rest);
      us := [u] + us;
    }
  }

  lemma EmptyIsRead()
    ensures Unescape([]) == Ok([])
  {
  }

  lemma FarAtOnce(body: string, a: char, b: char, c: char, rest: string)
    requires body == Written(Octal(a, b, c)) + rest
    requires IsDigit(a) && IsDigit(b) && IsDigit(c) && OctalNumber(a, b, c) > 255
    ensures IsFar(body, [], a, b, c, rest)
  {
    assert AllWritten([]) + body == body;
  }

  lemma FarLater(u: Unit, more: string, us: seq<Unit>, a: char, b: char, c: char, rest: string)
    requires IsUnit(u) && IsFar(more, us, a, b, c, rest)
    ensures IsFar(Written(u) + more, [u] + us, a, b, c, rest)
  {
    hide IsUnit, Written;
    assert ([u] + us)[1..] == us;
    assert AllWritten([u] + us) == Written(u) + AllWritten(us);
  }

  /** A path in quotes is read as the text whose encoding its units are; any other as it is. */
  lemma UnquotedIff(raw: string, path: string)
    ensures IsQuoted(raw) <==> exists body :: raw == ['"'] + body + ['"']
    ensures !IsQuoted(raw) ==> Unquote(raw) == Ok(raw)
    ensures IsQuoted(raw) ==>
              (Unquote(raw) == Ok(path) <==>
               exists us :: AreUnits(us) && raw == ['"'] + AllWritten(us) + ['"'] && AllBytes(us) == Utf8(path))
  {
    hide Unescape, AreUnits, AllWritten, AllBytes;
    if IsQuoted(raw) {
      var body := raw[1..|raw| - 1];
      assert raw == ['"'] + body + ['"'];
      if Unescape(body).Ok? {
        UnescapedIff(body, Unescape(body).value);
        DecodeIsInverse(Unescape(body).value, path);
      }
      UnescapedIff(body, Utf8(path));
      forall us ensures raw == ['"'] + AllWritten(us) + ['"'] <==> body == AllWritten(us) {
        if raw == ['"'] + AllWritten(us) + ['"'] { assert raw[1..|raw| - 1] == AllWritten(us); }
      }
    }
  }

  // ----- Normalising -----

  ghost function Dots(k: nat): string {
    if k == 0 then [] else "./" + Dots(k - 1)
  }

  /** Backslashes become slashes, and every leading `./` goes. */
  lemma NormaliseIs(path: string) returns (k: nat)
    ensures var slashed := Dots(k) + Normalise(path);
            |slashed| == |path| &&
            forall i :: 0 <= i < |path| ==> slashed[i] == if path[i] == '\\' then '/' else path[i]
    ensures !("./" <= Normalise(path))
  {
    k := DroppedDots(seq(|path|, i requires 0 <= i < |path| => if path[i] == '\\' then '/' else path[i]));
  }

  lemma {:induction false} DroppedDots(path: string) returns (k: nat)
    ensures Dots(k) + DropDots(path) == path && !("./" <= DropDots(path))
  {
    k := 0;
    if "./" <= path {
      k := DroppedDots(path[2..]);
      k := k + 1;
      assert path == "./" + path[2..];
    }
  }
}
