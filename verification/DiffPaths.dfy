/** Paths as git writes them in a diff, and as the coverage gate reads them back
    (scripts/check_diff_coverage.py). */
module DiffPaths {
  import opened Wrappers

  /** PolicyError, or the ValueError of an octal escape above \377. */
  datatype Error = Policy | ByteRange

  // ----- UTF-8 -----

  type Byte = n: int | 0 <= n < 0x100

  function Utf8Char(c: char): (r: seq<Byte>)
    ensures 1 <= |r| <= 4
  {
    var n := c as int;
    if n < 0x80 then [n]
    else if n < 0x800 then [0xC0 + n / 0x40, 0x80 + n % 0x40]
    else if n < 0x10000 then [0xE0 + n / 0x1000, 0x80 + n / 0x40 % 0x40, 0x80 + n % 0x40]
    else [0xF0 + n / 0x40000, 0x80 + n / 0x1000 % 0x40, 0x80 + n / 0x40 % 0x40, 0x80 + n % 0x40]
  }

  function Utf8(s: string): seq<Byte> {
    if s == [] then [] else Utf8Char(s[0]) + Utf8(s[1..])
  }

  function Low(b: Byte): int { b % 0x40 }

  /** The number a leading character's bytes stand for, and how many they are. */
  function LeadingNumber(b: seq<Byte>): (int, nat)
    requires b != []
  {
    if b[0] < 0x80 then (b[0], 1)
    else if b[0] < 0xE0 && |b| >= 2 then ((b[0] - 0xC0) * 0x40 + Low(b[1]), 2)
    else if b[0] < 0xF0 && |b| >= 3 then ((b[0] - 0xE0) * 0x1000 + Low(b[1]) * 0x40 + Low(b[2]), 3)
    else if |b| >= 4 then ((b[0] - 0xF0) * 0x40000 + Low(b[1]) * 0x1000 + Low(b[2]) * 0x40 + Low(b[3]), 4)
    else (-1, 0)
  }

  predicate IsScalar(n: int) {
    0 <= n < 0xD800 || 0xE000 <= n < 0x110000
  }

  /** Strict decoding: no surrogates, no overlong forms, no stray bytes. */
  function Decode(b: seq<Byte>): Option<string> {
    if b == [] then Some([]) else
      var (n, k) := LeadingNumber(b);
      if !IsScalar(n) || Utf8Char(n as char) != b[..k] || k == 0 then None else
        var rest := Decode(b[k..]);
        if rest.None? then None else Some([n as char] + rest.value)
  }

  lemma LeadingChar(c: char, rest: seq<Byte>)
    ensures LeadingNumber(Utf8Char(c) + rest) == (c as int, |Utf8Char(c)|)
  {
    var n, b := c as int, Utf8Char(c) + rest;
    assert forall i :: 0 <= i < |Utf8Char(c)| ==> b[i] == Utf8Char(c)[i];
    SixBits(n);
    SixBits(n / 0x40);
    SixBits(n / 0x1000);
    assert n / 0x1000 == n / 0x40 / 0x40 && n / 0x40000 == n / 0x1000 / 0x40;
  }

  lemma SixBits(n: nat)
    ensures n == n / 0x40 * 0x40 + n % 0x40 && (0x80 + n % 0x40) % 0x40 == n % 0x40
  {
  }

  lemma DecodeNothing()
    ensures Decode([]) == Some([])
  {
  }

  lemma DecodeChar(c: char, rest: seq<Byte>)
    ensures Utf8Char(c) != []
    ensures Decode(Utf8Char(c) + rest) == if Decode(rest).None? then None else Some([c] + Decode(rest).value)
  {
    LeadingChar(c, rest);
    var b, k := Utf8Char(c) + rest, |Utf8Char(c)|;
    assert b[..k] == Utf8Char(c) && b[k..] == rest;
    hide LeadingNumber;
  }

  lemma DecodedFirst(b: seq<Byte>) returns (k: nat)
    requires b != [] && Decode(b).Some?
    ensures 0 < k <= |b| && Decode(b[k..]).Some? && Decode(b).value != []
    ensures Decode(b).value[1..] == Decode(b[k..]).value && b == Utf8Char(Decode(b).value[0]) + b[k..]
  {
    k := LeadingNumber(b).1;
    assert b == b[..k] + b[k..];
  }

  /** Decoding gives exactly the string whose encoding it was given, if there is one. */
  lemma {:induction false} DecodeIsInverse(b: seq<Byte>, s: string)
    ensures Decode(b) == Some(s) <==> Utf8(s) == b
  {
    hide LeadingNumber, Utf8Char, Low, Decode;
    DecodeNothing();
    if Utf8(s) == b && s != [] {
      DecodeChar(s[0], Utf8(s[1..]));
      var k := |Utf8Char(s[0])|;
      assert b[k..] == Utf8(s[1..]);
      DecodeIsInverse(b[k..], s[1..]);
      assert s == [s[0]] + s[1..];
    } else if Decode(b) == Some(s) && b != [] {
      var k := DecodedFirst(b);
      assert s[1..] == Decode(b[k..]).value;
      DecodeIsInverse(b[k..], s[1..]);
    }
  }

  lemma {:induction false} Utf8Concat(s: string, t: string)
    ensures Utf8(s + t) == Utf8(s) + Utf8(t)
  {
    if s == [] {
      assert s + t == t;
    } else {
      assert (s + t)[1..] == s[1..] + t;
      Utf8Concat(s[1..], t);
    }
  }

  // ----- Reading a path -----

  /** _PATH_ESCAPES */
  function EscapedByte(c: char): Option<Byte> {
    match c
    case 'a' => Some(7) case 'b' => Some(8) case 't' => Some(9) case 'n' => Some(10)
    case 'v' => Some(11) case 'f' => Some(12) case 'r' => Some(13)
    case '\\' => Some(92) case '"' => Some(34)
    case _ => None
  }

  predicate IsOctal(c: char) { '0' <= c <= '7' }

  function OctalValue(s: string): nat
    requires |s| == 3 && forall c :: c in s ==> IsOctal(c)
  {
    assert IsOctal(s[0]) && IsOctal(s[1]) && IsOctal(s[2]);
    (s[0] as int - 48) * 64 + (s[1] as int - 48) * 8 + (s[2] as int - 48)
  }

  /** The first escape, its bytes and its width. */
  function Escape(s: string): Result<(Byte, nat), Error>
    requires s != [] && s[0] == '\\'
  {
    if |s| >= 2 && EscapedByte(s[1]).Some? then Ok((EscapedByte(s[1]).value, 2))
    else if |s| >= 4 && forall c :: c in s[1..4] ==> IsOctal(c) then
      if OctalValue(s[1..4]) < 0x100 then Ok((OctalValue(s[1..4]), 4)) else Err(ByteRange)
    else Err(Policy)
  }

  /** The bytes that the inside of a quoted path stands for. */
  function Unescape(body: string): Result<seq<Byte>, Error>
    decreases |body|
  {
    if body == [] then Ok([])
    else if body[0] != '\\' then Prepend(Utf8Char(body[0]), Unescape(body[1..]))
    else
      var e := Escape(body);
      if e.Err? then Err(e.error) else Prepend([e.value.0], Unescape(body[e.value.1..]))
  }

  predicate IsQuoted(raw: string) {
    |raw| >= 2 && raw[0] == '"' && raw[|raw| - 1] == '"'
  }

  function Decoded(b: Result<seq<Byte>, Error>): Result<string, Error> {
    if b.Err? then Err(b.error)
    else if Decode(b.value).None? then Err(Policy) else Ok(Decode(b.value).value)
  }

  function Unquote(raw: string): Result<string, Error> {
    if !IsQuoted(raw) then Ok(raw) else Decoded(Unescape(raw[1..|raw| - 1]))
  }

  method UnquotePath(raw: string) returns (r: Result<string, Error>)
    ensures r == Unquote(raw)
  {
    if !IsQuoted(raw) { return Ok(raw); }
    var body := raw[1..|raw| - 1];
    var decoded: seq<Byte>, index := [], 0;
    assert body[0..] == body;
    PrependNothing(Unescape(body));
    while index < |body|
      invariant index <= |body| && Unescape(body) == Prepend(decoded, Unescape(body[index..]))
    {
      ghost var here := body[index..];
      if body[index] != '\\' {
        assert here[1..] == body[index + 1..];
        PrependTwice(decoded, Utf8Char(body[index]), Unescape(body[index + 1..]));
        decoded, index := decoded + Utf8Char(body[index]), index + 1;
      } else {
        var e := Escape(body[index..]);
        if e.Err? { return Err(e.error); }
        assert here[e.value.1..] == body[index + e.value.1..];
        PrependTwice(decoded, [e.value.0], Unescape(body[index + e.value.1..]));
        decoded, index := decoded + [e.value.0], index + e.value.1;
      }
    }
    assert body[index..] == [] && decoded + [] == decoded;
    return Decoded(Ok(decoded));
  }

  /** normalise_path */
  function Normalise(path: string): string {
    DropDots(seq(|path|, i requires 0 <= i < |path| => if path[i] == '\\' then '/' else path[i]))
  }

  function DropDots(path: string): string {
    if "./" <= path then DropDots(path[2..]) else path
  }

  function WithoutTab(raw: string): string {
    if raw != [] && raw[|raw| - 1] == '\t' then raw[..|raw| - 1] else raw
  }

  /** _post_change_path: the path, or nothing for a deletion. */
  function PostChangePath(raw: string): Result<Option<string>, Error> {
    var trimmed := WithoutTab(raw);
    if trimmed == "/dev/null" then Ok(None) else
      var u := Unquote(trimmed);
      if u.Err? then Err(u.error)
      else Ok(Some(Normalise(if "b/" <= u.value then u.value[2..] else u.value)))
  }

  /** _strip_side_prefix */
  function StripSide(raw: string): Result<string, Error> {
    var u := Unquote(raw);
    if u.Err? then u else if "a/" <= u.value || "b/" <= u.value then Ok(u.value[2..]) else u
  }

  // ----- The two paths of a section header -----

  /** How far the first unescaped quote reaches. */
  function ClosingQuote(s: string, escaped: bool): (r: Option<nat>)
    ensures r.Some? ==> 0 < r.value <= |s|
  {
    if s == [] then None
    else if s[0] == '"' && !escaped then Some(1)
    else
      var rest := ClosingQuote(s[1..], s[0] == '\\' && !escaped);
      if rest.None? then None else Some(rest.value + 1)
  }

  function PlainLength(s: string): (n: nat)
    ensures n <= |s| && (s != [] && s[0] != ' ' ==> n > 0)
  {
    if s == [] || s[0] == ' ' then 0 else 1 + PlainLength(s[1..])
  }

  function TokenLength(s: string): (r: Option<nat>)
    requires s != [] && s[0] != ' '
    ensures r.Some? ==> 0 < r.value <= |s|
  {
    if s[0] != '"' then Some(PlainLength(s))
    else
      var end := ClosingQuote(s[1..], false);
      if end.None? then None else Some(end.value + 1)
  }

  function Tokens(s: string): Result<seq<string>, Error>
    decreases |s|
  {
    if s == [] then Ok([])
    else if s[0] == ' ' then Tokens(s[1..])
    else
      var n := TokenLength(s);
      if n.None? then Err(Policy) else Prepend([s[..n.value]], Tokens(s[n.value..]))
  }

  lemma SpaceAt(s: string, i: nat)
    requires i < |s| && s[i] == ' '
    ensures Tokens(s[i..]) == Tokens(s[i + 1..])
  {
    assert s[i..][1..] == s[i + 1..];
  }

  lemma TokenAt(s: string, start: nat)
    requires start < |s| && s[start] != ' '
    ensures var n := TokenLength(s[start..]);
            && (n.None? ==> Tokens(s[start..]) == Err(Policy))
            && (n.Some? ==> Tokens(s[start..]) == Prepend([s[start..start + n.value]], Tokens(s[start + n.value..])))
  {
    var n := TokenLength(s[start..]);
    if n.Some? {
      assert s[start..][..n.value] == s[start..start + n.value] && s[start..][n.value..] == s[start + n.value..];
    }
  }

  lemma NoMoreTokens(tokens: seq<string>, rest: string)
    requires rest == []
    ensures Prepend(tokens, Tokens(rest)) == Ok(tokens)
  {
    assert tokens + [] == tokens;
  }

  method SplitHeaderPaths(remainder: string) returns (r: Result<seq<string>, Error>)
    ensures var tokens := Tokens(remainder); r == if tokens.Ok? && |tokens.value| != 2 then Err(Policy) else tokens
  {
    hide Tokens, TokenLength;
    var tokens: seq<string>, index := [], 0;
    assert remainder[0..] == remainder;
    PrependNothing(Tokens(remainder));
    while index < |remainder|
      invariant index <= |remainder| && Tokens(remainder) == Prepend(tokens, Tokens(remainder[index..]))
    {
      ghost var before := index;
      while index < |remainder| && remainder[index] == ' '
        invariant before <= index <= |remainder| && Tokens(remainder[before..]) == Tokens(remainder[index..])
      {
        SpaceAt(remainder, index);
        index := index + 1;
      }
      if index >= |remainder| { break; }
      var start := index;
      TokenAt(remainder, start);
      if remainder[index] == '"' {
        var end := QuotedEnd(remainder, start);
        if end.None? { return Err(Policy); }
        index := end.value;
      } else {
        index := PlainEnd(remainder, start);
        PlainTokenLength(remainder[start..]);
      }
      PrependTwice(tokens, [remainder[start..index]], Tokens(remainder[index..]));
      tokens := tokens + [remainder[start..index]];
    }
    NoMoreTokens(tokens, remainder[index..]);
    return if |tokens| == 2 then Ok(tokens) else Err(Policy);
  }

  lemma PlainTokenLength(s: string)
    requires s != [] && s[0] != ' ' && s[0] != '"'
    ensures TokenLength(s) == Some(PlainLength(s)) && 0 < PlainLength(s) <= |s|
  {
  }

  /** Where the quoted token at `start` ends. */
  method QuotedEnd(s: string, start: nat) returns (end: Option<nat>)
    requires start < |s| && s[start] == '"'
    ensures var n := TokenLength(s[start..]); end == if n.None? then None else Some(start + n.value)
  {
    var index, escaped := start + 1, false;
    assert s[start..][1..] == s[start + 1..];
    while index < |s|
      invariant start < index <= |s|
      invariant var all, rest := ClosingQuote(s[start + 1..], false), ClosingQuote(s[index..], escaped);
        all == if rest.None? then None else Some(index - start - 1 + rest.value)
    {
      assert s[index..][1..] == s[index + 1..];
      if s[index] == '"' && !escaped { return Some(index + 1); }
      escaped := s[index] == '\\' && !escaped;
      index := index + 1;
    }
    return None;
  }

  method PlainEnd(s: string, start: nat) returns (end: nat)
    requires start < |s|
    ensures end == start + PlainLength(s[start..])
  {
    end := start;
    while end < |s| && s[end] != ' '
      invariant start <= end <= |s| && PlainLength(s[start..]) == end - start + PlainLength(s[end..])
    {
      assert s[end..][1..] == s[end + 1..];
      end := end + 1;
    }
  }

  /** The first cut at a space, from position i on, that leaves the same path on both sides. */
  function SectionFrom(remainder: string, i: nat): Result<Option<string>, Error>
    requires i <= |remainder|
    decreases |remainder| - i
  {
    if i == |remainder| then Ok(None)
    else if remainder[i] != ' ' then SectionFrom(remainder, i + 1)
    else
      var left, right := StripSide(remainder[..i]), StripSide(remainder[i + 1..]);
      if left.Err? then Err(left.error)
      else if right.Err? then Err(right.error)
      else if left == right then PostChangePath(remainder[i + 1..])
      else SectionFrom(remainder, i + 1)
  }

  /** _section_path */
  function SectionPath(remainder: string): Result<Option<string>, Error> {
    if remainder != [] && remainder[0] == '"' then
      var tokens := Tokens(remainder);
      if tokens.Err? then Err(tokens.error)
      else if |tokens.value| != 2 then Err(Policy) else PostChangePath(tokens.value[1])
    else SectionFrom(remainder, 0)
  }

  method ReadSectionPath(remainder: string) returns (r: Result<Option<string>, Error>)
    ensures r == SectionPath(remainder)
  {
    if remainder != [] && remainder[0] == '"' {
      var tokens := SplitHeaderPaths(remainder);
      return if tokens.Err? then Err(tokens.error) else PostChangePath(tokens.value[1]);
    }
    for i := 0 to |remainder|
      invariant SectionFrom(remainder, 0) == SectionFrom(remainder, i)
    {
      if remainder[i] == ' ' {
        var left, right := StripSide(remainder[..i]), StripSide(remainder[i + 1..]);
        if left.Err? { return Err(left.error); }
        if right.Err? { return Err(right.error); }
        if left == right { return PostChangePath(remainder[i + 1..]); }
      }
    }
    return Ok(None);
  }

  // ----- How git writes a path -----

  /** Bytes that git does not write as they are: control characters, the quote, the
      backslash, and whatever is not ASCII. */
  predicate IsSpecial(b: Byte) {
    b < 0x20 || b == 34 || b == 92 || b >= 0x7F
  }

  function QuoteByte(b: Byte): string {
    if !IsSpecial(b) then [b as char]
    else match b
      case 7 => "\\a" case 8 => "\\b" case 9 => "\\t" case 10 => "\\n"
      case 11 => "\\v" case 12 => "\\f" case 13 => "\\r"
      case 34 => "\\\"" case 92 => "\\\\"
      case _ => ['\\', (48 + b / 64) as char, (48 + b / 8 % 8) as char, (48 + b % 8) as char]
  }

  function QuoteBytes(bs: seq<Byte>): string {
    if bs == [] then [] else QuoteByte(bs[0]) + QuoteBytes(bs[1..])
  }

  predicate NeedsQuotes(bs: seq<Byte>) {
    exists b :: b in bs && IsSpecial(b)
  }

  /** A path as git prints it: quoted only where it has to be. */
  function Token(bs: seq<Byte>): string {
    if NeedsQuotes(bs) then "\"" + QuoteBytes(bs) + "\"" else QuoteBytes(bs)
  }

  /** A path in a header line of its own: git ends one that contains a space with a tab. */
  function Label(bs: seq<Byte>): string {
    if ' ' in Token(bs) then Token(bs) + "\t" else Token(bs)
  }

  // ----- Round trips -----

  lemma UnescapeByte(b: Byte, rest: string)
    ensures Unescape(QuoteByte(b) + rest) == Prepend([b], Unescape(rest))
  {
    var q, all := QuoteByte(b), QuoteByte(b) + rest;
    assert all[|q|..] == rest;
    if IsSpecial(b) {
      if |q| == 4 {
        assert all[1..4] == q[1..4] == [(48 + b / 64) as char, (48 + b / 8 % 8) as char, (48 + b % 8) as char];
      }
      assert Escape(all) == Ok((b, |q|));
    } else {
      assert Utf8Char(b as char) == [b];
    }
  }

  lemma {:induction false} UnescapeQuoted(bs: seq<Byte>)
    ensures Unescape(QuoteBytes(bs)) == Ok(bs)
  {
    if bs != [] {
      UnescapeByte(bs[0], QuoteBytes(bs[1..]));
      UnescapeQuoted(bs[1..]);
      assert bs == [bs[0]] + bs[1..];
    }
  }

  /** Bytes that need no quotes are printed as themselves. */
  lemma {:induction false} PlainBytes(bs: seq<Byte>)
    requires !NeedsQuotes(bs)
    ensures |QuoteBytes(bs)| == |bs| && Utf8(QuoteBytes(bs)) == bs
    ensures forall c :: c in QuoteBytes(bs) ==> ' ' <= c <= '~' && c != '"' && c != '\\'
  {
    if bs != [] {
      assert bs[0] in bs && forall b :: b in bs[1..] ==> b in bs;
      PlainBytes(bs[1..]);
      assert bs == [bs[0]] + bs[1..] && QuoteBytes(bs)[1..] == QuoteBytes(bs[1..]);
    }
  }

  /** Reading back what git prints: for every byte string, the text it encodes, or a
      refusal when it is not UTF-8. */
  lemma UnquoteUndoesQuoting(bs: seq<Byte>)
    ensures Unquote(Token(bs)) == if Decode(bs).Some? then Ok(Decode(bs).value) else Err(Policy)
  {
    if NeedsQuotes(bs) {
      assert Token(bs)[1..|Token(bs)| - 1] == QuoteBytes(bs);
      UnescapeQuoted(bs);
    } else {
      PlainBytes(bs);
      DecodeIsInverse(bs, QuoteBytes(bs));
      assert Token(bs) != [] ==> Token(bs)[0] in QuoteBytes(bs);
    }
  }

  lemma {:induction false} QuotedIsPrintable(bs: seq<Byte>)
    ensures forall c :: c in QuoteBytes(bs) ==> ' ' <= c <= '~'
  {
    if bs != [] { QuotedIsPrintable(bs[1..]); }
  }

  lemma UnquotePathToken(path: string)
    ensures Unquote(Token(Utf8(path))) == Ok(path)
    ensures WithoutTab(Token(Utf8(path))) == WithoutTab(Label(Utf8(path))) == Token(Utf8(path))
  {
    var bs := Utf8(path);
    UnquoteUndoesQuoting(bs);
    DecodeIsInverse(bs, path);
    TokenIsPrintable(bs);
    hide Unquote, Token, Utf8;
    assert forall c :: c in Token(bs) ==> c != '\t';
    assert Label(bs) == Token(bs) || Label(bs)[..|Label(bs)| - 1] == Token(bs);
    assert Token(bs) != [] ==> Token(bs)[|Token(bs)| - 1] in Token(bs);
  }

  /** A file header names its path, whatever characters it contains. */
  lemma HeaderNamesPath(path: string)
    ensures PostChangePath(Label(Utf8("b/" + path))) == PostChangePath(Token(Utf8("b/" + path))) ==
              Ok(Some(Normalise(path)))
  {
    UnquotePathToken("b/" + path);
    assert ("b/" + path)[2..] == path;
    assert Unquote("/dev/null") == Ok("/dev/null") && "/dev/null"[0] != ("b/" + path)[0];
  }

  /** A rename's destination is written without a side marker, but read as if it had
      one: the path comes back exactly when it is not in a top-level directory `b`. */
  lemma RenameIsReadIff(path: string)
    requires path != "/dev/null"
    ensures PostChangePath(Token(Utf8(path))) == Ok(Some(Normalise(path))) <==> !("b/" <= path)
  {
    UnquotePathToken(path);
    assert Unquote("/dev/null") == Ok("/dev/null");
    hide Unquote, Token, Utf8, WithoutTab, Normalise;
    if "b/" <= path {
      NormaliseShortens(path[2..]);
      NormaliseKeeps(path);
      hide Normalise;
    }
  }

  lemma NormaliseKeeps(path: string)
    requires path != [] && path[0] == 'b'
    ensures |Normalise(path)| == |path|
  {
    var slashed := seq(|path|, i requires 0 <= i < |path| => if path[i] == '\\' then '/' else path[i]);
    assert slashed[0] == 'b' && !("./" <= slashed);
  }

  lemma NormaliseShortens(path: string)
    ensures |Normalise(path)| <= |path|
  {
    DropDotsShortens(seq(|path|, i requires 0 <= i < |path| => if path[i] == '\\' then '/' else path[i]));
  }

  lemma {:induction false} DropDotsShortens(path: string)
    ensures |DropDots(path)| <= |path|
  {
    if "./" <= path { DropDotsShortens(path[2..]); }
  }

  // ----- The header's split -----

  /** What follows `diff --git `. */
  function Header(from: string, to: string): string {
    Token(Utf8("a/" + from)) + " " + Token(Utf8("b/" + to))
  }

  lemma SidesQuoteAlike(path: string)
    ensures NeedsQuotes(Utf8("a/" + path)) <==> NeedsQuotes(Utf8("b/" + path))
    ensures Utf8("a/" + path) == [97, 47] + Utf8(path) && Utf8("b/" + path) == [98, 47] + Utf8(path)
  {
    Utf8Concat("a/", path);
    Utf8Concat("b/", path);
    assert "a/"[1..] == "/" && "b/"[1..] == "/" && "/"[1..] == "";
    assert Utf8("/") == [47] && Utf8("a/") == [97, 47] && Utf8("b/") == [98, 47];
  }

  /** The characters of an unquoted header. */
  function PlainHeader(path: string): string {
    "a/" + path + " " + "b/" + path
  }

  lemma PlainHeaderParts(path: string)
    ensures var h := PlainHeader(path);
            |h| == 2 * |path| + 5 && h[0] == 'a' && h[1] == '/' && h[|path| + 2] == ' ' && h[|path| + 3] == 'b'
    ensures PlainHeader(path)[..|path| + 2] == "a/" + path && PlainHeader(path)[|path| + 3..] == "b/" + path
    ensures '"' !in path ==> '"' !in PlainHeader(path)
  {
  }

  /** Both sides of an unquoted text are read as they are. */
  lemma StripPlain(s: string)
    requires '"' !in s
    ensures StripSide(s) == Ok(if "a/" <= s || "b/" <= s then s[2..] else s)
  {
    assert s != [] ==> s[0] in s;
  }

  lemma MiddleCut(path: string)
    requires '"' !in path
    ensures SectionFrom(PlainHeader(path), |path| + 2) == PostChangePath("b/" + path)
  {
    PlainHeaderParts(path);
    StripPlain("a/" + path);
    StripPlain("b/" + path);
    assert ("a/" + path)[2..] == path && ("b/" + path)[2..] == path;
    hide StripSide, PostChangePath, PlainHeader;
  }

  /** Left of the middle one side is too short to be the other. */
  lemma EarlierCutDiffers(path: string, i: nat)
    requires '"' !in path && i < |path| + 2 && PlainHeader(path)[i] == ' '
    ensures var left, right := StripSide(PlainHeader(path)[..i]), StripSide(PlainHeader(path)[i + 1..]);
            left.Ok? && right.Ok? && left != right
  {
    PlainHeaderParts(path);
    var left, right := PlainHeader(path)[..i], PlainHeader(path)[i + 1..];
    assert |PlainHeader(path)| == 2 * |path| + 5 && '"' !in left && '"' !in right;
    assert left[0] == 'a' && left[1] == '/' by { assert i >= 2; }
    hide PlainHeader;
    StripPlain(left);
    StripPlain(right);
    hide StripSide;
    assert |left[2..]| == i - 2 && |right| >= i;
  }

  /** Before the middle the right side is longer than the left, with its mark or without. */
  lemma EarlierCut(path: string, i: nat)
    requires '"' !in path && i < |path| + 2
    ensures SectionFrom(PlainHeader(path), i) == SectionFrom(PlainHeader(path), i + 1)
  {
    PlainHeaderParts(path);
    var h := PlainHeader(path);
    hide PlainHeader, PostChangePath;
    if h[i] == ' ' {
      EarlierCutDiffers(path, i);
      hide StripSide;
    }
  }

  /** Only the middle cut leaves the same path on both sides, because of the lengths. */
  lemma {:induction false} OnlyTheMiddleCut(path: string, i: nat)
    requires '"' !in path && i <= |path| + 2
    ensures SectionFrom(PlainHeader(path), i) == PostChangePath("b/" + path)
    decreases |path| + 2 - i
  {
    PlainHeaderParts(path);
    hide SectionFrom, PostChangePath, PlainHeader;
    if i == |path| + 2 {
      MiddleCut(path);
    } else {
      EarlierCut(path, i);
      OnlyTheMiddleCut(path, i + 1);
    }
  }

  /** An escape never closes a quoted path. */
  lemma {:induction false} QuoteClosesAtEnd(bs: seq<Byte>, rest: string)
    ensures ClosingQuote(QuoteBytes(bs) + "\"" + rest, false) == Some(|QuoteBytes(bs)| + 1)
  {
    var s := QuoteBytes(bs) + "\"" + rest;
    if bs != [] {
      var q, more := QuoteByte(bs[0]), QuoteBytes(bs[1..]) + "\"" + rest;
      assert s == q + more;
      QuoteClosesAtEnd(bs[1..], rest);
      SkipQuotedByte(bs[0], more);
    }
  }

  lemma SkipChar(c: char, more: string, escaped: bool)
    requires c != '"' || escaped
    ensures ClosingQuote([c] + more, escaped) == Later(ClosingQuote(more, c == '\\' && !escaped), 1)
  {
    assert ([c] + more)[1..] == more;
  }

  function Later(rest: Option<nat>, width: nat): Option<nat> {
    if rest.None? then None else Some(rest.value + width)
  }

  lemma QuotedShape(b: Byte)
    ensures var q := QuoteByte(b);
            || (|q| == 1 && q[0] != '"' && q[0] != '\\')
            || (|q| == 2 && q[0] == '\\')
            || (|q| == 4 && q[0] == '\\' && q[1] != '"' && q[1] != '\\' && q[2] != '"' && q[2] != '\\' && q[3] != '"'
                && q[3] != '\\')
  {
  }

  lemma SkipQuotedByte(b: Byte, more: string)
    ensures ClosingQuote(QuoteByte(b) + more, false) == Later(ClosingQuote(more, false), |QuoteByte(b)|)
  {
    var q := QuoteByte(b);
    QuotedShape(b);
    hide ClosingQuote, QuoteByte;
    if |q| == 1 {
      SkipChar(q[0], more, false);
      assert q == [q[0]];
    } else if |q| == 2 {
      SkipPair(q[1], more);
      assert q + more == ['\\'] + ([q[1]] + more);
    } else {
      SkipPair(q[1], [q[2]] + ([q[3]] + more));
      SkipChar(q[3], more, false);
      SkipChar(q[2], [q[3]] + more, false);
      assert q + more == ['\\'] + ([q[1]] + ([q[2]] + ([q[3]] + more)));
    }
  }

  lemma SkipPair(c: char, more: string)
    ensures ClosingQuote(['\\'] + ([c] + more), false) == Later(ClosingQuote(more, false), 2)
  {
    SkipChar(c, more, true);
    SkipChar('\\', [c] + more, false);
    hide ClosingQuote;
  }

  lemma QuotedToken(bs: seq<Byte>, rest: string)
    requires NeedsQuotes(bs)
    ensures TokenLength(Token(bs) + rest) == Some(|Token(bs)|)
  {
    QuoteClosesAtEnd(bs, rest);
    hide QuoteBytes, ClosingQuote, NeedsQuotes;
    var inside := QuoteBytes(bs) + "\"" + rest;
    assert Token(bs) + rest == ['"'] + inside;
    assert (Token(bs) + rest)[1..] == inside;
  }

  lemma OneToken(s: string, n: nat)
    requires s != [] && s[0] != ' ' && TokenLength(s) == Some(n)
    ensures Tokens(s) == Prepend([s[..n]], Tokens(s[n..]))
  {
  }

  lemma SpaceIsNoToken(s: string)
    ensures Tokens([' '] + s) == Tokens(s) && Tokens([]) == Ok([])
  {
    assert ([' '] + s)[1..] == s;
  }

  lemma TwoTokens(a: string, b: string)
    requires a != [] && b != [] && a[0] == b[0] == '"'
    requires TokenLength(a + ([' '] + b)) == Some(|a|) && TokenLength(b) == Some(|b|)
    ensures Tokens(a + [' '] + b) == Ok([a, b])
  {
    hide Tokens, TokenLength, Prepend;
    var all, rest := a + ([' '] + b), [' '] + b;
    SpaceIsNoToken(b);
    assert all[0] == '"';
    OneToken(b, |b|);
    OneToken(all, |a|);
    assert b[..|b|] == b && b[|b|..] == [];
    assert all[..|a|] == a && all[|a|..] == rest && all == a + [' '] + b;
    PrependOne(a, b);
  }

  lemma PrependOne(a: string, b: string)
    ensures var none, one: Result<seq<string>, Error> := Ok([]), Ok([b]);
            Prepend([b], none) == one && Prepend([a], one) == Ok([a, b])
  {
    assert [b] + [] == [b] && [a] + [b] == [a, b];
  }

  /** The section header of every path gives back that path. */
  lemma SectionHeaderNamesPath(path: string)
    ensures SectionPath(Header(path, path)) == Ok(Some(Normalise(path)))
  {
    var a, b := Utf8("a/" + path), Utf8("b/" + path);
    SidesQuoteAlike(path);
    HeaderNamesPath(path);
    hide Utf8, PostChangePath, QuoteBytes, Normalise;
    if NeedsQuotes(a) {
      QuotedToken(a, " " + Token(b));
      QuotedToken(b, "");
      assert Token(b) + "" == Token(b);
      TwoTokens(Token(a), Token(b));
      hide Tokens;
    } else {
      hide NeedsQuotes;
      PlainToken("a/" + path);
      PlainToken("b/" + path);
      hide Token, SectionFrom;
      assert '"' !in path by { assert forall c :: c in path ==> c in "a/" + path; }
      OnlyTheMiddleCut(path, 0);
      assert Header(path, path) == PlainHeader(path);
    }
  }

  lemma PlainToken(path: string)
    requires !NeedsQuotes(Utf8(path))
    ensures Token(Utf8(path)) == path && '"' !in path
  {
    PlainBytes(Utf8(path));
    DecodeIsInverse(Utf8(path), path);
    DecodeIsInverse(Utf8(path), QuoteBytes(Utf8(path)));
  }

  // ----- Headers of moved files -----

  predicate HasGap(s: string) {
    exists i, j :: 0 <= i < j < |s| && s[i] == ' ' && s[j] != ' '
  }

  lemma {:induction false} TokensOfPlain(s: string)
    requires '"' !in s
    ensures Tokens(s).Ok? && (Tokens(s).value == [] <==> forall c :: c in s ==> c == ' ')
    decreases |s|
  {
    if s != [] {
      if s[0] == ' ' {
        assert s == [' '] + s[1..];
        assert forall c :: c in s <==> c == ' ' || c in s[1..];
        TokensOfPlain(s[1..]);
      } else {
        var n := PlainLength(s);
        assert s[0] in s && forall c :: c in s[n..] ==> c in s;
        TokensOfPlain(s[n..]);
      }
    }
  }

  lemma {:induction false} PlainStretch(s: string)
    ensures var n := PlainLength(s); (n < |s| ==> s[n] == ' ') && forall i :: 0 <= i < n ==> s[i] != ' '
  {
    if s != [] && s[0] != ' ' { PlainStretch(s[1..]); }
  }

  lemma OneTokenIff(s: string)
    requires '"' !in s && s != [] && s[0] != ' '
    ensures Tokens(s).Ok? && (|Tokens(s).value| == 1 <==> !HasGap(s))
    ensures Tokens(s).value != [] && Tokens(s).value[0] == s[..PlainLength(s)]
  {
    var n := PlainLength(s);
    PlainStretch(s);
    assert s[0] in s && forall c :: c in s[n..] ==> c in s;
    TokensOfPlain(s[n..]);
    OneToken(s, n);
    hide Tokens;
    if HasGap(s) {
      var i, j :| 0 <= i < j < |s| && s[i] == ' ' && s[j] != ' ';
      assert s[n..][j - n] == s[j] && s[j] in s[n..];
    } else {
      forall j | n <= j < |s| ensures s[j] == ' ' {
        assert s[n] == ' ';
      }
    }
  }

  /** In a quoted path every quote follows a backslash. */
  lemma {:induction false} QuoteFollowsBackslash(bs: seq<Byte>, k: nat)
    requires k < |QuoteBytes(bs)| && QuoteBytes(bs)[k] == '"'
    ensures k > 0 && QuoteBytes(bs)[k - 1] == '\\'
  {
    var q := QuoteByte(bs[0]);
    assert |q| == 4 ==> q[1] != '"' && q[2] != '"' && q[3] != '"';
    if k >= |q| {
      QuoteFollowsBackslash(bs[1..], k - |q|);
      assert QuoteBytes(bs)[k - 1] == QuoteBytes(bs[1..])[k - |q| - 1];
    }
  }

  lemma PlainTokenIsUnquoted(path: string)
    requires !NeedsQuotes(Utf8(path))
    ensures var token := Token(Utf8(path)); forall i :: 0 <= i < |token| ==> token[i] != '"'
  {
    hide *;
    PlainToken(path);
  }

  lemma SpacedQuoteIsLast(path: string, k: nat)
    requires var token := Token(Utf8(path)); 0 < k < |token| && token[k - 1] == ' ' && token[k] == '"'
    ensures k == |Token(Utf8(path))| - 1
  {
    hide Utf8, QuoteBytes, NeedsQuotes;
    var bs := Utf8(path);
    var token, inside := Token(bs), QuoteBytes(bs);
    if NeedsQuotes(bs) {
      if k < |token| - 1 {
        assert inside[k - 1] == token[k] && (k >= 2 ==> inside[k - 2] == token[k - 1]);
        QuoteFollowsBackslash(bs, k - 1);
      }
    } else {
      PlainTokenIsUnquoted(path);
    }
  }

  lemma TokenIsPrintable(bs: seq<Byte>)
    ensures forall c :: c in Token(bs) ==> ' ' <= c <= '~'
  {
    QuotedIsPrintable(bs);
  }

  lemma HeaderHasNoTab(from: string, to: string, i: nat)
    requires i <= |Header(from, to)|
    ensures WithoutTab(Header(from, to)[i..]) == Header(from, to)[i..]
  {
    TokenIsPrintable(Utf8("a/" + from));
    TokenIsPrintable(Utf8("b/" + to));
    hide Token, Utf8;
    var header := Header(from, to);
    assert forall c :: c in header ==> c != '\t';
    assert header[i..] != [] ==> header[i..][|header[i..]| - 1] in header;
  }

  lemma HeaderIs(from: string, to: string)
    requires !NeedsQuotes(Utf8("a/" + from))
    ensures Header(from, to) == "a/" + from + [' '] + Token(Utf8("b/" + to))
  {
    PlainToken("a/" + from);
  }

  /** What a cut inside an unquoted-first header leaves on the right is readable. */
  lemma RightOfCut(from: string, to: string, i: nat)
    requires !NeedsQuotes(Utf8("a/" + from)) && i < |Header(from, to)| && Header(from, to)[i] == ' '
    ensures var right := Header(from, to)[i + 1..]; Unquote(right).Ok? && WithoutTab(right) == right
  {
    var a, token, header := "a/" + from, Token(Utf8("b/" + to)), Header(from, to);
    hide WithoutTab, HasGap, Token, Utf8, NeedsQuotes, Header, Unescape;
    HeaderIs(from, to);
    UnquotePathToken("b/" + to);
    PlainToken(a);
    var right := header[i + 1..];
    HeaderHasNoTab(from, to, i + 1);
    if i == |a| {
      assert right == token;
    } else if i < |a| {
      assert right[0] == header[i + 1] && (i + 1 < |a| ==> header[i + 1] == a[i + 1]);
    } else {
      var k := i - |a|;
      assert right != [] ==> right[0] == token[k] && token[k - 1] == ' ';
      if right != [] && right[0] == '"' { SpacedQuoteIsLast("b/" + to, k); }
    }
  }

  lemma {:induction false} CutsAreReadable(from: string, to: string, i: nat)
    requires !NeedsQuotes(Utf8("a/" + from)) && i <= |Header(from, to)|
    ensures SectionFrom(Header(from, to), i).Ok?
    decreases |Header(from, to)| - i
  {
    var header := Header(from, to);
    if i < |header| {
      HeaderStart(from, to);
      hide Header, Token, Utf8, NeedsQuotes;
      CutsAreReadable(from, to, i + 1);
      if header[i] == ' ' {
        RightOfCut(from, to, i);
        assert header[..i] == [] || header[..i][0] == 'a';
        hide SectionFrom;
      }
    }
  }

  lemma HeaderStart(from: string, to: string)
    requires !NeedsQuotes(Utf8("a/" + from))
    ensures Header(from, to) != [] && Header(from, to)[0] == 'a'
  {
    PlainToken("a/" + from);
    hide Utf8;
  }

  lemma QuotedThenPlain(a: string, b: string)
    requires a != [] && a[0] == '"' && TokenLength(a + ([' '] + b)) == Some(|a|)
    ensures Tokens(a + [' '] + b) == Prepend([a], Tokens(b))
  {
    var all, rest := a + ([' '] + b), [' '] + b;
    assert all[0] == '"';
    hide Tokens, TokenLength, Prepend;
    SpaceIsNoToken(b);
    OneToken(all, |a|);
    assert all[..|a|] == a && all[|a|..] == rest && all == a + [' '] + b;
  }

  /** The header of a renamed or copied file is refused exactly when the old path is
      quoted, the new one is not, and the new one has a space inside. */
  lemma HeaderIsReadIff(from: string, to: string)
    ensures SectionPath(Header(from, to)).Ok? <==>
            !(NeedsQuotes(Utf8("a/" + from)) && !NeedsQuotes(Utf8("b/" + to)) && HasGap(to))
  {
    var a, b := Utf8("a/" + from), Utf8("b/" + to);
    HeaderNamesPath(to);
    hide Utf8, QuoteBytes, PostChangePath, NeedsQuotes;
    if !NeedsQuotes(a) {
      HeaderStart(from, to);
      hide Token, Header;
      CutsAreReadable(from, to, 0);
      hide SectionFrom;
    } else {
      assert Token(a)[0] == '"';
      QuotedToken(a, " " + Token(b));
      if NeedsQuotes(b) {
        QuotedToken(b, "");
        assert Token(b) + "" == Token(b);
        TwoTokens(Token(a), Token(b));
        hide Tokens;
      } else {
        PlainToken("b/" + to);
        QuotedThenPlain(Token(a), "b/" + to);
        hide Token;
        PlainDestination(to);
        hide Tokens;
      }
    }
  }

  lemma PlainDestination(to: string)
    requires '"' !in "b/" + to
    ensures var t := Tokens("b/" + to);
            t.Ok? && (|t.value| == 1 <==> !HasGap(to)) && (|t.value| == 1 ==> PostChangePath(t.value[0]).Ok?)
  {
    var b := "b/" + to;
    OneTokenIff(b);
    hide Tokens;
    assert HasGap(b) <==> HasGap(to) by {
      if HasGap(to) {
        var i, j :| 0 <= i < j < |to| && to[i] == ' ' && to[j] != ' ';
        assert b[i + 2] == to[i] && b[j + 2] == to[j];
      }
      if HasGap(b) {
        var i, j :| 0 <= i < j < |b| && b[i] == ' ' && b[j] != ' ';
        assert i >= 2 && b[i] == to[i - 2] && b[j] == to[j - 2];
      }
    }
    var first := b[..PlainLength(b)];
    assert first != [] && first[0] == 'b';
  }
}
