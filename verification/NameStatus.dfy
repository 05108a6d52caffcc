/** The change set as git lists it, NUL-delimited (scripts/select_e2e_scopes.py,
    parse_name_status_z). */
module NameStatus {
  import opened ScopeGlob
  import opened ScopeSelection
  import opened ScopeBuild
  import DiffPaths
  import opened DecimalDigits
  import opened Wrappers

  type Bytes = seq<DiffPaths.Byte>

  const NUL: char := '\0'

  /** s.split("\0") */
  function SplitNul(s: string): (r: seq<string>)
    ensures r != []
    decreases |s|
  {
    var k := Find(s, NUL, 0);
    if k == |s| then [s] else [s[..k]] + SplitNul(s[k + 1..])
  }

  /** A similarity score: one to three digits, at most 100. */
  predicate IsScore(s: string) {
    1 <= |s| <= 3 && (forall i :: 0 <= i < |s| ==> IsDigit(s[i])) && Number(s) <= 100
  }

  function StatusOf(token: string): Option<Status> {
    if token == "A" then Some(Added)
    else if token == "M" then Some(Modified)
    else if token == "D" then Some(Deleted)
    else if token != [] && token[0] == 'R' && IsScore(token[1..]) then Some(Renamed)
    else if token != [] && token[0] == 'C' && IsScore(token[1..]) then Some(Copied)
    else None
  }

  function PathCount(s: Status): nat {
    if s == Renamed || s == Copied then 2 else 1
  }

  /** _change_from_git_tokens */
  function ChangeOf(s: Status, paths: seq<string>): Option<Change> {
    if |paths| != PathCount(s) then None
    else
      var c :=
        if s == Deleted then Change(s, Some(paths[0]), None)
        else if |paths| == 2 then Change(s, Some(paths[0]), Some(paths[1]))
        else Change(s, None, Some(paths[0]));
      if ValidChange(c) then Some(c) else None
  }

  /** At most n leading tokens. */
  function Take(tokens: seq<string>, n: nat): seq<string> {
    if n <= |tokens| then tokens[..n] else tokens
  }

  function Drop(tokens: seq<string>, n: nat): (r: seq<string>)
    ensures |r| <= |tokens|
  {
    if n <= |tokens| then tokens[n..] else []
  }

  function Changes(tokens: seq<string>): Result<seq<Change>, Refusal>
    decreases |tokens|
  {
    if tokens == [] then Ok([])
    else
      var status := StatusOf(tokens[0]);
      if status.None? then Err(Invalid)
      else
        var c := ChangeOf(status.value, Take(tokens[1..], PathCount(status.value)));
        if c.None? then Err(Invalid) else Prepend([c.value], Changes(Drop(tokens[1..], PathCount(status.value))))
  }

  /** The tokens of NUL-terminated UTF-8 text. */
  function Tokens(data: Bytes): Result<seq<string>, Refusal> {
    if data == [] then Ok([])
    else if data[|data| - 1] != 0 then Err(Invalid)
    else
      var text := DiffPaths.Decode(data);
      if text.None? then Err(Invalid) else Ok(SplitNul(text.value)[..|SplitNul(text.value)| - 1])
  }

  function Listed(data: Bytes): Result<seq<Change>, Refusal> {
    var tokens := Tokens(data);
    if tokens.Err? then Err(Invalid) else Changes(tokens.value)
  }

  lemma ChangesStep(tokens: seq<string>, index: nat, done: seq<Change>, all: Result<seq<Change>, Refusal>)
    requires index < |tokens| && all == Prepend(done, Changes(tokens[index..]))
    ensures var status := StatusOf(tokens[index]);
            if status.None? then all == Err(Invalid) else
              var n := PathCount(status.value);
              var paths := Take(tokens[index + 1..], n);
              var c := ChangeOf(status.value, paths);
              if c.None? then all == Err(Invalid) else
                && |paths| == n && index + 1 + n <= |tokens| && paths == tokens[index + 1..index + 1 + n]
                && all == Prepend(done + [c.value], Changes(tokens[index + 1 + n..]))
  {
    var rest := tokens[index..];
    assert rest[1..] == tokens[index + 1..];
    var status := StatusOf(tokens[index]);
    hide StatusOf;
    if status.Some? {
      var n := PathCount(status.value);
      var c := ChangeOf(status.value, Take(rest[1..], n));
      hide ValidChange;
      if c.Some? {
        assert Drop(rest[1..], n) == tokens[index + 1 + n..];
        var more := Changes(tokens[index + 1 + n..]);
        assert more.Ok? ==> done + ([c.value] + more.value) == (done + [c.value]) + more.value;
      }
    }
  }

  method ParseNameStatus(data: Bytes) returns (r: Result<seq<Change>, Refusal>)
    ensures r == Listed(data)
  {
    var split := Tokens(data);
    if split.Err? { return Err(Invalid); }
    var tokens := split.value;
    var result: seq<Change>, index := [], 0;
    assert tokens[0..] == tokens;
    assert Changes(tokens).Ok? ==> [] + Changes(tokens).value == Changes(tokens).value;
    while index < |tokens|
      invariant index <= |tokens| && Changes(tokens) == Prepend(result, Changes(tokens[index..]))
    {
      ChangesStep(tokens, index, result, Changes(tokens));
      hide *;
      var status := StatusOf(tokens[index]);
      if status.None? { return Err(Invalid); }
      var pathCount := PathCount(status.value);
      var change := ChangeOf(status.value, Take(tokens[index + 1..], pathCount));
      if change.None? { return Err(Invalid); }
      result, index := result + [change.value], index + 1 + pathCount;
    }
    assert tokens[index..] == [] && result + [] == result;
    return Ok(result);
  }

  // ----- The listing as git prints it -----

  /** One listed change; the score counts for renames and copies only. */
  datatype Entry = Entry(change: Change, score: string)

  predicate ValidEntry(e: Entry) {
    ValidChange(e.change) && if PathCount(e.change.status) == 2 then IsScore(e.score) else e.score == ""
  }

  function EntryTokens(e: Entry): seq<string>
    requires ValidEntry(e)
  {
    [[Letter(e.change.status)] + e.score] +
    (if e.change.old_.Some? then [e.change.old_.value] else [])
    + (if e.change.new_.Some? then [e.change.new_.value] else [])
  }

  function AllTokens(entries: seq<Entry>): seq<string>
    requires forall e :: e in entries ==> ValidEntry(e)
  {
    if entries == [] then [] else EntryTokens(entries[0]) + AllTokens(entries[1..])
  }

  function Terminated(tokens: seq<string>): string {
    if tokens == [] then "" else tokens[0] + [NUL] + Terminated(tokens[1..])
  }

  function ChangesOf(entries: seq<Entry>): seq<Change> {
    seq(|entries|, i requires 0 <= i < |entries| => entries[i].change)
  }

  ghost predicate Prints(entries: seq<Entry>, data: Bytes) {
    (forall e :: e in entries ==> ValidEntry(e)) && data == DiffPaths.Utf8(Terminated(AllTokens(entries)))
  }

  // ----- Splitting and joining -----

  lemma SplitStep(first: string, rest: string)
    requires NUL !in first
    ensures SplitNul(first + [NUL] + rest) == [first] + SplitNul(rest)
  {
    var s, k := first + [NUL] + rest, |first|;
    forall j | 0 <= j < k ensures s[j] != NUL { assert s[j] == first[j] && first[j] in first; }
    FindIs(s, NUL, k);
    assert s[..k] == first && s[k + 1..] == rest;
    hide Find;
  }

  lemma {:induction false} SplitTerminated(tokens: seq<string>)
    requires forall t :: t in tokens ==> NUL !in t
    ensures SplitNul(Terminated(tokens)) == tokens + [""]
  {
    hide SplitNul;
    if tokens == [] {
      SplitEmpty();
    } else {
      assert tokens[0] in tokens && forall t :: t in tokens[1..] ==> t in tokens;
      SplitTerminated(tokens[1..]);
      SplitStep(tokens[0], Terminated(tokens[1..]));
      assert [tokens[0]] + (tokens[1..] + [""]) == tokens + [""];
    }
  }

  lemma FirstPart(s: string) returns (first: string, rest: string)
    requires s != [] && s[|s| - 1] == NUL
    ensures s == first + [NUL] + rest && |rest| < |s| && (rest != [] ==> rest[|rest| - 1] == NUL)
    ensures SplitNul(s) == [first] + SplitNul(rest)
  {
    var k := Find(s, NUL, 0);
    first, rest := s[..k], s[k + 1..];
    hide Find;
  }

  lemma {:induction false} TerminatedSplit(s: string)
    requires s != [] && s[|s| - 1] == NUL
    ensures var r := SplitNul(s); Terminated(r[..|r| - 1]) == s
    decreases |s|
  {
    var first, rest := FirstPart(s);
    var more := SplitNul(rest);
    hide SplitNul;
    if rest == [] {
      SplitEmpty();
    } else {
      TerminatedSplit(rest);
    }
    var r := SplitNul(s);
    assert r[..|r| - 1] == [first] + more[..|more| - 1] && r[..|r| - 1][1..] == more[..|more| - 1];
  }

  lemma SplitEmpty()
    ensures SplitNul("") == [""]
  {
  }

  lemma {:induction false} EndsWithNul(tokens: seq<string>)
    requires tokens != []
    ensures Terminated(tokens) != [] && Terminated(tokens)[|Terminated(tokens)| - 1] == NUL
  {
    if |tokens| > 1 { EndsWithNul(tokens[1..]); }
  }

  lemma LastByte(c: char)
    ensures var b := DiffPaths.Utf8Char(c); b[|b| - 1] == 0 <==> c == NUL
    ensures DiffPaths.Utf8([c]) == DiffPaths.Utf8Char(c)
  {
    assert [c][1..] == [];
  }

  lemma Utf8Last(s: string)
    requires s != []
    ensures DiffPaths.Utf8(s) != [] && (DiffPaths.Utf8(s)[|DiffPaths.Utf8(s)| - 1] == 0 <==> s[|s| - 1] == NUL)
  {
    hide DiffPaths.Utf8, DiffPaths.Utf8Char;
    var front, last := s[..|s| - 1], s[|s| - 1];
    assert s == front + [last];
    DiffPaths.Utf8Concat(front, [last]);
    LastByte(last);
  }

  // ----- The listing reads back -----

  lemma EntryReadsBack(e: Entry, rest: seq<string>)
    requires ValidEntry(e)
    ensures Changes(EntryTokens(e) + rest) == Prepend([e.change], Changes(rest))
    ensures forall t :: t in EntryTokens(e) ==> NUL !in t
  {
    var tokens, c := EntryTokens(e), e.change;
    var n := PathCount(c.status);
    StatusReadsBack(e);
    NoNul(e);
    hide StatusOf, IsScore, IsRelative;
    var all := tokens + rest;
    assert |tokens| == n + 1 && all[1..] == tokens[1..] + rest;
    assert Take(all[1..], n) == tokens[1..] && Drop(all[1..], n) == rest;
    assert ChangeOf(c.status, tokens[1..]) == Some(c);
    hide ChangeOf, EntryTokens, Take, Drop;
  }

  lemma StatusReadsBack(e: Entry)
    requires ValidEntry(e)
    ensures StatusOf(EntryTokens(e)[0]) == Some(e.change.status)
  {
    var token := [Letter(e.change.status)] + e.score;
    assert token == EntryTokens(e)[0] && token[1..] == e.score && token[0] == Letter(e.change.status);
    hide IsScore, IsRelative;
  }

  lemma NoNul(e: Entry)
    requires ValidEntry(e)
    ensures forall t :: t in EntryTokens(e) ==> NUL !in t
  {
    hide Split, IsLiteral;
  }

  lemma ConsEntry(e: Entry, more: seq<Entry>)
    requires ValidEntry(e) && forall m :: m in more ==> ValidEntry(m)
    ensures AllTokens([e] + more) == EntryTokens(e) + AllTokens(more)
    ensures ChangesOf([e] + more) == [e.change] + ChangesOf(more)
  {
    hide ValidEntry, EntryTokens;
    assert ([e] + more)[1..] == more;
  }

  lemma {:induction false} TokensReadBack(entries: seq<Entry>)
    requires forall e :: e in entries ==> ValidEntry(e)
    ensures Changes(AllTokens(entries)) == Ok(ChangesOf(entries))
    ensures forall t :: t in AllTokens(entries) ==> NUL !in t
  {
    if entries == [] {
      assert ChangesOf(entries) == [];
    } else {
      hide *;
      var e, more := entries[0], entries[1..];
      assert e in entries && forall m :: m in more ==> m in entries;
      assert entries == [e] + more;
      TokensReadBack(more);
      EntryReadsBack(e, AllTokens(more));
      ConsEntry(e, more);
      PrependOne(e.change, ChangesOf(more));
    }
  }

  lemma PrependOne(c: Change, more: seq<Change>)
    ensures var rest: Result<seq<Change>, Refusal> := Ok(more); Prepend([c], rest) == Ok([c] + more)
  {
  }

  lemma TokensOfTerminated(tokens: seq<string>)
    requires forall t :: t in tokens ==> NUL !in t
    ensures Tokens(DiffPaths.Utf8(Terminated(tokens))) == Ok(tokens)
  {
    hide SplitNul, Terminated, DiffPaths.Decode;
    var text := Terminated(tokens);
    DiffPaths.DecodeIsInverse(DiffPaths.Utf8(text), text);
    TerminatedEmpty();
    if tokens != [] {
      hide DiffPaths.Utf8;
      EndsWithNul(tokens);
      Utf8Last(text);
      SplitTerminated(tokens);
      assert (tokens + [""])[..|tokens|] == tokens;
    }
  }

  lemma TerminatedEmpty()
    ensures Terminated([]) == ""
  {
  }

  lemma TokensAreTerminated(data: Bytes)
    requires Tokens(data).Ok?
    ensures data == DiffPaths.Utf8(Terminated(Tokens(data).value))
  {
    hide SplitNul, Terminated, DiffPaths.Decode;
    TerminatedEmpty();
    if data != [] {
      var text := DiffPaths.Decode(data).value;
      DiffPaths.DecodeIsInverse(data, text);
      assert text != [];
      hide DiffPaths.Utf8;
      Utf8Last(text);
      TerminatedSplit(text);
    }
  }

  lemma ListingReadsBack(entries: seq<Entry>, data: Bytes)
    requires Prints(entries, data)
    ensures Listed(data) == Ok(ChangesOf(entries))
  {
    hide ValidEntry, AllTokens, Changes, ChangesOf, Tokens;
    TokensReadBack(entries);
    TokensOfTerminated(AllTokens(entries));
  }

  lemma EntryOf(status: Status, token: string, paths: seq<string>) returns (e: Entry)
    requires StatusOf(token) == Some(status) && ChangeOf(status, paths).Some?
    ensures ValidEntry(e) && EntryTokens(e) == [token] + paths && e.change == ChangeOf(status, paths).value
  {
    e := Entry(ChangeOf(status, paths).value, token[1..]);
    assert token == [token[0]] + token[1..];
    hide IsScore, IsRelative;
  }

  lemma FirstChange(tokens: seq<string>)
    requires tokens != [] && Changes(tokens).Ok?
    ensures var status := StatusOf(tokens[0]);
            && status.Some?
            && var n := PathCount(status.value);
               var c := ChangeOf(status.value, Take(tokens[1..], n));
               && c.Some? && Changes(Drop(tokens[1..], n)).Ok?
                  && Changes(tokens).value == [c.value] + Changes(Drop(tokens[1..], n)).value
               && tokens == [tokens[0]] + Take(tokens[1..], n) + Drop(tokens[1..], n)
  {
    hide StatusOf, ValidChange;
  }

  /** What was read could have been printed. */
  lemma {:induction false} EntriesOf(tokens: seq<string>) returns (entries: seq<Entry>)
    requires Changes(tokens).Ok?
    ensures (forall e :: e in entries ==> ValidEntry(e)) && AllTokens(entries) == tokens
            && ChangesOf(entries) == Changes(tokens).value
    decreases |tokens|
  {
    entries := [];
    if tokens != [] {
      hide *;
      FirstChange(tokens);
      var status := StatusOf(tokens[0]).value;
      var n := PathCount(status);
      var e := EntryOf(status, tokens[0], Take(tokens[1..], n));
      var more := EntriesOf(Drop(tokens[1..], n));
      ConsEntry(e, more);
      entries := [e] + more;
    }
  }

  /** The parser accepts exactly what git may print for valid changes, and reads it as
      those changes. */
  lemma ListingIsExact(data: Bytes, changes: seq<Change>)
    ensures Listed(data) == Ok(changes) <==> exists entries :: Prints(entries, data) && ChangesOf(entries) == changes
  {
    hide ValidEntry, AllTokens, Changes, ChangesOf, Tokens;
    if Listed(data) == Ok(changes) {
      TokensAreTerminated(data);
      var entries := EntriesOf(Tokens(data).value);
      assert Prints(entries, data);
    }
    forall entries | Prints(entries, data) && ChangesOf(entries) == changes ensures Listed(data) == Ok(changes) {
      ListingReadsBack(entries, data);
    }
  }
}
