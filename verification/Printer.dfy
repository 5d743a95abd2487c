/**
 * The token printer of shell/src/sh_shell.c (token_needs_quotes, append_char, append_token), which
 * rebuilds a command line for the history, and the law that the tokenizer undoes it.
 */
module Printer {
  import opened Text
  import opened Tokenizer

  predicate Special(c: char) {
    c == ' ' || c == '\t' || c == '"' || c == '\\' || c == '\''
  }

  predicate NeedsQuotes(token: string) {
    token == [] || exists k :: 0 <= k < |token| && Special(token[k])
  }

  function Escape(token: string): string {
    if token == [] then []
    else EscapeChar(token[0]) + Escape(token[1..])
  }

  function EscapeChar(c: char): string {
    if c == '"' || c == '\\' then ['\\', c] else [c]
  }

  function PrintToken(token: string): (r: string)
    ensures r != []
  {
    if NeedsQuotes(token) then ['"'] + Escape(token) + ['"']
    else
      assert Escape(token) != [];
      Escape(token)
  }

  /** The printed token after the text that is there already, with a blank between them. */
  function PrintOnto(line: string, token: string): string {
    line + (if line == [] then [] else [' ']) + PrintToken(token)
  }

  function PrintAll(line: string, tokens: seq<string>): string
    decreases |tokens|
  {
    if tokens == [] then line else PrintAll(PrintOnto(line, tokens[0]), tokens[1..])
  }

  function Print(tokens: seq<string>): string {
    PrintAll([], tokens)
  }

  lemma {:induction false} EscapeNoNul(token: string)
    requires NoNul(token)
    ensures NoNul(Escape(token))
  {
    if token != [] {
      EscapeNoNul(token[1..]);
    }
  }

  lemma {:induction false} PrintNoNul(line: string, tokens: seq<string>)
    requires NoNul(line) && forall t :: t in tokens ==> NoNul(t)
    ensures NoNul(PrintAll(line, tokens))
    decreases |tokens|
  {
    hide NeedsQuotes, Escape;
    if tokens != [] {
      EscapeNoNul(tokens[0]);
      PrintNoNul(PrintOnto(line, tokens[0]), tokens[1..]);
    }
  }

  // ----- the bounded printer writes exactly the part of the text that fits -----

  /** The buffer holds as much of text as fits in front of a terminator. */
  ghost predicate Holds(dst: array<char>, text: string)
    reads dst
  {
    && 0 < dst.Length
    && var n := Min(|text|, dst.Length - 1);
    && dst[n] == NUL && forall k :: 0 <= k < n ==> dst[k] == text[k] && text[k] != NUL
  }

  lemma HoldsCStr(dst: array<char>, text: string)
    requires Holds(dst, text)
    ensures CStr(dst[..]) == Cut(text, dst.Length - 1) && NUL in dst[..]
  {
    var n := Min(|text|, dst.Length - 1);
    assert dst[..][n] == NUL;
    CStrIs(dst[..], Cut(text, dst.Length - 1));
  }

  method TokenNeedsQuotes(token: string) returns (quoted: bool)
    ensures quoted == NeedsQuotes(token)
  {
    if token == [] {
      return true;
    }
    for k := 0 to |token|
      invariant forall j :: 0 <= j < k ==> !Special(token[j])
    {
      if Special(token[k]) {
        return true;
      }
    }
    return false;
  }

  /** append_char: a character that no longer fits is dropped. */
  method AppendChar(dst: array<char>, value: char, ghost text: string)
    requires Holds(dst, text) && value != NUL
    modifies dst
    ensures Holds(dst, text + [value])
  {
    HoldsCStr(dst, text);
    var used := StrLen(dst);
    if used + 1 < dst.Length {
      dst[used] := value;
      dst[used + 1] := NUL;
    }
  }

  lemma EscapeNone(token: string)
    ensures Escape(token[..0]) == []
  {
  }

  lemma EscapeLast(token: string, k: nat)
    requires k < |token|
    ensures Escape(token[..k + 1]) ==
      Escape(token[..k]) + EscapeChar(token[k])
  {
    EscapeSplit(token[..k], [token[k]]);
    assert token[..k + 1] == token[..k] + [token[k]];
  }

  lemma {:induction false} EscapeSplit(a: string, b: string)
    ensures Escape(a + b) == Escape(a) + Escape(b)
  {
    if a == [] {
      assert a + b == b;
    } else {
      EscapeSplit(a[1..], b);
      assert (a + b)[1..] == a[1..] + b;
      assert EscapeChar(a[0]) + (Escape(a[1..]) + Escape(b)) == EscapeChar(a[0]) + Escape(a[1..]) + Escape(b);
    }
  }

  /** The character loop of append_token. */
  method AppendEscaped(dst: array<char>, token: string, ghost text: string)
    requires NoNul(token) && Holds(dst, text)
    modifies dst
    ensures Holds(dst, text + Escape(token))
  {
    hide Escape, Holds;
    ghost var sofar := text;
    assert text + Escape(token[..0]) == text by { EscapeNone(token); }
    for k := 0 to |token|
      invariant Holds(dst, sofar)
      invariant sofar == text + Escape(token[..k])
    {
      EscapeLast(token, k);
      if token[k] == '"' || token[k] == '\\' {
        AppendChar(dst, '\\', sofar);
        sofar := sofar + ['\\'];
      }
      AppendChar(dst, token[k], sofar);
      sofar := sofar + [token[k]];
    }
    assert token[..|token|] == token;
  }

  /** append_token: whatever was printed before, the buffer holds the part of the full text that fits. */
  method AppendToken(dst: array<char>, token: string, ghost text: string)
    requires NoNul(token) && Holds(dst, text)
    modifies dst
    ensures Holds(dst, PrintOnto(text, token))
  {
    hide Escape, NeedsQuotes;
    HoldsCStr(dst, text);
    var used := StrLen(dst);
    var quoted := TokenNeedsQuotes(token);
    if used != 0 && used + 1 < dst.Length {
      dst[used] := ' ';
      dst[used + 1] := NUL;
    }
    ghost var sofar := text + if text == [] then [] else [' '];
    assert Holds(dst, sofar);
    AppendQuoted(dst, token, quoted, sofar);
    assert sofar + PrintToken(token) == PrintOnto(text, token);
  }

  /** The part of append_token after the blank. */
  method AppendQuoted(dst: array<char>, token: string, quoted: bool, ghost text: string)
    requires NoNul(token) && Holds(dst, text) && quoted == NeedsQuotes(token)
    modifies dst
    ensures Holds(dst, text + PrintToken(token))
  {
    hide Escape, NeedsQuotes, Holds;
    if quoted {
      AppendChar(dst, '"', text);
      AppendEscaped(dst, token, text + ['"']);
      AppendChar(dst, '"', text + ['"'] + Escape(token));
      assert text + ['"'] + Escape(token) + ['"'] == text + PrintToken(token);
    } else {
      AppendEscaped(dst, token, text);
    }
  }

  // ----- the tokenizer undoes the printer -----

  /** The printed tokens, read from the front. */
  function Joined(tokens: seq<string>): string {
    if tokens == [] then []
    else if |tokens| == 1 then PrintToken(tokens[0])
    else PrintToken(tokens[0]) + [' '] + Joined(tokens[1..])
  }

  /** What follows a printed token. */
  function After(tokens: seq<string>): string {
    if tokens == [] then [] else [' '] + Joined(tokens)
  }

  lemma {:induction false} PrintIsJoined(line: string, tokens: seq<string>)
    requires tokens != []
    ensures PrintAll(line, tokens) == line + (if line == [] then [] else [' ']) + Joined(tokens)
    decreases |tokens|
  {
    hide NeedsQuotes, Escape, PrintToken;
    var next := PrintOnto(line, tokens[0]);
    var lead := line + (if line == [] then [] else [' ']);
    if |tokens| == 1 {
      assert tokens[1..] == [];
    } else {
      PrintIsJoined(next, tokens[1..]);
      assert lead + PrintToken(tokens[0]) + [' '] + Joined(tokens[1..]) == lead + Joined(tokens);
    }
  }

  lemma {:induction false} ScanQuoted(token: string, rest: string)
    ensures ScanWord(Escape(token) + ['"'] + rest, '"') == Continue(token, ScanWord(rest, NUL))
  {
    var s := Escape(token) + ['"'] + rest;
    if token == [] {
      assert s[1..] == rest;
      assert [] + ScanWordText(rest) == ScanWordText(rest);
    } else {
      ScanQuoted(token[1..], rest);
      var more := Escape(token[1..]) + ['"'] + rest;
      if token[0] == '"' || token[0] == '\\' {
        assert s[2..] == more && s[0] == '\\' && s[1] == token[0];
      } else {
        assert s[1..] == more && s[0] == token[0];
      }
      ContinueTwice([token[0]], token[1..], ScanWord(rest, NUL));
      assert [token[0]] + token[1..] == token;
    }
  }

  function ScanWordText(rest: string): string {
    match ScanWord(rest, NUL)
    case Word(text, _) => text
    case NoWord(_) => []
  }

  lemma {:induction false} ScanBare(token: string, rest: string)
    requires NoSpace(token) && forall k :: 0 <= k < |token| ==> !Special(token[k])
    ensures ScanWord(token + rest, NUL) == Continue(token, ScanWord(rest, NUL))
  {
    var s := token + rest;
    if token == [] {
      assert s == rest;
      assert [] + ScanWordText(rest) == ScanWordText(rest);
    } else {
      ScanBare(token[1..], rest);
      assert s[1..] == token[1..] + rest && s[0] == token[0];
      ContinueTwice([token[0]], token[1..], ScanWord(rest, NUL));
      assert [token[0]] + token[1..] == token;
    }
  }

  lemma {:induction false} EscapeBare(token: string)
    requires forall k :: 0 <= k < |token| ==> !Special(token[k])
    ensures Escape(token) == token
  {
    if token != [] {
      EscapeBare(token[1..]);
    }
  }

  /** A token the printer writes so that it can be read back: it is quoted, or it has no blank. */
  predicate Printable(token: string) {
    NeedsQuotes(token) || NoSpace(token)
  }

  lemma ScanOpening(rest: string)
    ensures ScanWord(['"'] + rest, NUL) == ScanWord(rest, '"')
    ensures SkipSpaces(['"'] + rest) == ['"'] + rest
  {
    assert (['"'] + rest)[1..] == rest;
  }

  lemma ScanPrinted(token: string, rest: string)
    requires Printable(token)
    ensures ScanWord(PrintToken(token) + rest, NUL) == Continue(token, ScanWord(rest, NUL))
    ensures SkipSpaces(PrintToken(token) + rest) == PrintToken(token) + rest
  {
    hide ScanWord, Escape;
    if NeedsQuotes(token) {
      ScanQuoted(token, rest);
      ScanOpening(Escape(token) + ['"'] + rest);
      assert PrintToken(token) + rest == ['"'] + (Escape(token) + ['"'] + rest);
    } else {
      EscapeBare(token);
      ScanBare(token, rest);
      assert (PrintToken(token) + rest)[0] == token[0];
    }
  }

  /** A printed token in front of a blank or the end of the line is read back as itself. */
  lemma PrintedWord(token: string, rest: string, room: nat)
    requires Printable(token) && room > 0
    requires rest == [] || IsSpace(rest[0])
    ensures Tokens(PrintToken(token) + rest, room)
         == Prepend([token], Tokens(if rest == [] then [] else rest[1..], room - 1))
  {
    hide Escape, NeedsQuotes, NoSpace;
    ScanPrinted(token, rest);
    assert token + [] == token;
  }

  lemma {:induction false} JoinedReadsBack(tokens: seq<string>, room: nat)
    requires |tokens| <= room
    requires forall t :: t in tokens ==> Printable(t)
    ensures Tokens(Joined(tokens), room) == Parsed(tokens)
  {
    hide Printable, PrintToken, Tokens;
    if tokens == [] {
      NoWords([], room);
      TokensStop([], room, []);
    } else {
      var more := tokens[1..];
      JoinedReadsBack(more, room - 1);
      PrintedWord(tokens[0], After(more), room);
      assert Joined(tokens) == PrintToken(tokens[0]) + After(more);
      assert more != [] ==> After(more)[1..] == Joined(more);
      assert [tokens[0]] + more == tokens;
    }
  }

  predicate AllPrintable(parse: Parse) {
    parse.Parsed? ==> forall t :: t in parse.tokens ==> Printable(t)
  }

  lemma BlankFirst(s: string, room: nat)
    requires s != [] && IsSpace(s[0])
    ensures Tokens(s, room) == Tokens(s[1..], room)
  {
  }

  lemma FirstWord(text: string, rest: string, s: string, room: nat)
    requires SkipSpaces(s) == s != [] && ScanWord(s, NUL) == Word(text, rest)
    requires Printable(text) && AllPrintable(Tokens(rest, if room == 0 then 0 else room - 1))
    ensures AllPrintable(Tokens(s, room))
  {
  }

  /** Whatever was printed, and wherever it was cut, what is read back are tokens that print faithfully. */
  lemma {:induction false} ReadBackPrintable(u: string, tokens: seq<string>, m: nat, room: nat)
    requires m <= |After(tokens)| && forall k :: 0 <= k < |u| ==> !Special(u[k])
    ensures AllPrintable(Tokens(u + After(tokens)[..m], room))
    decreases |tokens|, |u| + 2
  {
    hide Joined, ScanWord, Printable, Tokens, After;
    var rest := After(tokens)[..m];
    var s := u + rest;
    ReadBackAfter(tokens, m, room);
    if u == [] {
      assert s == rest;
    } else if IsSpace(u[0]) {
      BlankFirst(s, room);
      assert s[1..] == u[1..] + rest;
      ReadBackPrintable(u[1..], tokens, m, room);
    } else {
      var k := WordLen(u);
      var less := if room == 0 then 0 else room - 1;
      assert s == u[..k] + (u[k..] + rest);
      if k < |u| {
        assert (u[k..] + rest)[1..] == u[k + 1..] + rest;
        ReadBackPrintable(u[k + 1..], tokens, m, less);
      } else {
        ReadBackAfter(tokens, m, less);
        assert u[k..] + rest == rest;
      }
      BareWord(u[..k], u[k..] + rest, room);
    }
  }

  lemma ReadBackAfter(tokens: seq<string>, m: nat, room: nat)
    requires m <= |After(tokens)|
    ensures var rest := After(tokens)[..m];
      && AllPrintable(Tokens(rest, room))
      && (rest != [] ==> IsSpace(rest[0]) && AllPrintable(Tokens(rest[1..], room)))
    decreases |tokens|, 1
  {
    hide Joined, Printable, Tokens;
    var rest := After(tokens)[..m];
    if m == 0 {
      NoWords([], room);
      TokensUnfold([], room);
    } else {
      BlankFirst(rest, room);
      assert rest[1..] == Joined(tokens)[..m - 1];
      JoinedPrintable(tokens, m - 1, room);
    }
  }

  /** A word without blanks in front of a blank or the end of the line. */
  lemma BareWord(word: string, rest: string, room: nat)
    requires word != [] && NoSpace(word) && forall k :: 0 <= k < |word| ==> !Special(word[k])
    requires rest == [] || IsSpace(rest[0])
    requires AllPrintable(Tokens(if rest == [] then [] else rest[1..], if room == 0 then 0 else room - 1))
    ensures AllPrintable(Tokens(word + rest, room))
  {
    hide Special;
    ScanBare(word, rest);
    assert word + [] == word;
    assert (word + rest)[0] == word[0];
    FirstWord(word, if rest == [] then [] else rest[1..], word + rest, room);
  }

  /** The quotes around a token are not closed before its end. */
  lemma {:induction false} ScanCutQuoted(token: string, n: nat)
    requires n < |Escape(token) + ['"']|
    ensures ScanWord((Escape(token) + ['"'])[..n], '"').NoWord?
  {
    var s := (Escape(token) + ['"'])[..n];
    if token != [] && n > 0 {
      var e, all := EscapeChar(token[0]), Escape(token[1..]) + ['"'];
      assert Escape(token) + ['"'] == e + all;
      if n >= |e| {
        ScanCutQuoted(token[1..], n - |e|);
        assert s[|e|..] == all[..n - |e|] && s[0] == e[0];
      } else {
        assert s == ['\\'];
      }
    }
  }

  lemma CutQuoted(token: string, n: nat, room: nat)
    requires NeedsQuotes(token) && 0 < n < |PrintToken(token)|
    ensures Tokens(PrintToken(token)[..n], room).Rejected?
  {
    hide Escape, NeedsQuotes;
    ScanCutQuoted(token, n - 1);
    var s := (Escape(token) + ['"'])[..n - 1];
    ScanOpening(s);
    assert PrintToken(token) == ['"'] + (Escape(token) + ['"']);
    assert PrintToken(token)[..n] == ['"'] + s;
  }

  lemma {:induction false} JoinedPrintable(tokens: seq<string>, n: nat, room: nat)
    requires n <= |Joined(tokens)|
    ensures AllPrintable(Tokens(Joined(tokens)[..n], room))
    decreases |tokens|, 0
  {
    hide PrintToken, NeedsQuotes, Escape, Printable;
    if tokens != [] && n > 0 {
      var t, more := tokens[0], tokens[1..];
      var p, rest := PrintToken(t), After(more);
      assert Joined(tokens) == p + rest;
      if !NeedsQuotes(t) {
        PrintedBare(t);
        var k := Min(n, |p|);
        assert Joined(tokens)[..n] == p[..k] + rest[..n - k];
        ReadBackPrintable(p[..k], more, n - k, room);
      } else if n < |p| {
        assert Joined(tokens)[..n] == p[..n];
        CutQuoted(t, n, room);
      } else {
        var cut := rest[..n - |p|];
        assert Joined(tokens)[..n] == p + cut;
        ReadBackAfter(more, n - |p|, if room == 0 then 0 else room - 1);
        PrintedFirst(t, cut, room);
      }
    }
  }

  lemma PrintedBare(token: string)
    requires !NeedsQuotes(token)
    ensures PrintToken(token) == token && forall k :: 0 <= k < |token| ==> !Special(token[k])
  {
    EscapeBare(token);
  }

  lemma PrintedFirst(token: string, rest: string, room: nat)
    requires NeedsQuotes(token) && (rest != [] ==> IsSpace(rest[0]))
    requires AllPrintable(Tokens(if rest == [] then [] else rest[1..], if room == 0 then 0 else room - 1))
    ensures AllPrintable(Tokens(PrintToken(token) + rest, room))
  {
    hide NeedsQuotes, Escape, Printable, Tokens;
    assert Printable(token) by { QuotedIsPrintable(token); }
    ScanPrinted(token, rest);
    assert token + [] == token;
    FirstWord(token, if rest == [] then [] else rest[1..], PrintToken(token) + rest, room);
  }

  lemma QuotedIsPrintable(token: string)
    requires NeedsQuotes(token)
    ensures Printable(token)
  {
  }

  /** How many quotes and backslashes there are. */
  function Marks(token: string): nat {
    if token == [] then 0 else (if token[0] == '"' || token[0] == '\\' then 1 else 0) + Marks(token[1..])
  }

  /** Bytes that make the printer quote. */
  predicate Quoting(c: char) {
    c in {' ', '\t', '"', '\'', '\\'}
  }

  /** A plain token is printed as it is; any other gets its quotes and one backslash for each mark, and no more. */
  lemma PrintedForm(token: string)
    ensures token != [] && (forall k :: 0 <= k < |token| ==> !Quoting(token[k])) ==> PrintToken(token) == token
    ensures token == [] || (exists k :: 0 <= k < |token| && Quoting(token[k])) ==>
      var p := PrintToken(token);
      && |p| == |token| + 2 + Marks(token) && p[0] == p[|p| - 1] == '"'
      && Tokens(p, 1) == Parsed([token])
  {
    if NeedsQuotes(token) {
      EscapeMarks(token);
      PrintedWord(token, [], 1);
      NoWords([], 0);
      TokensUnfold([], 0);
      assert PrintToken(token) + [] == PrintToken(token) && [token] + [] == [token];
    } else {
      PrintedBare(token);
    }
  }

  lemma {:induction false} EscapeMarks(token: string)
    ensures |Escape(token)| == |token| + Marks(token)
  {
    if token != [] {
      EscapeMarks(token[1..]);
    }
  }

  // ----- a cut line never reads back -----

  /** The start of a printed token alone is not read as that token. */
  lemma CutToken(token: string, n: nat, room: nat)
    requires Printable(token) && n < |PrintToken(token)|
    ensures var p := Tokens(PrintToken(token)[..n], room); p.Parsed? ==> p.tokens == [] || p.tokens[0] != token
  {
    hide NeedsQuotes, Escape, PrintToken;
    var cut := PrintToken(token)[..n];
    if n == 0 {
      assert cut == [];
    } else if NeedsQuotes(token) {
      CutQuoted(token, n, room);
    } else {
      PrintedBare(token);
      ScanBare(cut, []);
      assert cut + [] == cut;
    }
  }

  /** A line that was cut anywhere does not read back as the tokens that were printed. */
  lemma {:induction false} CutNeverReadsBack(tokens: seq<string>, n: nat, room: nat)
    requires n < |Joined(tokens)|
    ensures Tokens(Joined(tokens)[..n], room) != Parsed(tokens)
  {
    hide PrintToken, NeedsQuotes, Escape, Printable, Tokens;
    JoinedPrintable(tokens, n, room);
    if room > 0 && forall t :: t in tokens ==> Printable(t) {
      var t, more := tokens[0], tokens[1..];
      var p := PrintToken(t);
      assert Joined(tokens) == p + After(more);
      if n < |p| {
        assert Joined(tokens)[..n] == p[..n];
        CutToken(t, n, room);
      } else {
        var rest := After(more)[..n - |p|];
        assert Joined(tokens)[..n] == p + rest;
        PrintedWord(t, rest, room);
        if rest != [] {
          assert rest[1..] == Joined(more)[..n - |p| - 1];
          CutNeverReadsBack(more, n - |p| - 1, room - 1);
        } else {
          NoWords([], room - 1);
          TokensUnfold([], room - 1);
        }
      }
    } else if room == 0 {
      NoRoom(Joined(tokens)[..n]);
    }
  }

  lemma NoRoom(s: string)
    ensures Tokens(s, 0).Parsed? ==> Tokens(s, 0).tokens == []
  {
  }

  /**
   * Printing then tokenizing gives the tokens back if and only if every one of them is quoted by the
   * printer or has no blank in it, that is, none has a newline, \v, \f or \r as its only special
   * character, and the line has not been cut.
   */
  lemma CutRoundTrip(tokens: seq<string>, n: nat, room: nat)
    requires |tokens| <= room
    ensures Tokens(Cut(Print(tokens), n), room) == Parsed(tokens) <==>
      |Print(tokens)| <= n && forall t :: t in tokens ==> Printable(t)
  {
    PrintRoundTrip(tokens, room);
    if tokens != [] {
      PrintIsJoined([], tokens);
    }
    assert Print(tokens) == Joined(tokens);
    if n < |Print(tokens)| {
      CutNeverReadsBack(tokens, n, room);
    }
  }

  /** Without a cut. */
  lemma PrintRoundTrip(tokens: seq<string>, room: nat)
    requires |tokens| <= room
    ensures Tokens(Print(tokens), room) == Parsed(tokens) <==> forall t :: t in tokens ==> Printable(t)
  {
    if tokens != [] {
      PrintIsJoined([], tokens);
    }
    assert Print(tokens) == Joined(tokens) == Joined(tokens)[..|Joined(tokens)|];
    JoinedPrintable(tokens, |Joined(tokens)|, room);
    if forall t :: t in tokens ==> Printable(t) {
      JoinedReadsBack(tokens, room);
    }
  }
}
