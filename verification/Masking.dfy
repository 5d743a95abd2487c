/**
 * The two places of shell/src/sh_shell.c that hide arguments: build_history_line, which prints a redacted
 * line for the history, and build_display_line, which stars out the bytes of the typed line.
 */
module Masking {
  import opened Text
  import opened Tokenizer
  import opened Printer
  import opened RawScanner
  import opened Commands
  import opened Registry
  import opened Config

  const MASK: string := "<hidden>"

  /** Must argument i be hidden? */
  predicate Masked(cfg: Config, r: Resolved, args: seq<string>, i: nat)
    requires i < |args| && r.consumed <= |args|
  {
    (r.cmd.Some? && r.cmd.value.sensitive && i >= r.consumed) || cfg.mask(args[..r.consumed], i, args[i])
  }

  /** The arguments with the hidden ones replaced. */
  function Redacted(cfg: Config, r: Resolved, args: seq<string>): (out: seq<string>)
    requires r.consumed <= |args|
    ensures |out| == |args|
  {
    seq(|args|, i requires 0 <= i < |args| => if Masked(cfg, r, args, i) then MASK else args[i])
  }

  predicate AnyMasked(cfg: Config, r: Resolved, args: seq<string>)
    requires r.consumed <= |args|
  {
    exists i :: 0 <= i < |args| && Masked(cfg, r, args, i)
  }

  /** What the history is asked to keep of a line with these arguments. */
  function HistoryLine(cfg: Config, roots: Roots, line: string, args: seq<string>): Option<string> {
    var r := Resolve(cfg.mem, roots, args);
    if r.cmd.Some? && r.cmd.value.noHistory then None
    else Some(Cut(if AnyMasked(cfg, r, args) then Print(Redacted(cfg, r, args)) else line, MAX_LINE_LEN))
  }

  lemma {:induction false} PrintAllLast(line: string, tokens: seq<string>, token: string)
    ensures PrintAll(line, tokens + [token]) == PrintOnto(PrintAll(line, tokens), token)
    decreases |tokens|
  {
    hide PrintOnto;
    if tokens == [] {
      assert (tokens + [token])[1..] == [];
    } else {
      assert (tokens + [token])[1..] == tokens[1..] + [token];
      PrintAllLast(PrintOnto(line, tokens[0]), tokens[1..], token);
    }
  }

  /** build_history_line. */
  method BuildHistoryLine(cfg: Config, roots: Roots, original: string, args: seq<string>, out: array<char>)
    returns (keep: bool)
    requires out.Length == MAX_LINE_LEN + 1
    requires NoNul(original) && forall a :: a in args ==> NoNul(a)
    modifies out
    ensures var want := HistoryLine(cfg, roots, original, args);
      keep == want.Some? && (keep ==> NUL in out[..] && CStr(out[..]) == want.value)
  {
    hide Resolve, Print, PrintOnto, Holds;
    out[0] := NUL;
    var cmd, consumed := ResolveCommand(cfg.mem, roots, args);
    ghost var r := Resolved(cmd, consumed);
    if cmd.Some? && cmd.value.noHistory {
      return false;
    }
    var mustRebuild := false;
    for i := 0 to |args|
      invariant !mustRebuild && forall k :: 0 <= k < i ==> !Masked(cfg, r, args, k)
    {
      if (cmd.Some? && cmd.value.sensitive && i >= consumed) || cfg.mask(args[..consumed], i, args[i]) {
        assert Masked(cfg, r, args, i);
        mustRebuild := true;
        break;
      }
    }
    if !mustRebuild {
      CopyText(original, out);
      return true;
    }
    RebuildLine(cfg, cmd, consumed, args, out);
    return true;
  }

  /** memcpy of as much of a string as a buffer holds. */
  method CopyText(text: string, out: array<char>)
    requires out.Length > 0 && NoNul(text)
    modifies out
    ensures NUL in out[..] && CStr(out[..]) == Cut(text, out.Length - 1)
  {
    var len := |text|;
    if len >= out.Length {
      len := out.Length - 1;
    }
    MemCopy(out, 0, text[..len]);
    out[len] := NUL;
    assert out[..][len] == NUL;
    CStrIs(out[..], text[..len]);
  }

  /** The second loop of build_history_line. */
  method RebuildLine(cfg: Config, cmd: Option<Cmd>, consumed: nat, args: seq<string>, out: array<char>)
    requires out.Length == MAX_LINE_LEN + 1 && out[0] == NUL
    requires consumed <= |args| && forall a :: a in args ==> NoNul(a)
    modifies out
    ensures var text := Print(Redacted(cfg, Resolved(cmd, consumed), args));
      NUL in out[..] && CStr(out[..]) == Cut(text, MAX_LINE_LEN)
  {
    hide PrintOnto, Masked;
    ghost var r := Resolved(cmd, consumed);
    ghost var want := Redacted(cfg, r, args);
    ghost var text: string := [];
    assert want[..0] == [];
    for i := 0 to |args|
      invariant Holds(out, text) && text == Print(want[..i])
    {
      var mask := false;
      if cmd.Some? && cmd.value.sensitive && i >= consumed {
        mask := true;
      }
      if cfg.mask(args[..consumed], i, args[i]) {
        mask := true;
      }
      assert mask == Masked(cfg, r, args, i) by { MaskedIs(cfg, r, args, i); }
      AppendToken(out, if mask then MASK else args[i], text);
      PrintAllLast([], want[..i], want[i]);
      assert want[..i + 1] == want[..i] + [want[i]];
      text := PrintOnto(text, want[i]);
    }
    assert want[..|args|] == want;
    HoldsCStr(out, text);
  }

  lemma MaskedIs(cfg: Config, r: Resolved, args: seq<string>, i: nat)
    requires i < |args| && r.consumed <= |args|
    ensures Masked(cfg, r, args, i) ==
      ((r.cmd.Some? && r.cmd.value.sensitive && i >= r.consumed) || cfg.mask(args[..r.consumed], i, args[i]))
  {
  }

  /** Every argument that is not hidden prints so that it can be read back. */
  predicate PlainPrintable(cfg: Config, r: Resolved, args: seq<string>)
    requires r.consumed <= |args|
  {
    forall i :: 0 <= i < |args| && !Masked(cfg, r, args, i) ==> Printable(args[i])
  }

  /**
   * A redacted line of which n characters are kept reads back as the arguments with exactly the hidden ones
   * replaced, if and only if nothing was cut off and the others print faithfully.
   */
  lemma RedactedReadsBack(cfg: Config, r: Resolved, args: seq<string>, n: nat, room: nat)
    requires r.consumed <= |args| <= room
    ensures var out := Redacted(cfg, r, args);
      Tokens(Cut(Print(out), n), room) == Parsed(out) <==> |Print(out)| <= n && PlainPrintable(cfg, r, args)
  {
    hide Tokens, Print, Masked, Printable, Cut;
    var out := Redacted(cfg, r, args);
    CutRoundTrip(out, n, room);
    MaskPrints();
    if PlainPrintable(cfg, r, args) {
      assert forall t :: t in out ==> Printable(t);
    } else {
      var i :| 0 <= i < |args| && !Masked(cfg, r, args, i) && !Printable(args[i]);
      assert out[i] == args[i];
    }
  }

  /** Of the line that build_history_line makes. */
  lemma RedactedLineReadsBack(cfg: Config, roots: Roots, line: string, args: seq<string>, room: nat)
    requires var r := Resolve(cfg.mem, roots, args); !(r.cmd.Some? && r.cmd.value.noHistory) && AnyMasked(cfg, r, args)
    requires |args| <= room
    ensures var r := Resolve(cfg.mem, roots, args);
      var out := Redacted(cfg, r, args);
      Tokens(HistoryLine(cfg, roots, line, args).value, room) == Parsed(out) <==>
        |Print(out)| <= MAX_LINE_LEN && PlainPrintable(cfg, r, args)
  {
    hide Tokens, Print, Masked, Resolve, PlainPrintable, Cut;
    RedactedReadsBack(cfg, Resolve(cfg.mem, roots, args), args, MAX_LINE_LEN, room);
  }

  /** A plain argument of one newline is printed as a blank and read back as nothing. */
  lemma NewlineIsLost()
    ensures Tokens(Print(["p", "\n", MASK]), 3) == Parsed(["p", MASK])
  {
    hide Tokens, NeedsQuotes, Escape;
    var out := ["p", "\n", MASK];
    assert out[1..] == ["\n", MASK] && out[1..][1..] == [MASK];
    PrintIsJoined([], out);
    PlainTokens();
    assert Joined([MASK]) == MASK && Joined(["\n", MASK]) == "\n" + [' '] + MASK;
    var rest := [' '] + ("\n" + [' '] + MASK);
    assert Print(out) == PrintToken("p") + rest && rest[1..] == "\n" + [' '] + MASK;
    PrintedWord("p", rest, 3);
    BlankFirst("\n" + [' '] + MASK, 2);
    assert ("\n" + [' '] + MASK)[1..] == [' '] + MASK && ([' '] + MASK)[1..] == MASK;
    BlankFirst([' '] + MASK, 2);
    PrintedWord(MASK, [], 2);
    NoWords([], 1);
    TokensUnfold([], 1);
    assert MASK + [] == MASK && [MASK] + [] == [MASK] && ["p"] + [MASK] == ["p", MASK];
  }

  lemma PlainTokens()
    ensures PrintToken("p") == "p" && PrintToken("\n") == "\n" && PrintToken(MASK) == MASK
    ensures Printable("p") && Printable(MASK)
  {
    assert MASK == ['<', 'h', 'i', 'd', 'd', 'e', 'n', '>'];
    PrintedBare("p");
    PrintedBare("\n");
    PrintedBare(MASK);
  }

  /** Redaction can lengthen a line beyond its slot: of two hidden arguments 16 characters do not keep both. */
  lemma LongRedactionIsCut()
    ensures var out := ["pw", MASK, MASK]; Tokens(Cut(Print(out), 16), 3) != Parsed(out)
  {
    hide Tokens, Cut, NeedsQuotes;
    var out := ["pw", MASK, MASK];
    CutRoundTrip(out, 16, 3);
    PrintIsJoined([], out);
    assert out[1..] == [MASK, MASK] && out[1..][1..] == [MASK];
    PrintedIsLonger("pw");
    PrintedIsLonger(MASK);
    assert Joined([MASK, MASK]) == PrintToken(MASK) + [' '] + Joined([MASK]);
    assert Joined(out) == PrintToken("pw") + [' '] + Joined([MASK, MASK]);
  }

  lemma PrintedIsLonger(token: string)
    ensures |PrintToken(token)| >= |token|
  {
    hide NeedsQuotes;
    EscapeIsLonger(token);
  }

  lemma {:induction false} EscapeIsLonger(token: string)
    ensures |Escape(token)| >= |token|
  {
    if token != [] {
      EscapeIsLonger(token[1..]);
    }
  }

  lemma MaskPrints()
    ensures Printable(MASK) && NoNul(MASK)
  {
    assert MASK == ['<', 'h', 'i', 'd', 'd', 'e', 'n', '>'];
  }

  // ----- the display copy -----

  /** The arguments of the typed line, closed with its open quote when that is all it lacks. */
  function DisplayParse(line: string, capacity: nat): Parse {
    var parse := ParseLine(line, capacity);
    var quote := OpenQuote(line, START);
    if parse == Rejected(UnterminatedQuote) && |line| + 1 < MAX_LINE_LEN + 2 && quote != NUL
    then ParseLine(line + [quote], capacity)
    else parse
  }

  /** Is this byte of the line shown as a star, on account of one of the first n arguments? */
  predicate Starred(cfg: Config, r: Resolved, line: string, args: seq<string>, n: nat, pos: nat)
    requires pos < |line| && r.consumed <= |args| && n <= |args|
  {
    !IsQuote(line[pos]) &&
    exists i :: 0 <= i < n && i < |Spans(line, 0)| && Masked(cfg, r, args, i)
      && Spans(line, 0)[i].start <= pos < Spans(line, 0)[i].end
  }

  /** What build_display_line shows for a line. */
  function Display(cfg: Config, roots: Roots, line: string): (shown: string)
    ensures |shown| == |line|
  {
    match DisplayParse(line, cfg.argcMax)
    case Rejected(_) => line
    case Parsed(args) =>
      var r := Resolve(cfg.mem, roots, args);
      seq(|line|, pos requires 0 <= pos < |line| => if Starred(cfg, r, line, args, |args|, pos) then '*' else line[pos])
  }

  /** The tokens build_display_line works with; no closing quote is added when it would not help. */
  method ParseForDisplay(cfg: Config, line: string) returns (status: Status, args: seq<string>)
    requires Accepted(cfg) && |line| <= MAX_LINE_LEN && NoNul(line)
    ensures match DisplayParse(line, cfg.argcMax)
      case Parsed(tokens) => status == OK && args == tokens
      case Rejected(error) => status == error && status != OK
  {
    var parse := new char[MAX_LINE_LEN + 2];
    var argv := new nat[MAX_ARGC];
    var argc;
    CopyText(line, parse);
    status, argc := Tokenize(parse, argv, cfg.argcMax);
    ghost var text := line;
    if status == UnterminatedQuote && |line| + 1 < parse.Length {
      var quote := UnmatchedQuote(line);
      if quote != NUL {
        text := line + [quote];
        CopyText(line + [quote], parse);
        status, argc := Tokenize(parse, argv, cfg.argcMax);
      }
    }
    if status != OK {
      return status, [];
    }
    TokensBounds(text, Limit(cfg.argcMax));
    args := ReadArgs(parse, argv, argc, ParseLine(text, cfg.argcMax).tokens);
  }

  /** The innermost loop of build_display_line. */
  method StarSpan(display: array<char>, start: nat, end: nat, len: nat)
    requires end <= len <= display.Length
    modifies display
    ensures forall k :: 0 <= k < display.Length ==>
      display[k] == if start <= k < end && !IsQuote(old(display[k])) then '*' else old(display[k])
  {
    var pos := start;
    while pos < end && pos < len
      invariant start <= pos && (pos <= end || pos == start)
      invariant forall k :: 0 <= k < display.Length ==>
        display[k] == if start <= k < pos && !IsQuote(old(display[k])) then '*' else old(display[k])
    {
      if display[pos] != '"' && display[pos] != '\'' {
        display[pos] := '*';
      }
      pos := pos + 1;
    }
  }

  /** build_display_line. */
  method BuildDisplayLine(cfg: Config, roots: Roots, line: string, display: array<char>)
    requires Accepted(cfg) && |line| <= MAX_LINE_LEN && NoNul(line)
    requires display.Length == MAX_LINE_LEN + 1
    modifies display
    ensures NUL in display[..] && CStr(display[..]) == Display(cfg, roots, line)
  {
    hide DisplayParse, Resolve, Masked, Spans;
    CopyText(line, display);
    var len := |line|;
    var status, args := ParseForDisplay(cfg, line);
    if status != OK || |args| == 0 {
      return;
    }
    var cmd, consumed := ResolveCommand(cfg.mem, roots, args);
    ghost var r := Resolved(cmd, consumed);
    for i := 0 to |args|
      invariant display[len] == NUL
      invariant forall k :: 0 <= k < len ==> display[k] == if Starred(cfg, r, line, args, i, k) then '*' else line[k]
    {
      var mask := cmd.Some? && cmd.value.sensitive && i >= consumed;
      if cfg.mask(args[..consumed], i, args[i]) {
        mask := true;
      }
      MaskedIs(cfg, r, args, i);
      if mask {
        var found, start, end := RawTokenSpan(line, i);
        if found {
          SpansInside(line, 0, i);
          StarSpan(display, start, end, len);
        }
      }
    }
    CStrIs(display[..], Display(cfg, roots, line));
  }

  /**
   * The display of a line the two readers agree about is made from its arguments, unless the line ends in a
   * backslash with nothing to escape or has more words than argv; an open quote does not matter.  In those
   * two cases nothing is hidden.
   */
  lemma DisplayParsesIff(cfg: Config, roots: Roots, line: string)
    requires Accepted(cfg) && |line| <= MAX_LINE_LEN && Agrees(line, START)
    ensures DisplayParse(line, cfg.argcMax).Parsed? <==> !EndsEscaped(line, START) && |Spans(line, 0)| <= cfg.argcMax
    ensures !DisplayParse(line, cfg.argcMax).Parsed? ==> Display(cfg, roots, line) == line
  {
    hide Tokens, OpenQuote, Agrees, EndsEscaped, Spans, Starred, Resolve;
    ClosedLineParsesIff(line, cfg.argcMax);
    ReadersAgree(line, cfg.argcMax);
  }

  /** Such a line: with a backslash at its end, no argument is hidden under any configuration. */
  lemma LoneBackslashHidesNothing(cfg: Config, roots: Roots)
    requires Accepted(cfg)
    ensures var line := ['p', ' ', 's', '\\']; Display(cfg, roots, line) == line
  {
    hide OpenQuote, Agrees, EndsEscaped, Display, DisplayParse;
    var line := ['p', ' ', 's', '\\'];
    assert Agrees([], Mark(NUL, true)) && EndsEscaped([], Mark(NUL, true)) by { AtTheEnd(); }
    RawOne('\\', [], START);
    RawOne('s', ['\\'], START);
    RawOne(' ', ['s', '\\'], START);
    RawOne('p', [' ', 's', '\\'], START);
    assert ['\\'] + [] == ['\\'] && ['s'] + ['\\'] == ['s', '\\'] && [' '] + ['s', '\\'] == [' ', 's', '\\'];
    assert ['p'] + [' ', 's', '\\'] == line;
    DisplayParsesIff(cfg, roots, line);
  }

  lemma AtTheEnd()
    ensures Agrees([], Mark(NUL, true)) && EndsEscaped([], Mark(NUL, true))
  {
  }

  /** An open quote is closed for the display, on a line the two readers agree about. */
  lemma OpenQuoteIsClosed(cfg: Config, line: string)
    requires Accepted(cfg) && |line| <= MAX_LINE_LEN && Agrees(line, START)
    requires ParseLine(line, cfg.argcMax) == Rejected(UnterminatedQuote)
    ensures DisplayParse(line, cfg.argcMax).Parsed?
  {
    hide Tokens, OpenQuote, Agrees, Spans;
    ReadersAgree(line, cfg.argcMax);
  }
}
