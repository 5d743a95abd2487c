/**
 * The second reader of shell/src/sh_shell.c: raw_token_span and unmatched_quote scan the unparsed line
 * again, on their own, to find the bytes of each token.  The laws say when the two readers agree.
 */
module RawScanner {
  import opened Text
  import opened Tokenizer

  /** What the raw scanner remembers between two characters. */
  datatype Mark = Mark(quote: char, escaped: bool)

  const START := Mark(NUL, false)

  function Next(m: Mark, c: char): Mark {
    if m.escaped then m.(escaped := false)
    else if c == '\\' then m.(escaped := true)
    else if m.quote != NUL then (if c == m.quote then START else m)
    else if IsQuote(c) then Mark(c, false)
    else m
  }

  predicate Stops(m: Mark, c: char) {
    m == START && IsSpace(c)
  }

  /** How many characters the scanner takes before a blank that ends the token. */
  function RawLen(s: string, m: Mark): (n: nat)
    ensures n <= |s|
  {
    if s == [] || Stops(m, s[0]) then 0 else 1 + RawLen(s[1..], Next(m, s[0]))
  }

  /** The quote that is open at the end of s. */
  function OpenQuote(s: string, m: Mark): char {
    if s == [] then m.quote else OpenQuote(s[1..], Next(m, s[0]))
  }

  /** Does s end in a backslash that has nothing to escape? */
  predicate EndsEscaped(s: string, m: Mark) {
    if s == [] then m.escaped && m.quote != '\'' else EndsEscaped(s[1..], Next(m, s[0]))
  }

  datatype Span = Span(start: nat, end: nat)

  function TokenStart(line: string, from: nat): (start: nat)
    requires from <= |line|
    ensures from <= start <= |line|
  {
    |line| - |SkipSpaces(line[from..])|
  }

  /** The spans of all the tokens from an offset of the line on. */
  function Spans(line: string, from: nat): seq<Span>
    requires from <= |line|
    decreases |line| - from
  {
    var start := TokenStart(line, from);
    if start == |line| then []
    else
      var end := start + RawLen(line[start..], START);
      [Span(start, end)] + if start < end then Spans(line, end) else []
  }

  lemma {:induction false} SpansInside(line: string, from: nat, i: nat)
    requires from <= |line| && i < |Spans(line, from)|
    ensures Spans(line, from)[i].start <= Spans(line, from)[i].end <= |line|
    decreases |line| - from
  {
    hide RawLen, TokenStart;
    if i > 0 {
      SpansInside(line, Spans(line, from)[0].end, i - 1);
    }
  }

  // ----- the loops compute these functions -----

  /** The scan of one token: the inner loop of raw_token_span. */
  method RawToken(line: string, from: nat, mark: Mark) returns (end: nat)
    requires from <= |line|
    ensures end == from + RawLen(line[from..], mark)
  {
    end := from;
    var m := mark;
    while end < |line|
      invariant from <= end <= |line|
      invariant from + RawLen(line[from..], mark) == end + RawLen(line[end..], m)
    {
      assert line[end..][1..] == line[end + 1..];
      var c := line[end];
      if m.escaped {
        m := m.(escaped := false);
      } else if c == '\\' {
        m := m.(escaped := true);
      } else if m.quote != NUL {
        if c == m.quote {
          m := m.(quote := NUL);
        }
      } else if IsQuote(c) {
        m := m.(quote := c);
      } else if IsSpace(c) {
        break;
      }
      end := end + 1;
    }
  }

  /** The loop over blanks of raw_token_span. */
  method SkipTo(line: string, from: nat) returns (index: nat)
    requires from <= |line|
    ensures from <= index <= |line| && index == TokenStart(line, from)
    ensures index < |line| ==> !IsSpace(line[index])
  {
    index := from;
    while index < |line| && IsSpace(line[index])
      invariant from <= index <= |line|
      invariant SkipSpaces(line[from..]) == SkipSpaces(line[index..])
    {
      assert line[index..][1..] == line[index + 1..];
      index := index + 1;
    }
  }

  /** raw_token_span: the span of one token by its index. */
  method RawTokenSpan(line: string, tokenIndex: nat) returns (found: bool, start: nat, end: nat)
    ensures var spans := Spans(line, 0);
      found == (tokenIndex < |spans|) && (found ==> spans[tokenIndex] == Span(start, end))
  {
    hide RawLen, SkipSpaces, TokenStart, IsSpace;
    var index := 0;
    var token := 0;
    ghost var done: seq<Span> := [];
    while index < |line|
      invariant index <= |line| && token == |done| <= tokenIndex
      invariant Spans(line, 0) == done + Spans(line, index)
      decreases |line| - index
    {
      var first := SkipTo(line, index);
      if first == |line| {
        return false, 0, 0;
      }
      var stop := RawToken(line, first, START);
      NonEmptyToken(line, first);
      assert Spans(line, index) == [Span(first, stop)] + Spans(line, stop);
      if token == tokenIndex {
        return true, first, stop;
      }
      assert done + ([Span(first, stop)] + Spans(line, stop)) == done + [Span(first, stop)] + Spans(line, stop);
      done := done + [Span(first, stop)];
      token, index := token + 1, stop;
    }
    assert TokenStart(line, |line|) == |line|;
    return false, 0, 0;
  }

  lemma NonEmptyToken(line: string, first: nat)
    requires first < |line| && !IsSpace(line[first])
    ensures RawLen(line[first..], START) > 0
  {
  }

  /** unmatched_quote. */
  method UnmatchedQuote(line: string) returns (quote: char)
    ensures quote == OpenQuote(line, START)
  {
    quote := NUL;
    var escaped := false;
    assert line[0..] == line;
    for k := 0 to |line|
      invariant OpenQuote(line, START) == OpenQuote(line[k..], Mark(quote, escaped))
    {
      assert line[k..][1..] == line[k + 1..];
      var c := line[k];
      if escaped {
        escaped := false;
      } else if c == '\\' {
        escaped := true;
      } else if quote != NUL {
        if c == quote {
          quote := NUL;
        }
      } else if IsQuote(c) {
        quote := c;
      }
    }
  }

  // ----- agreement of the two readers -----

  /**
   * The raw scanner never takes a closing single quote for an escaped one.  (Inside single quotes the
   * tokenizer has no escapes and the raw scanner has.)
   */
  predicate Agrees(s: string, m: Mark) {
    s == [] || (!(m.escaped && m.quote == '\'' && s[0] == '\'') && Agrees(s[1..], Next(m, s[0])))
  }

  /** No backslash stands inside single quotes. */
  predicate NoSingleBackslash(s: string, m: Mark) {
    s == [] || (!(m.quote == '\'' && s[0] == '\\') && NoSingleBackslash(s[1..], Next(m, s[0])))
  }

  lemma {:induction false} NoSingleBackslashAgrees(s: string, m: Mark)
    requires NoSingleBackslash(s, m) && !(m.escaped && m.quote == '\'')
    ensures Agrees(s, m)
  {
    if s != [] {
      NoSingleBackslashAgrees(s[1..], Next(m, s[0]));
    }
  }

  /** The word the scanner is inside of, when it is closed with what is missing. */
  ghost predicate SameWord(s: string, m: Mark) {
    var scan, n := ScanWord(s, m.quote), RawLen(s, m);
    match scan
    case Word(text, rest) =>
      && ScanWord(s[..n], m.quote) == Word(text, [])
      && rest == (if n < |s| then s[n + 1..] else [])
      && (n < |s| ==> IsSpace(s[n]))
      && Agrees(rest, START) && OpenQuote(s, m) == OpenQuote(rest, START)
      && EndsEscaped(s, m) == EndsEscaped(rest, START)
    case NoWord(status) =>
      && (status == if EndsEscaped(s, m) then InvalidArg else UnterminatedQuote)
      && n == |s|
      && (status == UnterminatedQuote ==>
            && OpenQuote(s, m) != NUL
            && ScanWord(s + [OpenQuote(s, m)], m.quote).Word?
            && ScanWord(s + [OpenQuote(s, m)], m.quote).rest == [])
  }

  /** Any character but an escape outside single quotes: the tokenizer keeps it or drops a quote. */
  lemma ScanOne(c: char, more: string, m: Mark)
    requires m.escaped ==> m.quote == '\'' && c != '\''
    requires m.quote == NUL || IsQuote(m.quote)
    requires !Stops(m, c) && (c == '\\' ==> m.quote == '\'')
    ensures ScanWord([c] + more, m.quote)
         == Continue(if Next(m, c).quote != m.quote then [] else [c], ScanWord(more, Next(m, c).quote))
  {
    assert ([c] + more)[1..] == more;
    var scan := ScanWord(more, Next(m, c).quote);
    assert scan.Word? ==> [] + scan.text == scan.text;
  }

  /** Putting characters in front of a word that both readers see alike. */
  lemma SameWordLonger(lead: string, text: string, s: string, m: Mark, next: Mark)
    requires SameWord(s, next)
    requires forall more :: ScanWord(lead + more, m.quote) == Continue(text, ScanWord(more, next.quote))
    requires RawLen(lead + s, m) == |lead| + RawLen(s, next)
    requires OpenQuote(lead + s, m) == OpenQuote(s, next) && EndsEscaped(lead + s, m) == EndsEscaped(s, next)
    ensures SameWord(lead + s, m)
  {
    hide ScanWord, RawLen, OpenQuote, EndsEscaped, Agrees;
    var n, q := RawLen(s, next), OpenQuote(s, next);
    var all := lead + s;
    if ScanWord(s, next.quote).Word? {
      assert all[..|lead| + n] == lead + s[..n];
      assert text + ScanWord(s, next.quote).text == text + ScanWord(s[..n], next.quote).text;
      assert n < |s| ==> all[|lead| + n + 1..] == s[n + 1..] && all[|lead| + n] == s[n];
    } else {
      assert all + [q] == lead + (s + [q]);
    }
  }

  lemma {:induction false} SameWordHolds(s: string, m: Mark)
    requires m.escaped ==> m.quote == '\''
    requires Agrees(s, m)
    requires m.quote == NUL || IsQuote(m.quote)
    ensures SameWord(s, m)
    decreases |s|
  {
    hide ScanWord, SameWord;
    if s == [] || Stops(m, s[0]) {
      SameWordEnds(s, m);
    } else {
      var c, tail := s[0], s[1..];
      assert s == [c] + tail;
      if c == '\\' && m.quote != '\'' {
        if tail == [] {
          assert s == ['\\'];
          LoneEscape(m);
        } else {
          assert tail[1..] == s[2..] && s == ['\\', s[1]] + s[2..];
          SameWordHolds(s[2..], m);
          forall more ensures ScanWord(['\\', s[1]] + more, m.quote) == Continue([s[1]], ScanWord(more, m.quote)) {
            ScanEscape(s[1], more, m.quote);
          }
          SameWordLonger(['\\', s[1]], [s[1]], s[2..], m, m);
        }
      } else {
        var next := Next(m, c);
        SameWordHolds(tail, next);
        var text := if next.quote != m.quote then [] else [c];
        forall more ensures ScanWord([c] + more, m.quote) == Continue(text, ScanWord(more, next.quote)) {
          ScanOne(c, more, m);
        }
        SameWordLonger([c], text, tail, m, next);
      }
    }
  }

  lemma SameWordEnds(s: string, m: Mark)
    requires m.escaped ==> m.quote == '\''
    requires Agrees(s, m)
    requires m.quote == NUL || IsQuote(m.quote)
    requires s == [] || Stops(m, s[0])
    ensures SameWord(s, m)
  {
    if s == [] {
      assert [m.quote][1..] == [];
    }
  }

  lemma LoneEscape(m: Mark)
    requires m.quote != '\'' && !m.escaped
    ensures SameWord(['\\'], m)
  {
  }

  /**
   * One span for each token, in order and apart, and each span alone is read as its token; closing is
   * what the last span still needs.
   */
  ghost predicate SpansFit(line: string, from: nat, spans: seq<Span>, tokens: seq<string>, closing: string) {
    && |spans| == |tokens|
    && forall i :: 0 <= i < |spans| ==>
      && from <= spans[i].start < spans[i].end <= |line|
      && (i + 1 < |spans| ==> spans[i].end < spans[i + 1].start)
      && Tokens(line[spans[i].start..spans[i].end] + (if i + 1 == |spans| then closing else []), 1) ==
          Parsed([tokens[i]])
  }

  lemma NoSpans(line: string, from: nat)
    requires from <= |line| && SkipSpaces(line[from..]) == []
    ensures Spans(line, from) == []
  {
  }

  lemma NothingFits(line: string, from: nat, closing: string)
    ensures SpansFit(line, from, [], [], closing)
  {
  }

  /** A slice that holds one word. */
  lemma OneWord(s: string, text: string)
    requires s != [] && !IsSpace(s[0]) && ScanWord(s, NUL) == Word(text, [])
    ensures Tokens(s, 1) == Parsed([text])
  {
    NoWords([], 0);
    assert [text] + [] == [text];
  }

  lemma SpansFitMore(line: string, from: nat, span: Span, spans: seq<Span>, text: string, tokens: seq<string>,
      closing: string)
    requires from <= span.start < span.end <= |line| && (span.end == |line| ==> spans == [])
    requires SpansFit(line, if span.end < |line| then span.end + 1 else span.end, spans, tokens, closing)
    requires Tokens(line[span.start..span.end] + (if spans == [] then closing else []), 1) == Parsed([text])
    ensures SpansFit(line, from, [span] + spans, [text] + tokens, closing)
  {
    hide Tokens;
  }

  /** The text after a token's span starts with the blank that ended the token. */
  lemma SpansAfterBlank(line: string, end: nat)
    requires end < |line| ==> IsSpace(line[end])
    requires end <= |line|
    ensures Spans(line, end) == if end < |line| then Spans(line, end + 1) else []
  {
    hide RawLen, TokenStart;
    if end < |line| {
      BlankSkipped(line, end);
    } else {
      assert TokenStart(line, |line|) == |line|;
    }
  }

  lemma BlankSkipped(line: string, at: nat)
    requires at < |line| && IsSpace(line[at])
    ensures TokenStart(line, at) == TokenStart(line, at + 1)
  {
    assert line[at..][1..] == line[at + 1..];
  }

  lemma {:induction false} AgreesAfterSkip(s: string)
    requires Agrees(s, START)
    ensures Agrees(SkipSpaces(s), START) && OpenQuote(SkipSpaces(s), START) == OpenQuote(s, START)
    ensures EndsEscaped(SkipSpaces(s), START) == EndsEscaped(s, START)
  {
    if s != [] && IsSpace(s[0]) {
      AgreesAfterSkip(s[1..]);
    }
  }

  /** The first span of a line is the first word of the line, and the readers go on from the same place. */
  lemma FirstSpan(line: string, from: nat) returns (start: nat, end: nat, next: nat)
    requires from <= |line| && Agrees(line[from..], START)
    requires SkipSpaces(line[from..]) != [] && ScanWord(SkipSpaces(line[from..]), NUL).Word?
    ensures from <= start < end <= next <= |line| && (next == end ==> end == |line|) && next <= end + 1
    ensures Spans(line, from) == [Span(start, end)] + Spans(line, next) && (next == end ==> Spans(line, next) == [])
    ensures var Word(text, rest) := ScanWord(SkipSpaces(line[from..]), NUL);
      rest == line[next..] && Tokens(line[start..end], 1) == Parsed([text])
    ensures Agrees(line[next..], START) && OpenQuote(line[next..], START) == OpenQuote(line[from..], START)
    ensures EndsEscaped(line[next..], START) == EndsEscaped(line[from..], START)
  {
    hide ScanWord, RawLen, OpenQuote, EndsEscaped, SkipSpaces, Agrees, Tokens, Spans;
    var s := SkipSpaces(line[from..]);
    start := TokenStart(line, from);
    SkipSpacesDrops(line[from..]);
    assert s == line[start..];
    AgreesAfterSkip(line[from..]);
    SameWordHolds(s, START);
    NonEmptyToken(line, start);
    var n := RawLen(s, START);
    end := start + n;
    next := if end < |line| then end + 1 else end;
    assert line[start..end] == s[..n];
    OneWord(s[..n], ScanWord(s, NUL).text);
    assert end < |line| ==> line[end] == s[n] && line[next..] == s[n + 1..];
    SpansFirst(line, from);
    SpansAfterBlank(line, end);
  }

  lemma SpansFirst(line: string, from: nat)
    requires from <= |line|
    ensures var start := TokenStart(line, from);
      var end := start + RawLen(line[start..], START);
      start < end ==> Spans(line, from) == [Span(start, end)] + Spans(line, end)
  {
    hide RawLen, TokenStart;
  }

  /** The spans of a line that tokenizes, from any offset at which a token may begin. */
  lemma {:induction false} SpansMatchFrom(line: string, from: nat, room: nat)
    requires from <= |line| && Agrees(line[from..], START)
    ensures var p := Tokens(line[from..], room);
      p.Parsed? ==> SpansFit(line, from, Spans(line, from), p.tokens, [])
    decreases |line| - from
  {
    hide ScanWord, SkipSpaces, SpansFit, Agrees, EndsEscaped, Tokens, Spans;
    var s := SkipSpaces(line[from..]);
    TokensUnfold(line[from..], room);
    if s == [] {
      NothingFits(line, from, []);
      NoSpans(line, from);
    } else if room > 0 && ScanWord(s, NUL).Word? {
      var start, end, next := FirstSpan(line, from);
      SpansMatchFrom(line, next, room - 1);
      var p := Tokens(line[next..], room - 1);
      if p.Parsed? {
        assert line[start..end] + [] == line[start..end];
        SpansFitMore(line, from, Span(start, end), Spans(line, next), ScanWord(s, NUL).text, p.tokens, []);
      }
    }
  }

  /** A last word without its closing quote. */
  lemma CloseLast(line: string, from: nat, room: nat)
    requires from <= |line| && Agrees(line[from..], START)
    requires room > 0 && SkipSpaces(line[from..]) != []
    requires ScanWord(SkipSpaces(line[from..]), NUL) == NoWord(UnterminatedQuote)
    ensures var quote := OpenQuote(line[from..], START);
      var p := Tokens(line[from..] + [quote], room);
      && quote != NUL && p.Parsed? && Spans(line, from) != []
      && SpansFit(line, from, Spans(line, from), p.tokens, [quote])
  {
    hide ScanWord, RawLen, OpenQuote, EndsEscaped, Agrees, SpansFit, Spans;
    var s := SkipSpaces(line[from..]);
    var quote := OpenQuote(line[from..], START);
    var start := TokenStart(line, from);
    SkipSpacesDrops(line[from..]);
    SkipSpacesExtends(line[from..], [quote]);
    AgreesAfterSkip(line[from..]);
    SameWordHolds(s, START);
    SpansFirst(line, from);
    SpansAfterBlank(line, |line|);
    NothingFits(line, |line|, [quote]);
    NoWords([], room - 1);
    var text := ScanWord(s + [quote], NUL).text;
    OneWord(s + [quote], text);
    assert line[start..|line|] == s;
    assert [text] + [] == [text];
    SpansFitMore(line, from, Span(start, |line|), [], text, [], [quote]);
  }

  /** The spans of a line whose last token lacks its closing quote. */
  lemma {:induction false} SpansCloseFrom(line: string, from: nat, room: nat)
    requires from <= |line| && Agrees(line[from..], START)
    requires Tokens(line[from..], room) == Rejected(UnterminatedQuote)
    ensures var quote := OpenQuote(line[from..], START);
      var p := Tokens(line[from..] + [quote], room);
      && quote != NUL && p.Parsed? && Spans(line, from) != []
      && SpansFit(line, from, Spans(line, from), p.tokens, [quote])
    decreases |line| - from
  {
    hide ScanWord, SkipSpaces, SpansFit, Agrees, OpenQuote, EndsEscaped, Tokens, Spans;
    TokensUnfold(line[from..], room);
    var s := SkipSpaces(line[from..]);
    var quote := OpenQuote(line[from..], START);
    if ScanWord(s, NUL).Word? {
      var start, end, next := FirstSpan(line, from);
      assert next < |line| by { TokensUnfold(line[next..], room - 1); NoWords([], room); }
      SpansCloseFrom(line, next, room - 1);
      TokensExtend(line[from..], [quote], room);
      assert line[start..end] + [] == line[start..end];
      var p := Tokens(line[next..] + [quote], room - 1);
      SpansFitMore(line, from, Span(start, end), Spans(line, next), ScanWord(s, NUL).text, p.tokens, [quote]);
    } else {
      CloseLast(line, from, room);
    }
  }

  /**
   * Both readers see the same tokens.  On a line in which no single-quoted part hides a closing quote
   * behind a backslash: if the line tokenizes, its spans are one for each token, increasing and apart,
   * and each slice alone tokenizes to its entry; if only the closing quote is missing, appending the
   * open quote makes the line tokenize, and the same holds with that quote after the last slice.
   */
  lemma ReadersAgree(line: string, room: nat)
    requires Agrees(line, START)
    ensures var p := Tokens(line, room); p.Parsed? ==> SpansFit(line, 0, Spans(line, 0), p.tokens, [])
    ensures Tokens(line, room) == Rejected(UnterminatedQuote) ==>
      var quote := OpenQuote(line, START);
      var p := Tokens(line + [quote], room);
      && quote != NUL && p.Parsed?
      && SpansFit(line, 0, Spans(line, 0), p.tokens, [quote])
  {
    hide Tokens, Spans, SpansFit, OpenQuote, Agrees;
    assert line[0..] == line;
    SpansMatchFrom(line, 0, room);
    if Tokens(line, room) == Rejected(UnterminatedQuote) {
      SpansCloseFrom(line, 0, room);
    }
  }

  /** A line with words left has a span, and only one when the first word is not closed. */
  lemma SpansSome(line: string, from: nat)
    requires from <= |line| && SkipSpaces(line[from..]) != []
    ensures Spans(line, from) != []
  {
    hide RawLen;
  }

  /**
   * How a line can fail to tokenize: it ends in a backslash with nothing to escape, it has too many words,
   * or only a closing quote is missing.
   */
  lemma {:induction false} RejectedFrom(line: string, from: nat, room: nat)
    requires from <= |line| && Agrees(line[from..], START)
    ensures var p, words := Tokens(line[from..], room), |Spans(line, from)|;
      var open, lone := OpenQuote(line[from..], START) != NUL, EndsEscaped(line[from..], START);
      && (p == Rejected(TooManyArgs) <==> words > room)
      && (p == Rejected(InvalidArg) <==> words <= room && lone)
      && (p == Rejected(UnterminatedQuote) <==> words <= room && !lone && open)
      && (p.Parsed? <==> words <= room && !lone && !open)
    decreases |line| - from
  {
    hide ScanWord, SkipSpaces, Agrees, OpenQuote, EndsEscaped, Tokens, Spans;
    TokensUnfold(line[from..], room);
    var s := SkipSpaces(line[from..]);
    AgreesAfterSkip(line[from..]);
    if s == [] {
      NoSpans(line, from);
      assert !EndsEscaped(s, START) && OpenQuote(s, START) == NUL by { RawNothing(); }
    } else if room == 0 {
      SpansSome(line, from);
    } else if ScanWord(s, NUL).Word? {
      var start, end, next := FirstSpan(line, from);
      RejectedFrom(line, next, room - 1);
    } else {
      SameWordHolds(s, START);
      LastSpan(line, from);
    }
  }

  /** A word that is not closed is the last one. */
  lemma LastSpan(line: string, from: nat)
    requires from <= |line| && SkipSpaces(line[from..]) != []
    requires var s := SkipSpaces(line[from..]); RawLen(s, START) == |s|
    ensures |Spans(line, from)| == 1
  {
    hide RawLen, Spans, SkipSpaces;
    SkipSpacesDrops(line[from..]);
    var start := TokenStart(line, from);
    assert line[start..] == SkipSpaces(line[from..]);
    SpansFirst(line, from);
    SpansAfterBlank(line, |line|);
  }

  /** The status for a line of agreeing readers, in the order in which the faults are met. */
  lemma RejectsWhy(line: string, room: nat)
    requires Agrees(line, START)
    ensures var words, open, lone := |Spans(line, 0)|, OpenQuote(line, START) != NUL, EndsEscaped(line, START);
      match Tokens(line, room)
      case Parsed(tokens) => |tokens| == words <= room && !lone && !open
      case Rejected(status) =>
        status == if words > room then TooManyArgs else if lone then InvalidArg else UnterminatedQuote
  {
    hide Tokens, Spans, OpenQuote, EndsEscaped, Agrees;
    assert line[0..] == line;
    RejectedFrom(line, 0, room);
    ReadersAgree(line, room);
  }

  /**
   * A line of agreeing readers, closed if necessary, tokenizes if and only if it has neither of the other two
   * faults.
   */
  lemma ClosedLineParsesIff(line: string, room: nat)
    requires Agrees(line, START)
    ensures var p := Tokens(line, room);
      var closed := if p == Rejected(UnterminatedQuote) then Tokens(line + [OpenQuote(line, START)], room) else p;
      closed.Parsed? <==> !EndsEscaped(line, START) && |Spans(line, 0)| <= room
  {
    hide Tokens, Spans, SpansFit, OpenQuote, EndsEscaped, Agrees;
    assert line[0..] == line;
    RejectedFrom(line, 0, room);
    ReadersAgree(line, room);
  }

  lemma RawOne(c: char, more: string, m: Mark)
    ensures RawLen([c] + more, m) == if Stops(m, c) then 0 else 1 + RawLen(more, Next(m, c))
    ensures OpenQuote([c] + more, m) == OpenQuote(more, Next(m, c))
    ensures EndsEscaped([c] + more, m) == EndsEscaped(more, Next(m, c))
    ensures Agrees([c] + more, m) <==> !(m.escaped && m.quote == '\'' && c == '\'') && Agrees(more, Next(m, c))
  {
    assert ([c] + more)[1..] == more;
  }

  /**
   * The condition is needed.  In '\'' the raw scanner takes the closing quote for an escaped one, so it
   * reports no open quote where the tokenizer misses one.
   */
  lemma ReadersDisagree()
    ensures var line := ['\'', '\\', '\'', '\''];
      && !Agrees(line, START)
      && Tokens(line, 1) == Rejected(UnterminatedQuote) && OpenQuote(line, START) == NUL
  {
    hide ScanWord, OpenQuote, Agrees;
    var inside := Mark('\'', false);
    assert ScanWord([], '\'') == NoWord(UnterminatedQuote) by { ScanEnd([], '\''); }
    assert OpenQuote([], START) == NUL by { RawNothing(); }
    ScanOne('\'', [], START);
    ScanOne('\'', ['\''], inside);
    ScanOne('\\', ['\'', '\''], inside);
    ScanOne('\'', ['\\', '\'', '\''], START);
    RawOne('\'', [], inside);
    RawOne('\'', ['\''], Mark('\'', true));
    RawOne('\\', ['\'', '\''], inside);
    RawOne('\'', ['\\', '\'', '\''], START);
    assert ['\''] + ['\\', '\'', '\''] == ['\'', '\\', '\'', '\''];
    assert ['\\'] + ['\'', '\''] == ['\\', '\'', '\''];
    assert ['\''] + ['\''] == ['\'', '\''];
    assert ['\''] + [] == ['\''];
  }

  lemma RawNothing()
    ensures OpenQuote([], START) == NUL && !EndsEscaped([], START)
  {
  }
}
