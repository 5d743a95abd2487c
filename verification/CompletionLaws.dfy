/** What a Tab guarantees, and why a partial completion is stable. */
module CompletionLaws {
  import opened Text
  import opened Tokenizer
  import opened Printer
  import opened RawScanner
  import opened Commands
  import opened Registry
  import opened Config
  import opened Completion

  // ----- tokenizing a line that ends in a bare word -----

  /** No blank, quote or backslash. */
  predicate Bare(p: string) {
    NoSpace(p) && forall k :: 0 <= k < |p| ==> !Special(p[k])
  }

  /** How the scan of a word goes on when bare text follows x. */
  datatype Tail = Later(text: string, rest: string) | Inside(text: string) | Never(status: Status)

  function Longer(text: string, tail: Tail): Tail {
    match tail
    case Later(more, rest) => Later(text + more, rest)
    case Inside(more) => Inside(text + more)
    case Never(_) => tail
  }

  function TailOf(x: string, quote: char): (r: Tail)
    ensures r.Later? ==> |r.rest| < |x|
    decreases |x|
  {
    if x == [] || (x == ['\\'] && quote != '\'') then
      if quote != NUL then Never(UnterminatedQuote) else Inside([])
    else if quote == NUL && IsSpace(x[0]) then Later([], x[1..])
    else if x[0] == '\\' && quote != '\'' then Longer([x[1]], TailOf(x[2..], quote))
    else if quote == NUL && IsQuote(x[0]) then TailOf(x[1..], x[0])
    else if quote != NUL && x[0] == quote then TailOf(x[1..], NUL)
    else Longer([x[0]], TailOf(x[1..], quote))
  }

  lemma {:induction false} ScanBareQuoted(p: string, quote: char)
    requires Bare(p) && IsQuote(quote)
    ensures ScanWord(p, quote) == NoWord(UnterminatedQuote)
  {
    if p != [] {
      assert !Special(p[0]);
      ScanBareQuoted(p[1..], quote);
    }
  }

  lemma ScanOnlyBare(p: string)
    requires Bare(p) && p != []
    ensures ScanWord(p, NUL) == Word(p, []) && SkipSpaces(p) == p
  {
    ScanBare(p, []);
    assert p + [] == p;
  }

  /** scan is what the tail says about a scan with p appended. */
  predicate Says(tail: Tail, p: string, scan: Scan) {
    match tail
    case Later(text, rest) => scan == Word(text, rest + p)
    case Inside(text) => scan == Word(text + p, [])
    case Never(status) => scan == NoWord(status)
  }

  lemma {:induction false} ScanTail(x: string, quote: char, p: string)
    requires Bare(p) && p != [] && (quote == NUL || IsQuote(quote))
    ensures Says(TailOf(x, quote), p, ScanWord(x + p, quote))
    decreases |x|
  {
    hide Bare, ScanWord;
    if x == [] {
      assert x + p == p && [] + p == p;
      ScanNothing(quote, p);
    } else {
      var c, y := x[0], x[1..];
      assert x + p == [c] + (y + p);
      if quote == NUL && IsSpace(c) {
        ScanBlank(c, y + p);
      } else if c == '\\' && quote != '\'' {
        if y == [] {
          BareTail(p);
          ScanNothing(quote, p[1..]);
          assert x + p == ['\\', p[0]] + p[1..] && [] + p == p && [p[0]] + p[1..] == p;
          ScanEscape(p[0], p[1..], quote);
        } else {
          assert x[2..] == y[1..] && x + p == ['\\', y[0]] + (x[2..] + p);
          ScanTail(x[2..], quote, p);
          ScanEscape(y[0], x[2..] + p, quote);
          SaysLonger([y[0]], TailOf(x[2..], quote), p, ScanWord(x[2..] + p, quote));
        }
      } else {
        var m := Mark(quote, false);
        ScanOne(c, y + p, m);
        ScanTail(y, Next(m, c).quote, p);
        var lead := if Next(m, c).quote != quote then [] else [c];
        SaysLonger(lead, TailOf(y, Next(m, c).quote), p, ScanWord(y + p, Next(m, c).quote));
        SaysSame(TailOf(y, Next(m, c).quote));
      }
    }
  }

  lemma SaysSame(tail: Tail)
    ensures Longer([], tail) == tail
  {
    if tail.Later? || tail.Inside? {
      assert [] + tail.text == tail.text;
    }
  }

  lemma ScanBlank(c: char, more: string)
    requires IsSpace(c)
    ensures ScanWord([c] + more, NUL) == Word([], more)
  {
    assert ([c] + more)[1..] == more;
  }

  lemma BareTail(p: string)
    requires Bare(p) && p != []
    ensures Bare(p[1..])
  {
  }

  lemma ScanNothing(quote: char, p: string)
    requires Bare(p) && (quote == NUL || IsQuote(quote))
    ensures ScanWord(p, quote) == if quote == NUL then Word(p, []) else NoWord(UnterminatedQuote)
  {
    if quote != NUL {
      ScanBareQuoted(p, quote);
    } else if p != [] {
      ScanOnlyBare(p);
    }
  }

  lemma SaysLonger(text: string, tail: Tail, p: string, scan: Scan)
    requires Says(tail, p, scan)
    ensures Says(Longer(text, tail), p, Continue(text, scan))
  {
    if tail.Inside? {
      assert text + (tail.text + p) == text + tail.text + p;
    }
  }

  /** The tokens before the one that bare text after x ends in, and the part of that token x holds. */
  datatype Stem = Ends(before: seq<string>, stem: string) | Fails(status: Status)

  function StemOf(x: string, room: nat): Stem
    decreases |x|
  {
    var t := SkipSpaces(x);
    if room == 0 then Fails(TooManyArgs)
    else if t == [] then Ends([], [])
    else match TailOf(t, NUL)
      case Never(status) => Fails(status)
      case Inside(text) => Ends([], text)
      case Later(text, rest) =>
        match StemOf(rest, room - 1)
        case Fails(status) => Fails(status)
        case Ends(before, stem) => Ends([text] + before, stem)
  }

  lemma {:induction false} BareTokens(x: string, p: string, room: nat)
    requires Bare(p) && p != []
    ensures Tokens(x + p, room) == match StemOf(x, room)
      case Fails(status) => Rejected(status)
      case Ends(before, stem) => Parsed(before + [stem + p])
    decreases |x|
  {
    hide ScanWord, TailOf, Bare, Tokens;
    var t := SkipSpaces(x);
    TokensUnfold(x + p, room);
    SkipSpacesExtends(x, p);
    ScanOnlyBare(p);
    TokensUnfold([], if room == 0 then 0 else room - 1);
    NoWords([], 0);
    if t == [] {
      assert [] + p == p;
      assert [] + [p] == [p] && [p] + [] == [p];
    } else if room > 0 {
      ScanTail(t, NUL, p);
      match TailOf(t, NUL)
      case Never(_) =>
      case Inside(text) => assert [] + [text + p] == [text + p] && [text + p] + [] == [text + p];
      case Later(text, rest) =>
        BareTokens(rest, p, room - 1);
        var more := StemOf(rest, room - 1);
        if more.Ends? {
          assert [text] + (more.before + [more.stem + p]) == [text] + more.before + [more.stem + p];
        }
    }
  }

  predicate EndsBlank(x: string) {
    x != [] && IsSpace(x[|x| - 1])
  }

  lemma {:induction false} TailOfWord(x: string, quote: char)
    requires EndsBlank(x) && ScanWord(x, quote).Word? && (quote == NUL || IsQuote(quote))
    ensures var Word(text, rest) := ScanWord(x, quote);
      TailOf(x, quote) == Later(text, rest) || (rest == [] && TailOf(x, quote) == Inside(text) && EndsBlank(text))
    decreases |x|
  {
    if quote == NUL && IsSpace(x[0]) {
    } else if x[0] == '\\' && quote != '\'' {
      if |x| > 2 {
        TailOfWord(x[2..], quote);
      }
    } else if |x| > 1 {
      if quote == NUL && IsQuote(x[0]) {
        TailOfWord(x[1..], x[0]);
      } else if quote != NUL && x[0] == quote {
        TailOfWord(x[1..], NUL);
      } else {
        TailOfWord(x[1..], quote);
      }
    }
  }

  /** When x ends in a blank, bare text is a token of its own, unless that blank is escaped. */
  lemma {:induction false} StemAfterBlank(x: string, room: nat)
    requires (x == [] || EndsBlank(x)) && Tokens(x, room).Parsed? && |Tokens(x, room).tokens| < room
    ensures var tokens := Tokens(x, room).tokens;
      StemOf(x, room) == Ends(tokens, []) || (tokens != [] && EndsBlank(tokens[|tokens| - 1]))
    decreases |x|
  {
    hide ScanWord, TailOf;
    var t := SkipSpaces(x);
    SkipSpacesDrops(x);
    if t != [] {
      assert EndsBlank(t);
      TailOfWord(t, NUL);
      var Word(text, rest) := ScanWord(t, NUL);
      var more := Tokens(rest, room - 1);
      if TailOf(t, NUL).Later? {
        RestEndsBlank(t, NUL);
        StemAfterBlank(rest, room - 1);
      } else {
        assert more == Parsed([]);
      }
    }
  }

  lemma {:induction false} RestEndsBlank(x: string, quote: char)
    requires EndsBlank(x) && ScanWord(x, quote).Word? && (quote == NUL || IsQuote(quote))
    ensures ScanWord(x, quote).rest == [] || EndsBlank(ScanWord(x, quote).rest)
    decreases |x|
  {
    if quote == NUL && IsSpace(x[0]) {
    } else if x[0] == '\\' && quote != '\'' {
      if |x| > 2 {
        RestEndsBlank(x[2..], quote);
      }
    } else if |x| > 1 {
      var open := if quote == NUL && IsQuote(x[0]) then x[0] else if quote != NUL && x[0] == quote then NUL else quote;
      RestEndsBlank(x[1..], open);
    }
  }

  // ----- what one Tab guarantees -----

  /** The candidates are the visible names of the table, and nothing else. */
  lemma {:induction false} VisibleNamesAre(rows: seq<Cmd>, prefix: string, name: string)
    ensures name in VisibleNames(rows, prefix) <==>
      StartsWith(name, prefix) && exists i :: 0 <= i < |rows| && !rows[i].hidden && rows[i].name == Some(name)
  {
    if rows != [] {
      VisibleNamesAre(rows[..|rows| - 1], prefix, name);
      assert forall i :: 0 <= i < |rows| - 1 ==> rows[..|rows| - 1][i] == rows[i];
    }
  }

  lemma {:induction false} NamesStart(rows: seq<Cmd>, prefix: string)
    ensures PrefixOfAll(prefix, VisibleNames(rows, prefix))
  {
    if rows != [] {
      NamesStart(rows[..|rows| - 1], prefix);
    }
  }

  lemma {:induction false} AnswersStart(cfg: Config, provider: nat, argIndex: nat, prefix: string, n: nat)
    ensures PrefixOfAll(prefix, Answers(cfg, provider, argIndex, prefix, n))
  {
    hide Refused;
    if n > 0 {
      AnswersStart(cfg, provider, argIndex, prefix, n - 1);
    }
  }

  lemma MatchesStart(cfg: Config, scope: Scope, prefix: string)
    ensures PrefixOfAll(prefix, Matches(cfg, scope, prefix))
  {
    hide VisibleNames, Answers;
    match scope
    case Beside(rows) => NamesStart(rows, prefix);
    case Payload(provider, argIndex) => AnswersStart(cfg, provider, argIndex, prefix, PROVIDER_MAX_ITEMS);
  }

  /** The scope in which a Tab looks for candidates, when the line up to the cursor leads to one. */
  function TabScope(cfg: Config, roots: Roots, left: string): Option<Scope> {
    match ParseLine(left, cfg.argcMax)
    case Rejected(_) => None
    case Parsed(tokens) => ScopeOf(cfg, roots, tokens, left[WordStart(left)..])
  }

  /**
   * When a Tab changes the line, to what, and which status it answers.  The line changes if and only if
   * there is one candidate, or the candidates share more than what was typed, and the new line fits; then
   * exactly the token around the cursor gives way to the longest common prefix of the candidates, with one
   * blank more when the candidate is the only one and the token is the last.
   */
  lemma TabEffect(cfg: Config, roots: Roots, left: string, right: string)
    requires |left| + |right| <= cfg.lineMax <= MAX_LINE_LEN
    ensures var t := Tab(cfg, roots, left, right);
      var prefix, scope := left[WordStart(left)..], TabScope(cfg, roots, left);
      var names := if scope.Some? then Matches(cfg, scope.value, prefix) else [];
      && |t.left| + |t.right| <= cfg.lineMax
      && (t.changed <==> Extends(names, prefix) && Fits(cfg, names, left, right))
      && (if t.changed then Completed(t, names, left, right) else t.left == left && t.right == right)
      && t.status == (if ParseLine(left, cfg.argcMax).Rejected? then ParseLine(left, cfg.argcMax).status
                      else if names == [] then OK
                      else if !Extends(names, prefix) then Ambiguous
                      else if Fits(cfg, names, left, right) then OK
                      else LineTooLong)
      && (t.status == Ambiguous <==> |names| > 1 && Shared(names) == prefix)
  {
    hide WordStart, WordLen, Descend, Tokens, TabIn, Matches, Shared, Completed, Fits;
    var scope := TabScope(cfg, roots, left);
    if scope.Some? {
      TabInEffect(cfg, scope.value, left, right);
    }
    ParseNotAmbiguous(left, cfg.argcMax);
  }

  /** The candidates tell more than what was typed. */
  predicate Extends(names: seq<string>, prefix: string) {
    names != [] && (|names| == 1 || Shared(names) != prefix)
  }

  /** The blank after a unique candidate at the end of the line. */
  function Blank(names: seq<string>, right: string): string {
    if |names| == 1 && right[WordLen(right)..] == [] then [' '] else []
  }

  /** The completed line is not too long. */
  predicate Fits(cfg: Config, names: seq<string>, left: string, right: string)
    requires names != []
  {
    WordStart(left) + |Shared(names) + Blank(names, right)| + |right[WordLen(right)..]| <= cfg.lineMax
  }

  /** The completed line, when names are the candidates. */
  predicate Completed(t: Tabbed, names: seq<string>, left: string, right: string) {
    && names != [] && t.right == right[WordLen(right)..]
    && t.left == left[..WordStart(left)] + Shared(names) + Blank(names, right)
    && StartsWith(Shared(names), left[WordStart(left)..])
  }

  lemma TabInEffect(cfg: Config, scope: Scope, left: string, right: string)
    requires |left| + |right| <= cfg.lineMax <= MAX_LINE_LEN
    ensures var t := TabIn(cfg, scope, left, right);
      var prefix := left[WordStart(left)..];
      var names := Matches(cfg, scope, prefix);
      && |t.left| + |t.right| <= cfg.lineMax
      && (t.changed <==> Extends(names, prefix) && Fits(cfg, names, left, right))
      && (if t.changed then Completed(t, names, left, right) else t.left == left && t.right == right)
      && t.status == (if names == [] then OK
                      else if !Extends(names, prefix) then Ambiguous
                      else if Fits(cfg, names, left, right) then OK
                      else LineTooLong)
  {
    hide WordStart, WordLen, SharedLen, Matches, Cut, PrefixOfAll, ReplaceToken;
    var prefix := left[WordStart(left)..];
    var names := Matches(cfg, scope, prefix);
    MatchesStart(cfg, scope, prefix);
    if names != [] {
      SharedIsLongest(names, prefix);
      SharedOne(names);
      var p := Shared(names);
      assert p[..|p|] == p;
      ReplaceEffect(cfg, left, right, p, |names| == 1);
    }
  }

  lemma ReplaceEffect(cfg: Config, left: string, right: string, text: string, unique: bool)
    requires |left| + |right| <= cfg.lineMax
    ensures var t := ReplaceToken(cfg, left, right, text, unique);
      var start, tail := WordStart(left), right[WordLen(right)..];
      var blank := if unique && tail == [] then [' '] else [];
      && |t.left| + |t.right| <= cfg.lineMax
      && (t.changed <==> start + |text + blank| + |tail| <= cfg.lineMax)
      && (if t.changed then t.status == OK && t.right == tail && t.left == left[..start] + text + blank
          else t.status == LineTooLong && t.left == left && t.right == right)
  {
    hide WordStart, WordLen;
    var lead := left[..WordStart(left)];
    assert lead + (text + [' ']) == lead + text + [' '] && lead + (text + []) == lead + text + [];
  }

  lemma SharedOne(names: seq<string>)
    requires names != []
    ensures |names| == 1 ==> Shared(names) == Cut(names[0], MAX_LINE_LEN)
    ensures |Shared(names)| == SharedLen(names) <= |names[0]|
  {
  }

  lemma {:induction false} ScanNotAmbiguous(s: string, quote: char)
    ensures ScanWord(s, quote).NoWord? ==> ScanWord(s, quote).status in {InvalidArg, UnterminatedQuote}
    decreases |s|
  {
    if |s| > 0 {
      ScanNotAmbiguous(s[1..], quote);
      ScanNotAmbiguous(s[1..], s[0]);
      ScanNotAmbiguous(s[1..], NUL);
    }
    if |s| > 1 {
      ScanNotAmbiguous(s[2..], quote);
    }
  }

  lemma {:induction false} TokensNotAmbiguous(s: string, room: nat)
    ensures Tokens(s, room).Rejected? ==> Tokens(s, room).status in {InvalidArg, UnterminatedQuote, TooManyArgs}
    decreases |s|
  {
    hide ScanWord, SkipSpaces;
    if SkipSpaces(s) != [] && room > 0 {
      ScanNotAmbiguous(SkipSpaces(s), NUL);
      ScanWordFits(SkipSpaces(s), NUL);
      var scan := ScanWord(SkipSpaces(s), NUL);
      if scan.Word? {
        TokensNotAmbiguous(scan.rest, room - 1);
      }
    }
  }

  lemma ParseNotAmbiguous(s: string, capacity: nat)
    ensures ParseLine(s, capacity).Rejected? ==>
      ParseLine(s, capacity).status in {InvalidArg, UnterminatedQuote, TooManyArgs}
  {
    TokensNotAmbiguous(s, Limit(capacity));
  }

  /**
   * Completion descends where dispatch resolves: below a resolved parent the candidates are its children, and
   * there are none when words follow; behind a resolved leaf its provider is asked for the argument's index
   * in the handler's argv, unless there is none or the command is sensitive.
   */
  lemma {:induction false} DescentFollowsResolver(mem: Memory, rows: seq<Cmd>, extra: seq<Cmd>, args: seq<string>,
      node: Cmd, n: nat)
    requires ResolveIn(mem, rows, args) == Resolved(Some(node), n)
    ensures Descend(mem, rows + extra, args) ==
      if IsParent(node) then (if n == |args| then Some(Beside(Rows(mem, Children(node)))) else None)
      else if node.completion.Some? && !node.sensitive then Some(Payload(node.completion.value, |args| - n + 1))
      else None
    decreases |args|
  {
    FindSplit(rows, extra, args[0]);
    var cmd := Find(rows, args[0]).value;
    var below := Rows(mem, Children(cmd));
    if ResolveIn(mem, below, args[1..]).cmd.Some? {
      assert IsParent(cmd);
      DescentFollowsResolver(mem, below, [], args[1..], node, n - 1);
      assert below + [] == below;
    }
  }

  // ----- a partial completion is stable -----

  lemma ValidNameNoSpace(cmd: Cmd)
    requires ValidName(cmd.name)
    ensures NoSpace(cmd.name.value)
  {
  }

  /** Names here and in all tables below are valid. */
  ghost predicate Clean(mem: Memory, rows: seq<Cmd>, depth: nat) {
    forall c :: c in rows ==> ValidName(c.name) && (c.subCount != 0 ==> Accepts(mem, Children(c), depth, false))
  }

  lemma CleanLevel(mem: Memory, level: Level, depth: nat, reserved: bool)
    requires Accepts(mem, level, depth, reserved)
    ensures Clean(mem, Rows(mem, level), depth + 1)
  {
  }

  lemma {:induction false} CleanSets(mem: Memory, sets: seq<Level>, builtins: bool)
    requires forall s :: s in sets ==> Accepts(mem, s, 1, builtins)
    ensures Clean(mem, SetRows(mem, sets), 2)
  {
    hide Accepts, Rows;
    if sets != [] {
      CleanLevel(mem, sets[0], 1, builtins);
      CleanSets(mem, sets[1..], builtins);
    }
  }

  lemma LowerCase(name: string)
    requires name != [] && forall k :: 0 <= k < |name| ==> 'a' <= name[k] <= 'z'
    ensures ValidName(Some(name))
  {
  }

  lemma BuiltinNames()
    ensures forall c :: c in HISTORY_ROWS + ECHO_ROWS + BUILTIN_ROWS ==> ValidName(c.name)
  {
    hide ValidName;
    LowerCase("clear");
    LowerCase("help");
    LowerCase("history");
    LowerCase("echo");
    LowerCase("status");
    LowerCase("on");
    LowerCase("off");
  }

  lemma BuiltinTables(mem: Memory)
    ensures Rows(mem, Level(HistorySubs, 2)) == HISTORY_ROWS && Rows(mem, Level(EchoSubs, 3)) == ECHO_ROWS
    ensures Distinct(HISTORY_ROWS) && Distinct(ECHO_ROWS)
  {
    assert HISTORY_ROWS[..2] == HISTORY_ROWS && ECHO_ROWS[..3] == ECHO_ROWS;
    assert "clear"[0] == 'c' && "status"[0] == 's' && |"off"| == 3 && |"on"| == 2 && |"status"| == 6;
  }

  lemma CleanBuiltins(mem: Memory)
    ensures Clean(mem, BUILTIN_ROWS, 2)
  {
    hide ValidName, Rows, Distinct;
    BuiltinNames();
    BuiltinTables(mem);
    assert Accepts(mem, Level(HistorySubs, 2), 2, false);
    assert Accepts(mem, Level(EchoSubs, 3), 2, false);
  }

  lemma CleanRoots(cfg: Config, roots: Roots)
    requires Registered(cfg.mem, roots, cfg.builtins)
    ensures Clean(cfg.mem, RootScope(cfg, roots), 2)
  {
    hide Accepts, Rows, ValidName;
    CleanBuiltins(cfg.mem);
    match roots
    case Flat(level) => CleanLevel(cfg.mem, level, 1, cfg.builtins);
    case Sets(sets) => CleanSets(cfg.mem, sets, cfg.builtins);
  }

  /** The tokens on the way to a table are names, and so are the names in it. */
  lemma {:induction false} DescendClean(mem: Memory, rows: seq<Cmd>, depth: nat, before: seq<string>)
    requires Clean(mem, rows, depth)
    requires Descend(mem, rows, before).Some? && Descend(mem, rows, before).value.Beside?
    ensures Clean(mem, Descend(mem, rows, before).value.rows, depth + |before|)
    ensures forall b :: b in before ==> NoSpace(b)
    decreases |before|
  {
    hide Accepts, Rows, ValidName;
    if before != [] {
      var i := FindGives(rows, before[0]);
      ValidNameNoSpace(rows[i]);
      CleanLevel(mem, Children(rows[i]), depth, false);
      DescendClean(mem, Rows(mem, Children(rows[i])), depth + 1, before[1..]);
    }
  }

  lemma {:induction false} VisibleClean(mem: Memory, rows: seq<Cmd>, depth: nat, prefix: string)
    requires Clean(mem, rows, depth)
    ensures forall n :: n in VisibleNames(rows, prefix) ==> NoSpace(n)
  {
    hide Accepts;
    if rows != [] {
      assert rows[|rows| - 1] in rows;
      VisibleClean(mem, rows[..|rows| - 1], depth, prefix);
    }
  }

  /** Typing more of what all the matches share keeps the matches. */
  lemma {:induction false} SameNames(rows: seq<Cmd>, short: string, long: string)
    requires StartsWith(long, short) && PrefixOfAll(long, VisibleNames(rows, short))
    ensures VisibleNames(rows, long) == VisibleNames(rows, short)
  {
    if rows != [] {
      var init, last := rows[..|rows| - 1], rows[|rows| - 1];
      var fewer, names := VisibleNames(init, short), VisibleNames(rows, short);
      assert forall k :: 0 <= k < |fewer| ==> fewer[k] == names[k];
      SameNames(init, short, long);
      if last.name.Some? {
        var name := last.name.value;
        if StartsWith(name, long) {
          assert name[..|short|] == name[..|long|][..|short|] == short;
        }
        if !last.hidden && StartsWith(name, short) {
          assert names[|names| - 1] == name;
        }
      }
    }
  }

  lemma {:induction false} WordStartOf(x: string, p: string)
    requires (x == [] || EndsBlank(x)) && NoSpace(p)
    ensures WordStart(x + p) == |x|
  {
    if p == [] {
      assert x + p == x;
    } else {
      var n := |x| + |p| - 1;
      assert (x + p)[..n] == x + p[..|p| - 1] && (x + p)[n] == p[|p| - 1];
      WordStartOf(x, p[..|p| - 1]);
    }
  }

  /** The scope of the completed token does not change while bare text is typed or completed. */
  lemma SameScope(cfg: Config, roots: Roots, x: string, short: string, long: string)
    requires Accepted(cfg) && Registered(cfg.mem, roots, cfg.builtins)
    requires (x == [] || EndsBlank(x)) && Bare(long) && StartsWith(long, short) && long != []
    requires var tokens := ParseLine(x + short, cfg.argcMax);
      tokens.Parsed? && (short == [] ==> |tokens.tokens| < cfg.argcMax)
    requires TabScope(cfg, roots, x + short).Some? && TabScope(cfg, roots, x + short).value.Beside?
    ensures TabScope(cfg, roots, x + long) == TabScope(cfg, roots, x + short)
  {
    hide Tokens, Descend, WordStart, RootScope, Registered, StemOf;
    BareStart(long, short);
    WordStartOf(x, short);
    WordStartOf(x, long);
    assert (x + short)[|x|..] == short && (x + long)[|x|..] == long;
    BareTokens(x, long, cfg.argcMax);
    if short != [] {
      BareTokens(x, short, cfg.argcMax);
      var stem := StemOf(x, cfg.argcMax);
      assert (stem.before + [stem.stem + short])[..|stem.before|] == stem.before;
      assert (stem.before + [stem.stem + long])[..|stem.before|] == stem.before;
    } else {
      assert x + short == x;
      var tokens := Tokens(x, cfg.argcMax).tokens;
      StemAfterBlank(x, cfg.argcMax);
      CleanRoots(cfg, roots);
      DescendClean(cfg.mem, RootScope(cfg, roots), 2, tokens);
      assert tokens != [] ==> tokens[|tokens| - 1] in tokens;
      assert StemOf(x, cfg.argcMax) == Ends(tokens, []);
      assert (tokens + [[] + long])[..|tokens|] == tokens;
    }
  }

  lemma BareStart(long: string, short: string)
    requires Bare(long) && StartsWith(long, short)
    ensures Bare(short)
  {
    assert forall k :: 0 <= k < |short| ==> short[k] == long[k];
  }

  /**
   * Partial completion is stable.  If a Tab has extended a token over two or more names of a command
   * table, none with a quote or backslash, then a second Tab reports the ambiguity and changes nothing.
   */
  lemma PartialCompletionIsStable(cfg: Config, roots: Roots, left: string, right: string)
    requires Accepted(cfg) && Registered(cfg.mem, roots, cfg.builtins)
    requires |left| + |right| <= cfg.lineMax
    requires Tab(cfg, roots, left, right).changed
    requires TabScope(cfg, roots, left).value.Beside?
    requires var names := Matches(cfg, TabScope(cfg, roots, left).value, left[WordStart(left)..]);
      |names| >= 2 && forall n :: n in names ==> forall k :: 0 <= k < |n| ==> !IsQuote(n[k]) && n[k] != '\\'
    requires EndsBlank(left) || left == [] ==> |ParseLine(left, cfg.argcMax).tokens| < cfg.argcMax
    ensures var t := Tab(cfg, roots, left, right);
      Tab(cfg, roots, t.left, t.right) == Tabbed(t.left, t.right, false, Ambiguous)
  {
    hide WordStart, WordLen, Descend, Tokens, VisibleNames, SharedLen, Registered, RootScope;
    var start := WordStart(left);
    var x, prefix := left[..start], left[start..];
    var rows := TabScope(cfg, roots, left).value.rows;
    var names := VisibleNames(rows, prefix);
    var p := Shared(names);
    var t := Tab(cfg, roots, left, right);
    TabEffect(cfg, roots, left, right);
    assert left == x + prefix && t.left == x + p + [] == x + p;
    SharedIsLongest(names, prefix);
    SharedBare(cfg, roots, left, names);
    SameScope(cfg, roots, x, prefix, p);
    WordStartOf(x, p);
    assert (x + p)[|x|..] == p;
    SameNames(rows, prefix, p);
    SecondTab(cfg, roots, t.left, t.right, rows, names);
  }

  lemma SecondTab(cfg: Config, roots: Roots, left: string, right: string, rows: seq<Cmd>, names: seq<string>)
    requires TabScope(cfg, roots, left) == Some(Beside(rows)) && |names| >= 2
    requires left[WordStart(left)..] == Shared(names) && VisibleNames(rows, Shared(names)) == names
    ensures Tab(cfg, roots, left, right) == Tabbed(left, right, false, Ambiguous)
  {
    hide WordStart, WordLen, Descend, Tokens, VisibleNames, SharedLen, RootScope;
  }

  lemma SharedBare(cfg: Config, roots: Roots, left: string, names: seq<string>)
    requires Registered(cfg.mem, roots, cfg.builtins)
    requires TabScope(cfg, roots, left).Some? && TabScope(cfg, roots, left).value.Beside?
    requires names != [] && names == VisibleNames(TabScope(cfg, roots, left).value.rows, left[WordStart(left)..])
    requires forall n :: n in names ==> forall k :: 0 <= k < |n| ==> !IsQuote(n[k]) && n[k] != '\\'
    ensures Bare(Shared(names))
  {
    hide WordStart, Descend, Tokens, VisibleNames, SharedLen, RootScope, Registered;
    var prefix := left[WordStart(left)..];
    var rows := TabScope(cfg, roots, left).value.rows;
    var before := Before(ParseLine(left, cfg.argcMax).tokens, prefix);
    CleanRoots(cfg, roots);
    DescendClean(cfg.mem, RootScope(cfg, roots), 2, before);
    VisibleClean(cfg.mem, rows, 2 + |before|, prefix);
    assert names[0] in names;
    assert forall k :: 0 <= k < |Shared(names)| ==> Shared(names)[k] == names[0][k];
  }
}
