/** Laws of the editor over every byte stream. */
module EditorLaws {
  import opened Text
  import opened Tokenizer
  import opened Printer
  import opened Ansi
  import opened History
  import opened Commands
  import opened Registry
  import opened Config
  import opened Completion
  import opened CompletionLaws
  import opened Masking
  import opened Editor

  // ----- every byte keeps the session valid -----

  lemma PartsNoNul(s: string, k: nat)
    requires k <= |s| && NoNul(s)
    ensures NoNul(s[..k]) && NoNul(s[k..])
  {
  }

  lemma {:induction false} VisibleNoNul(mem: Memory, rows: seq<Cmd>, prefix: string)
    requires forall c :: c in rows && c.name.Some? ==> NoNul(c.name.value)
    ensures forall n :: n in VisibleNames(rows, prefix) ==> NoNul(n)
  {
    if rows != [] {
      assert rows[|rows| - 1] in rows;
      VisibleNoNul(mem, rows[..|rows| - 1], prefix);
    }
  }

  lemma {:induction false} AnswersNoNul(cfg: Config, provider: nat, argIndex: nat, prefix: string, n: nat)
    requires CStrings(cfg)
    ensures forall a :: a in Answers(cfg, provider, argIndex, prefix, n) ==> NoNul(a)
  {
    hide Refused, StartsWith;
    if n > 0 {
      AnswersNoNul(cfg, provider, argIndex, prefix, n - 1);
      NotRefused(cfg, provider, argIndex, n);
    }
  }

  lemma NotRefused(cfg: Config, provider: nat, argIndex: nat, n: nat)
    requires n > 0
    ensures !Refused(cfg, provider, argIndex, n) ==> cfg.provide(provider, argIndex, n - 1).Some?
  {
  }

  predicate NamesNoNul(rows: seq<Cmd>) {
    forall c :: c in rows && c.name.Some? ==> NoNul(c.name.value)
  }

  lemma RowsNoNul(cfg: Config, level: Level)
    requires CStrings(cfg)
    ensures NamesNoNul(Rows(cfg.mem, level))
  {
    assert forall c :: c in Rows(cfg.mem, level) ==> c in Pointed(cfg.mem, level.table);
  }

  lemma {:induction false} SetRowsNoNul(cfg: Config, sets: seq<Level>)
    requires CStrings(cfg)
    ensures NamesNoNul(SetRows(cfg.mem, sets))
  {
    hide CStrings, Rows;
    if sets != [] {
      RowsNoNul(cfg, sets[0]);
      SetRowsNoNul(cfg, sets[1..]);
    }
  }

  lemma BuiltinsNoNul()
    ensures NamesNoNul(BUILTIN_ROWS)
  {
    BuiltinNames();
    forall c | c in BUILTIN_ROWS
      ensures NoNul(c.name.value)
    {
      assert c in HISTORY_ROWS + ECHO_ROWS + BUILTIN_ROWS;
      ValidNoNul(c.name);
    }
  }

  lemma ValidNoNul(name: Option<string>)
    requires ValidName(name)
    ensures NoNul(name.value)
  {
  }

  lemma {:induction false} DescendNoNul(cfg: Config, rows: seq<Cmd>, before: seq<string>)
    requires CStrings(cfg) && NamesNoNul(rows)
    ensures var scope := Descend(cfg.mem, rows, before);
      scope.Some? && scope.value.Beside? ==> NamesNoNul(scope.value.rows)
    decreases |before|
  {
    hide CStrings, Rows, NamesNoNul;
    if before != [] && Find(rows, before[0]).Some? {
      var below := Children(Find(rows, before[0]).value);
      RowsNoNul(cfg, below);
      DescendNoNul(cfg, Rows(cfg.mem, below), before[1..]);
    }
  }

  lemma MatchesNoNul(cfg: Config, roots: Roots, left: string)
    requires CStrings(cfg) && TabScope(cfg, roots, left).Some?
    ensures forall n :: n in Matches(cfg, TabScope(cfg, roots, left).value, left[WordStart(left)..]) ==> NoNul(n)
  {
    hide WordStart, Descend, Tokens, VisibleNames, Answers, CStrings, NoNul;
    var prefix := left[WordStart(left)..];
    var before := Before(ParseLine(left, cfg.argcMax).tokens, prefix);
    BuiltinsNoNul();
    match roots {
      case Flat(level) => RowsNoNul(cfg, level);
      case Sets(sets) => SetRowsNoNul(cfg, sets);
    }
    DescendNoNul(cfg, RootScope(cfg, roots), before);
    match TabScope(cfg, roots, left).value
    case Beside(rows) => VisibleNoNul(cfg.mem, rows, prefix);
    case Payload(provider, argIndex) => AnswersNoNul(cfg, provider, argIndex, prefix, PROVIDER_MAX_ITEMS);
  }

  lemma TabValid(cfg: Config, roots: Roots, s: Session)
    requires Accepted(cfg) && CStrings(cfg) && Valid(cfg, s)
    ensures Valid(cfg, PressTab(cfg, roots, s).0)
  {
    hide Tab, TabScope, Matches, Shared, CStrings, Bounded;
    var t := Tab(cfg, roots, s.left, s.right);
    TabEffect(cfg, roots, s.left, s.right);
    if t.changed {
      var names := Matches(cfg, TabScope(cfg, roots, s.left).value, s.left[WordStart(s.left)..]);
      MatchesNoNul(cfg, roots, s.left);
      assert names[0] in names;
      PartsNoNul(s.left, WordStart(s.left));
      PartsNoNul(s.right, WordLen(s.right));
      assert NoNul(Shared(names)) by { SharedPart(names); }
    }
  }

  lemma SharedPart(names: seq<string>)
    requires names != [] && NoNul(names[0])
    ensures NoNul(Shared(names))
  {
  }

  lemma HistoryLineNoNul(cfg: Config, roots: Roots, line: string, args: seq<string>)
    requires NoNul(line) && forall a :: a in args ==> NoNul(a)
    ensures var entry := HistoryLine(cfg, roots, line, args); entry.Some? ==> NoNul(entry.value)
  {
    hide Resolve, Masked, Print, AnyMasked;
    var r := Resolve(cfg.mem, roots, args);
    var out := Redacted(cfg, r, args);
    MaskPrints();
    assert forall t :: t in out ==> NoNul(t);
    assert NoNul(Print(out)) by { PrintsNoNul(out); }
    hide NoNul;
    CutNoNul(Print(out));
    CutNoNul(line);
  }

  lemma PrintsNoNul(tokens: seq<string>)
    requires forall t :: t in tokens ==> NoNul(t)
    ensures NoNul(Print(tokens))
  {
    PrintNoNul([], tokens);
  }

  lemma CutNoNul(line: string)
    requires NoNul(line)
    ensures NoNul(Cut(line, MAX_LINE_LEN))
  {
  }

  predicate Entries(cfg: Config, hist: seq<string>) {
    |hist| <= cfg.historyDepth && forall e :: e in hist ==> NoNul(e) && 0 < |e| < cfg.slotSize
  }

  lemma RememberValid(cfg: Config, roots: Roots, hist: seq<string>, line: string, args: seq<string>)
    requires Accepted(cfg) && Entries(cfg, hist)
    requires NoNul(line) && forall a :: a in args ==> NoNul(a)
    ensures Entries(cfg, Remember(cfg, roots, hist, line, args))
  {
    hide HistoryLine;
    HistoryLineNoNul(cfg, roots, line, args);
  }

  lemma ExecuteLineValid(cfg: Config, roots: Roots, s: Session, line: string)
    requires Accepted(cfg) && Valid(cfg, s) && NoNul(line)
    ensures Valid(cfg, ExecuteLine(cfg, roots, s, line).0)
  {
    hide Remember, Dispatch, Tokens, NoNul, Perform;
    if |line| <= cfg.lineMax {
      TokensBounds(line, Limit(cfg.argcMax));
      var p := ParseLine(line, cfg.argcMax);
      if p.Parsed? {
        assert Entries(cfg, s.hist);
        RememberValid(cfg, roots, s.hist, line, p.tokens);
        RememberGrows(cfg, roots, s.hist, line, p.tokens);
        var t := s.(hist := Remember(cfg, roots, s.hist, line, p.tokens));
        HistoryGrownValid(cfg, s, t);
        PerformValid(cfg, t, Dispatch(cfg.mem, roots, cfg.builtins, p.tokens));
      }
    }
  }

  lemma HistoryGrownValid(cfg: Config, s: Session, t: Session)
    requires Valid(cfg, s) && t == s.(hist := t.hist) && Entries(cfg, t.hist) && |t.hist| >= |s.hist|
    ensures Valid(cfg, t)
  {
  }

  lemma PerformValid(cfg: Config, s: Session, action: Action)
    requires Valid(cfg, s)
    ensures Valid(cfg, Perform(cfg, s, action).0)
  {
  }

  /** An emptied line with an emptied draft. */
  lemma ClearedValid(cfg: Config, s: Session)
    requires Valid(cfg, s)
    ensures Valid(cfg, s.(left := [], right := [], view := -1, draft := []))
  {
  }

  lemma RememberGrows(cfg: Config, roots: Roots, hist: seq<string>, line: string, args: seq<string>)
    requires |hist| <= cfg.historyDepth
    ensures |Remember(cfg, roots, hist, line, args)| >= |hist|
  {
    hide HistoryLine;
  }

  lemma PlainValid(cfg: Config, roots: Roots, s: Session, byte: char)
    requires Accepted(cfg) && CStrings(cfg) && Valid(cfg, s)
    ensures Valid(cfg, PlainByte(cfg, roots, s, byte).0)
  {
    hide ExecuteLine, PressTab, CStrings, WordBefore;
    if byte == '\t' {
      TabValid(cfg, roots, s);
    } else if byte == '\r' || byte == '\n' {
      ExecuteLineValid(cfg, roots, s, s.Line());
      ClearedValid(cfg, ExecuteLine(cfg, roots, s, s.Line()).0);
    }
  }

  lemma PressKeyValid(cfg: Config, s: Session, key: Key)
    requires Accepted(cfg) && Valid(cfg, s)
    ensures Valid(cfg, PressKey(cfg, s, key))
  {
    hide Bounded;
    if s.hist != [] {
      var view := NextView(s.view, |s.hist|, key == Up);
      assert view >= 0 ==> EntryAt(s.hist, view) in s.hist;
    }
  }

  /** Every input byte keeps the bounds of all the buffers, whatever the callbacks answer. */
  lemma InputByteValid(cfg: Config, roots: Roots, s: Session, byte: char)
    requires Accepted(cfg) && CStrings(cfg) && Valid(cfg, s)
    ensures Valid(cfg, InputByte(cfg, roots, s, byte).0)
  {
    hide PlainByte, PressKey, CStrings;
    var (ansi, seen) := Feed(s.ansi, byte);
    var t := s.(afterCr := byte == '\r', ansi := ansi);
    hide Feed;
    assert Valid(cfg, t) by { FeedBounded(s.ansi, byte); }
    PlainValid(cfg, roots, t, byte);
    if seen.Press? {
      PressKeyValid(cfg, t, seen.key);
    }
  }

  lemma FeedBounded(s: State, c: char)
    requires Bounded(s)
    ensures Bounded(Feed(s, c).0)
  {
  }

  // ----- streams -----

  /** sh_input: all the bytes of a block, and the first status that is not OK. */
  function InputAll(cfg: Config, roots: Roots, s: Session, data: string): (r: (Session, Status))
    requires Accepted(cfg) && CStrings(cfg) && Valid(cfg, s)
    ensures Valid(cfg, r.0)
    decreases |data|
  {
    if data == [] then (s, OK)
    else
      InputByteValid(cfg, roots, s, data[0]);
      var (t, status) := InputByte(cfg, roots, s, data[0]);
      var (u, later) := InputAll(cfg, roots, t, data[1..]);
      (u, if status != OK then status else later)
  }

  /** Neither the session nor the first error depends on how a stream is cut into blocks. */
  lemma {:induction false} ChunksDoNotMatter(cfg: Config, roots: Roots, s: Session, a: string, b: string)
    requires Accepted(cfg) && CStrings(cfg) && Valid(cfg, s)
    ensures var (t, first) := InputAll(cfg, roots, s, a);
      var (u, second) := InputAll(cfg, roots, t, b);
      InputAll(cfg, roots, s, a + b) == (u, if first != OK then first else second)
    decreases |a|
  {
    hide InputByte, Valid, CStrings, Accepted;
    if a == [] {
      assert a + b == b;
    } else {
      InputByteValid(cfg, roots, s, a[0]);
      ChunksDoNotMatter(cfg, roots, InputByte(cfg, roots, s, a[0]).0, a[1..], b);
      assert (a + b)[1..] == a[1..] + b;
    }
  }

  // ----- history navigation -----

  /** One key of a clamped walk between -1, the line being typed, and the oldest entry. */
  function Step(view: int, count: nat, key: Key): int {
    match key
    case Up => if view + 1 <= count - 1 then view + 1 else view
    case Down => if view - 1 >= -1 then view - 1 else view
    case _ => view
  }

  function WalkView(view: int, count: nat, keys: seq<Key>): int {
    if keys == [] then view else Step(WalkView(view, count, keys[..|keys| - 1]), count, keys[|keys| - 1])
  }

  /** The keys that move: in the history, or over the line. */
  predicate Moves(key: Key) {
    key != Delete
  }

  function PressAll(cfg: Config, s: Session, keys: seq<Key>): (t: Session)
    requires -1 <= s.view < |s.hist|
    ensures -1 <= t.view < |t.hist|
  {
    if keys == [] then s
    else
      var before := PressAll(cfg, s, keys[..|keys| - 1]);
      PressKeyView(cfg, before, keys[|keys| - 1]);
      PressKey(cfg, before, keys[|keys| - 1])
  }

  lemma PressKeyView(cfg: Config, s: Session, key: Key)
    requires -1 <= s.view < |s.hist|
    ensures var t := PressKey(cfg, s, key); -1 <= t.view < |t.hist|
  {
  }

  /** Only looking around: history and typed text are kept, and the line is what the view shows. */
  predicate Browsing(cfg: Config, typed: string, s: Session, t: Session)
    requires -1 <= t.view < |t.hist|
  {
    && t.hist == s.hist && t.calls == s.calls && t.echo == s.echo
    && t.Line() == (if t.view < 0 then typed else Cut(EntryAt(t.hist, t.view), cfg.lineMax))
    && (t.view >= 0 ==> t.draft == typed)
  }

  lemma MoveHistoryBrowses(cfg: Config, typed: string, s: Session, t: Session, up: bool)
    requires |typed| <= cfg.lineMax && -1 <= t.view < |t.hist|
    requires Browsing(cfg, typed, s, t)
    ensures var u := MoveHistory(cfg, t, up);
      && -1 <= u.view < |u.hist| && u.view == Step(t.view, |t.hist|, if up then Up else Down)
      && Browsing(cfg, typed, s, u)
  {
    var left := MoveHistory(cfg, t, up).left;
    assert left + [] == left;
  }

  lemma PressKeyBrowses(cfg: Config, typed: string, s: Session, t: Session, key: Key)
    requires |typed| <= cfg.lineMax && -1 <= t.view < |t.hist|
    requires Browsing(cfg, typed, s, t) && Moves(key)
    ensures var u := PressKey(cfg, t, key);
      -1 <= u.view < |u.hist| && u.view == Step(t.view, |t.hist|, key) && Browsing(cfg, typed, s, u)
  {
    hide Cut, EntryAt, Browsing;
    var u := PressKey(cfg, t, key);
    match key
    case Up => MoveHistoryBrowses(cfg, typed, s, t, true);
    case Down => MoveHistoryBrowses(cfg, typed, s, t, false);
    case Delete =>
    case _ =>
      CursorMoves(cfg, t, key);
      BrowsingMoves(cfg, typed, s, t, u);
  }

  /** The keys that move the cursor leave the line. */
  lemma CursorMoves(cfg: Config, t: Session, key: Key)
    requires -1 <= t.view < |t.hist| && key !in {Up, Down, Delete}
    ensures var u := PressKey(cfg, t, key); u == t.(left := u.left, right := u.right) && u.Line() == t.Line()
  {
    if key == Right && t.right != [] {
      assert t.left + [t.right[0]] + t.right[1..] == t.Line();
    } else if key == Left && t.left != [] {
      assert t.left[..|t.left| - 1] + ([t.left[|t.left| - 1]] + t.right) == t.Line();
    }
    assert [] + t.Line() == t.Line() == t.Line() + [];
  }

  lemma BrowsingMoves(cfg: Config, typed: string, s: Session, t: Session, u: Session)
    requires -1 <= t.view < |t.hist| && Browsing(cfg, typed, s, t)
    requires u == t.(left := u.left, right := u.right) && u.Line() == t.Line()
    ensures Browsing(cfg, typed, s, u)
  {
  }

  /**
   * From the typed line, any word of Up, Down, Left, Right, Home and End walks the view, clamped; the line
   * is the entry at the view, or the original unsent text whenever the view is back; nothing is stored.
   */
  lemma {:induction false} NavigationWalks(cfg: Config, s: Session, keys: seq<Key>)
    requires Valid(cfg, s) && s.view == -1
    requires forall k :: k in keys ==> Moves(k)
    ensures var t := PressAll(cfg, s, keys);
      t.view == WalkView(-1, |s.hist|, keys) && Browsing(cfg, s.Line(), s, t)
  {
    hide PressKey, Browsing;
    if keys == [] {
      assert Browsing(cfg, s.Line(), s, s) by { BrowsingStarts(cfg, s); }
    } else {
      var init := keys[..|keys| - 1];
      NavigationWalks(cfg, s, init);
      assert keys[|keys| - 1] in keys;
      var t := PressAll(cfg, s, init);
      assert t.hist == s.hist by { BrowsingKeeps(cfg, s.Line(), s, t); }
      PressKeyBrowses(cfg, s.Line(), s, t, keys[|keys| - 1]);
    }
  }

  lemma BrowsingStarts(cfg: Config, s: Session)
    requires s.view == -1
    ensures Browsing(cfg, s.Line(), s, s)
  {
  }

  lemma BrowsingKeeps(cfg: Config, typed: string, s: Session, t: Session)
    requires -1 <= t.view < |t.hist| && Browsing(cfg, typed, s, t)
    ensures t.hist == s.hist
  {
  }

  /** What follows ESC [ when a terminal sends a key. */
  function KeyTail(key: Key): string {
    match key
    case Up => ['A']
    case Down => ['B']
    case Right => ['C']
    case Left => ['D']
    case Home => ['H']
    case End => ['F']
    case Delete => ['3', '~']
  }

  function KeyBytes(key: Key): string {
    [ESC, '['] + KeyTail(key)
  }

  /** ESC [ begins a control sequence, whatever the decoder was in the middle of. */
  lemma KeyBegins(cfg: Config, roots: Roots, s: Session, rest: string)
    requires Accepted(cfg) && CStrings(cfg) && Valid(cfg, s)
    ensures var u := s.(ansi := Csi([], false), afterCr := false);
      Valid(cfg, u) && InputAll(cfg, roots, s, [ESC, '['] + rest) == InputAll(cfg, roots, u, rest)
  {
    var t, u := s.(ansi := Escape, afterCr := false), s.(ansi := Csi([], false), afterCr := false);
    hide InputByte, CStrings, InputAll, Valid;
    KeyOpens(cfg, roots, s);
    InputStep(cfg, roots, s, ESC, ['['] + rest, t);
    InputStep(cfg, roots, t, '[', rest, u);
    assert [ESC, '['] + rest == [ESC] + (['['] + rest);
  }

  lemma KeyOpens(cfg: Config, roots: Roots, s: Session)
    requires Valid(cfg, s)
    ensures var t, u := s.(ansi := Escape, afterCr := false), s.(ansi := Csi([], false), afterCr := false);
      && Valid(cfg, t) && Valid(cfg, u)
      && InputByte(cfg, roots, s, ESC) == (t, OK) && InputByte(cfg, roots, t, '[') == (u, OK)
  {
    hide PressKey, PlainByte;
  }

  /** The byte that ends a control sequence with a body presses its key. */
  lemma KeyEnds(cfg: Config, roots: Roots, s: Session, body: string, last: char, key: Key)
    requires Accepted(cfg) && CStrings(cfg) && Valid(cfg, s) && KeyTail(key) == body + [last]
    ensures var v := s.(ansi := Csi(body, false), afterCr := false);
      Valid(cfg, v) && InputAll(cfg, roots, v, [last]) == (PressKey(cfg, s.(ansi := Idle, afterCr := false), key), OK)
  {
    var v := s.(ansi := Csi(body, false), afterCr := false);
    var pressed := PressKey(cfg, s.(ansi := Idle, afterCr := false), key);
    KeyLast(cfg, roots, s, body, last, key);
    hide InputByte, CStrings, InputAll, Valid, PressKey, KeyTail;
    InputByteValid(cfg, roots, v, last);
    InputStep(cfg, roots, v, last, [], pressed);
    InputNothing(cfg, roots, pressed);
    assert [last] + [] == [last];
  }

  lemma KeyLast(cfg: Config, roots: Roots, s: Session, body: string, last: char, key: Key)
    requires Valid(cfg, s) && KeyTail(key) == body + [last]
    ensures var v := s.(ansi := Csi(body, false), afterCr := false);
      && Valid(cfg, v)
      && InputByte(cfg, roots, v, last) == (PressKey(cfg, s.(ansi := Idle, afterCr := false), key), OK)
  {
    hide PressKey, PlainByte;
    var tail := body + [last];
    assert |tail| == |body| + 1 && tail[..|body|] == body && tail[|body|] == last;
  }

  /** Whatever the decoder was in the middle of, the bytes of a key press that key and change nothing else. */
  lemma KeyBytesPress(cfg: Config, roots: Roots, s: Session, key: Key)
    requires Accepted(cfg) && CStrings(cfg) && Valid(cfg, s)
    ensures InputAll(cfg, roots, s, KeyBytes(key)) == (PressKey(cfg, s.(ansi := Idle, afterCr := false), key), OK)
  {
    hide PressKey, CStrings, InputAll, Valid;
    KeyBegins(cfg, roots, s, KeyTail(key));
    if key == Delete {
      DeleteBody(cfg, roots, s);
      KeyEnds(cfg, roots, s, ['3'], '~', key);
    } else {
      KeyEnds(cfg, roots, s, [], KeyTail(key)[0], key);
    }
  }

  lemma DeleteBody(cfg: Config, roots: Roots, s: Session)
    requires Accepted(cfg) && CStrings(cfg) && Valid(cfg, s)
    ensures var u, v := s.(ansi := Csi([], false), afterCr := false), s.(ansi := Csi(['3'], false), afterCr := false);
      Valid(cfg, u) && Valid(cfg, v) && InputAll(cfg, roots, u, ['3', '~']) == InputAll(cfg, roots, v, ['~'])
  {
    var u, v := s.(ansi := Csi([], false), afterCr := false), s.(ansi := Csi(['3'], false), afterCr := false);
    assert [] + ['3'] == ['3'] && ['3', '~'] == ['3'] + ['~'];
    assert Valid(cfg, u) && Valid(cfg, v) && InputByte(cfg, roots, u, '3') == (v, OK);
    InputStep(cfg, roots, u, '3', ['~'], v);
  }

  function WordBytes(keys: seq<Key>): string {
    if keys == [] then [] else WordBytes(keys[..|keys| - 1]) + KeyBytes(keys[|keys| - 1])
  }

  /** The bytes of any word of keys press those keys, one after the other. */
  lemma {:induction false} KeysPress(cfg: Config, roots: Roots, s: Session, keys: seq<Key>)
    requires Accepted(cfg) && CStrings(cfg) && Valid(cfg, s)
    ensures InputAll(cfg, roots, s, WordBytes(keys)) ==
      (if keys == [] then s else PressAll(cfg, s.(ansi := Idle, afterCr := false), keys), OK)
  {
    hide PressKey, CStrings, InputAll, KeyBytes;
    assert -1 <= s.view < |s.hist|;
    hide Valid;
    if keys == [] {
      InputNothing(cfg, roots, s);
    } else {
      var init, last := keys[..|keys| - 1], keys[|keys| - 1];
      var calm := s.(ansi := Idle, afterCr := false);
      KeysPress(cfg, roots, s, init);
      KeysKeepDecoder(cfg, calm, init);
      ChunksDoNotMatter(cfg, roots, s, WordBytes(init), KeyBytes(last));
      KeyBytesPress(cfg, roots, InputAll(cfg, roots, s, WordBytes(init)).0, last);
    }
  }

  lemma PressKeyKeepsDecoder(cfg: Config, s: Session, key: Key)
    requires -1 <= s.view < |s.hist|
    ensures PressKey(cfg, s, key).ansi == s.ansi && PressKey(cfg, s, key).afterCr == s.afterCr
  {
    hide Cut, NextView, EntryAt;
  }

  lemma {:induction false} KeysKeepDecoder(cfg: Config, s: Session, keys: seq<Key>)
    requires -1 <= s.view < |s.hist|
    ensures PressAll(cfg, s, keys).ansi == s.ansi && PressAll(cfg, s, keys).afterCr == s.afterCr
  {
    hide PressKey;
    if keys != [] {
      KeysKeepDecoder(cfg, s, keys[..|keys| - 1]);
      PressKeyKeepsDecoder(cfg, PressAll(cfg, s, keys[..|keys| - 1]), keys[|keys| - 1]);
    }
  }

  /** NavigationWalks for the bytes that arrive. */
  lemma NavigationInput(cfg: Config, roots: Roots, s: Session, keys: seq<Key>)
    requires Accepted(cfg) && CStrings(cfg) && Valid(cfg, s) && s.view == -1
    requires forall k :: k in keys ==> Moves(k)
    ensures var t := InputAll(cfg, roots, s, WordBytes(keys)).0;
      Valid(cfg, t) && t.view == WalkView(-1, |s.hist|, keys) && Browsing(cfg, s.Line(), s, t)
  {
    hide CStrings, InputAll, Browsing;
    var calm := s.(ansi := Idle, afterCr := false);
    assert Valid(cfg, calm) && calm.Line() == s.Line();
    hide Valid;
    KeysPress(cfg, roots, s, keys);
    NavigationWalks(cfg, calm, keys);
    BrowsingStarts(cfg, s);
    BrowsingSame(cfg, s.Line(), s, calm, PressAll(cfg, calm, keys));
  }

  lemma BrowsingSame(cfg: Config, typed: string, s: Session, calm: Session, t: Session)
    requires calm == s.(ansi := Idle, afterCr := false)
    requires -1 <= t.view < |t.hist| && Browsing(cfg, typed, calm, t)
    ensures Browsing(cfg, typed, s, t)
  {
  }

  /** One byte that is taken without an error. */
  lemma InputStep(cfg: Config, roots: Roots, s: Session, byte: char, rest: string, t: Session)
    requires Accepted(cfg) && CStrings(cfg) && Valid(cfg, s) && Valid(cfg, t)
    requires InputByte(cfg, roots, s, byte) == (t, OK)
    ensures InputAll(cfg, roots, s, [byte] + rest) == InputAll(cfg, roots, t, rest)
  {
    hide InputByte, CStrings, Valid;
    assert ([byte] + rest)[1..] == rest;
  }

  lemma InputNothing(cfg: Config, roots: Roots, s: Session)
    requires Accepted(cfg) && CStrings(cfg) && Valid(cfg, s)
    ensures InputAll(cfg, roots, s, []) == (s, OK)
  {
  }

  // ----- replay -----

  /** The line is one that the history keeps as it is, and running it leaves the history alone. */
  ghost predicate Replayable(cfg: Config, roots: Roots, line: string) {
    && ParseLine(line, cfg.argcMax).Parsed? && ParseLine(line, cfg.argcMax).tokens != []
    && var args := ParseLine(line, cfg.argcMax).tokens;
      && HistoryLine(cfg, roots, line, args) == Some(line)
      && Dispatch(cfg.mem, roots, cfg.builtins, args) != ClearHistory
  }

  /** What runs when a line is entered. */
  function ActionOf(cfg: Config, roots: Roots, line: string): Action {
    match ParseLine(line, cfg.argcMax)
    case Rejected(status) => Answer(status)
    case Parsed(args) => Dispatch(cfg.mem, roots, cfg.builtins, args)
  }

  lemma EnterRuns(cfg: Config, roots: Roots, s: Session)
    requires Accepted(cfg) && cfg.historyDepth > 0 && Valid(cfg, s) && Replayable(cfg, roots, s.Line())
    ensures var line := s.Line();
      var (t, status) := Enter(cfg, roots, s);
      var (performed, code) := Perform(cfg, s, ActionOf(cfg, roots, line));
      && t.hist == Added(s.hist, line, cfg.historyDepth, cfg.slotSize) && t.hist != [] && Newest(t.hist) == line
      && t.view == -1 && t.Line() == [] && t.calls == performed.calls && t.echo == performed.echo && status == code
  {
    hide Dispatch, HistoryLine, Tokens;
    var line := s.Line();
    assert line != [] by { NothingToRun(cfg.argcMax); }
  }

  lemma NothingToRun(capacity: nat)
    ensures ParseLine([], capacity).Parsed? ==> ParseLine([], capacity).tokens == []
  {
  }

  /**
   * Enter, Up, Enter replays a command.  When the entered line is replayable, Up shows it again, the
   * second Enter runs the same action with the same arguments, and the history stays as the first left it.
   */
  lemma EnterUpEnterReplays(cfg: Config, roots: Roots, s: Session)
    requires Accepted(cfg) && CStrings(cfg) && Valid(cfg, s)
    requires cfg.historyDepth > 0 && !s.ansi.Csi? && Replayable(cfg, roots, s.Line())
    ensures var line := s.Line();
      var first := InputByte(cfg, roots, s, '\r').0;
      Valid(cfg, first) &&
      var up := InputAll(cfg, roots, first, KeyBytes(Up)).0;
      var second := InputByte(cfg, roots, up, '\r').0;
      && up.Line() == line && up.hist == first.hist && second.hist == first.hist
      && first.calls == s.calls + CallsOf(cfg, roots, line)
      && second.calls == first.calls + CallsOf(cfg, roots, line)
  {
    hide InputAll, InputByte, Replayable, CStrings, Dispatch, Enter, PressKey, Added;
    var line := s.Line();
    InputByteValid(cfg, roots, s, '\r');
    EnterByte(cfg, roots, s);
    EnterRuns(cfg, roots, s.(afterCr := true, ansi := Idle));
    var first := InputByte(cfg, roots, s, '\r').0;
    KeyBytesPress(cfg, roots, first, Up);
    UpShowsNewest(cfg, first.(ansi := Idle, afterCr := false));
    var up := InputAll(cfg, roots, first, KeyBytes(Up)).0;
    EnterByte(cfg, roots, up);
    EnterRuns(cfg, roots, up.(afterCr := true, ansi := Idle));
    AddedAgain(first.hist, line, cfg.historyDepth, cfg.slotSize);
  }

  lemma AddedAgain(hist: seq<string>, line: string, depth: nat, slotSize: nat)
    requires hist != [] && Newest(hist) == line
    ensures Added(hist, line, depth, slotSize) == hist
  {
  }

  lemma EnterByte(cfg: Config, roots: Roots, s: Session)
    requires Valid(cfg, s) && !s.ansi.Csi?
    ensures InputByte(cfg, roots, s, '\r') == Enter(cfg, roots, s.(afterCr := true, ansi := Idle))
  {
    hide Enter;
  }

  lemma UpShowsNewest(cfg: Config, s: Session)
    requires Valid(cfg, s) && s.view == -1 && s.hist != [] && |Newest(s.hist)| <= cfg.lineMax
    ensures var t := PressKey(cfg, s, Up);
      t.Line() == Newest(s.hist) && t.hist == s.hist && t.calls == s.calls && t.ansi == s.ansi
  {
    assert Newest(s.hist) + [] == Newest(s.hist);
  }

  /** The handler calls that entering a line makes: one or none. */
  function CallsOf(cfg: Config, roots: Roots, line: string): (calls: seq<Call>)
    ensures |calls| <= 1
  {
    match ActionOf(cfg, roots, line)
    case Invoke(call) => [call]
    case _ => []
  }

  // ----- redacted entries -----

  /**
   * The entry that the history keeps of a line with hidden arguments reads back as the arguments with
   * exactly those replaced, if and only if the redacted line fits a slot (and the longest line) and the
   * other arguments print faithfully.
   */
  lemma RedactedEntryReadsBack(cfg: Config, roots: Roots, hist: seq<string>, line: string, args: seq<string>, room: nat)
    requires Accepted(cfg) && cfg.historyDepth > 0 && Entries(cfg, hist) && |args| <= room
    requires var r := Resolve(cfg.mem, roots, args); !(r.cmd.Some? && r.cmd.value.noHistory) && AnyMasked(cfg, r, args)
    ensures var r := Resolve(cfg.mem, roots, args);
      var out, kept := Redacted(cfg, r, args), Remember(cfg, roots, hist, line, args);
      kept != [] &&
      (Tokens(Newest(kept), room) == Parsed(out) <==>
         |Print(out)| < cfg.slotSize && |Print(out)| <= MAX_LINE_LEN && PlainPrintable(cfg, r, args))
  {
    hide Tokens, Print, Masked, Resolve, PlainPrintable;
    var r := Resolve(cfg.mem, roots, args);
    var out := Redacted(cfg, r, args);
    var text, n := Print(out), Min(MAX_LINE_LEN, cfg.slotSize - 1);
    assert text != [] by { PrintsSomething(out); }
    assert hist != [] ==> Newest(hist) in hist;
    assert Cut(Cut(text, MAX_LINE_LEN), cfg.slotSize - 1) == Cut(text, n);
    RedactedReadsBack(cfg, r, args, n, room);
  }

  /** The text that a line with hidden arguments is recorded as. */
  function RedactedText(cfg: Config, roots: Roots, args: seq<string>): string {
    Cut(Print(Redacted(cfg, Resolve(cfg.mem, roots, args), args)), MAX_LINE_LEN)
  }

  /**
   * Entering a line makes two equal neighbours in one case exactly: the line is recorded with hidden
   * arguments, it is then too long for a slot, and its part that fits is the newest entry already.
   */
  lemma RememberMakesTwins(cfg: Config, roots: Roots, hist: seq<string>, line: string, args: seq<string>)
    requires Accepted(cfg) && cfg.historyDepth > 0 && Entries(cfg, hist) && NoTwins(hist) && |line| <= cfg.lineMax
    ensures var r, text := Resolve(cfg.mem, roots, args), RedactedText(cfg, roots, args);
      !NoTwins(Remember(cfg, roots, hist, line, args)) <==>
        && !(r.cmd.Some? && r.cmd.value.noHistory) && AnyMasked(cfg, r, args)
        && cfg.historyDepth >= 2 && |text| >= cfg.slotSize && hist != [] && Newest(hist) == text[..cfg.slotSize - 1]
  {
    hide Resolve, AnyMasked, Added, NoTwins, Print;
    var entry := HistoryLine(cfg, roots, line, args);
    if entry.Some? {
      AddKeeps(hist, entry.value, cfg.historyDepth, cfg.slotSize);
    }
  }

  /** A shell with lines of three characters, and one command p that is sensitive. */
  function SmallShell(cfg: Config): Config {
    cfg.(lineMax := 3, argcMax := 2, historyDepth := 2, slotSize := 4, mask := (path, i, arg) => false,
         mem := id => [Plain("p").(handler := true, sensitive := true)])
  }

  /** Such lines: "p a" and then "p b" are both kept as the first three characters of "p <hidden>". */
  lemma SecretsMakeTwins(env: Config)
    ensures var cfg, roots := SmallShell(env), Flat(Level(At(0), 1));
      && SmallReads(cfg, roots)
      && var first := Remember(cfg, roots, [], "p a", ["p", "a"]);
        first == ["p <"] && Remember(cfg, roots, first, "p b", ["p", "b"]) == ["p <", "p <"]
  {
    var cfg, roots := SmallShell(env), Flat(Level(At(0), 1));
    SmallResolves(cfg, roots, "a");
    SmallResolves(cfg, roots, "b");
    SmallPrint();
    SmallIsAccepted(env);
    hide SmallReads;
    var text := Print(["p", MASK]);
    assert Cut(Cut(text, MAX_LINE_LEN), 3) == text[..3] == "p <";
    hide Print, Resolve;
    assert KeepLast([] + ["p <"], 2) == ["p <"] && KeepLast(["p <"] + ["p <"], 2) == ["p <", "p <"];
  }

  /** The shell is accepted, its table can be registered, and the two lines tokenize. */
  ghost predicate SmallReads(cfg: Config, roots: Roots) {
    && Accepted(cfg) && Registered(cfg.mem, roots, cfg.builtins)
    && ParseLine("p a", cfg.argcMax) == Parsed(["p", "a"]) && ParseLine("p b", cfg.argcMax) == Parsed(["p", "b"])
  }

  lemma SmallIsAccepted(env: Config)
    ensures SmallReads(SmallShell(env), Flat(Level(At(0), 1)))
  {
    hide Tokens;
    SmallParses("a");
    SmallParses("b");
    assert "p " + "a" == "p a" && "p " + "b" == "p b";
    assert RESERVED[0] == "clear" && RESERVED[1] == "echo" && RESERVED[2] == "help" && RESERVED[3] == "history";
  }

  lemma SmallResolves(cfg: Config, roots: Roots, secret: string)
    requires roots == Flat(Level(At(0), 1)) && cfg.mask == ((path, i, arg) => false)
    requires cfg.mem(0) == [Plain("p").(handler := true, sensitive := true)]
    ensures var args, r := ["p", secret], Resolve(cfg.mem, roots, ["p", secret]);
      && r == Resolved(Some(cfg.mem(0)[0]), 1)
      && AnyMasked(cfg, r, args) && Redacted(cfg, r, args) == ["p", MASK]
  {
    var args := ["p", secret];
    assert args[1..] == [secret];
    assert Find(cfg.mem(0), "p") == Some(cfg.mem(0)[0]);
    assert ResolveIn(cfg.mem, [], [secret]) == Resolved(None, 0);
    var r := Resolve(cfg.mem, roots, args);
    assert Masked(cfg, r, args, 1);
  }

  lemma SmallParses(secret: string)
    requires secret == "a" || secret == "b"
    ensures ParseLine("p " + secret, 2) == Parsed(["p", secret])
  {
    hide Tokens, NeedsQuotes;
    var tokens := ["p", secret];
    SmallTokens(secret);
    assert tokens[1..] == [secret];
    assert Joined(tokens) == "p" + [' '] + secret == "p " + secret;
    JoinedReadsBack(tokens, 2);
  }

  lemma SmallTokens(secret: string)
    requires secret == "a" || secret == "b"
    ensures PrintToken("p") == "p" && PrintToken(secret) == secret && Printable("p") && Printable(secret)
  {
    PrintedBare("p");
    PrintedBare(secret);
  }

  lemma SmallPrint()
    ensures |Print(["p", MASK])| == 10 && Print(["p", MASK])[..3] == "p <"
  {
    SmallPrintIs();
    hide Print;
    assert "p" + [' '] + MASK == "p <hidden>";
  }

  lemma SmallPrintIs()
    ensures Print(["p", MASK]) == "p" + [' '] + MASK
  {
    var tokens := ["p", MASK];
    PlainTokens();
    hide PrintToken, PrintOnto, PrintAll;
    PrintIsJoined([], tokens);
    assert tokens[1..] == [MASK] && Joined([MASK]) == MASK;
  }

  lemma PrintsSomething(tokens: seq<string>)
    requires tokens != []
    ensures Print(tokens) != []
  {
    hide PrintToken;
    PrintIsJoined([], tokens);
  }

  // ----- edits -----

  /** What Ctrl-W removes: the blanks before the cursor and the one word before them. */
  lemma DeleteWordRemoves(left: string)
    ensures var k, b := WordBefore(left), BlankStart(left);
      && k <= b <= |left|
      && NoSpace(left[k..b]) && (k > 0 ==> IsSpace(left[k - 1]))
      && (forall i :: b <= i < |left| ==> IsSpace(left[i])) && (b > 0 ==> !IsSpace(left[b - 1]))
  {
    BlanksAfter(left);
  }

  lemma {:induction false} BlanksAfter(left: string)
    ensures var b := BlankStart(left);
      (forall i :: b <= i < |left| ==> IsSpace(left[i])) && (b > 0 ==> !IsSpace(left[b - 1]))
  {
    if left != [] && IsSpace(left[|left| - 1]) {
      BlanksAfter(left[..|left| - 1]);
    }
  }

  /** Backspace undoes a typed character, Delete undoes it after a step to the left. */
  lemma TypedThenRemoved(cfg: Config, s: Session, c: char)
    requires Valid(cfg, s) && InsertChar(cfg, s, c).1 == OK
    ensures var t := InsertChar(cfg, s, c).0;
      Backspace(t) == s.(view := -1) && DeleteAtCursor(PressKey(cfg, t, Left)) == s.(view := -1)
  {
    var t := InsertChar(cfg, s, c).0;
    assert t.left[..|t.left| - 1] == s.left && ([c] + s.right)[1..] == s.right;
  }
}
