/**
 * shell/src/sh_shell.c and the registration of shell/src/sh_command.c: the shell object itself, with its
 * buffers.  Every method is proved against the editor functions of module Editor.
 */
module ShellCore {
  import opened Text
  import opened Tokenizer
  import opened Ansi
  import opened History
  import opened Commands
  import opened Registry
  import opened Config
  import opened Completion
  import opened Masking
  import opened CompletionLaws
  import opened Editor
  import opened EditorLaws

  /** sh_t.  The history fields and the decoder are objects of their own, as ansi is in the original. */
  class Shell {
    const cfg: Config
    var roots: Roots

    const line: array<char>
    var lineLen: nat
    var cursor: nat

    const argv: array<nat>  // offsets into the buffer that was tokenized last

    const ring: Ring
    var historyView: int
    const draft: array?<char>

    var echoEnabled: bool
    const ansi: Decoder
    var lastInputWasCr: bool
    var calls: seq<Call>  // the handler calls made so far

    /** What sh_init has checked, and that the buffers are apart. */
    ghost predicate Fixed() {
      && Accepted(cfg) && CStrings(cfg)
      && line.Length > cfg.lineMax && argv.Length >= cfg.argcMax
      && ring.depth == cfg.historyDepth && ring.slotSize == cfg.slotSize
      && (cfg.historyDepth > 0 ==> draft != null)
      && (draft != null ==> draft.Length > cfg.lineMax && draft != line && draft != ring.storage && draft != ansi.csi)
      && line != ring.storage && line != ansi.csi && ring.storage != ansi.csi
    }

    ghost predicate LineOk()
      reads this, line
    {
      && cursor <= lineLen <= cfg.lineMax < line.Length
      && line[lineLen] == NUL && forall k :: 0 <= k < lineLen ==> line[k] != NUL
    }

    ghost function DraftText(): string
      reads draft
    {
      if draft == null then [] else CStr(draft[..])
    }

    ghost function Frame(): set<object> {
      {this, line, argv, ring, ring.storage, ansi, ansi.csi} + if draft == null then {} else {draft}
    }

    ghost predicate Valid()
      reads this, line, ring, ring.storage, ansi, ansi.csi, draft
    {
      Fixed() && LineOk() && ring.Valid() && ansi.Valid() && Editor.Valid(cfg, Abs())
    }

    /** The session these buffers stand for. */
    ghost function Abs(): Session
      reads this, line, ring, ring.storage, ansi, ansi.csi, draft
      requires cursor <= lineLen <= line.Length && ring.Valid() && ansi.Valid()
    {
      Session(line[..cursor], line[cursor..lineLen], ring.Entries(), historyView, DraftText(),
              ansi.Abs(), lastInputWasCr, echoEnabled, calls)
    }

    /** sh_init, on a configuration and buffers that it accepts. */
    constructor (cfg: Config, line: array<char>, argv: array<nat>, historyStorage: array<char>, draft: array?<char>,
        echo: bool)
      requires Accepted(cfg) && CStrings(cfg)
      requires line.Length > cfg.lineMax && argv.Length >= cfg.argcMax
      requires cfg.historyDepth * cfg.slotSize <= historyStorage.Length
      requires cfg.historyDepth > 0 ==> draft != null
      requires draft != null ==> draft.Length > cfg.lineMax && draft != line && draft != historyStorage
      requires line != historyStorage
      modifies line, draft
      ensures Valid() && Abs() == Fresh(echo) && roots == Flat(Level(Null, 0))
      ensures this.cfg == cfg && this.line == line && this.draft == draft && ring.storage == historyStorage
    {
      hide CStrings;
      this.cfg, this.line, this.argv, this.draft := cfg, line, argv, draft;
      ring := new Ring(historyStorage, cfg.historyDepth, cfg.slotSize);
      ansi := new Decoder();
      roots := Flat(Level(Null, 0));
      lineLen, cursor, historyView := 0, 0, -1;
      lastInputWasCr, echoEnabled, calls := false, echo, [];
      new;
      line[0] := NUL;
      if draft != null {
        draft[0] := NUL;
      }
    }

    // ----- the line buffer -----

    /** The bytes from dst to the end of the line give way to those from src on, terminator included. */
    method Shift(dst: nat, src: nat)
      requires LineOk() && src <= lineLen && dst + (lineLen - src) <= cfg.lineMax
      modifies line
      ensures line[..dst] == old(line[..dst])
      ensures line[dst..dst + (lineLen - src)] == old(line[src..lineLen])
      ensures line[dst + (lineLen - src)] == NUL
    {
      MemMove(line, dst, src, lineLen - src + 1);
    }

    /** The line buffer holds these two texts around the cursor. */
    ghost predicate Shows(left: string, right: string)
      reads this, line
    {
      LineOk() && line[..cursor] == left && line[cursor..lineLen] == right
    }

    /** These texts are shown when the bytes are theirs. */
    lemma ShowsThese(left: string, right: string)
      requires cursor <= lineLen <= cfg.lineMax < line.Length && line[lineLen] == NUL
      requires line[..cursor] == left && line[cursor..lineLen] == right && NoNul(left) && NoNul(right)
      ensures Shows(left, right)
    {
      assert forall k :: 0 <= k < lineLen ==> line[k] == if k < cursor then left[k] else right[k - cursor];
    }

    /** The buffers stand for t when each part of them does. */
    lemma Stands(t: Session)
      requires Fixed() && Shows(t.left, t.right) && Editor.Valid(cfg, t)
      requires ring.Valid() && ansi.Valid()
      requires t.hist == ring.Entries() && t.ansi == ansi.Abs() && t.draft == DraftText() && t.view == historyView
      requires t.echo == echoEnabled && t.afterCr == lastInputWasCr && t.calls == calls
      ensures Valid() && Abs() == t
    {
      hide Ring.Entries, Ring.Valid, Decoder.Abs, Decoder.Valid, CStr, CStrings, Editor.Valid;
    }

    /** After an edit of the line of a shell that stood for s: everything else is as it was. */
    lemma Edited(s: Session, left: string, right: string)
      requires Fixed() && Shows(left, right) && Editor.Valid(cfg, s)
      requires historyView == -1 && NoNul(left) && NoNul(right)
      requires ring.Valid() && ansi.Valid()
      requires s.hist == ring.Entries() && s.ansi == ansi.Abs() && s.draft == DraftText()
      requires s.echo == echoEnabled && s.afterCr == lastInputWasCr && s.calls == calls
      ensures Valid() && Abs() == s.(left := left, right := right, view := -1)
    {
      hide Ring.Entries, Ring.Valid, Decoder.Abs, Decoder.Valid, CStr, CStrings;
    }

    /** The buffer edits of insert_char. */
    method InsertAt(c: char)
      requires LineOk() && lineLen < cfg.lineMax && c != NUL
      modifies this`lineLen, this`cursor, line
      ensures Shows(old(line[..cursor]) + [c], old(line[cursor..lineLen]))
    {
      ghost var left, right := line[..cursor], line[cursor..lineLen];
      assert NoNul(left) && NoNul(right);
      Shift(cursor + 1, cursor);
      line[cursor] := c;
      cursor := cursor + 1;
      lineLen := lineLen + 1;
      assert line[..cursor] == left + [c] && line[cursor..lineLen] == right;
      ShowsThese(left + [c], right);
    }

    /** insert_char. */
    method InsertChar(c: char) returns (status: Status)
      requires Valid() && ' ' <= c < DEL
      modifies this`lineLen, this`cursor, this`historyView, line
      ensures Valid() && (Abs(), status) == Editor.InsertChar(cfg, old(Abs()), c)
    {
      hide Ring.Entries, Ring.Valid, Decoder.Abs, Decoder.Valid, CStr, CStrings;
      if lineLen + 1 >= cfg.lineMax + 1 {
        return LineTooLong;
      }
      ghost var s, left, right := Abs(), line[..cursor], line[cursor..lineLen];
      InsertAt(c);
      historyView := -1;
      Edited(s, left + [c], right);
      return OK;
    }

    /** The buffer edits of backspace. */
    method EraseBefore()
      requires LineOk() && cursor > 0
      modifies this`lineLen, this`cursor, line
      ensures Shows(old(line[..cursor - 1]), old(line[cursor..lineLen]))
    {
      ghost var left, right := line[..cursor - 1], line[cursor..lineLen];
      assert NoNul(left) && NoNul(right);
      Shift(cursor - 1, cursor);
      cursor := cursor - 1;
      lineLen := lineLen - 1;
      ShowsThese(left, right);
    }

    /** backspace. */
    method Backspace()
      requires Valid()
      modifies this`lineLen, this`cursor, this`historyView, line
      ensures Valid() && Abs() == Editor.Backspace(old(Abs()))
    {
      hide Ring.Entries, Ring.Valid, Decoder.Abs, Decoder.Valid, CStr, CStrings;
      if cursor == 0 {
        return;
      }
      ghost var s, left, right := Abs(), line[..cursor], line[cursor..lineLen];
      assert left[..|left| - 1] == line[..cursor - 1];
      EraseBefore();
      historyView := -1;
      Edited(s, left[..|left| - 1], right);
    }

    /** delete_at_cursor. */
    method DeleteAtCursor()
      requires Valid()
      modifies this`lineLen, this`cursor, this`historyView, line
      ensures Valid() && Abs() == Editor.DeleteAtCursor(old(Abs()))
    {
      hide Ring.Entries, Ring.Valid, Decoder.Abs, Decoder.Valid, CStr, CStrings;
      if cursor >= lineLen {
        return;
      }
      ghost var s, left, right := Abs(), line[..cursor], line[cursor..lineLen];
      assert right[1..] == line[cursor + 1..lineLen];
      Shift(cursor, cursor + 1);
      lineLen := lineLen - 1;
      historyView := -1;
      ShowsThese(left, right[1..]);
      Edited(s, left, right[1..]);
    }

    /** The two loops of delete_word_left. */
    method FindWordLeft() returns (start: nat)
      requires LineOk()
      ensures start == WordBefore(line[..cursor])
    {
      start := cursor;
      while start > 0 && IsSpace(line[start - 1])
        invariant start <= cursor
        invariant BlankStart(line[..cursor]) == BlankStart(line[..start])
      {
        assert line[..start][..start - 1] == line[..start - 1];
        start := start - 1;
      }
      assert line[..cursor][..start] == line[..start];
      ghost var blank := start;
      while start > 0 && !IsSpace(line[start - 1])
        invariant start <= blank
        invariant WordStart(line[..blank]) == WordStart(line[..start])
      {
        assert line[..start][..start - 1] == line[..start - 1];
        start := start - 1;
      }
    }

    /** The buffer edits of delete_word_left. */
    method EraseFrom(start: nat)
      requires LineOk() && start <= cursor
      modifies this`lineLen, this`cursor, line
      ensures Shows(old(line[..start]), old(line[cursor..lineLen]))
    {
      ghost var left, right := line[..start], line[cursor..lineLen];
      assert NoNul(left) && NoNul(right);
      Shift(start, cursor);
      lineLen := lineLen - (cursor - start);
      cursor := start;
      ShowsThese(left, right);
    }

    /** delete_word_left. */
    method DeleteWordLeft()
      requires Valid()
      modifies this`lineLen, this`cursor, this`historyView, line
      ensures Valid() && Abs() == Editor.DeleteWordLeft(old(Abs()))
    {
      hide Ring.Entries, Ring.Valid, Decoder.Abs, Decoder.Valid, CStr, CStrings, WordBefore;
      ghost var s, left, right := Abs(), line[..cursor], line[cursor..lineLen];
      var start := FindWordLeft();
      if start == cursor {
        return;
      }
      assert left[..start] == line[..start];
      EraseFrom(start);
      historyView := -1;
      Edited(s, left[..start], right);
    }

    ghost predicate LineWiped()
      reads line
      requires Fixed()
    {
      forall i :: 0 <= i <= cfg.lineMax ==> line[i] == NUL
    }

    ghost predicate DraftWiped()
      reads draft
      requires Fixed()
    {
      draft != null ==> forall i :: 0 <= i <= cfg.lineMax ==> draft[i] == NUL
    }

    /** The line is emptied, all of it when secure clearing is on. */
    method EmptyLine()
      requires Fixed()
      modifies this`lineLen, this`cursor, line
      ensures Shows([], []) && (cfg.secureClear ==> LineWiped())
    {
      lineLen, cursor := 0, 0;
      if cfg.secureClear {
        MemZero(line, cfg.lineMax + 1);
      } else {
        line[0] := NUL;
      }
    }

    /** The draft, if there is one, is emptied. */
    method EmptyDraft(secure: bool)
      requires Fixed()
      modifies draft
      ensures DraftText() == [] && (secure ==> DraftWiped())
    {
      if draft != null {
        if secure {
          MemZero(draft, cfg.lineMax + 1);
        } else {
          draft[0] := NUL;
        }
      }
    }

    /** clear_input_line. */
    method ClearInputLine()
      requires Valid()
      modifies this`lineLen, this`cursor, this`historyView, line, draft
      ensures Valid() && Abs() == Editor.ClearInputLine(cfg, old(Abs()))
      ensures cfg.secureClear ==> LineWiped() && DraftWiped()
    {
      hide Ring.Entries, Ring.Valid, Decoder.Abs, Decoder.Valid, CStr, CStrings;
      ghost var s := Abs();
      EmptyLine();
      historyView := -1;
      if cfg.secureClear {
        EmptyDraft(true);
      }
      Stands(Editor.ClearInputLine(cfg, s));
    }

    /** cancel_input_line. */
    method CancelInputLine()
      requires Valid()
      modifies this`lineLen, this`cursor, this`historyView, line, draft, ansi
      ensures Valid() && Abs() == Editor.CancelInputLine(old(Abs()))
      ensures cfg.secureClear ==> LineWiped() && DraftWiped()
    {
      hide Ring.Entries, Ring.Valid, Decoder.Abs, Decoder.Valid, CStr, CStrings;
      ghost var s := Abs();
      EmptyLine();
      historyView := -1;
      EmptyDraft(cfg.secureClear);
      ansi.Reset();
      Stands(Editor.CancelInputLine(s));
    }

    // ----- history -----

    /** set_line: as much of the text as the line holds, with the cursor at its end. */
    method SetLine(text: string)
      requires Fixed() && NoNul(text)
      modifies this`lineLen, this`cursor, line
      ensures Shows(Cut(text, cfg.lineMax), [])
    {
      var len := |text|;
      if len >= cfg.lineMax + 1 {
        len := cfg.lineMax;
      }
      MemCopy(line, 0, text[..len]);
      line[len] := NUL;
      lineLen, cursor := len, len;
      assert line[..len] == text[..len];
    }

    /** The typed line is kept as the draft. */
    method SaveDraft()
      requires Fixed() && LineOk() && draft != null
      modifies draft
      ensures DraftText() == Cut(line[..lineLen], cfg.lineMax)
    {
      var len := lineLen;
      if len >= cfg.lineMax + 1 {
        len := cfg.lineMax;
      }
      ghost var text := line[..lineLen];
      MemCopy(draft, 0, line[..len]);
      draft[len] := NUL;
      assert text[..len] == line[..len];
      CStrIs(draft[..], text[..len]);
    }

    /** The first half of move_history: the draft is saved when the walk starts, and the view moves. */
    method MoveView(up: bool)
      requires Fixed() && LineOk() && draft != null && -1 <= historyView < ring.count
      modifies this`historyView, draft
      ensures historyView == NextView(old(historyView), ring.count, up)
      ensures DraftText() == if old(historyView) < 0 then Cut(line[..lineLen], cfg.lineMax) else old(DraftText())
    {
      hide CStr, CStrings, LineOk;
      if historyView < 0 {
        SaveDraft();
      }
      if up {
        if historyView < ring.count - 1 {
          historyView := historyView + 1;
        }
      } else if historyView >= 0 {
        historyView := historyView - 1;
      }
    }

    /** move_history. */
    method MoveHistory(up: bool)
      requires Valid()
      modifies this`lineLen, this`cursor, this`historyView, line, draft
      ensures Valid() && Abs() == Editor.MoveHistory(cfg, old(Abs()), up)
    {
      hide Ring.Entries, Ring.Valid, Decoder.Abs, Decoder.Valid, CStr, CStrings;
      if ring.count == 0 {
        return;
      }
      ghost var s := Abs();
      ghost var t := Editor.MoveHistory(cfg, s, up);
      assert s.Line() == line[..lineLen] && -1 <= s.view < ring.count;
      MovedIs(s, up);
      hide Editor.MoveHistory, Editor.Valid;
      MoveView(up);
      ShowView();
      Stands(t);
    }

    lemma MovedIs(s: Session, up: bool)
      requires Accepted(cfg) && CStrings(cfg) && Editor.Valid(cfg, s) && s.hist != []
      ensures var t := Editor.MoveHistory(cfg, s, up);
        && Editor.Valid(cfg, t) && |t.draft| <= cfg.lineMax
        && t.draft == (if s.view < 0 then Cut(s.Line(), cfg.lineMax) else s.draft)
        && t.view == NextView(s.view, |s.hist|, up)
        && t == s.(left := Cut(if t.view < 0 then t.draft else EntryAt(s.hist, t.view), cfg.lineMax),
                   right := [], view := t.view, draft := t.draft)
    {
      hide CStrings;
      PressKeyValid(cfg, s, if up then Up else Down);
    }

    /** The text move_history shows: the entry at the view, or the draft. */
    method ShownText() returns (text: string)
      requires Fixed() && ring.Valid() && -1 <= historyView < ring.count
      requires |DraftText()| <= cfg.lineMax
      ensures text == if historyView < 0 then DraftText() else EntryAt(ring.Entries(), historyView)
      ensures NoNul(text)
    {
      hide Ring.Entries, Ring.Valid, CStrings, CStr;
      if historyView < 0 {
        if draft == null {
          return [];
        }
        assert draft[0..0 + draft.Length] == draft[..];
        CStrInside(draft[..]);
        text := StrAt(draft, 0, draft.Length);
      } else {
        var slot := ring.GetNewest(historyView);
        text := StrAt(ring.storage, slot.value, ring.slotSize);
      }
    }

    /** The second half of move_history: the line shows what the view stands for. */
    method ShowView()
      requires Fixed() && ring.Valid() && -1 <= historyView < ring.count
      requires |DraftText()| <= cfg.lineMax
      modifies this`lineLen, this`cursor, line
      ensures
        var text := if historyView < 0 then DraftText() else EntryAt(old(ring.Entries()), historyView);
        Shows(Cut(text, cfg.lineMax), [])
    {
      hide Ring.Entries, Ring.Valid, CStrings, CStr;
      var text := ShownText();
      SetLine(text);
    }

    /** handle_escape_key. */
    method HandleEscapeKey(key: Key)
      requires Valid()
      modifies this`lineLen, this`cursor, this`historyView, line, draft
      ensures Valid() && Abs() == PressKey(cfg, old(Abs()), key)
    {
      hide Ring.Entries, Ring.Valid, Decoder.Abs, Decoder.Valid, CStr, CStrings;
      KeyMoves(Abs(), key);
      hide PressKey, Editor.Valid, Editor.MoveHistory, Editor.DeleteAtCursor;
      match key {
        case Up => MoveHistory(true);
        case Down => MoveHistory(false);
        case Right => if cursor < lineLen { MoveCursor(cursor + 1, key); }
        case Left => if cursor > 0 { MoveCursor(cursor - 1, key); }
        case Home => MoveCursor(0, key);
        case End => MoveCursor(lineLen, key);
        case Delete => DeleteAtCursor();
      }
    }

    /** What the keys do, by the place of the cursor in the whole line. */
    lemma KeyMoves(s: Session, key: Key)
      requires -1 <= s.view < |s.hist|
      ensures var all, t := s.Line(), PressKey(cfg, s, key);
        match key
        case Up => t == Editor.MoveHistory(cfg, s, true)
        case Down => t == Editor.MoveHistory(cfg, s, false)
        case Right => t == if s.right == [] then s else s.(left := all[..|s.left| + 1], right := all[|s.left| + 1..])
        case Left => t == if s.left == [] then s else s.(left := all[..|s.left| - 1], right := all[|s.left| - 1..])
        case Home => t == s.(left := all[..0], right := all[0..])
        case End => t == s.(left := all[..|all|], right := all[|all|..])
        case Delete => t == Editor.DeleteAtCursor(s)
    {
      hide Editor.MoveHistory, Editor.DeleteAtCursor;
      var all, c := s.Line(), |s.left|;
      match key
      case Right =>
        assert s.right != [] ==> all[..c + 1] == s.left + [s.right[0]] && all[c + 1..] == s.right[1..];
      case Left =>
        assert s.left != [] ==> all[..c - 1] == s.left[..c - 1] && all[c - 1..] == [s.left[c - 1]] + s.right;
      case Home => assert all[..0] == [] && all[0..] == all;
      case End => assert all[..|all|] == all && all[|all|..] == [];
      case _ =>
    }

    /** The cursor moves over the text. */
    method MoveCursor(to: nat, ghost key: Key)
      requires Valid() && to <= lineLen
      requires var t := PressKey(cfg, Abs(), key);
        t == Abs().(left := Abs().Line()[..to], right := Abs().Line()[to..])
      modifies this`cursor
      ensures Valid() && Abs() == PressKey(cfg, old(Abs()), key)
    {
      hide Ring.Entries, Ring.Valid, Decoder.Abs, Decoder.Valid, CStr, CStrings, PressKey;
      ghost var s := Abs();
      PressKeyValid(cfg, s, key);
      cursor := to;
      assert s.Line() == line[..lineLen];
      Stands(PressKey(cfg, s, key));
    }

    // ----- execution -----

    /** The history part of sh_execute_line. */
    method Record(text: string, args: seq<string>)
      requires Fixed() && ring.Valid() && NoNul(text) && forall a :: a in args ==> NoNul(a)
      modifies ring, ring.storage
      ensures ring.Valid() && ring.Entries() == Remember(cfg, roots, old(ring.Entries()), text, args)
    {
      hide Ring.Entries, Ring.Valid, CStr, CStrings, HistoryLine, Added;
      var out := new char[MAX_LINE_LEN + 1];
      var keep := BuildHistoryLine(cfg, roots, text, args, out);
      if keep {
        assert out[0..0 + out.Length] == out[..];
        var entry := StrAt(out, 0, out.Length);
        ring.Add(entry);
      }
    }

    /** sh_history_clear. */
    method ClearHistory()
      requires Fixed() && ring.Valid()
      modifies this`historyView, draft, ring, ring.storage
      ensures ring.Valid() && ring.Entries() == [] && DraftText() == [] && historyView == -1
      ensures DraftWiped() && forall i :: 0 <= i < cfg.historyDepth * cfg.slotSize ==> ring.storage[i] == NUL
    {
      hide Ring.Entries, Ring.Valid, CStr, CStrings;
      historyView := -1;
      EmptyDraft(true);
      ring.Clear();
    }

    /** sh_command_dispatch_internal, including what the built-ins and the handler change. */
    method RunCommand(args: seq<string>, ghost s: Session) returns (status: Status)
      requires Fixed() && ring.Valid()
      requires s.hist == ring.Entries() && s.draft == DraftText() && s.view == historyView
      requires s.echo == echoEnabled && s.calls == calls
      modifies this`historyView, this`calls, this`echoEnabled, draft, ring, ring.storage
      ensures ring.Valid()
      ensures var (t, code) := Perform(cfg, s, Dispatch(cfg.mem, roots, cfg.builtins, args));
        && status == code && t.hist == ring.Entries() && t.draft == DraftText() && t.view == historyView
        && t.echo == echoEnabled && t.calls == calls
    {
      hide Ring.Entries, Ring.Valid, CStr, CStrings, Dispatch;
      var action := DispatchCommand(cfg.mem, roots, cfg.builtins, args);
      match action
      case Answer(code) => return code;
      case Invoke(call) =>
        status := cfg.handle(calls, call);
        calls := calls + [call];
      case ClearHistory =>
        ClearHistory();
        return OK;
      case SetEcho(on) =>
        echoEnabled := on;
        return OK;
    }

    /** The end of sh_execute_line for a line with arguments. */
    method RecordAndRun(text: string, args: seq<string>, ghost s: Session) returns (status: Status)
      requires Fixed() && ring.Valid() && NoNul(text) && forall a :: a in args ==> NoNul(a)
      requires s.hist == ring.Entries() && s.draft == DraftText() && s.view == historyView
      requires s.echo == echoEnabled && s.calls == calls
      modifies this`historyView, this`calls, this`echoEnabled, draft, ring, ring.storage
      ensures ring.Valid()
      ensures var (t, code) := Perform(cfg, s.(hist := Remember(cfg, roots, s.hist, text, args)),
          Dispatch(cfg.mem, roots, cfg.builtins, args));
        && status == code && t.hist == ring.Entries() && t.draft == DraftText() && t.view == historyView
        && t.echo == echoEnabled && t.calls == calls
    {
      hide Ring.Entries, Ring.Valid, CStr, CStrings, Remember, Dispatch, Perform;
      Record(text, args);
      status := RunCommand(args, s.(hist := ring.Entries()));
    }

    method WipeArgv()
      requires Fixed()
      modifies argv
      ensures ArgvWiped()
    {
      forall i | 0 <= i < cfg.argcMax { argv[i] := 0; }
    }

    /** The copy and the tokenizing of sh_execute_line. */
    method ParseText(text: string, parse: array<char>) returns (status: Status, args: seq<string>)
      requires Fixed() && NoNul(text) && |text| <= MAX_LINE_LEN && parse.Length == MAX_LINE_LEN + 1
      modifies parse, argv
      ensures match ParseLine(text, cfg.argcMax)
        case Parsed(tokens) => status == OK && args == tokens && forall a :: a in args ==> NoNul(a)
        case Rejected(error) => status == error && status != OK
    {
      hide CStrings, Tokens;
      var argc;
      CopyText(text, parse);
      status, argc := Tokenize(parse, argv, cfg.argcMax);
      if status != OK {
        return status, [];
      }
      TokensBounds(text, Limit(cfg.argcMax));
      args := ReadArgs(parse, argv, argc, ParseLine(text, cfg.argcMax).tokens);
    }

    ghost predicate ArgvWiped()
      reads argv
      requires Fixed()
    {
      forall i :: 0 <= i < cfg.argcMax ==> argv[i] == 0
    }

    /** sh_execute_line. */
    method ExecuteLine(text: string) returns (status: Status)
      requires Valid() && NoNul(text)
      modifies this`historyView, this`calls, this`echoEnabled, argv, draft, ring, ring.storage
      ensures Valid() && (Abs(), status) == Editor.ExecuteLine(cfg, roots, old(Abs()), text)
      ensures cfg.secureClear && |text| <= MAX_LINE_LEN && |text| <= cfg.lineMax ==> ArgvWiped()
    {
      hide Ring.Entries, Ring.Valid, Decoder.Abs, Decoder.Valid, CStr, CStrings, Remember, Dispatch, ParseLine,
          Editor.Valid, Perform;
      ghost var s := Abs();
      ExecuteLineValid(cfg, roots, s, text);
      if |text| >= MAX_LINE_LEN + 1 || |text| >= cfg.lineMax + 1 {
        return LineTooLong;
      }
      var parse := new char[MAX_LINE_LEN + 1];
      var args;
      status, args := ParseText(text, parse);
      ghost var t := s;
      if status == OK && |args| != 0 {
        status := RecordAndRun(text, args, s);
        t := Perform(cfg, s.(hist := Remember(cfg, roots, s.hist, text, args)),
            Dispatch(cfg.mem, roots, cfg.builtins, args)).0;
        PerformKeeps(s.(hist := Remember(cfg, roots, s.hist, text, args)),
            Dispatch(cfg.mem, roots, cfg.builtins, args));
      }
      assert (t, status) == Editor.ExecuteLine(cfg, roots, s, text);
      if cfg.secureClear {
        MemZero(parse, MAX_LINE_LEN + 1);
        WipeArgv();
      }
      Stands(t);
    }

    lemma PerformKeeps(s: Session, action: Action)
      ensures var t := Perform(cfg, s, action).0;
        t.left == s.left && t.right == s.right && t.ansi == s.ansi && t.afterCr == s.afterCr
    {
    }

    /** handle_enter. */
    method HandleEnter() returns (status: Status)
      requires Valid()
      modifies Frame()
      ensures Valid() && (Abs(), status) == Enter(cfg, roots, old(Abs()))
      ensures roots == old(roots)
      ensures cfg.secureClear ==> LineWiped() && DraftWiped() && ArgvWiped()
    {
      hide Ring.Entries, Ring.Valid, Decoder.Abs, Decoder.Valid, CStr, CStrings, Editor.ExecuteLine;
      ghost var s := Abs();
      assert s.Line() == line[..lineLen] && lineLen <= MAX_LINE_LEN;
      status := OK;
      if lineLen < MAX_LINE_LEN + 1 {
        status := ExecuteLine(line[..lineLen]);
      }
      StartOver();
    }

    /** The end of handle_enter: an empty line, no draft, back from the history. */
    method StartOver()
      requires Valid()
      modifies this`lineLen, this`cursor, this`historyView, line, draft
      ensures Valid() && Abs() == old(Abs()).(left := [], right := [], view := -1, draft := [])
      ensures cfg.secureClear ==> LineWiped() && DraftWiped()
    {
      hide Ring.Entries, Ring.Valid, Decoder.Abs, Decoder.Valid, CStr, CStrings;
      ghost var t := Abs();
      ClearedValid(cfg, t);
      hide Editor.Valid;
      EmptyLine();
      historyView := -1;
      EmptyDraft(cfg.secureClear);
      Stands(t.(left := [], right := [], view := -1, draft := []));
    }

    // ----- completion -----

    /** The loops of sh_complete_line_internal that find the token around the cursor. */
    method FindTokenStart() returns (start: nat)
      requires LineOk()
      ensures start == WordStart(line[..cursor])
    {
      start := cursor;
      while start > 0 && !IsSpace(line[start - 1])
        invariant start <= cursor
        invariant WordStart(line[..cursor]) == WordStart(line[..start])
      {
        assert line[..start][..start - 1] == line[..start - 1];
        start := start - 1;
      }
    }

    method FindTokenEnd() returns (end: nat)
      requires LineOk()
      ensures end == cursor + WordLen(line[cursor..lineLen])
    {
      end := cursor;
      while end < lineLen && !IsSpace(line[end])
        invariant cursor <= end <= lineLen
        invariant cursor + WordLen(line[cursor..lineLen]) == end + WordLen(line[end..lineLen])
      {
        assert line[end..lineLen][1..] == line[end + 1..lineLen];
        end := end + 1;
      }
    }

    /** The memcpy of replace_token, into the gap that its memmove has left between head and tail. */
    method FillGap(put: string, ghost head: string, ghost tail: string)
      requires |head| + |put| + |tail| <= cfg.lineMax < line.Length && |head| == cursor
          && lineLen == |head| + |put| + |tail|
      requires NoNul(head) && NoNul(put) && NoNul(tail) && line[lineLen] == NUL
      requires line[..|head|] == head && line[|head| + |put|..|head| + |put| + |tail|] == tail
      modifies this`cursor, line
      ensures Shows(head + put, tail)
    {
      MemCopy(line, cursor, put);
      cursor := cursor + |put|;
      assert line[..cursor] == head + put && line[cursor..lineLen] == tail;
      ShowsThese(head + put, tail);
    }

    /** The buffer edits of replace_token. */
    method Splice(start: nat, end: nat, put: string)
      requires LineOk() && start <= cursor && start <= end <= lineLen && NoNul(put)
      requires start + |put| + (lineLen - end) <= cfg.lineMax
      modifies this`lineLen, this`cursor, line
      ensures Shows(old(line[..start]) + put, old(line[end..lineLen]))
    {
      ghost var head, tail := line[..start], line[end..lineLen];
      assert NoNul(head) && NoNul(tail);
      Shift(start + |put|, end);
      assert line[..start] == head by { assert line[..start] == line[..start + |put|][..start]; }
      lineLen := start + |put| + (lineLen - end);
      cursor := start;
      FillGap(put, head, tail);
    }

    /** The text replace_token puts into the line. */
    method PutText(end: nat, replacement: string, appendSpace: bool) returns (put: string)
      requires LineOk() && cursor <= end == cursor + WordLen(line[cursor..lineLen]) <= lineLen
      ensures put == replacement + if appendSpace && line[end..lineLen] == [] then [' '] else []
    {
      hide WordLen;
      WordEnds(line[cursor..lineLen]);
      assert end < lineLen ==> IsSpace(line[end]);
      put := replacement + [];
      if appendSpace && (end == lineLen || !IsSpace(line[end])) {
        put := replacement + [' '];
      }
    }

    lemma SpanParts(start: nat, end: nat)
      requires start <= cursor <= end <= lineLen <= line.Length
      ensures line[..cursor][..start] == line[..start] && line[cursor..lineLen][end - cursor..] == line[end..lineLen]
    {
    }

    /** The edit of replace_token, of which t is the outcome. */
    method ReplaceSpan(start: nat, end: nat, replacement: string, appendSpace: bool, ghost t: Tabbed)
      returns (status: Status)
      requires LineOk() && NoNul(replacement)
      requires start == WordStart(line[..cursor]) && end == cursor + WordLen(line[cursor..lineLen])
      requires t == ReplaceToken(cfg, line[..cursor], line[cursor..lineLen], replacement, appendSpace)
      modifies this`lineLen, this`cursor, line
      ensures status == t.status && t.changed == (status == OK) && Shows(t.left, t.right)
    {
      hide WordStart, WordLen, ReplaceToken;
      ghost var left, right := line[..cursor], line[cursor..lineLen];
      SpanParts(start, end);
      var put := PutText(end, replacement, appendSpace);
      ReplaceIs(left, right, replacement, appendSpace, put);
      if start + |put| + (lineLen - end) >= cfg.lineMax + 1 {
        return LineTooLong;
      }
      Splice(start, end, put);
      return OK;
    }

    /** replace_token. */
    method ReplaceTokenAt(start: nat, end: nat, replacement: string, appendSpace: bool, ghost t: Tabbed)
      returns (status: Status)
      requires Valid() && NoNul(replacement)
      requires start == WordStart(line[..cursor]) && end == cursor + WordLen(line[cursor..lineLen])
      requires t == ReplaceToken(cfg, line[..cursor], line[cursor..lineLen], replacement, appendSpace)
      requires Editor.Valid(cfg, Tabbing(Abs(), t))
      modifies this`lineLen, this`cursor, this`historyView, line
      ensures roots == old(roots)
      ensures Valid() && status == t.status && Abs() == Tabbing(old(Abs()), t)
    {
      hide Ring.Entries, Ring.Valid, Decoder.Abs, Decoder.Valid, CStr, CStrings, WordStart, WordLen, Editor.Valid;
      ghost var s := Abs();
      ReplaceKeeps(s.left, s.right, replacement, appendSpace);
      hide ReplaceToken;
      status := ReplaceSpan(start, end, replacement, appendSpace, t);
      if status == OK {
        historyView := -1;
      }
      Stands(Tabbing(s, t));
    }

    lemma ReplaceKeeps(left: string, right: string, text: string, unique: bool)
      ensures var t := ReplaceToken(cfg, left, right, text, unique); !t.changed ==> t.left == left && t.right == right
    {
      hide WordLen, WordStart;
    }

    lemma ReplaceIs(left: string, right: string, text: string, unique: bool, put: string)
      requires put == text + if unique && right[WordLen(right)..] == [] then [' '] else []
      ensures var start, tail := WordStart(left), right[WordLen(right)..];
        ReplaceToken(cfg, left, right, text, unique) ==
          if start + |put| + |tail| > cfg.lineMax then Tabbed(left, right, false, LineTooLong)
          else Tabbed(left[..start] + put, tail, true, OK)
    {
      hide WordLen, WordStart;
    }

    static lemma WordEnds(right: string)
      ensures WordLen(right) <= |right| && (WordLen(right) < |right| ==> IsSpace(right[WordLen(right)]))
    {
    }

    /** The copy and the tokenizing of the line up to the cursor. */
    method ParseLeft() returns (status: Status, args: seq<string>)
      requires Fixed() && LineOk()
      ensures match ParseLine(line[..cursor], cfg.argcMax)
        case Parsed(tokens) => status == OK && args == tokens
        case Rejected(error) => status == error && status != OK
    {
      hide CStrings, Tokens;
      var left := new char[MAX_LINE_LEN + 1];
      var pointers := new nat[MAX_ARGC];
      var argc;
      ghost var text := line[..cursor];
      assert NoNul(text) by { assert text == line[..lineLen][..cursor]; }
      CopyText(line[..cursor], left);
      status, argc := Tokenize(left, pointers, cfg.argcMax);
      if status != OK {
        return status, [];
      }
      TokensBounds(text, Limit(cfg.argcMax));
      args := ReadArgs(left, pointers, argc, ParseLine(text, cfg.argcMax).tokens);
    }

    /** sh_complete_line_internal. */
    method CompleteLine() returns (status: Status)
      requires Valid()
      modifies this`lineLen, this`cursor, this`historyView, line
      ensures Valid() && (Abs(), status) == PressTab(cfg, roots, old(Abs())) && roots == old(roots)
    {
      hide Ring.Entries, Ring.Valid, Decoder.Abs, Decoder.Valid, CStr, CStrings,
        WordStart, WordLen, Editor.Valid, ParseLine, Descend, Matches, SharedLen, RootScope;
      ghost var s := Abs();
      ghost var left, right := line[..cursor], line[cursor..lineLen];
      ghost var t := Tab(cfg, roots, left, right);
      TabValid(cfg, roots, s);
      var args;
      status, args := ParseLeft();
      if status != OK {
        return status;
      }
      var start := FindTokenStart();
      var end := FindTokenEnd();
      var prefix := line[start..cursor];
      assert prefix == left[start..];
      var before := if |prefix| != 0 && |args| != 0 then args[..|args| - 1] else args;
      var found, level := DescendLevels(cfg, roots, before);
      if !found {
        return OK;
      }
      ghost var scope := LevelScope(cfg, roots, level);
      assert TabScope(cfg, roots, left) == Some(scope) && t == TabIn(cfg, scope, left, right);
      hide Tab, TabScope, LevelScope, TabIn, Fixed, LineOk;
      status := CompleteIn(level, start, end, prefix, t);
    }

    /** The candidates of a level and the replacement: the second half of sh_complete_line_internal. */
    method CompleteIn(level: CompletionLevel, start: nat, end: nat, prefix: string, ghost t: Tabbed)
      returns (status: Status)
      requires Valid()
      requires start == WordStart(line[..cursor]) && end == cursor + WordLen(line[cursor..lineLen])
          && prefix == line[..cursor][start..]
      requires TabScope(cfg, roots, line[..cursor]) == Some(LevelScope(cfg, roots, level))
      requires t == TabIn(cfg, LevelScope(cfg, roots, level), line[..cursor], line[cursor..lineLen])
      requires Editor.Valid(cfg, Tabbing(Abs(), t))
      modifies this`lineLen, this`cursor, this`historyView, line
      ensures Valid() && status == t.status && Abs() == Tabbing(old(Abs()), t) && roots == old(roots)
    {
      hide Ring.Entries, Ring.Valid, Decoder.Abs, Decoder.Valid, CStr, CStrings,
        WordStart, WordLen, Editor.Valid, Matches, SharedLen, TabScope, LevelScope;
      ghost var scope, left := LevelScope(cfg, roots, level), line[..cursor];
      var first, common, count := ScanCandidates(cfg, roots, level, prefix);
      if count == 0 {
        return OK;
      }
      MatchesNoNul(cfg, roots, left);
      ghost var names := Matches(cfg, scope, prefix);
      assert names[0] in names;
      CutNoNul(names[0]);
      hide ReplaceToken, Shows;
      if count == 1 {
        status := ReplaceTokenAt(start, end, first, true, t);
      } else if common > |prefix| {
        assert first[..common] == Shared(names);
        status := ReplaceTokenAt(start, end, first[..common], false, t);
      } else {
        status := Ambiguous;
      }
    }

    // ----- input -----

    /** Enter, Ctrl-C and Ctrl-U. */
    static predicate Empties(byte: char) {
      byte == '\r' || byte == '\n' || byte == CTRL_C || byte == CTRL_U
    }

    /** A byte that the decoder has passed through: the switch of sh_input_byte. */
    method HandleByte(byte: char) returns (status: Status)
      requires Valid()
      modifies Frame()
      ensures Valid() && (Abs(), status) == PlainByte(cfg, roots, old(Abs()), byte) && roots == old(roots)
      ensures cfg.secureClear && Empties(byte) ==> LineWiped() && DraftWiped()
    {
      hide Ring.Entries, Ring.Valid, Decoder.Abs, Decoder.Valid, CStr, CStrings, Editor.Valid, Editor.InsertChar,
          Enter, PressTab, LineOk;
      status := OK;
      if byte == '\r' || byte == '\n' {
        status := HandleEnter();
      } else if byte == BACKSPACE || byte == DEL {
        Backspace();
      } else if byte == '\t' {
        status := CompleteLine();
      } else if byte == CTRL_C {
        CancelInputLine();
      } else if byte == CTRL_U {
        ClearInputLine();
      } else if byte == CTRL_W {
        DeleteWordLeft();
      } else if ' ' <= byte < DEL {
        status := InsertChar(byte);
      }
    }

    /** The decoder's part of sh_input_byte. */
    method Decode(byte: char) returns (event: Option<Key>)
      requires Valid()
      modifies this`lastInputWasCr, ansi, ansi.csi
      ensures Valid() && Abs() == old(Abs()).(afterCr := byte == '\r', ansi := Feed(old(ansi.Abs()), byte).0)
      ensures match Feed(old(ansi.Abs()), byte).1
        case Press(key) => event == Some(key)
        case Taken => event == None && ansi.lastByteConsumed
        case Pass => event == None && !ansi.lastByteConsumed
    {
      hide Ring.Entries, Ring.Valid, Decoder.Abs, Decoder.Valid, CStr, CStrings, Feed;
      ghost var s := Abs();
      lastInputWasCr := byte == '\r';
      FeedBounded(s.ansi, byte);
      event := ansi.FeedByte(byte);
      Stands(s.(afterCr := byte == '\r', ansi := Feed(s.ansi, byte).0));
    }

    /** sh_input_byte: the buffers do what the editor does, for every byte. */
    method InputByte(byte: char) returns (status: Status)
      requires Valid()
      modifies Frame()
      ensures Valid() && (Abs(), status) == Editor.InputByte(cfg, roots, old(Abs()), byte) && roots == old(roots)
      ensures var seen := !(byte == '\n' && old(lastInputWasCr)) && Feed(old(ansi.Abs()), byte).1 == Pass;
        cfg.secureClear && Empties(byte) && seen ==> LineWiped() && DraftWiped()
    {
      hide Ring.Entries, Ring.Valid, Decoder.Abs, Decoder.Valid, CStr, CStrings, Feed, PlainByte, PressKey;
      ghost var s := Abs();
      if byte == '\n' && lastInputWasCr {
        lastInputWasCr := false;
        Stands(s.(afterCr := false));
        return OK;
      }
      var event := Decode(byte);
      hide Editor.Valid, LineOk;
      if event.Some? {
        HandleEscapeKey(event.value);
        return OK;
      }
      if ansi.lastByteConsumed {
        return OK;
      }
      status := HandleByte(byte);
    }

    /** sh_input. */
    method Input(data: string) returns (result: Status)
      requires Valid()
      modifies Frame()
      ensures Valid() && (Abs(), result) == InputAll(cfg, roots, old(Abs()), data)
    {
      hide Ring.Entries, Ring.Valid, Decoder.Abs, Decoder.Valid, CStr, CStrings, Editor.InputByte;
      result := OK;
      ghost var s, all := Abs(), InputAll(cfg, roots, Abs(), data);
      assert data[0..] == data;
      for i := 0 to |data|
        invariant Valid() && roots == old(roots)
        invariant var (t, later) := InputAll(cfg, roots, Abs(), data[i..]);
          all == (t, if result != OK then result else later)
      {
        assert data[i..][1..] == data[i + 1..];
        var status := InputByte(data[i]);
        if result == OK && status != OK {
          result := status;
        }
      }
    }

    // ----- registration -----

    /** sh_register_commands: a rejected table leaves the old registry in place. */
    method RegisterCommands(commands: Level) returns (status: Status)
      requires Valid()
      modifies this`roots
      ensures Valid() && Abs() == old(Abs())
      ensures status ==
        if commands.table == Null && commands.count != 0 then InvalidArg
        else if Registered(cfg.mem, Flat(commands), cfg.builtins) then OK else InvalidConfig
      ensures roots == if status == OK then Flat(commands) else old(roots)
    {
      hide Accepts, CStrings, Ring.Entries, Ring.Valid, Decoder.Abs, Decoder.Valid, CStr, Editor.Valid;
      if commands.table == Null && commands.count != 0 {
        return InvalidArg;
      }
      status := ValidateLevel(cfg.mem, commands, 1, true, cfg.builtins);
      if status != OK {
        return status;
      }
      roots := Flat(commands);
    }

    /** sh_register_command_sets; a rejected array of sets, or none, leaves the old registry in place. */
    method RegisterCommandSets(sets: Option<seq<Level>>, count: nat) returns (status: Status)
      requires Valid() && (sets.Some? ==> count == |sets.value|)
      modifies this`roots
      ensures Valid() && Abs() == old(Abs())
      ensures status ==
        if sets == None then (if count != 0 then InvalidArg else OK)
        else if Registered(cfg.mem, Sets(sets.value), cfg.builtins) then OK else InvalidConfig
      ensures roots ==
        if status != OK then old(roots) else if sets == None then Flat(Level(Null, 0)) else Sets(sets.value)
    {
      hide Accepts, CStrings, Ring.Entries, Ring.Valid, Decoder.Abs, Decoder.Valid, CStr, Editor.Valid;
      if sets == None {
        if count != 0 {
          return InvalidArg;
        }
        roots := Flat(Level(Null, 0));
        return OK;
      }
      status := CheckCommandSets(cfg.mem, sets.value, cfg.builtins);
      if status != OK {
        return status;
      }
      roots := Sets(sets.value);
    }
  }

  /** The configuration that was given, or the default one. */
  function Asked(env: Config, given: bool): Config {
    if given then env else Defaults(env)
  }

  function Size<T>(buffer: array?<T>): Option<nat> {
    if buffer == null then None else Some(buffer.Length)
  }

  /** The checks of sh_init, and the configuration that passed them. */
  method CheckLimits(asked: Config, lineSize: nat, argvSize: nat, storage: bool, slots: nat, slotSize: nat,
      draftSize: Option<nat>)
    returns (status: Status, cfg: Config)
    requires lineSize > 0 && argvSize > 0
    ensures cfg == Filled(asked, lineSize, argvSize, slotSize)
    ensures status ==
      if Accepted(cfg) && Roomy(cfg, lineSize, argvSize, storage, slots, draftSize) then OK else InvalidConfig
  {
    cfg := asked.(slotSize := slotSize);
    if cfg.lineMax == 0 {
      cfg := cfg.(lineMax := lineSize - 1);
    }
    if cfg.argcMax == 0 {
      cfg := cfg.(argcMax := argvSize);
    }
    if cfg.lineMax == 0 || cfg.lineMax > MAX_LINE_LEN || lineSize <= cfg.lineMax
       || cfg.argcMax == 0 || cfg.argcMax > MAX_ARGC || cfg.argcMax > argvSize {
      return InvalidConfig, cfg;
    }
    if cfg.historyDepth > slots {
      return InvalidConfig, cfg;
    }
    if cfg.historyDepth != 0
       && (!storage || slotSize <= cfg.lineMax || draftSize == None || draftSize.value <= cfg.lineMax) {
      return InvalidConfig, cfg;
    }
    return OK, cfg;
  }

  /** The buffers are apart, the history buffer holds its slots, and a draft that is not needed holds a line. */
  ghost predicate Usable(asked: Config, line: array?<char>, storage: array?<char>, slots: nat, slotSize: nat,
      draft: array?<char>) {
    && (storage != null ==> slots * slotSize <= storage.Length)
    && (draft != null && asked.historyDepth == 0 && line != null && line.Length > 0 ==>
          draft.Length > Filled(asked, line.Length, 1, slotSize).lineMax)
    && (line != null ==> line != draft && line != storage)
    && (draft != null ==> draft != storage)
  }

  /** sh_init: which limits and buffers are refused, and how, and what comes of the others. */
  method InitShell(env: Config, given: bool, line: array?<char>, argv: array?<nat>,
                   storage: array?<char>, slots: nat, slotSize: nat, draft: array?<char>, echo: bool)
    returns (status: Status, shell: Shell?)
    requires CStrings(env)
    requires Usable(Asked(env, given), line, storage, slots, slotSize, draft)
    modifies if line == null then {} else {line}, if draft == null then {} else {draft}
    ensures status == InvalidArg <==> !(Given(Size(line)) && Given(Size(argv)))
    ensures status != InvalidArg ==>
      var cfg := Filled(Asked(env, given), line.Length, argv.Length, slotSize);
      && status == (if Accepted(cfg) && Roomy(cfg, line.Length, argv.Length, storage != null, slots, Size(draft))
                    then OK else InvalidConfig)
      && (status == OK ==>
          shell != null && fresh(shell) && shell.cfg == cfg && shell.line == line && shell.draft == draft)
    ensures status == OK ==> shell.Valid() && shell.Abs() == Fresh(echo) && shell.roots == Flat(Level(Null, 0))
    ensures status != OK ==> shell == null
    ensures status != OK && line != null ==> line[..] == old(line[..])
    ensures status != OK && draft != null ==> draft[..] == old(draft[..])
  {
    hide CStrings;
    shell := null;
    if line == null || line.Length == 0 || argv == null || argv.Length == 0 {
      return InvalidArg, null;
    }
    var asked := Asked(env, given);
    FilledCStrings(env, given, line.Length, argv.Length, slotSize);
    var cfg;
    status, cfg := CheckLimits(asked, line.Length, argv.Length, storage != null, slots, slotSize, Size(draft));
    if status != OK {
      return status, null;
    }
    var slotsAt := storage;
    if slotsAt == null {
      slotsAt := new char[0];
    }
    MulMonotone(cfg.historyDepth, slots, slotSize);
    shell := new Shell(cfg, line, argv, slotsAt, draft, echo);
  }

  lemma FilledCStrings(env: Config, given: bool, lineSize: nat, argvSize: nat, slotSize: nat)
    requires CStrings(env) && lineSize > 0
    ensures CStrings(Filled(Asked(env, given), lineSize, argvSize, slotSize))
  {
  }
}
