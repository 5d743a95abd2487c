/** What Enter does with a typed line: what runs, what is answered, and what the history keeps of it. */
module EnterLaws {
  import opened Text
  import opened Tokenizer
  import opened Printer
  import opened Ansi
  import opened History
  import opened Commands
  import opened Registry
  import opened DispatchLaws
  import opened Config
  import opened Masking
  import opened Editor
  import opened EditorLaws

  // ----- what the history keeps -----

  /** The list after a text was added: a repetition is ignored, the text is cut to its slot, the last ones stay. */
  predicate AddsText(before: seq<string>, text: string, depth: nat, slotSize: nat, after: seq<string>)
    requires slotSize > 0
  {
    if before != [] && before[|before| - 1] == text then after == before
    else
      && |after| == (if |before| < depth then |before| + 1 else depth) && after != []
      && after[|after| - 1] == (if |text| < slotSize then text else text[..slotSize - 1])
      && forall i :: 0 <= i < |after| - 1 ==> after[i] == before[|before| + 1 - |after| + i]
  }

  lemma AddedAddsText(before: seq<string>, text: string, depth: nat, slotSize: nat)
    requires text != [] && 0 < depth && 0 < slotSize && |before| <= depth
    ensures AddsText(before, text, depth, slotSize, Added(before, text, depth, slotSize))
  {
  }

  /** Argument i must be hidden: a payload of a sensitive command, or the mask says so. */
  predicate Secret(cfg: Config, r: Resolved, args: seq<string>, i: nat)
    requires i < |args| && r.consumed <= |args|
  {
    || (r.cmd.Some? && r.cmd.value.sensitive && r.consumed <= i)
    || cfg.mask(args[..r.consumed], i, args[i])
  }

  /** Each secret argument is replaced. */
  predicate HidesSecrets(cfg: Config, r: Resolved, args: seq<string>, shown: seq<string>)
    requires r.consumed <= |args|
  {
    && |shown| == |args|
    && forall i :: 0 <= i < |args| ==> shown[i] == if Secret(cfg, r, args, i) then "<hidden>" else args[i]
  }

  lemma RedactedHidesSecrets(cfg: Config, r: Resolved, args: seq<string>)
    requires r.consumed <= |args|
    ensures HidesSecrets(cfg, r, args, Redacted(cfg, r, args))
    ensures AnyMasked(cfg, r, args) <==> exists i :: 0 <= i < |args| && Secret(cfg, r, args, i)
  {
    if i :| 0 <= i < |args| && Secret(cfg, r, args, i) {
      assert Masked(cfg, r, args, i);
    }
    if i :| 0 <= i < |args| && Masked(cfg, r, args, i) {
      assert Secret(cfg, r, args, i);
    }
  }

  /** What becomes of the history when a line with these arguments is entered. */
  ghost predicate Records(cfg: Config, roots: Roots, before: seq<string>, line: string, args: seq<string>,
                          after: seq<string>)
  {
    var r := Resolve(cfg.mem, roots, args);
    if cfg.historyDepth == 0 || (r.cmd.Some? && r.cmd.value.noHistory) then after == before
    else if exists i :: 0 <= i < |args| && Secret(cfg, r, args, i) then
      exists shown :: HidesSecrets(cfg, r, args, shown)
        && cfg.slotSize > 0 && AddsText(before, Cut(Print(shown), 256), cfg.historyDepth, cfg.slotSize, after)
    else cfg.slotSize > 0 && AddsText(before, line, cfg.historyDepth, cfg.slotSize, after)
  }

  /** No flag, no mask and no repetition is forgotten on the way from a line to the history. */
  lemma RememberRecords(cfg: Config, roots: Roots, before: seq<string>, line: string, args: seq<string>)
    requires Accepted(cfg) && Entries(cfg, before) && args != [] && line != [] && |line| <= cfg.lineMax
    ensures Records(cfg, roots, before, line, args, Remember(cfg, roots, before, line, args))
  {
    hide Resolve, Added, AnyMasked, Redacted, Print, Secret, HidesSecrets, AddsText;
    var r := Resolve(cfg.mem, roots, args);
    RedactedHidesSecrets(cfg, r, args);
    var shown := Redacted(cfg, r, args);
    PrintsSomething(shown);
    var text := Cut(Print(shown), 256);
    if cfg.historyDepth > 0 {
      AddedAddsText(before, text, cfg.historyDepth, cfg.slotSize);
      AddedAddsText(before, line, cfg.historyDepth, cfg.slotSize);
    } else {
      NothingAdded(before, text, cfg.slotSize);
      NothingAdded(before, line, cfg.slotSize);
    }
  }

  lemma NothingAdded(before: seq<string>, text: string, slotSize: nat)
    ensures Added(before, text, 0, slotSize) == before
  {
  }

  // ----- the session after Enter -----

  /** The session that waits for the next line. */
  function Waiting(s: Session, byte: char): Session {
    s.(left := [], right := [], view := -1, draft := [], ansi := Idle, afterCr := byte == '\r')
  }

  /** The byte is an Enter that the editor gets to see. */
  predicate Enters(s: Session, byte: char) {
    (byte == '\r' || (byte == '\n' && !s.afterCr)) && !s.ansi.Csi?
  }

  lemma EnterSeen(cfg: Config, roots: Roots, s: Session, byte: char)
    requires Valid(cfg, s) && Enters(s, byte)
    ensures InputByte(cfg, roots, s, byte) == Enter(cfg, roots, s.(ansi := Idle, afterCr := byte == '\r'))
  {
    hide Enter;
  }

  /** A line that does not tokenize, or holds no words, changes nothing but the line; the error is answered. */
  lemma EnterRejects(cfg: Config, roots: Roots, s: Session, byte: char)
    requires Accepted(cfg) && Valid(cfg, s) && Enters(s, byte)
    ensures var parse := ParseLine(s.Line(), cfg.argcMax);
      && (parse.Rejected? ==> InputByte(cfg, roots, s, byte) == (Waiting(s, byte), parse.status))
      && (parse == Parsed([]) ==> InputByte(cfg, roots, s, byte) == (Waiting(s, byte), OK))
  {
    hide Tokens, Remember, Dispatch, InputByte;
    EnterSeen(cfg, roots, s, byte);
  }

  /**
   * A line with words is recorded as Records says, and does what Does says: the status, the one handler call
   * with its arguments, the echo switch and the cleared history are those of the action, and nothing else changes.
   */
  lemma EnterRunsLine(cfg: Config, roots: Roots, s: Session, byte: char, args: seq<string>, action: Action)
    requires Accepted(cfg) && Valid(cfg, s) && Enters(s, byte) && Registered(cfg.mem, roots, cfg.builtins)
    requires ParseLine(s.Line(), cfg.argcMax) == Parsed(args) && args != []
    requires Does(cfg.mem, roots, cfg.builtins, args, action)
    ensures var (t, status) := InputByte(cfg, roots, s, byte);
      && t == Waiting(s, byte).(hist := t.hist, calls := t.calls, echo := t.echo)
      && status == (match action case Answer(code) => code case Invoke(call) => cfg.handle(s.calls, call) case _ => OK)
      && t.calls == s.calls + (match action case Invoke(call) => [call] case _ => [])
      && t.echo == (match action case SetEcho(on) => on case _ => s.echo)
      && (if action == ClearHistory then t.hist == [] else Records(cfg, roots, s.hist, s.Line(), args, t.hist))
  {
    hide Tokens, Dispatch, InputByte, Does, Registered, Remember, Records, ParseLine;
    EnterSeen(cfg, roots, s, byte);
    DispatchDoes(cfg.mem, roots, cfg.builtins, args, action);
    assert s.Line() != [] by { NothingToRun(cfg.argcMax); }
    RememberRecords(cfg, roots, s.hist, s.Line(), args);
    assert s.calls + [] == s.calls;
  }

  /** The history is emptied by one line only, and then it is empty: the words history and clear. */
  lemma OnlyHistoryClears(cfg: Config, roots: Roots, args: seq<string>)
    requires Registered(cfg.mem, roots, cfg.builtins)
    ensures Does(cfg.mem, roots, cfg.builtins, args, ClearHistory) <==> cfg.builtins && args == ["history", "clear"]
    ensures forall on :: Does(cfg.mem, roots, cfg.builtins, args, SetEcho(on)) <==>
      cfg.builtins && args == (if on then ["echo", "on"] else ["echo", "off"])
  {
    hide Registered, EndsAt, RootRows;
    assert ["echo", "on"][1] != ["echo", "off"][1] by { assert "on"[1] == 'n' && "off"[1] == 'f'; }
    assert "history"[0] == 'h' && "echo"[0] == 'e' && "help"[1] == 'e' && "clear"[0] == 'c';
  }

  /** A line that is too long is refused, and nothing is recorded or run. */
  lemma LongLineIsRefused(cfg: Config, roots: Roots, s: Session, line: string)
    requires |line| > cfg.lineMax || |line| > 256
    ensures ExecuteLine(cfg, roots, s, line) == (s, LineTooLong)
  {
  }
}
