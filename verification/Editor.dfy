/**
 * The editor of shell/src/sh_shell.c without its buffers: the text left and right of the cursor, the
 * history list, the view into it and the saved draft, as functions of one input byte.
 */
module Editor {
  import opened Text
  import opened Tokenizer
  import opened Ansi
  import opened History
  import opened Registry
  import opened Config
  import opened Completion
  import opened Masking

  /** Everything about a shell that input can change; calls are the handler calls made so far. */
  datatype Session = Session(
    left: string, right: string,
    hist: seq<string>, view: int, draft: string,
    ansi: State, afterCr: bool,
    echo: bool, calls: seq<Call>)
  {
    function Line(): string {
      left + right
    }
  }

  /** A freshly initialised shell. */
  function Fresh(echo: bool): Session {
    Session([], [], [], -1, [], Idle, false, echo, [])
  }

  // ----- edits -----

  function InsertChar(cfg: Config, s: Session, c: char): (Session, Status) {
    if |s.left| + |s.right| >= cfg.lineMax then (s, LineTooLong)
    else (s.(left := s.left + [c], view := -1), OK)
  }

  function Backspace(s: Session): Session {
    if s.left == [] then s else s.(left := s.left[..|s.left| - 1], view := -1)
  }

  function DeleteAtCursor(s: Session): Session {
    if s.right == [] then s else s.(right := s.right[1..], view := -1)
  }

  /** The start of the word before the cursor, blanks after it included. */
  function WordBefore(left: string): (start: nat)
    ensures start <= |left|
  {
    WordStart(left[..BlankStart(left)])
  }

  function DeleteWordLeft(s: Session): Session {
    if WordBefore(s.left) == |s.left| then s else s.(left := s.left[..WordBefore(s.left)], view := -1)
  }

  function ClearInputLine(cfg: Config, s: Session): Session {
    s.(left := [], right := [], view := -1, draft := if cfg.secureClear then [] else s.draft)
  }

  function CancelInputLine(s: Session): Session {
    s.(left := [], right := [], view := -1, draft := [], ansi := Idle)
  }

  // ----- history navigation -----

  /** The entry shown at a view; view 0 is the newest one. */
  function EntryAt(hist: seq<string>, view: int): string
    requires 0 <= view < |hist|
  {
    hist[|hist| - 1 - view]
  }

  function NextView(view: int, count: nat, up: bool): int {
    if up then (if view < count - 1 then view + 1 else view) else (if view >= 0 then view - 1 else view)
  }

  function MoveHistory(cfg: Config, s: Session, up: bool): Session
    requires -1 <= s.view < |s.hist|
  {
    if s.hist == [] then s
    else
      var draft := if s.view < 0 then Cut(s.Line(), cfg.lineMax) else s.draft;
      var view := NextView(s.view, |s.hist|, up);
      var text := if view < 0 then draft else EntryAt(s.hist, view);
      s.(left := Cut(text, cfg.lineMax), right := [], view := view, draft := draft)
  }

  function PressKey(cfg: Config, s: Session, key: Key): Session
    requires -1 <= s.view < |s.hist|
  {
    match key
    case Up => MoveHistory(cfg, s, true)
    case Down => MoveHistory(cfg, s, false)
    case Right => if s.right == [] then s else s.(left := s.left + [s.right[0]], right := s.right[1..])
    case Left =>
      if s.left == [] then s
      else s.(left := s.left[..|s.left| - 1], right := [s.left[|s.left| - 1]] + s.right)
    case Home => s.(left := [], right := s.Line())
    case End => s.(left := s.Line(), right := [])
    case Delete => DeleteAtCursor(s)
  }

  // ----- execution -----

  /** What the chosen action of a dispatch changes, and its status. */
  function Perform(cfg: Config, s: Session, action: Action): (Session, Status) {
    match action
    case Answer(status) => (s, status)
    case Invoke(call) => (s.(calls := s.calls + [call]), cfg.handle(s.calls, call))
    case ClearHistory => (s.(hist := [], view := -1, draft := []), OK)
    case SetEcho(on) => (s.(echo := on), OK)
  }

  /** The history after a line with these arguments was recorded. */
  function Remember(cfg: Config, roots: Roots, hist: seq<string>, line: string, args: seq<string>): seq<string> {
    match HistoryLine(cfg, roots, line, args)
    case None => hist
    case Some(entry) => Added(hist, entry, cfg.historyDepth, cfg.slotSize)
  }

  /** sh_execute_line. */
  function ExecuteLine(cfg: Config, roots: Roots, s: Session, line: string): (Session, Status) {
    if |line| > MAX_LINE_LEN || |line| > cfg.lineMax then (s, LineTooLong)
    else match ParseLine(line, cfg.argcMax)
      case Rejected(status) => (s, status)
      case Parsed(args) =>
        if args == [] then (s, OK)
        else Perform(cfg, s.(hist := Remember(cfg, roots, s.hist, line, args)),
            Dispatch(cfg.mem, roots, cfg.builtins, args))
  }

  function Enter(cfg: Config, roots: Roots, s: Session): (Session, Status) {
    var (t, status) := ExecuteLine(cfg, roots, s, s.Line());
    (t.(left := [], right := [], view := -1, draft := []), status)
  }

  /** A session after a Tab with this outcome. */
  function Tabbing(s: Session, t: Tabbed): Session {
    if t.changed then s.(left := t.left, right := t.right, view := -1) else s
  }

  function PressTab(cfg: Config, roots: Roots, s: Session): (Session, Status) {
    var t := Tab(cfg, roots, s.left, s.right);
    (Tabbing(s, t), t.status)
  }

  // ----- input -----

  const BACKSPACE: char := '\U{08}'
  const DEL: char := '\U{7f}'
  const CTRL_C: char := '\U{03}'
  const CTRL_U: char := '\U{15}'
  const CTRL_W: char := '\U{17}'

  /** A byte that is not part of a key sequence. */
  function PlainByte(cfg: Config, roots: Roots, s: Session, byte: char): (Session, Status) {
    if byte == '\r' || byte == '\n' then Enter(cfg, roots, s)
    else if byte == BACKSPACE || byte == DEL then (Backspace(s), OK)
    else if byte == '\t' then PressTab(cfg, roots, s)
    else if byte == CTRL_C then (CancelInputLine(s), OK)
    else if byte == CTRL_U then (ClearInputLine(cfg, s), OK)
    else if byte == CTRL_W then (DeleteWordLeft(s), OK)
    else if ' ' <= byte < DEL then InsertChar(cfg, s, byte)
    else (s, OK)
  }

  /** What every input keeps. */
  ghost predicate Valid(cfg: Config, s: Session) {
    && |s.left| + |s.right| <= cfg.lineMax && NoNul(s.left) && NoNul(s.right)
    && |s.draft| <= cfg.lineMax && NoNul(s.draft)
    && |s.hist| <= cfg.historyDepth && -1 <= s.view < |s.hist|
    && (forall e :: e in s.hist ==> NoNul(e) && 0 < |e| < cfg.slotSize)
    && Bounded(s.ansi)
  }

  /** sh_input_byte. */
  function InputByte(cfg: Config, roots: Roots, s: Session, byte: char): (Session, Status)
    requires Valid(cfg, s)
  {
    if byte == '\n' && s.afterCr then (s.(afterCr := false), OK)
    else
      var (ansi, seen) := Feed(s.ansi, byte);
      var t := s.(afterCr := byte == '\r', ansi := ansi);
      match seen
      case Press(key) => (PressKey(cfg, t, key), OK)
      case Taken => (t, OK)
      case Pass => PlainByte(cfg, roots, t, byte)
  }
}
