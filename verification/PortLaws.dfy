/** The ports and the editor together: what a session becomes that is fed through a port. */
module PortLaws {
  import opened Text
  import opened Tokenizer
  import opened Commands
  import opened Registry
  import opened Config
  import opened Completion
  import opened CompletionLaws
  import opened Editor
  import opened EditorLaws
  import TcpPort
  import FreertosPort

  // ----- TCP -----

  /** The editor after the sh_input calls in a log. */
  function AfterLog(cfg: Config, roots: Roots, s: Session, log: seq<TcpPort.Event>): (t: Session)
    requires Accepted(cfg) && CStrings(cfg) && Valid(cfg, s)
    ensures Valid(cfg, t)
  {
    if log == [] then s
    else
      var before := AfterLog(cfg, roots, s, log[..|log| - 1]);
      match log[|log| - 1]
      case Fed(bytes) => InputAll(cfg, roots, before, bytes).0
      case _ => before
  }

  lemma {:induction false} LogFeeds(cfg: Config, roots: Roots, s: Session, log: seq<TcpPort.Event>)
    requires Accepted(cfg) && CStrings(cfg) && Valid(cfg, s)
    ensures AfterLog(cfg, roots, s, log) == InputAll(cfg, roots, s, TcpPort.AllFed(log)).0
  {
    hide InputAll, Valid, CStrings, Accepted;
    if log == [] {
      InputNothing(cfg, roots, s);
    } else {
      var before := log[..|log| - 1];
      LogFeeds(cfg, roots, s, before);
      match log[|log| - 1]
      case Fed(bytes) => ChunksDoNotMatter(cfg, roots, s, TcpPort.AllFed(before), bytes);
      case _ => assert TcpPort.AllFed(before) + [] == TcpPort.AllFed(before);
    }
  }

  lemma FreshIsValid(cfg: Config, echo: bool)
    ensures Valid(cfg, Fresh(echo))
  {
  }

  /**
   * After any run of polls, writes and closes of a TCP session the editor in it is what the confirmed bytes
   * make of a fresh one, however they were cut into polls and whatever else happened.
   */
  lemma TcpFeedsEditor(cfg: Config, roots: Roots, echo: bool, steps: seq<TcpPort.Step>)
    requires Accepted(cfg) && CStrings(cfg)
    ensures Valid(cfg, Fresh(echo))
    ensures var log := TcpPort.RunSteps(TcpPort.OPENED, steps).log;
      AfterLog(cfg, roots, Fresh(echo), log) == InputAll(cfg, roots, Fresh(echo), TcpPort.AllConfirmed(log)).0
  {
    hide InputAll, CStrings;
    FreshIsValid(cfg, echo);
    TcpPort.EveryRun(steps);
    LogFeeds(cfg, roots, Fresh(echo), TcpPort.RunSteps(TcpPort.OPENED, steps).log);
  }

  // ----- FreeRTOS -----

  /** The editor after the sh_input calls of the step system. */
  function AfterChunks(cfg: Config, roots: Roots, s: Session, chunks: seq<FreertosPort.Chunk>): (t: Session)
    requires Accepted(cfg) && CStrings(cfg) && Valid(cfg, s)
    ensures Valid(cfg, t)
  {
    if chunks == [] then s
    else
      var before, last := AfterChunks(cfg, roots, s, chunks[..|chunks| - 1]), chunks[|chunks| - 1];
      if last.fate == FreertosPort.Given then InputAll(cfg, roots, before, last.bytes).0 else before
  }

  lemma {:induction false} ChunksFeed(cfg: Config, roots: Roots, s: Session, chunks: seq<FreertosPort.Chunk>)
    requires Accepted(cfg) && CStrings(cfg) && Valid(cfg, s)
    ensures AfterChunks(cfg, roots, s, chunks) == InputAll(cfg, roots, s, FreertosPort.GivenBytes(chunks)).0
  {
    hide InputAll, Valid, CStrings, Accepted;
    if chunks == [] {
      InputNothing(cfg, roots, s);
    } else {
      var before, last := chunks[..|chunks| - 1], chunks[|chunks| - 1];
      ChunksFeed(cfg, roots, s, before);
      if last.fate == FreertosPort.Given {
        ChunksDoNotMatter(cfg, roots, s, FreertosPort.GivenBytes(before), last.bytes);
      } else {
        assert FreertosPort.GivenBytes(before) + [] == FreertosPort.GivenBytes(before);
      }
    }
  }

  /** In every interleaving the editor is what the fed bytes make of a fresh one, whichever tasks and runs fed them. */
  lemma FreertosFeedsEditor(cfg: Config, roots: Roots, echo: bool, tasks: nat, chunkSize: nat,
      steps: seq<FreertosPort.Step>)
    requires Accepted(cfg) && CStrings(cfg)
    requires FreertosPort.Exec(FreertosPort.Initial(tasks), chunkSize, steps).Some?
    ensures Valid(cfg, Fresh(echo))
    ensures var s := FreertosPort.Exec(FreertosPort.Initial(tasks), chunkSize, steps).value;
      AfterChunks(cfg, roots, Fresh(echo), s.chunks) == InputAll(cfg, roots, Fresh(echo), s.past.fed).0
  {
    hide InputAll, CStrings, FreertosPort.Exec;
    FreshIsValid(cfg, echo);
    FreertosPort.BytesAreConserved(tasks, chunkSize, steps);
    ChunksFeed(cfg, roots, Fresh(echo), FreertosPort.Exec(FreertosPort.Initial(tasks), chunkSize, steps).value.chunks);
  }

  // ----- an error of one byte -----

  /** Among the built-ins alone a Tab is ambiguous, in a fresh session too. */
  lemma FreshTabIsAmbiguous(cfg: Config, echo: bool)
    requires Accepted(cfg) && cfg.builtins
    ensures Valid(cfg, Fresh(echo))
    ensures InputByte(cfg, Flat(Level(Null, 0)), Fresh(echo), '\t').1 == Ambiguous
  {
    hide Tab, Matches;
    var roots := Flat(Level(Null, 0));
    FreshIsValid(cfg, echo);
    FreshScope(cfg, roots);
    BuiltinsShareNothing(cfg);
    TabEffect(cfg, roots, [], []);
  }

  lemma BuiltinsShareNothing(cfg: Config)
    ensures var names := Matches(cfg, Beside(BUILTIN_ROWS), []); |names| > 1 && Shared(names) == []
  {
    hide VisibleNames, SharedLen;
    var names := Matches(cfg, Beside(BUILTIN_ROWS), []);
    assert BUILTIN_ROWS[0].name == Some("clear") && BUILTIN_ROWS[1].name == Some("help");
    VisibleNamesAre(BUILTIN_ROWS, [], "clear");
    VisibleNamesAre(BUILTIN_ROWS, [], "help");
    var i :| 0 <= i < |names| && names[i] == "clear";
    var j :| 0 <= j < |names| && names[j] == "help";
    assert "clear"[0] == 'c' && "help"[0] == 'h';
    assert i != j;
    SharedIsLongest(names, []);
    var p := Shared(names);
    assert StartsWith(names[i], p) && StartsWith(names[j], p);
  }

  lemma FreshScope(cfg: Config, roots: Roots)
    requires Accepted(cfg) && cfg.builtins && roots == Flat(Level(Null, 0))
    ensures ParseLine([], cfg.argcMax).Parsed? && TabScope(cfg, roots, []) == Some(Beside(BUILTIN_ROWS))
  {
    NothingToRun(cfg.argcMax);
    assert [] + BUILTIN_ROWS == BUILTIN_ROWS;
  }
}
