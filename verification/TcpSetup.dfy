/** sh_tcp_session_init of shell/ports/tcp/sh_port_tcp.c: a session and the shell inside it. */
module TcpSetup {
  import opened Text
  import opened Commands
  import opened Registry
  import opened Config
  import opened Editor
  import opened ShellCore
  import TcpPort

  /** sh_storage_t; the sizes are those of the arrays. */
  datatype Storage = Storage(
    line: array?<char>, argv: array?<nat>,
    history: array?<char>, slots: nat, slotSize: nat,
    draft: array?<char>)
  {
    ghost function Written(): set<object> {
      (if line == null then {} else {line}) + if draft == null then {} else {draft}
    }
  }

  /** Which of the callbacks there are. */
  datatype Callbacks = Callbacks(read: bool, write: bool, close: bool)

  /** SH_TCP_OK, SH_TCP_ERR_INVALID_ARGUMENT and SH_TCP_ERR_SHELL. */
  datatype InitStatus = InitOk | InitInvalidArgument | InitShellError

  /** What a session needs: all pointers, and storage, limits and commands that the shell accepts. */
  ghost predicate Pointers(storage: Option<Storage>, callbacks: Callbacks, commands: Level) {
    && storage.Some? && callbacks.read && callbacks.write && callbacks.close
    && (commands.table == Null ==> commands.count == 0)
  }

  ghost predicate ShellAccepts(asked: Config, s: Storage, commands: Level) {
    && Given(Size(s.line)) && Given(Size(s.argv))
    && var cfg := Filled(asked, s.line.Length, s.argv.Length, s.slotSize);
      && Accepted(cfg) && Roomy(cfg, s.line.Length, s.argv.Length, s.history != null, s.slots, Size(s.draft))
      && Registered(cfg.mem, Flat(commands), cfg.builtins)
  }

  /** sh_tcp_session_init; without a shell configuration the default one is taken. */
  method InitSession(env: Config, given: bool, echo: bool, storage: Option<Storage>, callbacks: Callbacks,
      commands: Level)
    returns (status: InitStatus, session: TcpPort.TcpSession?, shell: Shell?)
    requires CStrings(env)
    requires storage.Some? ==>
      var s := storage.value;
      Usable(Asked(env, given), s.line, s.history, s.slots, s.slotSize, s.draft)
    modifies if storage.Some? then storage.value.Written() else {}
    ensures status == InitInvalidArgument <==> !Pointers(storage, callbacks, commands)
    ensures status == InitOk <==>
      Pointers(storage, callbacks, commands) && ShellAccepts(Asked(env, given), storage.value, commands)
    ensures session != null <==> status == InitOk
    ensures session != null ==>
      && fresh(session) && session.Abs() == TcpPort.OPENED
      && shell != null && fresh(shell) && shell.Valid() && shell.Abs() == Fresh(echo) && shell.roots == Flat(commands)
  {
    hide CStrings, Shell.Valid, Registered, Accepted, Roomy, Filled;
    session, shell := null, null;
    if storage == None || !callbacks.read || !callbacks.write || !callbacks.close
       || (commands.table == Null && commands.count != 0) {
      return InitInvalidArgument, null, null;
    }
    var s := storage.value;
    var answer;
    answer, shell := InitShell(env, given, s.line, s.argv, s.history, s.slots, s.slotSize, s.draft, echo);
    if answer != OK {
      return InitShellError, null, null;
    }
    answer := shell.RegisterCommands(commands);
    if answer != OK {
      return InitShellError, null, null;
    }
    session := new TcpPort.TcpSession();
    status := InitOk;
  }
}
