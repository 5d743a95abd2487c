/**
 * shell/ports/tcp/sh_port_tcp.c: one TCP session.  What the connection's callbacks answer and what the
 * embedded shell does with its input are arbitrary; the session keeps a log of every callback.
 */
module TcpPort {
  import opened Transport

  const RX_CHUNK: nat := 128

  /** sh_tcp_io_status_t; a callback may return any value. */
  datatype IoStatus = IoOk | IoWouldBlock | IoClosed | IoError | IoUnknown(code: int)

  /** The receive buffer, whatever lies in it. */
  type RxBuffer = b: string | |b| == RX_CHUNK witness seq(RX_CHUNK, _ => '\0')

  /** The answer of a receive callback: a status, the count it claims and what it left in the buffer. */
  datatype ReadReply = ReadReply(status: IoStatus, count: nat, bytes: RxBuffer)
  {
    /** The confirmed bytes, when the count is possible. */
    function Confirmed(): string {
      if count <= RX_CHUNK then bytes[..count] else []
    }
  }

  datatype WriteReply = WriteReply(status: IoStatus, written: nat)

  datatype SessionState = Open | PeerClosed | IoFailed | LocalClosed

  datatype Event =
    | ReadCall(reply: ReadReply)
    | WriteCall(data: string, answer: WriteReply)
    | CloseCall
    | Fed(bytes: string)

  /** An initialised session. */
  datatype Session = Session(state: SessionState, closeNotified: bool, lastShellStatus: int, log: seq<Event>)

  const SH_OK: int := 0

  /** The session after sh_tcp_session_init succeeded. */
  const OPENED := Session(Open, false, SH_OK, [])

  datatype PollStatus = Idle | RxData | Disconnected | ErrClosed | ErrIo | ErrProtocol | ErrShell
  datatype PollResult = PollResult(status: PollStatus, received: nat, shellStatus: int)

  /** What the embedded shell can do to its session while it handles input. */
  datatype ShellOp = Emit(data: string, reply: WriteReply) | CloseIt

  function NotifyClose(s: Session): Session {
    if s.closeNotified then s else s.(closeNotified := true, log := s.log + [CloseCall])
  }

  function SetTerminal(s: Session, state: SessionState): Session {
    if s.state == Open then NotifyClose(s.(state := state)) else s
  }

  /** sh_tcp_session_transport_write; the socket's answer matters only when it is asked. */
  function Write(s: Session, data: string, reply: WriteReply): (Session, Status, nat) {
    if s.state != Open then (s, Status.IoError, 0)
    else if data == [] then (s, OK, 0)
    else
      var t := s.(log := s.log + [WriteCall(data, reply)]);
      if reply.written > |data| then (SetTerminal(t, IoFailed), ProtocolError, 0)
      else match reply.status
        case IoOk => if reply.written == 0 then (SetTerminal(t, IoFailed), NoProgress, 0) else (t, OK, reply.written)
        case IoWouldBlock => (t, WouldBlock, reply.written)
        case IoClosed => (SetTerminal(t, PeerClosed), Status.IoError, reply.written)
        case IoError => (SetTerminal(t, IoFailed), Status.IoError, reply.written)
        case IoUnknown(_) => (SetTerminal(t, IoFailed), ProtocolError, reply.written)
  }

  /** sh_tcp_session_close. */
  function Close(s: Session): Session {
    NotifyClose(if s.state == Open then s.(state := LocalClosed) else s)
  }

  function ShellDoes(s: Session, ops: seq<ShellOp>): Session {
    if ops == [] then s
    else
      var t := ShellDoes(s, ops[..|ops| - 1]);
      match ops[|ops| - 1]
      case Emit(data, reply) => Write(t, data, reply).0
      case CloseIt => Close(t)
  }

  /** The end of a poll, by the status of the receive callback. */
  function Conclude(s: Session, status: IoStatus, count: nat, shellStatus: int): (Session, PollResult) {
    match status
    case IoOk =>
      if count == 0 then (SetTerminal(s, IoFailed), PollResult(ErrProtocol, 0, shellStatus))
      else (s, PollResult(RxData, count, shellStatus))
    case IoWouldBlock => (s, PollResult(if count == 0 then Idle else RxData, count, shellStatus))
    case IoClosed => (SetTerminal(s, PeerClosed), PollResult(Disconnected, count, shellStatus))
    case IoError => (SetTerminal(s, IoFailed), PollResult(ErrIo, count, shellStatus))
    case IoUnknown(_) => (SetTerminal(s, IoFailed), PollResult(ErrProtocol, count, shellStatus))
  }

  /** sh_tcp_session_poll, when the receive callback answers reply and the shell then does ops. */
  function Poll(s: Session, reply: ReadReply, ops: seq<ShellOp>, shellStatus: int): (Session, PollResult) {
    if s.state != Open then (s, PollResult(ErrClosed, 0, s.lastShellStatus))
    else
      var t := s.(log := s.log + [ReadCall(reply)]);
      if reply.count > RX_CHUNK then (SetTerminal(t, IoFailed), PollResult(ErrProtocol, 0, s.lastShellStatus))
      else if reply.count == 0 then Conclude(t, reply.status, 0, SH_OK)
      else
        var u := ShellDoes(t.(log := t.log + [Fed(reply.Confirmed())]), ops).(lastShellStatus := shellStatus);
        if shellStatus != SH_OK then (u, PollResult(ErrShell, reply.count, shellStatus))
        else if u.state != Open then (u, PollResult(ErrIo, reply.count, shellStatus))
        else Conclude(u, reply.status, reply.count, shellStatus)
  }

  // ----- the object -----

  /** sh_tcp_session_t, after a successful initialisation. */
  class TcpSession {
    var state: SessionState
    var closeNotified: bool
    var lastShellStatus: int
    ghost var log: seq<Event>

    ghost function Abs(): Session
      reads this
    {
      Session(state, closeNotified, lastShellStatus, log)
    }

    constructor ()
      ensures Abs() == OPENED
    {
      state, closeNotified, lastShellStatus, log := Open, false, SH_OK, [];
    }

    method NotifyCloseOnce()
      modifies this
      ensures Abs() == NotifyClose(old(Abs()))
    {
      if !closeNotified {
        closeNotified := true;
        log := log + [CloseCall];
      }
    }

    method SetTerminalState(terminal: SessionState)
      modifies this
      ensures Abs() == SetTerminal(old(Abs()), terminal)
    {
      if state == Open {
        state := terminal;
        NotifyCloseOnce();
      }
    }

    /** sh_tcp_session_close. */
    method CloseSession()
      modifies this
      ensures Abs() == Close(old(Abs()))
    {
      if state == Open {
        state := LocalClosed;
      }
      NotifyCloseOnce();
    }

    /** sh_tcp_session_transport_write. */
    method TransportWrite(data: string, reply: WriteReply) returns (status: Status, written: nat)
      modifies this
      ensures (Abs(), status, written) == Write(old(Abs()), data, reply)
    {
      written := 0;
      if state != Open {
        return Status.IoError, 0;
      }
      if |data| == 0 {
        return OK, 0;
      }
      log := log + [WriteCall(data, reply)];
      written := reply.written;
      if written > |data| {
        SetTerminalState(IoFailed);
        return ProtocolError, 0;
      }
      match reply.status
      case IoOk =>
        if written == 0 {
          SetTerminalState(IoFailed);
          return NoProgress, written;
        }
        return OK, written;
      case IoWouldBlock =>
        return WouldBlock, written;
      case IoClosed =>
        SetTerminalState(PeerClosed);
        return Status.IoError, written;
      case IoError =>
        SetTerminalState(IoFailed);
        return Status.IoError, written;
      case IoUnknown(_) =>
        SetTerminalState(IoFailed);
        return ProtocolError, written;
    }

    /** The shell handles its input: it writes through this session's transport and may close it. */
    method RunShell(ops: seq<ShellOp>)
      modifies this
      ensures Abs() == ShellDoes(old(Abs()), ops)
    {
      assert ops[..|ops|] == ops;
      for i := 0 to |ops|
        invariant Abs() == ShellDoes(old(Abs()), ops[..i])
      {
        assert ops[..i + 1][..i] == ops[..i];
        match ops[i]
        case Emit(data, reply) => var _, _ := TransportWrite(data, reply);
        case CloseIt => CloseSession();
      }
    }

    /** sh_tcp_session_poll. */
    method PollOnce(reply: ReadReply, ops: seq<ShellOp>, answer: int) returns (result: PollResult)
      modifies this
      ensures (Abs(), result) == Poll(old(Abs()), reply, ops, answer)
    {
      var shellStatus := SH_OK;
      if state != Open {
        return PollResult(ErrClosed, 0, lastShellStatus);
      }
      log := log + [ReadCall(reply)];
      var readCount := reply.count;
      if readCount > RX_CHUNK {
        SetTerminalState(IoFailed);
        return PollResult(ErrProtocol, 0, lastShellStatus);
      }
      if readCount != 0 {
        log := log + [Fed(reply.Confirmed())];
        RunShell(ops);
        shellStatus := answer;
        lastShellStatus := shellStatus;
        if shellStatus != SH_OK {
          return PollResult(ErrShell, readCount, shellStatus);
        }
        if state != Open {
          return PollResult(ErrIo, readCount, shellStatus);
        }
      }
      match reply.status
      case IoOk =>
        if readCount == 0 {
          SetTerminalState(IoFailed);
          return PollResult(ErrProtocol, 0, shellStatus);
        }
        return PollResult(RxData, readCount, shellStatus);
      case IoWouldBlock =>
        return PollResult(if readCount == 0 then Idle else RxData, readCount, shellStatus);
      case IoClosed =>
        SetTerminalState(PeerClosed);
        return PollResult(Disconnected, readCount, shellStatus);
      case IoError =>
        SetTerminalState(IoFailed);
        return PollResult(ErrIo, readCount, shellStatus);
      case IoUnknown(_) =>
        SetTerminalState(IoFailed);
        return PollResult(ErrProtocol, readCount, shellStatus);
    }
  }

  // ----- every run -----

  datatype Step =
    | PollStep(reply: ReadReply, ops: seq<ShellOp>, shellStatus: int)
    | WriteStep(data: string, answer: WriteReply)
    | CloseStep

  function Apply(s: Session, step: Step): Session {
    match step
    case PollStep(reply, ops, status) => Poll(s, reply, ops, status).0
    case WriteStep(data, reply) => Write(s, data, reply).0
    case CloseStep => Close(s)
  }

  function RunSteps(s: Session, steps: seq<Step>): Session {
    if steps == [] then s else Apply(RunSteps(s, steps[..|steps| - 1]), steps[|steps| - 1])
  }

  function CountCloses(log: seq<Event>): nat {
    if log == [] then 0 else CountCloses(log[..|log| - 1]) + if log[|log| - 1] == CloseCall then 1 else 0
  }

  /** The bytes the receive callbacks confirmed, and the bytes the shell was fed, both in order. */
  function AllConfirmed(log: seq<Event>): string {
    if log == [] then []
    else AllConfirmed(log[..|log| - 1]) + match log[|log| - 1] case ReadCall(reply) => reply.Confirmed() case _ => []
  }

  function AllFed(log: seq<Event>): string {
    if log == [] then []
    else AllFed(log[..|log| - 1]) + match log[|log| - 1] case Fed(bytes) => bytes case _ => []
  }

  predicate IsCallback(e: Event) {
    e.ReadCall? || e.WriteCall?
  }

  /** No callback runs after the close callback. */
  predicate QuietAfterClose(log: seq<Event>) {
    forall i, j :: 0 <= i < j < |log| && log[i] == CloseCall ==> !IsCallback(log[j])
  }

  /** The close callback has run exactly once when the state is terminal, and not at all before. */
  predicate Inv(s: Session) {
    && (s.closeNotified <==> s.state != Open)
    && CountCloses(s.log) == (if s.state == Open then 0 else 1)
    && QuietAfterClose(s.log)
    && (s.state == Open ==> CloseCall !in s.log)
  }

  lemma AppendKeeps(log: seq<Event>, e: Event)
    ensures CountCloses(log + [e]) == CountCloses(log) + if e == CloseCall then 1 else 0
    ensures AllConfirmed(log + [e]) ==
        AllConfirmed(log) + match e case ReadCall(reply) => reply.Confirmed() case _ => []
    ensures AllFed(log + [e]) == AllFed(log) + match e case Fed(bytes) => bytes case _ => []
    ensures QuietAfterClose(log) && (IsCallback(e) ==> CloseCall !in log) ==> QuietAfterClose(log + [e])
  {
    assert (log + [e])[..|log|] == log;
  }

  /** The log shows the same received and fed bytes as before. */
  predicate SameBytes(s: Session, t: Session) {
    AllConfirmed(t.log) == AllConfirmed(s.log) && AllFed(t.log) == AllFed(s.log)
  }

  predicate Absorbed(s: Session, t: Session) {
    s.state != Open ==> t.state == s.state && t.log == s.log
  }

  lemma SetTerminalKeeps(s: Session, state: SessionState)
    requires Inv(s) && state != Open
    ensures var t := SetTerminal(s, state); Inv(t) && t.state != Open && SameBytes(s, t) && Absorbed(s, t)
  {
    AppendKeeps(s.log, CloseCall);
  }

  /** An open session logs something else than its end. */
  lemma LoggingKeeps(s: Session, e: Event)
    requires Inv(s) && s.state == Open && e != CloseCall
    ensures var t := s.(log := s.log + [e]);
      && Inv(t)
      && AllConfirmed(t.log) == AllConfirmed(s.log) + (match e case ReadCall(reply) => reply.Confirmed() case _ => [])
      && AllFed(t.log) == AllFed(s.log) + match e case Fed(bytes) => bytes case _ => []
  {
    hide CountCloses, AllConfirmed, AllFed, QuietAfterClose, IsCallback;
    AppendKeeps(s.log, e);
  }

  lemma WriteKeeps(s: Session, data: string, answer: WriteReply)
    requires Inv(s)
    ensures var t := Write(s, data, answer).0; Inv(t) && SameBytes(s, t) && Absorbed(s, t)
  {
    hide Inv, AllConfirmed, AllFed;
    if s.state == Open {
      LoggingKeeps(s, WriteCall(data, answer));
      var t := s.(log := s.log + [WriteCall(data, answer)]);
      assert SameBytes(s, t) by {
        assert AllConfirmed(s.log) + [] == AllConfirmed(s.log) && AllFed(s.log) + [] == AllFed(s.log);
      }
      SetTerminalKeeps(t, IoFailed);
      SetTerminalKeeps(t, PeerClosed);
    }
  }

  lemma CloseKeeps(s: Session)
    requires Inv(s)
    ensures var t := Close(s); Inv(t) && t.state != Open && SameBytes(s, t) && Absorbed(s, t)
  {
    SetTerminalKeeps(s, LocalClosed);
  }

  lemma {:induction false} ShellKeeps(s: Session, ops: seq<ShellOp>)
    requires Inv(s)
    ensures var t := ShellDoes(s, ops); Inv(t) && SameBytes(s, t) && Absorbed(s, t)
  {
    hide Inv, Write, Close;
    if ops != [] {
      var t := ShellDoes(s, ops[..|ops| - 1]);
      ShellKeeps(s, ops[..|ops| - 1]);
      match ops[|ops| - 1]
      case Emit(data, reply) => WriteKeeps(t, data, reply);
      case CloseIt => CloseKeeps(t);
    }
  }

  lemma ConcludeKeeps(s: Session, status: IoStatus, count: nat, shellStatus: int)
    requires Inv(s)
    ensures var t := Conclude(s, status, count, shellStatus).0; Inv(t) && SameBytes(s, t)
  {
    hide Inv;
    SetTerminalKeeps(s, IoFailed);
    SetTerminalKeeps(s, PeerClosed);
  }

  /** What was confirmed is what was fed. */
  predicate FedInOrder(s: Session) {
    AllFed(s.log) == AllConfirmed(s.log)
  }

  lemma PollKeeps(s: Session, reply: ReadReply, ops: seq<ShellOp>, shellStatus: int)
    requires Inv(s) && FedInOrder(s)
    ensures var t := Poll(s, reply, ops, shellStatus).0; Inv(t) && FedInOrder(t) && Absorbed(s, t)
  {
    hide Inv, AllConfirmed, AllFed, SetTerminal, Conclude, ShellDoes;
    if s.state == Open {
      var bytes := reply.Confirmed();
      var t := s.(log := s.log + [ReadCall(reply)]);
      LoggingKeeps(s, ReadCall(reply));
      if reply.count > RX_CHUNK {
        SetTerminalKeeps(t, IoFailed);
      } else if reply.count == 0 {
        ConcludeKeeps(t, reply.status, 0, SH_OK);
      } else {
        var fed := t.(log := t.log + [Fed(bytes)]);
        LoggingKeeps(t, Fed(bytes));
        ShellKeeps(fed, ops);
        var u := ShellDoes(fed, ops).(lastShellStatus := shellStatus);
        StatusKeeps(ShellDoes(fed, ops), shellStatus);
        ConcludeKeeps(u, reply.status, reply.count, shellStatus);
      }
    }
  }

  lemma StatusKeeps(s: Session, shellStatus: int)
    requires Inv(s)
    ensures Inv(s.(lastShellStatus := shellStatus))
  {
  }

  /**
   * Over every run after a successful init: the close callback has run exactly once if and only if the
   * state is terminal, no read or write callback runs after it, and the bytes fed to the shell are the
   * confirmed in-range bytes, once and in order, whatever status came with them.
   */
  lemma {:induction false} EveryRun(steps: seq<Step>)
    ensures var s := RunSteps(OPENED, steps); Inv(s) && FedInOrder(s)
  {
    hide Inv, Poll, Write, Close;
    if steps == [] {
      Opened();
    } else {
      var before := RunSteps(OPENED, steps[..|steps| - 1]);
      EveryRun(steps[..|steps| - 1]);
      StepKeeps(before, steps[|steps| - 1]);
    }
  }

  lemma Opened()
    ensures Inv(OPENED) && FedInOrder(OPENED)
  {
  }

  lemma StepKeeps(s: Session, step: Step)
    requires Inv(s) && FedInOrder(s)
    ensures var t := Apply(s, step); Inv(t) && FedInOrder(t) && Absorbed(s, t)
  {
    hide Inv, Poll, Write, Close;
    match step
    case PollStep(reply, ops, status) => PollKeeps(s, reply, ops, status);
    case WriteStep(data, answer) => WriteKeeps(s, data, answer);
    case CloseStep => CloseKeeps(s);
  }

  /** Terminal states are absorbing: no later step changes the state or runs a callback. */
  lemma {:induction false} TerminalIsAbsorbing(first: seq<Step>, more: seq<Step>)
    requires RunSteps(OPENED, first).state != Open
    ensures var s, t := RunSteps(OPENED, first), RunSteps(OPENED, first + more);
      t.state == s.state && t.log == s.log
  {
    hide Inv, Apply;
    if more == [] {
      assert first + more == first;
    } else {
      var init := more[..|more| - 1];
      TerminalIsAbsorbing(first, init);
      assert (first + more)[..|first + more| - 1] == first + init;
      EveryRun(first + init);
      StepKeeps(RunSteps(OPENED, first + init), more[|more| - 1]);
    }
  }

  /**
   * When exactly a poll ends an open session: the shell ended it while it handled the input, the count was
   * impossible, or the callback reported an end (or no progress) and the shell accepted the input.  A shell
   * error therefore hides a closed connection until the next poll.
   */
  lemma PollEndsIff(s: Session, reply: ReadReply, ops: seq<ShellOp>, shellStatus: int)
    requires s.state == Open
    ensures var t := s.(log := s.log + [ReadCall(reply), Fed(reply.Confirmed())]);
      Poll(s, reply, ops, shellStatus).0.state != Open <==>
        || reply.count > RX_CHUNK
        || (0 < reply.count <= RX_CHUNK && ShellDoes(t, ops).state != Open)
        || (reply.count <= RX_CHUNK && (reply.count == 0 || shellStatus == SH_OK)
            && (|| reply.status in {IoClosed, IoStatus.IoError} || reply.status.IoUnknown?
                || (reply.status == IoOk && reply.count == 0)))
  {
    hide ShellDoes;
    assert s.log + [ReadCall(reply)] + [Fed(reply.Confirmed())] == s.log + [ReadCall(reply), Fed(reply.Confirmed())];
  }

  const SH_ERR_AMBIGUOUS: int := -6

  /**
   * A closed connection that is reported with a Tab, to which the shell answers an ambiguity: the session stays
   * open.
   */
  lemma ShellErrorHidesClose(bytes: RxBuffer)
    requires bytes[0] == '\t'
    ensures var (s, result) := Poll(OPENED, ReadReply(IoClosed, 1, bytes), [], SH_ERR_AMBIGUOUS);
      s.state == Open && result.status == ErrShell && AllFed(s.log) == ['\t']
  {
    var reply := ReadReply(IoClosed, 1, bytes);
    assert reply.Confirmed() == ['\t'];
    AppendKeeps([ReadCall(reply)], Fed(['\t']));
    AppendKeeps([], ReadCall(reply));
    assert [] + [ReadCall(reply)] == [ReadCall(reply)] && [] + ['\t'] == ['\t'];
  }

  // ----- the transport loop over a session -----

  /** A socket that answers by script: what it accepted so far, and the answers still to come. */
  datatype Wire = Wire(session: Session, script: nat -> WriteReply, asked: nat, accepted: string)

  /** The session's write callback for sh_transport_write_all; the socket keeps what it says it took. */
  function WireWrite(w: Wire, data: string): Reply<Wire> {
    var answer := w.script(w.asked);
    var (session, status, written) := Write(w.session, data, answer);
    var asked := w.session.state == Open && data != [];
    var taken := if asked && answer.written <= |data| then data[..answer.written] else [];
    Reply(Wire(session, w.script, if asked then w.asked + 1 else w.asked, w.accepted + taken), status, written)
  }

  /** Through a TCP session too, a write reaches the socket as a prefix of the data, in order and once. */
  lemma TcpWriteReachesSocket(w: Wire, data: string, maxAttempts: nat)
    ensures var o := WriteAll(WireWrite, w, data, maxAttempts);
      && o.total <= |data| && o.writer.accepted == w.accepted + data[..o.total]
      && |o.calls| <= maxAttempts
      && (o.status == OK ==> o.total == |data|)
      && (o.status == WouldBlock || o.status == AttemptsExhausted ==> |o.calls| == maxAttempts && o.total < |data|)
  {
    var sink := (v: Wire) => v.accepted;
    assert Honest(WireWrite, sink);
    WriteAllReachesSink(WireWrite, sink, w, data, maxAttempts);
    WriteAllKeeps(WireWrite, w, data, maxAttempts);
  }
}
