/** What each answer of a callback does to a TCP session, as tables. */
module TcpLaws {
  import opened Transport
  import opened TcpPort

  /** The state in which a read callback's answer leaves an open session, and what the poll reports of it. */
  predicate ReadRow(status: IoStatus, nothing: bool, state: SessionState, report: PollStatus) {
    match status
    case IoOk => if nothing then state == IoFailed && report == ErrProtocol else state == Open && report == RxData
    case IoWouldBlock => state == Open && report == if nothing then Idle else RxData
    case IoClosed => state == PeerClosed && report == Disconnected
    case IoError => state == IoFailed && report == ErrIo
    case IoUnknown(_) => state == IoFailed && report == ErrProtocol
  }

  /**
   * One poll of an open session.  An impossible count is a protocol error; without bytes the answer's row
   * applies; with bytes the shell comes first, and the row applies only if it accepts them and leaves the
   * session open.
   */
  lemma PollTable(s: Session, reply: ReadReply, ops: seq<ShellOp>, shellStatus: int)
    requires s.state == Open
    ensures var (t, result) := Poll(s, reply, ops, shellStatus);
      var asked := s.(log := s.log + [ReadCall(reply)]);
      if reply.count > 128 then
        && t.state == IoFailed && t.lastShellStatus == s.lastShellStatus
        && result == PollResult(ErrProtocol, 0, s.lastShellStatus)
      else if reply.count == 0 then
        && ReadRow(reply.status, true, t.state, result.status) && t.lastShellStatus == s.lastShellStatus
        && result.received == 0 && result.shellStatus == 0
      else
        var handled := ShellDoes(asked.(log := asked.log + [Fed(reply.bytes[..reply.count])]), ops);
        && t.lastShellStatus == shellStatus && result.received == reply.count && result.shellStatus == shellStatus
        && if shellStatus != 0 then t.state == handled.state && t.log == handled.log && result.status == ErrShell
           else if handled.state != Open then t.state == handled.state && t.log == handled.log && result.status == ErrIo
           else ReadRow(reply.status, false, t.state, result.status)
  {
    hide ShellDoes;
  }

  /** A poll of a session that has ended asks nobody. */
  lemma PollOfEnded(s: Session, reply: ReadReply, ops: seq<ShellOp>, shellStatus: int)
    requires s.state != Open
    ensures Poll(s, reply, ops, shellStatus) == (s, PollResult(ErrClosed, 0, s.lastShellStatus))
  {
  }

  /** One write: the state, the status and the count, by what the socket answers. */
  lemma WriteTable(s: Session, data: string, answer: WriteReply)
    ensures var (t, status, written) := Write(s, data, answer);
      && (s.state != Open ==> t == s && status == Status.IoError && written == 0)
      && (s.state == Open && data == [] ==> t == s && status == OK && written == 0)
      && (s.state == Open && data != [] ==>
            && t.lastShellStatus == s.lastShellStatus
            && WriteCall(data, answer) == t.log[|s.log|]
            && if answer.written > |data| then t.state == IoFailed && status == ProtocolError && written == 0
               else written == answer.written && match answer.status
                 case IoOk =>
                   if written == 0 then t.state == IoFailed && status == NoProgress else t.state == Open && status == OK
                 case IoWouldBlock => t.state == Open && status == WouldBlock
                 case IoClosed => t.state == PeerClosed && status == Status.IoError
                 case IoError => t.state == IoFailed && status == Status.IoError
                 case IoUnknown(_) => t.state == IoFailed && status == ProtocolError)
  {
  }

  /** A close ends an open session as closed here, calls the callback once, and does nothing to an ended one. */
  lemma CloseTable(s: Session)
    requires s.closeNotified <==> s.state != Open
    ensures Close(s) ==
      if s.state == Open then Session(LocalClosed, true, s.lastShellStatus, s.log + [CloseCall]) else s
  {
  }
}
