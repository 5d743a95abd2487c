/**
 * shell/ports/freertos/sh_port_freertos.c: the adapter between two stream buffers and a shell task.  The
 * first part is the port with its critical sections; the second lets any number of tasks, interrupts and
 * stop requests interleave between those sections.
 */
module FreertosPort {
  import opened Text
  import Transport

  const UINT32_MAX: nat := 0xffff_ffff

  type uint32 = n: nat | n <= UINT32_MAX

  /** sh_freertos_stats_t. */
  datatype Stats = Stats(
    rxEnqueued: uint32, rxDelivered: uint32, rxOverflow: uint32, rxErrors: uint32,
    txEnqueued: uint32, txOverflow: uint32, txErrors: uint32)

  const ZERO := Stats(0, 0, 0, 0, 0, 0, 0)

  /** counter_add. */
  function CounterAdd(counter: uint32, amount: nat): uint32 {
    if amount > UINT32_MAX - counter then UINT32_MAX else counter + amount
  }

  function Saturated(total: nat): uint32 {
    if total <= UINT32_MAX then total else UINT32_MAX
  }

  /** The fields of the port that tasks and interrupts share, with the two streams. */
  datatype Port = Port(running: bool, stop: bool, stats: Stats, rx: string, tx: string)

  // ----- the critical sections -----

  function CountDelivered(p: Port, n: nat): Port {
    p.(stats := p.stats.(rxDelivered := CounterAdd(p.stats.rxDelivered, n)))
  }

  function FailRun(p: Port): Port {
    p.(stats := p.stats.(rxErrors := CounterAdd(p.stats.rxErrors, 1)), running := false)
  }

  /** sh_freertos_rx_from_isr on good arguments, when the stream takes the first sent bytes. */
  function RxFromIsr(p: Port, data: string, sent: nat): Port
    requires sent <= |data|
  {
    p.(rx := p.rx + data[..sent],
       stats := p.stats.(rxEnqueued := CounterAdd(p.stats.rxEnqueued, sent),
                         rxOverflow := CounterAdd(p.stats.rxOverflow, |data| - sent)))
  }

  /** xStreamBufferSend, when the TX stream takes the first sent bytes. */
  function SendTo(p: Port, data: string, sent: nat): Port
    requires sent <= |data|
  {
    p.(tx := p.tx + data[..sent])
  }

  /** The counters of sh_freertos_transport_write. */
  function CountSent(p: Port, len: nat, sent: nat): Port
    requires sent <= len
  {
    p.(stats := p.stats.(txEnqueued := CounterAdd(p.stats.txEnqueued, sent),
                         txOverflow := CounterAdd(p.stats.txOverflow, len - sent)))
  }

  /** sh_freertos_transport_write on good arguments. */
  function WriteTo(p: Port, data: string, sent: nat): (Port, Transport.Status, nat)
    requires sent <= |data|
  {
    if data == [] then (p, Transport.OK, 0)
    else
      var status := if sent == |data| then Transport.OK else Transport.WouldBlock;
      (CountSent(SendTo(p, data, sent), |data|, sent), status, sent)
  }

  /** The errors of calls with bad arguments. */
  function RefuseReceive(p: Port): Port {
    p.(stats := p.stats.(rxErrors := CounterAdd(p.stats.rxErrors, 1)))
  }

  function RefuseWrite(p: Port): Port {
    p.(stats := p.stats.(txErrors := CounterAdd(p.stats.txErrors, 1)))
  }

  /** sh_freertos_config_t; a stream is there or NULL, and maxDelay is portMAX_DELAY. */
  datatype PortConfig = PortConfig(rxStream: bool, txStream: bool, readTimeout: nat, maxDelay: nat, chunkSize: nat)

  const MAX_READ_CHUNK: nat := 64

  /** sh_freertos_port_t. */
  class PortObject {
    var running: bool
    var stopRequested: bool
    var stats: Stats
    var rxStream: string
    var txStream: string

    ghost function Abs(): Port
      reads this
    {
      Port(running, stopRequested, stats, rxStream, txStream)
    }

    /** sh_freertos_init. */
    constructor ()
      ensures Abs() == Port(false, false, ZERO, [], [])
    {
      running, stopRequested, stats, rxStream, txStream := false, false, ZERO, [], [];
    }

    /** The first critical section of sh_freertos_run: false means SH_ERR_BUSY. */
    method TryEnter() returns (entered: bool)
      modifies this
      ensures entered == !old(running) && Abs() == old(Abs()).(running := true)
    {
      if running {
        return false;
      }
      running := true;
      return true;
    }

    method Count(n: nat)
      modifies this
      ensures Abs() == CountDelivered(old(Abs()), n)
    {
      stats := stats.(rxDelivered := CounterAdd(stats.rxDelivered, n));
    }

    method Fail()
      modifies this
      ensures Abs() == FailRun(old(Abs()))
    {
      stats := stats.(rxErrors := CounterAdd(stats.rxErrors, 1));
      running := false;
    }

    method Leave()
      modifies this
      ensures Abs() == old(Abs()).(running := false)
    {
      running := false;
    }

    /** sh_freertos_request_stop. */
    method RequestStop()
      modifies this
      ensures Abs() == old(Abs()).(stop := true)
    {
      stopRequested := true;
    }

    /** sh_freertos_clear_stop: false means SH_ERR_BUSY. */
    method ClearStop() returns (done: bool)
      modifies this
      ensures done == !old(running)
      ensures Abs() == if done then old(Abs()).(stop := false) else old(Abs())
    {
      if running {
        return false;
      }
      stopRequested := false;
      return true;
    }

    /** sh_freertos_reset_stats: false means SH_ERR_BUSY. */
    method ResetStats() returns (done: bool)
      modifies this
      ensures done == !old(running)
      ensures Abs() == if done then old(Abs()).(stats := ZERO) else old(Abs())
    {
      if running {
        return false;
      }
      stats := ZERO;
      return true;
    }

    /** sh_freertos_rx_from_isr; sent is the answer of the stream buffer. */
    method Receive(data: string, sent: nat) returns (pass: bool)
      requires sent <= |data|
      modifies this
      ensures Abs() == RxFromIsr(old(Abs()), data, sent) && pass == (sent == |data|)
    {
      if |data| == 0 {
        assert rxStream + data[..sent] == rxStream;
        return true;
      }
      rxStream := rxStream + data[..sent];
      stats := stats.(rxEnqueued := CounterAdd(stats.rxEnqueued, sent));
      if sent != |data| {
        stats := stats.(rxOverflow := CounterAdd(stats.rxOverflow, |data| - sent));
        return false;
      }
      return true;
    }

    /** sh_freertos_transport_write; sent is the answer of the stream buffer. */
    method TransportWrite(data: string, sent: nat) returns (status: Transport.Status, written: nat)
      requires sent <= |data|
      modifies this
      ensures (Abs(), status, written) == WriteTo(old(Abs()), data, sent)
    {
      if |data| == 0 {
        return Transport.OK, 0;
      }
      txStream := txStream + data[..sent];
      written := sent;
      stats := stats.(txEnqueued := CounterAdd(stats.txEnqueued, sent));
      if sent != |data| {
        stats := stats.(txOverflow := CounterAdd(stats.txOverflow, |data| - sent));
      }
      status := if sent == |data| then Transport.OK else Transport.WouldBlock;
    }

    /** The answers to bad arguments, in an interrupt and in a task. */
    method ReceiveNothing() returns (pass: bool)
      modifies this
      ensures !pass && Abs() == RefuseReceive(old(Abs()))
    {
      stats := stats.(rxErrors := CounterAdd(stats.rxErrors, 1));
      return false;
    }

    method WriteNothing() returns (status: Transport.Status, written: nat)
      modifies this
      ensures status == Transport.InvalidArgument && written == 0 && Abs() == RefuseWrite(old(Abs()))
    {
      stats := stats.(txErrors := CounterAdd(stats.txErrors, 1));
      return Transport.InvalidArgument, 0;
    }
  }

  /** sh_freertos_init: no port means SH_ERR_INVALID_CONFIG. */
  method InitPort(config: PortConfig) returns (port: PortObject?)
    ensures port != null <==>
      && config.rxStream && config.txStream && config.readTimeout != 0 && config.readTimeout != config.maxDelay
      && 1 <= config.chunkSize <= 64
    ensures port != null ==> fresh(port) && port.Abs() == Port(false, false, ZERO, [], [])
  {
    if !config.rxStream || !config.txStream || config.readTimeout == 0 || config.readTimeout == config.maxDelay
       || config.chunkSize == 0 || config.chunkSize > MAX_READ_CHUNK {
      return null;
    }
    port := new PortObject();
  }

  // ----- interleaving -----

  /** Where a task is in sh_freertos_run; between any two of these other steps may happen. */
  datatype Pc =
    | Outside                       // not in the function, or refused
    | Starting                      // running is set, the stop flag not yet looked at
    | Prompting                     // inside sh_prompt
    | Checking                      // before the loop condition
    | Waiting                       // inside xStreamBufferReceive
    | Holding(chunk: string)        // received, the stop flag not yet looked at again
    | Counting(chunk: string)       // before the delivered counter
    | Feeding(chunk: string)        // before sh_input
    | InInput                       // inside sh_input
    | Failing                       // sh_input has failed
    | Leaving                       // the loop has ended

  /** A write that the TX stream has answered and that is not counted yet. */
  datatype Owed = Owed(sent: nat, refused: nat)

  datatype Task = Task(pc: Pc, owed: Option<Owed>)

  datatype Fate = Held | Given | Dropped

  /** One nonempty answer of the receive call: its bytes, the run it belongs to, what became of it. */
  datatype Chunk = Chunk(bytes: string, run: nat, fate: Fate)

  /** What has happened up to some moment: bytes on their way in and out, and failures. */
  datatype Past = Past(
    offered: nat, accepted: string, overflowed: nat,  // bytes of interrupts, and what the RX stream took of them
    fed: string,                                      // bytes given to sh_input
    failedRuns: nat, badInterrupts: nat,
    emitted: nat, written: string, refused: nat,      // bytes of writes, and what the TX stream took of them
    drained: string,                                  // bytes taken out of the TX stream
    badWrites: nat)

  const NOTHING := Past(0, [], 0, [], 0, 0, 0, [], 0, [], 0)

  /**
   * The port, the tasks, and the history of what happened; since is the past of the last reset, and late
   * are the writes that the TX stream had answered by then and that were not counted yet.
   */
  datatype Sys = Sys(
    port: Port, tasks: seq<Task>,
    inside: seq<nat>,     // the task that set running and has not cleared it, if any
    past: Past, since: Past, late: Owed,
    chunks: seq<Chunk>, runs: nat,
    starts: nat)          // sh_input calls begun since a stop was latched

  datatype Step =
    | Enter(t: nat)
    | LookFirst(t: nat)
    | Prompted(t: nat)
    | LookLoop(t: nat)
    | Take(t: nat, n: nat)
    | LookAgain(t: nat)
    | CountChunk(t: nat)
    | Feed(t: nat)
    | Returned(t: nat, ok: bool)
    | Fail(t: nat)
    | Leave(t: nat)
    | Send(t: nat, data: string, n: nat)
    | CountWrite(t: nat)
    | Interrupt(data: string, n: nat)
    | BadInterrupt
    | BadWrite
    | AskStop
    | ClearStop
    | Reset
    | Drain(n: nat)

  function At(s: Sys, t: nat, pc: Pc): Sys
    requires t < |s.tasks|
  {
    s.(tasks := s.tasks[t := s.tasks[t].(pc := pc)])
  }

  function LastFate(chunks: seq<Chunk>, fate: Fate): seq<Chunk>
    requires chunks != []
  {
    chunks[|chunks| - 1 := chunks[|chunks| - 1].(fate := fate)]
  }

  /** The places at which a task may write to the transport: anywhere but between the steps of the loop. */
  predicate Writes(pc: Pc) {
    pc == Outside || pc == Prompting || pc == InInput
  }

  /** The writes that are not counted yet, over all tasks. */
  function Owing(tasks: seq<Task>): Owed {
    if tasks == [] then Owed(0, 0)
    else
      var before := Owing(tasks[..|tasks| - 1]);
      match tasks[|tasks| - 1].owed
      case None => before
      case Some(owed) => Owed(before.sent + owed.sent, before.refused + owed.refused)
  }

  /** May the step happen now? */
  predicate Enabled(s: Sys, chunkSize: nat, step: Step) {
    match step
    case Enter(t) => t < |s.tasks| && s.tasks[t].pc == Outside && s.tasks[t].owed == None
    case LookFirst(t) => t < |s.tasks| && s.tasks[t].pc == Starting
    case Prompted(t) => t < |s.tasks| && s.tasks[t].pc == Prompting && s.tasks[t].owed == None
    case LookLoop(t) => t < |s.tasks| && s.tasks[t].pc == Checking
    case Take(t, n) => t < |s.tasks| && s.tasks[t].pc == Waiting && n <= chunkSize && n <= |s.port.rx|
    case LookAgain(t) => t < |s.tasks| && s.tasks[t].pc.Holding? && (s.tasks[t].pc.chunk != [] ==> s.chunks != [])
    case CountChunk(t) => t < |s.tasks| && s.tasks[t].pc.Counting?
    case Feed(t) => t < |s.tasks| && s.tasks[t].pc.Feeding? && s.chunks != []
    case Returned(t, _) => t < |s.tasks| && s.tasks[t].pc == InInput && s.tasks[t].owed == None
    case Fail(t) => t < |s.tasks| && s.tasks[t].pc == Failing
    case Leave(t) => t < |s.tasks| && s.tasks[t].pc == Leaving
    case Send(t, data, n) =>
      t < |s.tasks| && Writes(s.tasks[t].pc) && s.tasks[t].owed == None && data != [] && n <= |data|
    case CountWrite(t) => t < |s.tasks| && s.tasks[t].owed.Some?
    case Interrupt(data, n) => n <= |data|
    case BadInterrupt => true
    case BadWrite => true
    case AskStop => true
    case ClearStop => true
    case Reset => true
    case Drain(n) => n <= |s.port.tx|
  }

  /** sh_freertos_run, one atomic piece at a time, and everything that can happen in between. */
  function Next(s: Sys, chunkSize: nat, step: Step): Sys
    requires Enabled(s, chunkSize, step)
  {
    var p, past := s.port, s.past;
    match step
    case Enter(t) =>
      if p.running then s
      else At(s, t, Starting).(port := p.(running := true), inside := [t], runs := s.runs + 1)
    case LookFirst(t) => At(s, t, if p.stop then Checking else Prompting)
    case Prompted(t) => At(s, t, Checking)
    case LookLoop(t) => At(s, t, if p.stop then Leaving else Waiting)
    case Take(t, n) =>
      var taken := At(s, t, Holding(p.rx[..n])).(port := p.(rx := p.rx[n..]));
      if n == 0 then taken else taken.(chunks := s.chunks + [Chunk(p.rx[..n], s.runs, Held)])
    case LookAgain(t) =>
      var chunk := s.tasks[t].pc.chunk;
      if p.stop then
        if chunk == [] then At(s, t, Leaving) else At(s, t, Leaving).(chunks := LastFate(s.chunks, Dropped))
      else At(s, t, if chunk == [] then Checking else Counting(chunk))
    case CountChunk(t) =>
      var chunk := s.tasks[t].pc.chunk;
      At(s, t, Feeding(chunk)).(port := CountDelivered(p, |chunk|))
    case Feed(t) =>
      At(s, t, InInput).(
        chunks := LastFate(s.chunks, Given), past := past.(fed := past.fed + s.tasks[t].pc.chunk),
        starts := if p.stop then s.starts + 1 else s.starts)
    case Returned(t, ok) =>
      if ok then At(s, t, Checking) else At(s, t, Failing).(past := past.(failedRuns := past.failedRuns + 1))
    case Fail(t) => At(s, t, Outside).(port := FailRun(p), inside := [])
    case Leave(t) => At(s, t, Outside).(port := p.(running := false), inside := [])
    case Send(t, data, n) =>
      s.(port := SendTo(p, data, n), tasks := s.tasks[t := s.tasks[t].(owed := Some(Owed(n, |data[n..]|)))],
         past := past.(emitted := past.emitted + |data|, written := past.written + data[..n],
                       refused := past.refused + |data[n..]|))
    case CountWrite(t) =>
      var Owed(sent, refused) := s.tasks[t].owed.value;
      s.(port := CountSent(p, sent + refused, sent), tasks := s.tasks[t := s.tasks[t].(owed := None)])
    case Interrupt(data, n) =>
      s.(port := RxFromIsr(p, data, n),
         past := past.(offered := past.offered + |data|, accepted := past.accepted + data[..n],
                       overflowed := past.overflowed + |data[n..]|))
    case BadInterrupt => s.(port := RefuseReceive(p), past := past.(badInterrupts := past.badInterrupts + 1))
    case BadWrite => s.(port := RefuseWrite(p), past := past.(badWrites := past.badWrites + 1))
    case AskStop => s.(port := p.(stop := true), starts := if p.stop then s.starts else 0)
    case ClearStop => if p.running then s else s.(port := p.(stop := false))
    case Reset => if p.running then s else s.(port := p.(stats := ZERO), since := past, late := Owing(s.tasks))
    case Drain(n) => s.(port := p.(tx := p.tx[n..]), past := past.(drained := past.drained + p.tx[..n]))
  }

  // ----- what every interleaving keeps -----

  /** The pc of the task that is inside. */
  function Where(s: Sys): Pc {
    if s.inside == [] || s.inside[0] >= |s.tasks| then Outside else s.tasks[s.inside[0]].pc
  }

  /** At most one task is inside, and running says whether one is. */
  predicate OneInside(s: Sys) {
    && |s.inside| <= 1 && (s.port.running <==> s.inside != [])
    && (s.inside != [] ==> s.inside[0] < |s.tasks|)
    && forall t :: 0 <= t < |s.tasks| ==> (s.tasks[t].pc != Outside <==> s.inside == [t])
  }

  /** The steps of a task that is inside are steps at the place it is. */
  lemma InsideIs(s: Sys, t: nat)
    requires OneInside(s) && t < |s.tasks| && s.tasks[t].pc != Outside
    ensures s.inside == [t] && Where(s) == s.tasks[t].pc
    ensures forall pc :: Where(At(s, t, pc)) == pc
  {
  }

  lemma KeepsOneInside(s: Sys, chunkSize: nat, step: Step)
    requires OneInside(s) && Enabled(s, chunkSize, step)
    ensures OneInside(Next(s, chunkSize, step))
  {
    hide CounterAdd, LastFate;
  }

  /** What one task owes. */
  function Own(task: Task): Owed {
    match task.owed
    case None => Owed(0, 0)
    case Some(owed) => owed
  }

  lemma {:induction false} OwingChanges(tasks: seq<Task>, t: nat, task: Task)
    requires t < |tasks|
    ensures var before, after := Owing(tasks), Owing(tasks[t := task]);
      && after.sent + Own(tasks[t]).sent == before.sent + Own(task).sent
      && after.refused + Own(tasks[t]).refused == before.refused + Own(task).refused
  {
    var init := tasks[..|tasks| - 1];
    if t < |tasks| - 1 {
      OwingChanges(init, t, task);
      assert tasks[t := task][..|tasks| - 1] == init[t := task];
    } else {
      assert tasks[t := task][..|tasks| - 1] == init;
    }
  }

  lemma {:induction false} NobodyOwes(tasks: seq<Task>)
    ensures (forall t :: 0 <= t < |tasks| ==> tasks[t].owed == None) ==> Owing(tasks) == Owed(0, 0)
  {
    if tasks != [] {
      NobodyOwes(tasks[..|tasks| - 1]);
    }
  }

  /** The counter is what has come since, up to the largest uint32_t. */
  predicate Counts(counter: uint32, total: nat, since: nat) {
    since <= total && counter == Saturated(total - since)
  }

  /**
   * Each counter is the number of bytes or failures since the last reset.  A chunk is counted as delivered
   * just before it is fed; a failed run and a write are counted just after they happened.
   */
  predicate CountedIn(s: Sys) {
    var c, past, since, pc := s.port.stats, s.past, s.since, Where(s);
    && Counts(c.rxEnqueued, |past.accepted|, |since.accepted|)
    && Counts(c.rxOverflow, past.overflowed, since.overflowed)
    && Counts(c.rxDelivered, |past.fed| + (if pc.Feeding? then |pc.chunk| else 0), |since.fed|)
    && Counts(c.rxErrors, past.failedRuns + past.badInterrupts,
              since.failedRuns + since.badInterrupts + (if pc == Failing then 1 else 0))
  }

  /** What was owed at the reset is counted after it. */
  predicate CountedOut(s: Sys) {
    var c, past, since := s.port.stats, s.past, s.since;
    && Counts(c.txEnqueued, |past.written| + s.late.sent, |since.written| + Owing(s.tasks).sent)
    && Counts(c.txOverflow, past.refused + s.late.refused, since.refused + Owing(s.tasks).refused)
    && |since.written| <= |past.written| && since.refused <= past.refused
    && Counts(c.txErrors, past.badWrites, since.badWrites)
  }

  lemma KeepsCountedIn(s: Sys, chunkSize: nat, step: Step)
    requires OneInside(s) && CountedIn(s) && Enabled(s, chunkSize, step)
    ensures CountedIn(Next(s, chunkSize, step))
  {
    hide LastFate;
  }

  lemma KeepsCountedOut(s: Sys, chunkSize: nat, step: Step)
    requires CountedOut(s) && Enabled(s, chunkSize, step)
    ensures CountedOut(Next(s, chunkSize, step))
  {
    hide CountedOut, Enabled, Next;
    match step
    case Send(t, data, n) => SendCountedOut(s, chunkSize, t, data, n);
    case CountWrite(t) => WriteCountedOut(s, chunkSize, t);
    case _ => OtherCountedOut(s, chunkSize, step);
  }

  lemma SendCountedOut(s: Sys, chunkSize: nat, t: nat, data: string, n: nat)
    requires CountedOut(s) && Enabled(s, chunkSize, Send(t, data, n))
    ensures CountedOut(Next(s, chunkSize, Send(t, data, n)))
  {
    hide Owing;
    OwingChanges(s.tasks, t, s.tasks[t].(owed := Some(Owed(n, |data[n..]|))));
  }

  lemma WriteCountedOut(s: Sys, chunkSize: nat, t: nat)
    requires CountedOut(s) && Enabled(s, chunkSize, CountWrite(t))
    ensures CountedOut(Next(s, chunkSize, CountWrite(t)))
  {
    hide Owing;
    OwingChanges(s.tasks, t, s.tasks[t].(owed := None));
  }

  lemma OtherCountedOut(s: Sys, chunkSize: nat, step: Step)
    requires CountedOut(s) && Enabled(s, chunkSize, step) && !step.Send? && !step.CountWrite?
    ensures CountedOut(Next(s, chunkSize, step))
  {
    hide LastFate, Owing;
    OwingStays(s, chunkSize, step);
  }

  /** The other steps leave the writes alone. */
  lemma OwingStays(s: Sys, chunkSize: nat, step: Step)
    requires Enabled(s, chunkSize, step) && !step.Send? && !step.CountWrite?
    ensures Owing(Next(s, chunkSize, step).tasks) == Owing(s.tasks)
  {
    hide CounterAdd, LastFate, Owing;
    if StepOfRun(step) {
      OwingChanges(s.tasks, step.t, Next(s, chunkSize, step).tasks[step.t]);
    }
  }

  /** The steps that sh_freertos_run itself takes. */
  predicate StepOfRun(step: Step) {
    || step.Enter? || step.LookFirst? || step.Prompted? || step.LookLoop? || step.Take? || step.LookAgain?
    || step.CountChunk? || step.Feed? || step.Returned? || step.Fail? || step.Leave?
  }

  function AllBytes(chunks: seq<Chunk>): string {
    if chunks == [] then [] else AllBytes(chunks[..|chunks| - 1]) + chunks[|chunks| - 1].bytes
  }

  /** The bytes of the chunks that were given to sh_input. */
  function GivenBytes(chunks: seq<Chunk>): string {
    if chunks == [] then []
    else
      var last := chunks[|chunks| - 1];
      GivenBytes(chunks[..|chunks| - 1]) + if last.fate == Given then last.bytes else []
  }

  lemma ChunkAdded(chunks: seq<Chunk>, c: Chunk)
    ensures AllBytes(chunks + [c]) == AllBytes(chunks) + c.bytes
    ensures GivenBytes(chunks + [c]) == GivenBytes(chunks) + if c.fate == Given then c.bytes else []
  {
    assert (chunks + [c])[..|chunks|] == chunks;
  }

  lemma FateChanged(chunks: seq<Chunk>, fate: Fate)
    requires chunks != [] && chunks[|chunks| - 1].fate == Held
    ensures AllBytes(LastFate(chunks, fate)) == AllBytes(chunks)
    ensures GivenBytes(LastFate(chunks, fate)) ==
      GivenBytes(chunks) + if fate == Given then chunks[|chunks| - 1].bytes else []
  {
    hide AllBytes, GivenBytes, LastFate;
    var rest, last := chunks[..|chunks| - 1], chunks[|chunks| - 1];
    LastFateIs(chunks, fate);
    ChunkAdded(rest, last);
    ChunkAdded(rest, last.(fate := fate));
    assert GivenBytes(rest) + [] == GivenBytes(rest);
  }

  lemma LastFateIs(chunks: seq<Chunk>, fate: Fate)
    requires chunks != []
    ensures var rest, last := chunks[..|chunks| - 1], chunks[|chunks| - 1];
      chunks == rest + [last] && LastFate(chunks, fate) == rest + [last.(fate := fate)]
  {
  }

  /** The bytes a task inside has received and neither dropped nor handed over. */
  function Pending(pc: Pc): string {
    match pc
    case Holding(chunk) => chunk
    case Counting(chunk) => chunk
    case Feeding(chunk) => chunk
    case _ => []
  }

  /** The chunk in a task's hands is the last one of this run; only a run that is over has dropped one. */
  predicate Handled(s: Sys) {
    var pc := Where(s);
    && (Pending(pc) != [] ==> s.chunks != [] && s.chunks[|s.chunks| - 1] == Chunk(Pending(pc), s.runs, Held))
    && (Pending(pc) == [] ==> s.chunks != [] ==> s.chunks[|s.chunks| - 1].fate != Held)
    && (pc.Counting? || pc.Feeding? ==> Pending(pc) != [])
    && (s.chunks != [] && s.chunks[|s.chunks| - 1].fate == Dropped && s.chunks[|s.chunks| - 1].run == s.runs ==>
          pc == Leaving || pc == Outside)
  }

  lemma KeepsHandled(s: Sys, chunkSize: nat, step: Step)
    requires OneInside(s) && Handled(s) && Enabled(s, chunkSize, step)
    requires forall c :: c in s.chunks ==> c.run <= s.runs
    ensures Handled(Next(s, chunkSize, step))
  {
    hide OneInside, Handled, Enabled, Next;
    if step.Take? || step.LookAgain? || step.Feed? {
      ChunkStepHandled(s, chunkSize, step);
    } else {
      OtherStepHandled(s, chunkSize, step);
    }
  }

  lemma ChunkStepHandled(s: Sys, chunkSize: nat, step: Step)
    requires OneInside(s) && Handled(s) && Enabled(s, chunkSize, step)
    requires step.Take? || step.LookAgain? || step.Feed?
    ensures Handled(Next(s, chunkSize, step))
  {
    InsideIs(s, step.t);
    hide OneInside;
  }

  lemma OtherStepHandled(s: Sys, chunkSize: nat, step: Step)
    requires OneInside(s) && Handled(s) && Enabled(s, chunkSize, step)
    requires forall c :: c in s.chunks ==> c.run <= s.runs
    requires !step.Take? && !step.LookAgain? && !step.Feed?
    ensures Handled(Next(s, chunkSize, step))
  {
    hide CounterAdd, LastFate;
  }

  /** Chunks are short and in the order of the runs, and at most the last chunk of a run was dropped. */
  predicate Chunked(s: Sys, chunkSize: nat) {
    && (forall c :: c in s.chunks ==> 0 < |c.bytes| <= chunkSize && c.run <= s.runs)
    && forall i, j :: 0 <= i < j < |s.chunks| ==>
      s.chunks[i].fate != Held && s.chunks[i].run <= s.chunks[j].run
      && (s.chunks[i].fate == Dropped ==> s.chunks[i].run < s.chunks[j].run)
  }

  lemma KeepsChunked(s: Sys, chunkSize: nat, step: Step)
    requires OneInside(s) && Handled(s) && Chunked(s, chunkSize) && Enabled(s, chunkSize, step)
    ensures Chunked(Next(s, chunkSize, step), chunkSize)
  {
    hide CounterAdd;
  }

  /** Nothing is lost or invented on the way from the interrupt to the shell. */
  predicate Conserved(s: Sys) {
    && s.past.accepted == AllBytes(s.chunks) + s.port.rx
    && s.past.fed == GivenBytes(s.chunks)
    && |s.past.accepted| + s.past.overflowed == s.past.offered
  }

  /** Nothing is lost or invented on the way from a write to the reader of the TX stream. */
  predicate Emitted(s: Sys) {
    s.past.written == s.past.drained + s.port.tx && |s.past.written| + s.past.refused == s.past.emitted
  }

  lemma KeepsEmitted(s: Sys, chunkSize: nat, step: Step)
    requires Emitted(s) && Enabled(s, chunkSize, step)
    ensures Emitted(Next(s, chunkSize, step))
  {
    hide CounterAdd, LastFate;
    var past, tx := s.past, s.port.tx;
    if step.Drain? {
      assert tx == tx[..step.n] + tx[step.n..];
      assert past.drained + (tx[..step.n] + tx[step.n..]) == past.drained + tx[..step.n] + tx[step.n..];
    } else if step.Send? {
      assert past.drained + tx + step.data[..step.n] == past.drained + (tx + step.data[..step.n]);
    }
  }

  predicate MovesBytes(step: Step) {
    step.Take? || step.LookAgain? || step.Feed? || step.Interrupt?
  }

  lemma OtherStepsMoveNothing(s: Sys, chunkSize: nat, step: Step)
    requires Enabled(s, chunkSize, step) && !MovesBytes(step)
    ensures var t := Next(s, chunkSize, step);
      && t.past.accepted == s.past.accepted && t.chunks == s.chunks && t.port.rx == s.port.rx
      && t.past.fed == s.past.fed
      && t.past.overflowed == s.past.overflowed && t.past.offered == s.past.offered
  {
    hide CounterAdd;
  }

  lemma KeepsConserved(s: Sys, chunkSize: nat, step: Step)
    requires OneInside(s) && Handled(s) && Conserved(s) && Enabled(s, chunkSize, step)
    ensures Conserved(Next(s, chunkSize, step))
  {
    hide CounterAdd, AllBytes, GivenBytes;
    if !MovesBytes(step) {
      OtherStepsMoveNothing(s, chunkSize, step);
    } else if step.Take? {
      ChunkAdded(s.chunks, Chunk(s.port.rx[..step.n], s.runs, Held));
      assert s.port.rx == s.port.rx[..step.n] + s.port.rx[step.n..];
    } else if step.Interrupt? {
      var rx, more := s.port.rx, step.data[..step.n];
      assert AllBytes(s.chunks) + (rx + more) == AllBytes(s.chunks) + rx + more;
    } else {
      FateStepConserves(s, chunkSize, step);
    }
  }

  lemma FateStepConserves(s: Sys, chunkSize: nat, step: Step)
    requires OneInside(s) && Handled(s) && Conserved(s) && Enabled(s, chunkSize, step)
    requires step.LookAgain? || step.Feed?
    ensures Conserved(Next(s, chunkSize, step))
  {
    InsideIs(s, step.t);
    hide OneInside, LastFate, AllBytes, GivenBytes;
    if Pending(Where(s)) != [] {
      FateChanged(s.chunks, if step.Feed? then Given else Dropped);
    }
  }

  /** Since a stop was latched at most one sh_input call has begun or will begin. */
  predicate StopBinds(s: Sys) {
    s.port.stop ==> s.starts + (if Where(s).Counting? || Where(s).Feeding? then 1 else 0) <= 1
  }

  lemma KeepsStopBinds(s: Sys, chunkSize: nat, step: Step)
    requires OneInside(s) && StopBinds(s) && Enabled(s, chunkSize, step)
    ensures StopBinds(Next(s, chunkSize, step))
  {
    hide CounterAdd, LastFate;
  }

  ghost predicate Inv(s: Sys, chunkSize: nat) {
    && OneInside(s) && CountedIn(s) && CountedOut(s)
    && Handled(s) && Chunked(s, chunkSize) && Conserved(s) && Emitted(s) && StopBinds(s)
  }

  /** An initialised port and any number of tasks that have not called run yet. */
  function Initial(tasks: nat): Sys {
    Sys(Port(false, false, ZERO, [], []), seq(tasks, _ => Task(Outside, None)), [],
        NOTHING, NOTHING, Owed(0, 0), [], 0, 0)
  }

  /** The state after a sequence of steps, each of which may happen when its turn comes. */
  function Exec(s: Sys, chunkSize: nat, steps: seq<Step>): Option<Sys> {
    if steps == [] then Some(s)
    else match Exec(s, chunkSize, steps[..|steps| - 1])
      case None => None
      case Some(t) =>
        var step := steps[|steps| - 1];
        if Enabled(t, chunkSize, step) then Some(Next(t, chunkSize, step)) else None
  }

  lemma StepKeeps(s: Sys, chunkSize: nat, step: Step)
    requires Inv(s, chunkSize) && Enabled(s, chunkSize, step)
    ensures Inv(Next(s, chunkSize, step), chunkSize)
  {
    hide OneInside, CountedIn, CountedOut, Handled, Conserved, Emitted, StopBinds, Next, Enabled;
    KeepsOneInside(s, chunkSize, step);
    KeepsEmitted(s, chunkSize, step);
    KeepsCountedIn(s, chunkSize, step);
    KeepsCountedOut(s, chunkSize, step);
    KeepsHandled(s, chunkSize, step);
    KeepsChunked(s, chunkSize, step);
    KeepsConserved(s, chunkSize, step);
    KeepsStopBinds(s, chunkSize, step);
  }

  /** Every interleaving, of any length and with any number of tasks, keeps the invariant. */
  lemma {:induction false} EveryInterleaving(tasks: nat, chunkSize: nat, steps: seq<Step>)
    requires Exec(Initial(tasks), chunkSize, steps).Some?
    ensures Inv(Exec(Initial(tasks), chunkSize, steps).value, chunkSize)
  {
    hide Inv, Next, Enabled;
    if steps == [] {
      Starts(tasks, chunkSize);
    } else {
      var before := steps[..|steps| - 1];
      EveryInterleaving(tasks, chunkSize, before);
      StepKeeps(Exec(Initial(tasks), chunkSize, before).value, chunkSize, steps[|steps| - 1]);
    }
  }

  lemma Starts(tasks: nat, chunkSize: nat)
    ensures Inv(Initial(tasks), chunkSize)
  {
    NobodyOwes(Initial(tasks).tasks);
  }

  /**
   * Mutual exclusion: two tasks are never inside at once, running is true exactly while one is, and while
   * one is, clearing the stop and resetting the counters are refused and another run is too.
   */
  lemma OneTaskRuns(tasks: nat, chunkSize: nat, steps: seq<Step>, t: nat, u: nat)
    requires Exec(Initial(tasks), chunkSize, steps).Some?
    ensures Exclusive(Exec(Initial(tasks), chunkSize, steps).value, chunkSize, t, u)
  {
    EveryInterleaving(tasks, chunkSize, steps);
    hide OneInside, CountedIn, CountedOut, Handled, Chunked, Conserved, Emitted, StopBinds, Exec, Exclusive;
    InsideExcludes(Exec(Initial(tasks), chunkSize, steps).value, chunkSize, t, u);
  }

  lemma InsideExcludes(s: Sys, chunkSize: nat, t: nat, u: nat)
    requires OneInside(s)
    ensures Exclusive(s, chunkSize, t, u)
  {
    hide CounterAdd, LastFate;
    if s.port.running {
      assert s.tasks[s.inside[0]].pc != Outside;
    }
  }

  ghost predicate Exclusive(s: Sys, chunkSize: nat, t: nat, u: nat) {
    && (t < |s.tasks| && u < |s.tasks| && s.tasks[t].pc != Outside && s.tasks[u].pc != Outside ==> t == u)
    && (s.port.running <==> exists v :: 0 <= v < |s.tasks| && s.tasks[v].pc != Outside)
    && (s.port.running ==> Next(s, chunkSize, ClearStop) == s && Next(s, chunkSize, Reset) == s)
    && (s.port.running && Enabled(s, chunkSize, Enter(t)) ==> Next(s, chunkSize, Enter(t)) == s)
  }

  /**
   * What the shell has been fed are the accepted bytes in their order, without the chunks that were
   * dropped, the one in a task's hands and what is still in the stream; a chunk is no longer than the read
   * chunk, and no run has dropped two.  Accepted and overflowed bytes add up to the offered ones.  On the
   * other side the reader of the TX stream has got the bytes it took, in order.
   */
  lemma BytesAreConserved(tasks: nat, chunkSize: nat, steps: seq<Step>)
    requires Exec(Initial(tasks), chunkSize, steps).Some?
    ensures var s := Exec(Initial(tasks), chunkSize, steps).value;
      && s.past.accepted == AllBytes(s.chunks) + s.port.rx && s.past.fed == GivenBytes(s.chunks)
      && |s.past.accepted| + s.past.overflowed == s.past.offered
      && s.past.written == s.past.drained + s.port.tx && |s.past.written| + s.past.refused == s.past.emitted
      && (forall i :: 0 <= i < |s.chunks| ==> 0 < |s.chunks[i].bytes| <= chunkSize)
      && (forall i :: 0 <= i < |s.chunks| - 1 ==> s.chunks[i].fate != Held)
      && (forall i, j :: 0 <= i < j < |s.chunks| && s.chunks[i].fate == s.chunks[j].fate == Dropped ==>
            s.chunks[i].run < s.chunks[j].run)
  {
    EveryInterleaving(tasks, chunkSize, steps);
    hide OneInside, Handled, StopBinds, Exec, AllBytes, GivenBytes, CountedIn, CountedOut;
  }

  /**
   * Between resets each counter is the true number, cut at the largest uint32_t: of the bytes the RX stream
   * accepted and of those it had no room for; of the bytes fed to the shell, unless a task is between that
   * count and sh_input; of the bytes the TX stream took and refused, once all writes are counted, if and
   * only if the last reset did not fall between such a write and its count (or the counter is full anyway).
   */
  lemma CountersAreTrue(tasks: nat, chunkSize: nat, steps: seq<Step>)
    requires Exec(Initial(tasks), chunkSize, steps).Some?
    ensures TrueCounts(Exec(Initial(tasks), chunkSize, steps).value)
  {
    EveryInterleaving(tasks, chunkSize, steps);
    hide OneInside, CountedIn, CountedOut, Handled, Chunked, Conserved, Emitted, StopBinds, Exec, TrueCounts;
    CountedTruly(Exec(Initial(tasks), chunkSize, steps).value);
  }

  predicate TrueCounts(s: Sys) {
    var c, past, since := s.port.stats, s.past, s.since;
    && Counts(c.rxEnqueued, |past.accepted|, |since.accepted|)
    && Counts(c.rxOverflow, past.overflowed, since.overflowed)
    && ((forall t :: 0 <= t < |s.tasks| ==> !s.tasks[t].pc.Feeding?) ==> Counts(c.rxDelivered, |past.fed|, |since.fed|))
    && ((forall t :: 0 <= t < |s.tasks| ==> s.tasks[t].pc != Failing) ==>
          Counts(c.rxErrors, past.failedRuns + past.badInterrupts, since.failedRuns + since.badInterrupts))
    && ((forall t :: 0 <= t < |s.tasks| ==> s.tasks[t].owed == None) ==>
          && CountsUnless(c.txEnqueued, |past.written|, |since.written|, s.late.sent)
          && CountsUnless(c.txOverflow, past.refused, since.refused, s.late.refused))
    && Counts(c.txErrors, past.badWrites, since.badWrites)
  }

  /** The counter is true exactly when nothing was late, or when it is full anyway. */
  predicate CountsUnless(counter: uint32, total: nat, since: nat, late: nat) {
    since <= total && (Counts(counter, total, since) <==> late == 0 || total - since >= UINT32_MAX)
  }

  lemma CountedTruly(s: Sys)
    requires OneInside(s) && CountedIn(s) && CountedOut(s)
    ensures TrueCounts(s)
  {
    NobodyOwes(s.tasks);
  }

  /** Such a reset: one byte is written, then comes the reset, then the count; no byte has come since. */
  lemma ResetDuringWrite(chunkSize: nat)
    ensures var end := Exec(Initial(1), chunkSize, [Send(0, ['a'], 1), Reset, CountWrite(0)]);
      && end.Some? && end.value.port.stats.txEnqueued == 1 && end.value.past.written == end.value.since.written
      && end.value.tasks[0].owed == None && end.value.late == Owed(1, 0)
      && !Counts(end.value.port.stats.txEnqueued, |end.value.past.written|, |end.value.since.written|)
  {
    var a, b, c := Send(0, ['a'], 1), Reset, CountWrite(0);
    var s := Initial(1);
    assert [a, b, c][..2] == [a, b] && [a, b][..1] == [a] && [a][..0] == [];
    assert Exec(s, chunkSize, []) == Some(s);
    var t := Next(s, chunkSize, a);
    assert Exec(s, chunkSize, [a]) == Some(t);
    assert t.tasks == [Task(Outside, Some(Owed(1, 0)))] && t.tasks[..0] == [];
    assert Owing(t.tasks) == Owed(1, 0);
    var u := Next(t, chunkSize, b);
    assert Exec(s, chunkSize, [a, b]) == Some(u);
    assert Exec(s, chunkSize, [a, b, c]) == Some(Next(u, chunkSize, c));
  }

  /** A chunk is dropped only by a task that saw the stop flag, and then that task leaves the loop. */
  lemma OnlyAStopDrops(s: Sys, chunkSize: nat, step: Step, i: nat)
    requires Inv(s, chunkSize) && Enabled(s, chunkSize, step)
    requires var t := Next(s, chunkSize, step);
      i < |t.chunks| && t.chunks[i].fate == Dropped && (i < |s.chunks| ==> s.chunks[i].fate != Dropped)
    ensures s.port.stop && step.LookAgain? && Next(s, chunkSize, step).tasks[step.t].pc == Leaving
  {
    hide CountedIn, CountedOut, Handled, Chunked, Conserved, Emitted, StopBinds, CounterAdd;
  }

  /** After a stop was latched at most one more sh_input call begins, in any continuation without a clear. */
  lemma StopEndsInput(tasks: nat, chunkSize: nat, steps: seq<Step>)
    requires Exec(Initial(tasks), chunkSize, steps).Some?
    ensures var s := Exec(Initial(tasks), chunkSize, steps).value;
      s.port.stop ==> s.starts <= 1
  {
    EveryInterleaving(tasks, chunkSize, steps);
    hide OneInside, CountedIn, CountedOut, Handled, Chunked, Conserved, Emitted, Exec;
  }

  // ----- a stop ends the run -----

  /** How many steps of its own a task is from leaving, at most, once the stop is latched. */
  function Rank(pc: Pc): nat {
    match pc
    case Outside => 0
    case Leaving => 1
    case Failing => 1
    case Checking => 2
    case Holding(_) => 2
    case Starting => 3
    case Prompting => 3
    case Waiting => 3
    case InInput => 3
    case Feeding(_) => 4
    case Counting(_) => 5
  }

  /**
   * Under a stop every step that a task takes in sh_freertos_run brings it closer to its end; no other step
   * matters.
   */
  lemma StopLowersRank(s: Sys, chunkSize: nat, step: Step)
    requires OneInside(s) && s.port.running && s.port.stop && Enabled(s, chunkSize, step)
    ensures var t := Next(s, chunkSize, step);
      && t.port.stop
      && (if StepOfRun(step) && !step.Enter?
          then Rank(Where(t)) < Rank(Where(s)) && (t.port.running <==> Rank(Where(t)) > 0)
          else Rank(Where(t)) == Rank(Where(s)) && t.port.running && t.runs == s.runs)
  {
    hide CounterAdd, LastFate;
  }

  /** The steps in a sequence that tasks take in sh_freertos_run. */
  function StepsOfRun(steps: seq<Step>): nat {
    if steps == [] then 0
    else
      var last := steps[|steps| - 1];
      StepsOfRun(steps[..|steps| - 1]) + if StepOfRun(last) && !last.Enter? then 1 else 0
  }

  /**
   * After a stop the run ends: as long as it goes on, the task inside has taken at most five steps of its
   * own, whatever else has happened.
   */
  lemma {:induction false} StopEndsRun(s: Sys, chunkSize: nat, steps: seq<Step>)
    requires Inv(s, chunkSize) && s.port.running && s.port.stop
    requires Exec(s, chunkSize, steps).Some?
    ensures var t := Exec(s, chunkSize, steps).value;
      && Inv(t, chunkSize) && t.runs >= s.runs
      && (t.runs == s.runs && t.port.running ==>
            t.port.stop && StepsOfRun(steps) + Rank(Where(t)) <= Rank(Where(s)) <= 5)
  {
    hide Inv, Next, Enabled, Rank;
    if steps == [] {
      assert Rank(Where(s)) <= 5 by { RankBound(Where(s)); }
    } else {
      var before, step := steps[..|steps| - 1], steps[|steps| - 1];
      StopEndsRun(s, chunkSize, before);
      var u := Exec(s, chunkSize, before).value;
      StepKeeps(u, chunkSize, step);
      RunsGrow(u, chunkSize, step);
      if u.port.running && u.port.stop {
        assert OneInside(u) by { InvInside(u, chunkSize); }
        StopLowersRank(u, chunkSize, step);
      }
    }
  }

  lemma RankBound(pc: Pc)
    ensures Rank(pc) <= 5
  {
  }

  lemma InvInside(s: Sys, chunkSize: nat)
    requires Inv(s, chunkSize)
    ensures OneInside(s)
  {
  }

  lemma RunsGrow(s: Sys, chunkSize: nat, step: Step)
    requires Enabled(s, chunkSize, step)
    ensures var t := Next(s, chunkSize, step);
      t.runs >= s.runs && (!s.port.running && t.port.running ==> t.runs > s.runs)
  {
    hide CounterAdd, LastFate;
  }

  // ----- the transport loop over the TX stream -----

  /** The two steps of a write are the write of the port. */
  lemma SendThenCount(s: Sys, chunkSize: nat, t: nat, data: string, n: nat)
    requires Enabled(s, chunkSize, Send(t, data, n))
    ensures var sent := Next(s, chunkSize, Send(t, data, n));
      && Enabled(sent, chunkSize, CountWrite(t))
      && Next(sent, chunkSize, CountWrite(t)).port == WriteTo(s.port, data, n).0
  {
    hide CounterAdd;
  }

  /** The TX side as a write callback sees it: how much each attempt finds room for is arbitrary. */
  datatype TxEnd = TxEnd(port: Port, space: nat -> nat, asked: nat)

  /** The write callback for sh_transport_write_all. */
  function StreamWrite(w: TxEnd, data: string): Transport.Reply<TxEnd> {
    var sent := Min(w.space(w.asked), |data|);
    var (port, status, written) := WriteTo(w.port, data, sent);
    Transport.Reply(TxEnd(port, w.space, if data == [] then w.asked else w.asked + 1), status, written)
  }

  lemma {:induction false} StreamRest(w: TxEnd, data: string, budget: nat, last: Transport.Status)
    requires data != [] && (budget > 0 || last == Transport.WouldBlock)
    ensures var o := Transport.WriteRest(StreamWrite, w, data, budget, last);
      && o.total <= |data|
      && o.writer.port.stats.txEnqueued == CounterAdd(w.port.stats.txEnqueued, o.total)
      && o.status == if o.total == |data| then Transport.OK else Transport.WouldBlock
    decreases budget
  {
    if budget > 0 {
      var r := StreamWrite(w, data);
      if r.written < |data| {
        StreamRest(r.writer, data[r.written..], budget - 1, r.status);
      }
    }
  }

  /**
   * Through the FreeRTOS adapter a write puts a prefix of the data into the stream, in order and once, in at
   * most maxAttempts attempts; it reports OK when that is all of it and WOULD_BLOCK otherwise.
   */
  lemma StreamWriteReachesStream(w: TxEnd, data: string, maxAttempts: nat)
    requires maxAttempts > 0
    ensures var o := Transport.WriteAll(StreamWrite, w, data, maxAttempts);
      && o.total <= |data| && o.writer.port.tx == w.port.tx + data[..o.total]
      && |o.calls| <= maxAttempts
      && o.writer.port.stats.txEnqueued == CounterAdd(w.port.stats.txEnqueued, o.total)
      && o.status == (if o.total == |data| then Transport.OK else Transport.WouldBlock)
      && (o.status == Transport.WouldBlock ==> |o.calls| == maxAttempts)
  {
    var sink := (v: TxEnd) => v.port.tx;
    assert Transport.Honest(StreamWrite, sink);
    Transport.WriteAllReachesSink(StreamWrite, sink, w, data, maxAttempts);
    Transport.WriteAllKeeps(StreamWrite, w, data, maxAttempts);
    if data != [] {
      StreamRest(w, data, maxAttempts, Transport.OK);
    }
  }
}
