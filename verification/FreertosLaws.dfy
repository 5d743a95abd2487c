/**
 * The FreeRTOS adapter, told by the steps that were taken alone: what has come and gone, what the counters
 * say, whether a stop is latched, and how a run ends.
 */
module FreertosLaws {
  import opened Text
  import opened FreertosPort

  // ----- sums over the steps -----

  /** What one step brings: bytes offered and accepted, bytes written and taken, bytes drained, and failures. */
  function Brings(step: Step): Past {
    match step
    case Interrupt(data, n) =>
      if n <= |data| then NOTHING.(offered := |data|, accepted := data[..n], overflowed := |data| - n) else NOTHING
    case BadInterrupt => NOTHING.(badInterrupts := 1)
    case Returned(_, ok) => NOTHING.(failedRuns := if ok then 0 else 1)
    case Send(_, data, n) =>
      if n <= |data| then NOTHING.(emitted := |data|, written := data[..n], refused := |data| - n) else NOTHING
    case BadWrite => NOTHING.(badWrites := 1)
    case _ => NOTHING
  }

  function Sum(a: Past, b: Past): Past {
    Past(a.offered + b.offered, a.accepted + b.accepted, a.overflowed + b.overflowed, a.fed,
         a.failedRuns + b.failedRuns, a.badInterrupts + b.badInterrupts,
         a.emitted + b.emitted, a.written + b.written, a.refused + b.refused, a.drained, a.badWrites + b.badWrites)
  }

  /** All that the steps have brought. */
  function Brought(steps: seq<Step>): Past {
    if steps == [] then NOTHING else Sum(Brought(steps[..|steps| - 1]), Brings(steps[|steps| - 1]))
  }

  /** The same events, apart from what only the streams know. */
  predicate SameEvents(past: Past, brought: Past) {
    past.(fed := [], drained := []) == brought.(fed := [], drained := [])
  }

  lemma OneStepBrings(s: Sys, chunkSize: nat, step: Step, brought: Past)
    requires Enabled(s, chunkSize, step) && SameEvents(s.past, brought)
    ensures SameEvents(Next(s, chunkSize, step).past, Sum(brought, Brings(step)))
  {
    hide CounterAdd, LastFate, Owing;
    assert s.past.accepted + [] == s.past.accepted && s.past.written + [] == s.past.written;
  }

  /** How many of the steps were taken before the last reset that was not refused, and that reset itself. */
  function AtReset(tasks: nat, chunkSize: nat, steps: seq<Step>): (k: nat)
    requires Exec(Initial(tasks), chunkSize, steps).Some?
    ensures k <= |steps|
  {
    if steps == [] then 0
    else
      var before := steps[..|steps| - 1];
      if steps[|steps| - 1] == Reset && !Exec(Initial(tasks), chunkSize, before).value.port.running then |steps|
      else AtReset(tasks, chunkSize, before)
  }

  /** The past is what all the steps brought, and the past of the last reset is what those up to it brought. */
  lemma {:induction false} PastIsBrought(tasks: nat, chunkSize: nat, steps: seq<Step>)
    requires Exec(Initial(tasks), chunkSize, steps).Some?
    ensures var s := Exec(Initial(tasks), chunkSize, steps).value;
      SameEvents(s.past, Brought(steps)) && SameEvents(s.since, Brought(steps[..AtReset(tasks, chunkSize, steps)]))
  {
    hide Next, Enabled, SameEvents, Brings, Sum;
    if steps == [] {
      assert SameEvents(NOTHING, NOTHING) by { NothingBrought(); }
    } else {
      var before, step := steps[..|steps| - 1], steps[|steps| - 1];
      PastIsBrought(tasks, chunkSize, before);
      var s := Exec(Initial(tasks), chunkSize, before).value;
      OneStepBrings(s, chunkSize, step, Brought(before));
      SinceMoves(s, chunkSize, step);
      var k := AtReset(tasks, chunkSize, steps);
      if k == |steps| {
        assert steps[..k] == steps;
        ResetBrings(s, chunkSize, Brought(before));
      } else {
        assert steps[..k] == before[..k];
      }
    }
  }

  lemma NothingBrought()
    ensures SameEvents(NOTHING, NOTHING)
  {
  }

  lemma SinceMoves(s: Sys, chunkSize: nat, step: Step)
    requires Enabled(s, chunkSize, step)
    ensures Next(s, chunkSize, step).since == if step == Reset && !s.port.running then s.past else s.since
  {
    hide CounterAdd, LastFate, Owing;
  }

  lemma ResetBrings(s: Sys, chunkSize: nat, brought: Past)
    requires SameEvents(s.past, brought)
    ensures SameEvents(s.past, Sum(brought, Brings(Reset)))
  {
    assert brought.accepted + [] == brought.accepted && brought.written + [] == brought.written;
  }

  /**
   * The counters by the steps alone.  Since the last reset that was not refused: the bytes interrupts got into
   * the stream and those they did not, the failed sh_input calls (those the run has not counted yet aside), the
   * bad calls, and, unless a write was or is under way, the bytes that writes got into the stream and did not.
   */
  lemma CountersBySteps(tasks: nat, chunkSize: nat, steps: seq<Step>)
    requires Exec(Initial(tasks), chunkSize, steps).Some?
    ensures var s := Exec(Initial(tasks), chunkSize, steps).value;
      var c, all, since := s.port.stats, Brought(steps), Brought(steps[..AtReset(tasks, chunkSize, steps)]);
      && Counts(c.rxEnqueued, |all.accepted|, |since.accepted|)
      && Counts(c.rxOverflow, all.overflowed, since.overflowed)
      && ((forall t :: 0 <= t < |s.tasks| ==> s.tasks[t].pc != Failing) ==>
            Counts(c.rxErrors, all.failedRuns + all.badInterrupts, since.failedRuns + since.badInterrupts))
      && Counts(c.txErrors, all.badWrites, since.badWrites)
      && ((forall t :: 0 <= t < |s.tasks| ==> s.tasks[t].owed == None) && s.late == Owed(0, 0) ==>
            && Counts(c.txEnqueued, |all.written|, |since.written|)
            && Counts(c.txOverflow, all.refused, since.refused))
  {
    hide Exec, Brought, Counts, AtReset;
    PastIsBrought(tasks, chunkSize, steps);
    CountersAreTrue(tasks, chunkSize, steps);
  }

  /** The same in the numbers of the type: min(total, UINT32_MAX). */
  lemma CountsIs(counter: uint32, total: nat, since: nat)
    ensures Counts(counter, total, since) <==>
      since <= total && counter == if total - since <= 0xffff_ffff then total - since else 0xffff_ffff
  {
  }

  // ----- a failed input ends the run -----

  /** After a failed sh_input the task can do one thing only: count the error and leave. */
  lemma FailedInputFails(s: Sys, chunkSize: nat, t: nat)
    requires OneInside(s) && Enabled(s, chunkSize, Returned(t, false))
    ensures var u := Next(s, chunkSize, Returned(t, false));
      && Enabled(u, chunkSize, Fail(t))
      && (forall step :: StepOfRun(step) && step.t == t && Enabled(u, chunkSize, step) ==> step == Fail(t))
      && var v := Next(u, chunkSize, Fail(t));
        !v.port.running && v.tasks[t].pc == Outside && v.port.stats.rxErrors == CounterAdd(s.port.stats.rxErrors, 1)
  {
    hide CounterAdd, LastFate;
  }

  /** The task inside has failed, or nobody is inside. */
  predicate Down(s: Sys) {
    Where(s) == Failing || Where(s) == Outside
  }

  lemma DownStays(s: Sys, chunkSize: nat, step: Step)
    requires OneInside(s) && Down(s) && Enabled(s, chunkSize, step)
    ensures !step.Feed?
    ensures var t := Next(s, chunkSize, step);
      if step.Enter? && !s.port.running then t.runs == s.runs + 1 else t.runs == s.runs && Down(t)
  {
    hide CounterAdd, LastFate;
  }

  /** Once a run has failed or ended, nothing is fed to the shell before another run begins. */
  lemma {:induction false} NothingFedBetweenRuns(s: Sys, chunkSize: nat, steps: seq<Step>)
    requires Inv(s, chunkSize) && Down(s) && Exec(s, chunkSize, steps).Some?
    requires Exec(s, chunkSize, steps).value.runs == s.runs
    ensures (forall step :: step in steps ==> !step.Feed?) && Down(Exec(s, chunkSize, steps).value)
    ensures Inv(Exec(s, chunkSize, steps).value, chunkSize)
  {
    hide Inv, Next, Enabled, Down;
    if steps != [] {
      var before, step := steps[..|steps| - 1], steps[|steps| - 1];
      var u := Exec(s, chunkSize, before).value;
      RunsNeverFall(s, chunkSize, before);
      RunsGrow(u, chunkSize, step);
      NothingFedBetweenRuns(s, chunkSize, before);
      StepKeeps(u, chunkSize, step);
      InvInside(u, chunkSize);
      DownStays(u, chunkSize, step);
      assert steps == before + [step];
    }
  }

  lemma {:induction false} RunsNeverFall(s: Sys, chunkSize: nat, steps: seq<Step>)
    requires Exec(s, chunkSize, steps).Some?
    ensures Exec(s, chunkSize, steps).value.runs >= s.runs
  {
    hide Next, Enabled;
    if steps != [] {
      var before := steps[..|steps| - 1];
      RunsNeverFall(s, chunkSize, before);
      RunsGrow(Exec(s, chunkSize, before).value, chunkSize, steps[|steps| - 1]);
    }
  }

  // ----- stops -----

  /** A stop was asked for, and not cleared since by a call that was not refused. */
  function StopAsked(tasks: nat, chunkSize: nat, steps: seq<Step>): bool
    requires Exec(Initial(tasks), chunkSize, steps).Some?
  {
    if steps == [] then false
    else
      var before := steps[..|steps| - 1];
      match steps[|steps| - 1]
      case AskStop => true
      case ClearStop =>
        Exec(Initial(tasks), chunkSize, before).value.port.running && StopAsked(tasks, chunkSize, before)
      case _ => StopAsked(tasks, chunkSize, before)
  }

  /** The stop flag is latched exactly by the requests, and cleared only between runs. */
  lemma {:induction false} StopIsLatched(tasks: nat, chunkSize: nat, steps: seq<Step>)
    requires Exec(Initial(tasks), chunkSize, steps).Some?
    ensures Exec(Initial(tasks), chunkSize, steps).value.port.stop == StopAsked(tasks, chunkSize, steps)
  {
    hide Next, Enabled;
    if steps != [] {
      var before := steps[..|steps| - 1];
      StopIsLatched(tasks, chunkSize, before);
      StopMoves(Exec(Initial(tasks), chunkSize, before).value, chunkSize, steps[|steps| - 1]);
    }
  }

  lemma StopMoves(s: Sys, chunkSize: nat, step: Step)
    requires Enabled(s, chunkSize, step)
    ensures Next(s, chunkSize, step).port.stop ==
      (step == AskStop || (s.port.stop && !(step == ClearStop && !s.port.running)))
  {
    hide CounterAdd, LastFate, Owing;
  }

  // ----- the order of things in a run -----

  /** Where a step of the run leads, when the stop flag is as given and the call was answered so. */
  predicate Leads(pc: Pc, stop: bool, step: Step, next: Pc) {
    match step
    case Enter(_) => pc == Outside && next == Starting
    case LookFirst(_) => pc == Starting && next == if stop then Checking else Prompting
    case Prompted(_) => pc == Prompting && next == Checking
    case LookLoop(_) => pc == Checking && next == if stop then Leaving else Waiting
    case Take(_, n) => pc == Waiting && next.Holding? && |next.chunk| == n
    case LookAgain(_) =>
      && pc.Holding?
      && next == if stop then Leaving else if pc.chunk == [] then Checking else Counting(pc.chunk)
    case CountChunk(_) => pc.Counting? && next == Feeding(pc.chunk)
    case Feed(_) => pc.Feeding? && next == InInput
    case Returned(_, ok) => pc == InInput && next == if ok then Checking else Failing
    case Fail(_) => pc == Failing && next == Outside
    case Leave(_) => pc == Leaving && next == Outside
    case _ => false
  }

  /** A run does its steps in the order of the loop, and no other step moves a task. */
  lemma RunInOrder(s: Sys, chunkSize: nat, step: Step, t: nat)
    requires OneInside(s) && Enabled(s, chunkSize, step) && t < |s.tasks|
    ensures var u := Next(s, chunkSize, step);
      && |u.tasks| == |s.tasks|
      && (if StepOfRun(step) && step.t == t && !(step.Enter? && s.port.running)
          then Leads(s.tasks[t].pc, s.port.stop, step, u.tasks[t].pc)
          else u.tasks[t].pc == s.tasks[t].pc)
  {
    hide CounterAdd, LastFate, Owing;
  }

  /** The reader of the TX stream takes its oldest bytes, a write appends what the stream took, and nothing else. */
  lemma DrainsOldest(s: Sys, chunkSize: nat, step: Step)
    requires Enabled(s, chunkSize, step)
    ensures Next(s, chunkSize, step).port.tx ==
      if step.Drain? then s.port.tx[step.n..] else if step.Send? then s.port.tx + step.data[..step.n] else s.port.tx
    ensures Next(s, chunkSize, step).past.drained ==
      s.past.drained + if step.Drain? then s.port.tx[..step.n] else []
  {
    hide CounterAdd, LastFate, Owing;
    assert s.past.drained + [] == s.past.drained;
  }

  /** A receive takes the oldest bytes, a feed appends its chunk to what was fed, and no other step does either. */
  lemma FeedsItsChunk(s: Sys, chunkSize: nat, step: Step)
    requires Enabled(s, chunkSize, step)
    ensures Next(s, chunkSize, step).past.fed == s.past.fed + if step.Feed? then s.tasks[step.t].pc.chunk else []
    ensures Next(s, chunkSize, step).port.rx ==
      if step.Take? then s.port.rx[step.n..] else if step.Interrupt? then s.port.rx + step.data[..step.n] else s.port.rx
    ensures step.Take? ==> Next(s, chunkSize, step).tasks[step.t].pc == Holding(s.port.rx[..step.n])
  {
    hide CounterAdd, LastFate, Owing;
    assert s.past.fed + [] == s.past.fed;
  }
}
