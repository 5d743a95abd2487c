/** shell/src/sh_transport.c: the bounded loop around a write callback that may accept less than it is offered. */
module Transport {

  /** sh_transport_status_t; a callback may return any value. */
  datatype Status =
    | OK
    | WouldBlock
    | InvalidArgument
    | IoError
    | NoProgress
    | ProtocolError
    | AttemptsExhausted
    | Unknown(code: int)

  /** What a write callback answers, and what has become of its context. */
  datatype Reply<+W> = Reply(writer: W, status: Status, written: nat)

  /** One call of the callback. */
  datatype Attempt = Attempt(offered: string, status: Status, written: nat)
  {
    /** The callback kept to its contract about the count. */
    predicate InRange() {
      written <= |offered|
    }

    function Taken(): string {
      if InRange() then offered[..written] else []
    }
  }

  predicate IsCallbackStatus(status: Status) {
    status == OK || status == WouldBlock || status == IoError
  }

  /** How a loop ended: its status, the bytes written, the context, and the calls it made. */
  datatype Outcome<+W> = Outcome(status: Status, total: nat, writer: W, calls: seq<Attempt>)

  /** The status with which a call ends the loop, if it does. */
  function Ends(call: Attempt): (end: seq<Status>)
    ensures |end| <= 1
  {
    if !call.InRange() || !IsCallbackStatus(call.status) then [ProtocolError]
    else if call.status == IoError then [IoError]
    else if call.written == |call.offered| then [OK]
    else if call.status == OK && call.written == 0 then [NoProgress]
    else []
  }

  /** The loop of sh_transport_write_all with budget calls left. */
  function WriteRest<W>(write: (W, string) -> Reply<W>, w: W, data: string, budget: nat, last: Status): Outcome<W>
    decreases budget
  {
    if data == [] || budget == 0 then
      Outcome(if last == WouldBlock then WouldBlock else AttemptsExhausted, 0, w, [])
    else
      var r := write(w, data);
      var call := Attempt(data, r.status, r.written);
      if Ends(call) != [] then Outcome(Ends(call)[0], |call.Taken()|, r.writer, [call])
      else
        var more := WriteRest(write, r.writer, data[r.written..], budget - 1, r.status);
        Outcome(more.status, r.written + more.total, more.writer, [call] + more.calls)
  }

  /** What sh_transport_write_all must answer. */
  function WriteAll<W>(write: (W, string) -> Reply<W>, w: W, data: string, maxAttempts: nat): Outcome<W> {
    if data == [] then Outcome(OK, 0, w, [])
    else if maxAttempts == 0 then Outcome(InvalidArgument, 0, w, [])
    else WriteRest(write, w, data, maxAttempts, OK)
  }

  /** One turn of the loop that does not end it. */
  lemma RestTurn<W>(write: (W, string) -> Reply<W>, w: W, data: string, budget: nat, last: Status)
    requires data != [] && budget > 0
    ensures var r := write(w, data);
      var call := Attempt(data, r.status, r.written);
      if Ends(call) != [] then
        WriteRest(write, w, data, budget, last) == Outcome(Ends(call)[0], |call.Taken()|, r.writer, [call])
      else
        && 0 <= r.written < |data| && (r.status == WouldBlock || r.status == OK)
        && var more := WriteRest(write, r.writer, data[r.written..], budget - 1, r.status);
          WriteRest(write, w, data, budget, last) ==
              Outcome(more.status, r.written + more.total, more.writer, [call] + more.calls)
  {
  }

  /** The checks after each call in the loop of sh_transport_write_all. */
  method JudgeCall(remaining: nat, status: Status, written: nat, ghost offered: string) returns (end: seq<Status>)
    requires |offered| == remaining
    ensures end == Ends(Attempt(offered, status, written))
    ensures written > remaining ==> end == [ProtocolError]
  {
    if written > remaining {
      return [ProtocolError];
    }
    if !IsCallbackStatus(status) {
      return [ProtocolError];
    }
    if status == IoError {
      return [IoError];
    }
    if written == remaining {
      return [OK];
    }
    if status == OK && written == 0 {
      return [NoProgress];
    }
    return [];
  }

  /** sh_transport_write_all, the loop itself. */
  method TransportWriteAll<W(!new)>(write: (W, string) -> Reply<W>, writer: W, data: string, maxAttempts: nat)
    returns (status: Status, total: nat, w: W)
    ensures var o := WriteAll(write, writer, data, maxAttempts);
      status == o.status && total == o.total && w == o.writer
  {
    total, w := 0, writer;
    if |data| == 0 {
      return OK, 0, w;
    }
    if maxAttempts == 0 {
      return InvalidArgument, 0, w;
    }
    var attempts := 0;
    var lastStatus := OK;
    ghost var want := WriteAll(write, writer, data, maxAttempts);
    assert Promises(want, WriteRest(write, writer, data, maxAttempts, OK), 0);
    hide WriteAll, WriteRest, Ends, IsCallbackStatus, Promises;
    ghost var rest := data;
    while total < |data| && attempts < maxAttempts
      invariant total < |data| && attempts <= maxAttempts && rest == data[total..]
      invariant Promises(want, WriteRest(write, w, rest, maxAttempts - attempts, lastStatus), total)
      decreases maxAttempts - attempts
    {
      var remaining := |data| - total;
      var r := write(w, data[total..]);
      ghost var whole := WriteRest(write, w, rest, maxAttempts - attempts, lastStatus);
      RestTurn(write, w, rest, maxAttempts - attempts, lastStatus);
      w := r.writer;
      attempts := attempts + 1;
      var end := JudgeCall(remaining, r.status, r.written, rest);
      if r.written <= remaining {
        total := total + r.written;
      }
      if end != [] {
        PromisesKept(want, whole, total - (if r.written <= remaining then r.written else 0));
        return end[0], total, w;
      }
      rest := rest[r.written..];
      lastStatus := r.status;
      PromisesTurn(want, whole, WriteRest(write, w, rest, maxAttempts - attempts, lastStatus), total - r.written,
          r.written);
    }
    RestStops(write, w, rest, lastStatus);
    PromisesKept(want, WriteRest(write, w, rest, 0, lastStatus), total);
    return if lastStatus == WouldBlock then WouldBlock else AttemptsExhausted, total, w;
  }

  /** What is left to do, after total bytes, adds up to the whole. */
  ghost predicate Promises<W(!new)>(want: Outcome<W>, rest: Outcome<W>, total: nat) {
    want.status == rest.status && want.total == total + rest.total && want.writer == rest.writer
  }

  lemma PromisesKept<W(!new)>(want: Outcome<W>, rest: Outcome<W>, total: nat)
    requires Promises(want, rest, total)
    ensures want.status == rest.status && want.total == total + rest.total && want.writer == rest.writer
  {
  }

  lemma PromisesTurn<W(!new)>(want: Outcome<W>, rest: Outcome<W>, more: Outcome<W>, total: nat, written: nat)
    requires Promises(want, rest, total)
    requires rest.status == more.status && rest.total == written + more.total && rest.writer == more.writer
    ensures Promises(want, more, total + written)
  {
  }

  /** No call is left. */
  lemma RestStops<W>(write: (W, string) -> Reply<W>, w: W, data: string, last: Status)
    ensures WriteRest(write, w, data, 0, last) ==
        Outcome(if last == WouldBlock then WouldBlock else AttemptsExhausted, 0, w, [])
  {
  }

  // ----- what the loop guarantees, for every callback -----

  /** The bytes the calls accepted, in order. */
  function AllTaken(calls: seq<Attempt>): string {
    if calls == [] then [] else calls[0].Taken() + AllTaken(calls[1..])
  }

  /** Each call is offered exactly what the calls before it have left, and only the last may end the loop. */
  predicate InOrder(calls: seq<Attempt>, data: string)
    decreases |calls|
  {
    calls == [] ||
    (calls[0].offered == data &&
     (|calls| > 1 ==> Ends(calls[0]) == [] && InOrder(calls[1..], data[calls[0].written..])))
  }

  /** The status a sequence of calls leads to: that of a call that ends the loop, or that of giving up. */
  function Verdict(calls: seq<Attempt>, last: Status): Status {
    if calls == [] then (if last == WouldBlock then WouldBlock else AttemptsExhausted)
    else
      var call := calls[|calls| - 1];
      if Ends(call) != [] then Ends(call)[0] else if call.status == WouldBlock then WouldBlock else AttemptsExhausted
  }

  lemma {:induction false} RestInOrder<W>(write: (W, string) -> Reply<W>, w: W, data: string, budget: nat, last: Status)
    requires data != []
    ensures var o := WriteRest(write, w, data, budget, last);
      |o.calls| <= budget && InOrder(o.calls, data)
      && o.total <= |data| && AllTaken(o.calls) == data[..o.total]
    decreases budget
  {
    if budget > 0 {
      RestTurn(write, w, data, budget, last);
      hide WriteRest, Ends, IsCallbackStatus;
      var r := write(w, data);
      var call := Attempt(data, r.status, r.written);
      if Ends(call) == [] {
        var rest := data[r.written..];
        RestInOrder(write, r.writer, rest, budget - 1, r.status);
        var more := WriteRest(write, r.writer, rest, budget - 1, r.status);
        assert ([call] + more.calls)[1..] == more.calls;
        assert data[..r.written] + rest[..more.total] == data[..r.written + more.total];
      } else {
        assert [call][1..] == [] && call.Taken() + [] == call.Taken();
      }
    }
  }

  lemma {:induction false} RestVerdict<W>(write: (W, string) -> Reply<W>, w: W, data: string, budget: nat, last: Status)
    requires data != []
    ensures var o := WriteRest(write, w, data, budget, last);
      && o.status == Verdict(o.calls, last)
      && (o.status == OK ==> o.total == |data|)
      && (o.status == WouldBlock || o.status == AttemptsExhausted ==> |o.calls| == budget && o.total < |data|)
    decreases budget
  {
    RestStops(write, w, data, last);
    hide WriteRest;
    if budget > 0 {
      RestTurn(write, w, data, budget, last);
      var r := write(w, data);
      var call := Attempt(data, r.status, r.written);
      EndsMeans(call);
      hide Ends;
      if Ends(call) == [] {
        RestVerdict(write, r.writer, data[r.written..], budget - 1, r.status);
        var more := WriteRest(write, r.writer, data[r.written..], budget - 1, r.status).calls;
        assert more != [] ==> ([call] + more)[|more|] == more[|more| - 1];
      }
    }
  }

  lemma EndsMeans(call: Attempt)
    ensures Ends(call) != [] ==>
      && (Ends(call)[0] == OK ==> call.written == |call.offered| == |call.Taken()|)
      && Ends(call)[0] != WouldBlock && Ends(call)[0] != AttemptsExhausted
  {
  }

  /**
   * For every callback: at most maxAttempts calls, each offered exactly the unwritten rest of the data; the
   * accepted bytes are data[..total], in order.  The status says why the loop stopped; WOULD_BLOCK and
   * ATTEMPTS_EXHAUSTED mean that all calls were used and bytes are left, and OK means that none is left.
   */
  lemma WriteAllKeeps<W>(write: (W, string) -> Reply<W>, w: W, data: string, maxAttempts: nat)
    ensures var o := WriteAll(write, w, data, maxAttempts);
      && |o.calls| <= maxAttempts && InOrder(o.calls, data)
      && o.total <= |data| && AllTaken(o.calls) == data[..o.total]
      && (o.status == OK ==> o.total == |data|)
      && (o.status == WouldBlock || o.status == AttemptsExhausted ==> |o.calls| == maxAttempts && o.total < |data|)
      && (data != [] && maxAttempts > 0 ==> o.calls != [] && o.status == Verdict(o.calls, OK))
  {
    if data != [] && maxAttempts > 0 {
      RestInOrder(write, w, data, maxAttempts, OK);
      RestVerdict(write, w, data, maxAttempts, OK);
    }
  }

  /** The call went on: it took part of what was offered, and said so or asked to wait. */
  predicate WentOn(call: Attempt) {
    && call.written < |call.offered|
    && (call.status == WouldBlock || (call.status == OK && call.written > 0))
  }

  /** What the last call of a loop says about its status, in the order of the checks. */
  predicate Tells(call: Attempt, status: Status, outOfCalls: bool) {
    if call.written > |call.offered| || call.status !in {OK, WouldBlock, IoError} then status == ProtocolError
    else if call.status == IoError then status == IoError
    else if call.written == |call.offered| then status == OK
    else if call.status == OK && call.written == 0 then status == NoProgress
    else outOfCalls && status == if call.status == WouldBlock then WouldBlock else AttemptsExhausted
  }

  lemma {:induction false} OrderedGoOn(calls: seq<Attempt>, data: string, i: nat)
    requires InOrder(calls, data) && i < |calls| - 1
    ensures WentOn(calls[i])
    decreases |calls|
  {
    if i > 0 {
      OrderedGoOn(calls[1..], data[calls[0].written..], i - 1);
    }
  }

  /** The status is what the last call tells, and every call before it went on; without calls nothing was to do. */
  lemma LastCallTells<W>(write: (W, string) -> Reply<W>, w: W, data: string, maxAttempts: nat)
    ensures var o := WriteAll(write, w, data, maxAttempts);
      && (data == [] ==> o.calls == [] && o.status == OK)
      && (data != [] && maxAttempts == 0 ==> o.calls == [] && o.status == InvalidArgument)
      && (data != [] && maxAttempts > 0 ==>
            && o.calls != [] && Tells(o.calls[|o.calls| - 1], o.status, |o.calls| == maxAttempts)
            && forall i :: 0 <= i < |o.calls| - 1 ==> WentOn(o.calls[i]))
  {
    WriteAllKeeps(write, w, data, maxAttempts);
    hide InOrder, AllTaken, WriteRest;
    var o := WriteAll(write, w, data, maxAttempts);
    forall i | 0 <= i < |o.calls| - 1
      ensures WentOn(o.calls[i])
    {
      OrderedGoOn(o.calls, data, i);
    }
  }

  /** A context whose sink grows by exactly the bytes each call accepts. */
  ghost predicate Honest<W(!new)>(write: (W, string) -> Reply<W>, sink: W -> string) {
    forall w, data :: var r := write(w, data);
      sink(r.writer) == sink(w) + Attempt(data, r.status, r.written).Taken()
  }

  lemma {:induction false} RestReachesSink<W(!new)>(write: (W, string) -> Reply<W>, sink: W -> string, w: W,
                                                    data: string, budget: nat, last: Status)
    requires Honest(write, sink)
    ensures var o := WriteRest(write, w, data, budget, last);
      o.total <= |data| && sink(o.writer) == sink(w) + data[..o.total]
    decreases budget
  {
    if data != [] && budget > 0 {
      RestTurn(write, w, data, budget, last);
      hide WriteRest, Ends;
      var r := write(w, data);
      var call := Attempt(data, r.status, r.written);
      assert sink(r.writer) == sink(w) + call.Taken();
      if Ends(call) == [] {
        var rest := data[r.written..];
        RestReachesSink(write, sink, r.writer, rest, budget - 1, r.status);
        var more := WriteRest(write, r.writer, rest, budget - 1, r.status);
        assert data[..r.written] + rest[..more.total] == data[..r.written + more.total];
      }
    }
  }

  /** Behind an honest adapter, the sink has received data[..total] and nothing else. */
  lemma WriteAllReachesSink<W(!new)>(write: (W, string) -> Reply<W>, sink: W -> string, w: W, data: string,
      maxAttempts: nat)
    requires Honest(write, sink)
    ensures var o := WriteAll(write, w, data, maxAttempts);
      o.total <= |data| && sink(o.writer) == sink(w) + data[..o.total]
  {
    RestReachesSink(write, sink, w, data, maxAttempts, OK);
  }
}
