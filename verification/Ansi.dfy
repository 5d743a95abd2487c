/**
 * shell/src/sh_ansi.c: the incremental decoder of terminal key sequences, and the whole-stream grammar
 * of control sequences (section 5.4 of ECMA-48) that it computes one byte at a time.
 */
module Ansi {
  import opened Text

  const ESC: char := '\U{1b}'
  const CSI_MAX: nat := 8

  datatype Key = Up | Down | Left | Right | Home | End | Delete

  /** What the editor sees of one input byte. */
  datatype Seen =
    | Pass        // not part of a sequence: the editor handles the byte
    | Taken       // consumed, nothing to do
    | Press(key: Key)

  predicate IsFinal(c: char) {
    '@' <= c <= '~'
  }

  predicate IsBody(c: char) {
    ' ' <= c <= '?'
  }

  /** The key a control sequence stands for; bodies longer than the buffer stand for none. */
  function KeyOf(body: string, final: char): Option<Key> {
    if |body| > CSI_MAX then None
    else if body == [] then
      match final
      case 'A' => Some(Up)
      case 'B' => Some(Down)
      case 'C' => Some(Right)
      case 'D' => Some(Left)
      case 'H' => Some(Home)
      case 'F' => Some(End)
      case _ => None
    else if final == '~' && |body| == 1 then
      match body[0]
      case '1' => Some(Home)
      case '3' => Some(Delete)
      case '4' => Some(End)
      case _ => None
    else None
  }

  function SeenOf(key: Option<Key>): Seen {
    match key
    case None => Taken
    case Some(k) => Press(k)
  }

  // ----- one byte at a time -----

  /** Where the decoder is; of a body only the part that fits the buffer is kept. */
  datatype State = Idle | Escape | Csi(body: string, overflow: bool)

  function Feed(s: State, c: char): (State, Seen) {
    match s
    case Idle => if c == ESC then (Escape, Taken) else (Idle, Pass)
    case Escape =>
      if c == '[' then (Csi([], false), Taken)
      else if c == ESC then (Escape, Taken)
      else (Idle, Pass)
    case Csi(body, overflow) =>
      if c == ESC then (Escape, Taken)
      else if IsFinal(c) then (Idle, SeenOf(if overflow then None else KeyOf(body, c)))
      else if !IsBody(c) then (Idle, Taken)
      else if |body| < CSI_MAX then (Csi(body + [c], overflow), Taken)
      else (Csi(body, true), Taken)
  }

  predicate Bounded(s: State) {
    s.Csi? ==> |s.body| <= CSI_MAX && (s.overflow ==> |s.body| == CSI_MAX)
  }

  /** What the decoder makes of each byte of a stream. */
  function Run(s: State, stream: string): (seen: seq<Seen>)
    ensures |seen| == |stream|
    decreases |stream|
  {
    if stream == [] then []
    else [Feed(s, stream[0]).1] + Run(Feed(s, stream[0]).0, stream[1..])
  }

  function After(s: State, stream: string): State
    decreases |stream|
  {
    if stream == [] then s else After(Feed(s, stream[0]).0, stream[1..])
  }

  /** sh_ansi_decoder_t and its functions. */
  class Decoder {
    var state: nat  // 0 idle, 1 after ESC, 2 inside a control sequence
    var csiLength: nat
    var csiOverflow: bool
    var lastByteConsumed: bool
    const csi: array<char>

    ghost predicate Valid()
      reads this, csi
    {
      && state <= 2 && csi.Length == CSI_MAX
      && csiLength <= CSI_MAX && (csiOverflow ==> csiLength == CSI_MAX)
    }

    ghost function Abs(): State
      reads this, csi
      requires Valid()
    {
      if state == 0 then Idle else if state == 1 then Escape else Csi(csi[..csiLength], csiOverflow)
    }

    constructor ()
      ensures Valid() && Abs() == Idle && !lastByteConsumed && fresh(csi)
    {
      csi := new char[CSI_MAX];
      state, csiLength, csiOverflow, lastByteConsumed := 0, 0, false, false;
    }

    /** sh_ansi_finish_sequence. */
    method FinishSequence()
      requires Valid()
      modifies this
      ensures Valid() && Abs() == Idle && lastByteConsumed == old(lastByteConsumed)
    {
      state, csiLength, csiOverflow := 0, 0, false;
    }

    /** sh_ansi_reset. */
    method Reset()
      requires Valid()
      modifies this
      ensures Valid() && Abs() == Idle && !lastByteConsumed
    {
      state, csiLength, csiOverflow, lastByteConsumed := 0, 0, false, false;
    }

    /** sh_ansi_feed together with sh_ansi_last_byte_consumed. */
    method FeedByte(byte: char) returns (event: Option<Key>)
      requires Valid()
      modifies this, csi
      ensures Valid() && Abs() == Feed(old(Abs()), byte).0
      ensures Feed(old(Abs()), byte).1 ==
        if event.Some? then Press(event.value) else if lastByteConsumed then Taken else Pass
      ensures event.Some? ==> lastByteConsumed
    {
      lastByteConsumed := false;
      if state == 0 {
        if byte == ESC {
          state := 1;
          lastByteConsumed := true;
        }
        return None;
      }
      lastByteConsumed := true;
      if state == 1 {
        if byte == '[' {
          state, csiLength, csiOverflow := 2, 0, false;
          assert csi[..0] == [];
        } else if byte != ESC {
          FinishSequence();
          lastByteConsumed := false;
        }
        return None;
      }
      if byte == ESC {
        state, csiLength, csiOverflow := 1, 0, false;
        return None;
      }
      if IsFinal(byte) {
        event := if csiOverflow then None else KeyOf(csi[..csiLength], byte);
        FinishSequence();
        return event;
      }
      if !IsBody(byte) {
        FinishSequence();
        return None;
      }
      if csiLength < CSI_MAX {
        csi[csiLength] := byte;
        csiLength := csiLength + 1;
        assert csi[..csiLength] == old(csi[..csiLength]) + [byte];
      } else {
        csiOverflow := true;
      }
      return None;
    }
  }

  // ----- the whole stream at once -----

  function CountEsc(s: string): (n: nat)
    ensures n <= |s| && (n < |s| ==> s[n] != ESC)
    ensures s != [] && s[0] == ESC ==> n > 0
  {
    if s != [] && s[0] == ESC then 1 + CountEsc(s[1..]) else 0
  }

  function BodyLen(s: string): (n: nat)
    ensures n <= |s| && (n < |s| ==> !IsBody(s[n]))
  {
    if s != [] && IsBody(s[0]) then 1 + BodyLen(s[1..]) else 0
  }

  function Takes(n: nat): (seen: seq<Seen>)
    ensures |seen| == n
  {
    if n == 0 then [] else [Taken] + Takes(n - 1)
  }

  /**
   * The grammar: a run of ESC bytes, then [ and a body of parameter and intermediate bytes in any order,
   * then a final byte.  An ESC inside starts over, any other byte ends the sequence unrecognised.
   */
  function Decode(stream: string): seq<Seen>
    decreases |stream|, 0
  {
    if stream == [] then []
    else if stream[0] != ESC then [Pass] + Decode(stream[1..])
    else
      var e := CountEsc(stream);
      if e == |stream| then Takes(e)
      else if stream[e] != '[' then Takes(e) + ([Pass] + Decode(stream[e + 1..]))
      else
        var n := e + 1 + BodyLen(stream[e + 1..]);
        Takes(n) + DecodeEnd(stream[e + 1..n], stream[n..])
  }

  /** What follows the body of a control sequence. */
  function DecodeEnd(body: string, rest: string): seq<Seen>
    decreases |rest|, 1
  {
    if rest == [] then []
    else if rest[0] == ESC then Decode(rest)
    else [if IsFinal(rest[0]) then SeenOf(KeyOf(body, rest[0])) else Taken] + Decode(rest[1..])
  }

  lemma {:induction false} RunEsc(stream: string)
    ensures var e := CountEsc(stream);
      Run(Escape, stream) == Takes(e) + Run(Escape, stream[e..])
  {
    var e := CountEsc(stream);
    if e > 0 {
      RunEsc(stream[1..]);
      assert stream[1..][e - 1..] == stream[e..];
    }
  }

  function Keep(body: string): State {
    if |body| <= CSI_MAX then Csi(body, false) else Csi(body[..CSI_MAX], true)
  }

  lemma {:induction false} RunBody(body: string, stream: string)
    ensures var n := BodyLen(stream);
      Run(Keep(body), stream) == Takes(n) + Run(Keep(body + stream[..n]), stream[n..])
    decreases |stream|
  {
    var n := BodyLen(stream);
    if n > 0 {
      RunBody(body + [stream[0]], stream[1..]);
      assert Feed(Keep(body), stream[0]).0 == Keep(body + [stream[0]]);
      assert stream[1..][n - 1..] == stream[n..];
      assert body + [stream[0]] + stream[1..][..n - 1] == body + stream[..n];
    } else {
      assert body + stream[..0] == body;
    }
  }

  lemma {:induction false} RunCsi(stream: string)
    ensures var n := BodyLen(stream);
      Run(Csi([], false), stream) == Takes(n) + Run(Keep(stream[..n]), stream[n..])
  {
    RunBody([], stream);
    assert [] + stream[..BodyLen(stream)] == stream[..BodyLen(stream)];
  }

  lemma {:induction false} TakesSum(a: nat, b: nat)
    ensures Takes(a) + Takes(b) == Takes(a + b)
  {
    if a > 0 {
      TakesSum(a - 1, b);
    }
  }

  lemma RunUnfold(s: State, stream: string)
    ensures Run(s, stream) ==
      if stream == [] then [] else [Feed(s, stream[0]).1] + Run(Feed(s, stream[0]).0, stream[1..])
  {
  }

  /** Fed one byte at a time, the decoder makes of every stream what the grammar makes of the whole. */
  lemma {:induction false} DecoderMeetsGrammar(stream: string)
    ensures Run(Idle, stream) == Decode(stream)
    decreases |stream|, 3
  {
    hide CountEsc, BodyLen, DecodeEnd, KeyOf, Takes, Run;
    RunUnfold(Idle, stream);
    if stream == [] {
    } else if stream[0] != ESC {
      DecoderMeetsGrammar(stream[1..]);
    } else {
      var e := CountEsc(stream);
      RunEsc(stream);
      RunUnfold(Escape, stream);
      RunUnfold(Escape, stream[e..]);
      if e < |stream| {
        var c, rest := stream[e], stream[e + 1..];
        assert stream[e..][1..] == rest;
        if c != '[' {
          DecoderMeetsGrammar(rest);
        } else {
          SequenceMeetsGrammar(stream, e);
        }
      }
    }
  }

  /** A control sequence up to the byte that ends its body. */
  lemma RunSequence(stream: string, e: nat)
    requires e < |stream| && stream[e] == '['
    requires Run(Idle, stream) == Takes(e) + Run(Escape, stream[e..])
    ensures var n := e + 1 + BodyLen(stream[e + 1..]);
      Run(Idle, stream) == Takes(n) + Run(Keep(stream[e + 1..n]), stream[n..])
  {
    hide BodyLen, Takes;
    var body := stream[e + 1..];
    var b := BodyLen(body);
    var more := Run(Keep(body[..b]), body[b..]);
    assert stream[e..][1..] == body && stream[e..][0] == '[';
    assert Run(Escape, stream[e..]) == [Taken] + Run(Csi([], false), body);
    hide Run;
    RunCsi(body);
    assert body[b..] == stream[e + 1 + b..] && body[..b] == stream[e + 1..e + 1 + b];
    TakesTogether(e, b, more);
  }

  lemma TakesTogether(a: nat, b: nat, more: seq<Seen>)
    ensures Takes(a) + ([Taken] + (Takes(b) + more)) == Takes(a + 1 + b) + more
  {
    hide Takes;
    TakesSum(a, 1);
    TakesSum(a + 1, b);
    TakesOne();
    assert Takes(a) + ([Taken] + (Takes(b) + more)) == Takes(a) + [Taken] + Takes(b) + more;
  }

  lemma TakesOne()
    ensures Takes(1) == [Taken]
  {
    assert Takes(0) == [];
  }

  lemma SequenceMeetsGrammar(stream: string, e: nat)
    requires e < |stream| && e == CountEsc(stream) > 0 && stream[0] == ESC && stream[e] == '['
    requires Run(Idle, stream) == Takes(e) + Run(Escape, stream[e..])
    ensures Run(Idle, stream) == Decode(stream)
    decreases |stream|, 2
  {
    hide Run, CountEsc, BodyLen, Takes, DecodeEnd;
    var n := e + 1 + BodyLen(stream[e + 1..]);
    RunSequence(stream, e);
    EndMeetsGrammar(stream[e + 1..n], stream[n..]);
  }

  lemma EndMeetsGrammar(body: string, rest: string)
    requires rest != [] ==> !IsBody(rest[0])
    ensures Run(Keep(body), rest) == DecodeEnd(body, rest)
    decreases |rest|, 4
  {
    hide Run, Decode;
    SequenceEnds(body, rest);
    if rest != [] {
      DecoderMeetsGrammar(rest[1..]);
      if rest[0] == ESC {
        DecoderMeetsGrammar(rest);
      }
    }
  }

  /** The byte after the body; the overflow flag stands for the bodies that are too long to mean a key. */
  lemma SequenceEnds(body: string, rest: string)
    requires rest != [] ==> !IsBody(rest[0])
    ensures Run(Keep(body), rest) ==
      if rest == [] then []
      else if rest[0] == ESC then Run(Idle, rest)
      else [if IsFinal(rest[0]) then SeenOf(KeyOf(body, rest[0])) else Taken] + Run(Idle, rest[1..])
  {
  }

  /** Decoding does not depend on how the stream is cut into pieces. */
  lemma {:induction false} RunSplit(s: State, a: string, b: string)
    ensures Run(s, a + b) == Run(s, a) + Run(After(s, a), b)
    decreases |a|
  {
    if a == [] {
      assert a + b == b;
    } else {
      RunSplit(Feed(s, a[0]).0, a[1..], b);
      assert (a + b)[1..] == a[1..] + b;
    }
  }

  lemma {:induction false} AfterBounded(s: State, stream: string)
    requires Bounded(s)
    ensures Bounded(After(s, stream))
    decreases |stream|
  {
    if stream != [] {
      AfterBounded(Feed(s, stream[0]).0, stream[1..]);
    }
  }

  /** Whatever came before, ESC [ A is the Up key on its last byte and nothing on the other two. */
  lemma ArrowAlwaysDecodes(history: string)
    ensures Run(Idle, history + [ESC, '[', 'A']) == Run(Idle, history) + [Taken, Taken, Press(Up)]
  {
    RunSplit(Idle, history, [ESC, '[', 'A']);
    var s := After(Idle, history);
    hide After, KeyOf;
    assert KeyOf([], 'A') == Some(Up) by { ArrowKey(); }
    assert [ESC, '[', 'A'][1..] == ['[', 'A'] && ['[', 'A'][1..] == ['A'];
    assert Run(Feed(s, ESC).0, ['[', 'A']) == [Taken] + Run(Csi([], false), ['A']);
  }

  lemma ArrowKey()
    ensures KeyOf([], 'A') == Some(Up)
  {
  }

  // ----- the byte ranges and the keys, in numbers -----

  /** The key sequences that are known, behind ESC [. */
  predicate SendsKey(tail: string, key: Key) {
    match key
    case Up => tail == "A"
    case Down => tail == "B"
    case Right => tail == "C"
    case Left => tail == "D"
    case Home => tail == "H" || tail == "1~"
    case End => tail == "F" || tail == "4~"
    case Delete => tail == "3~"
  }

  /** A body and a final byte stand for a key exactly when they are one of the known tails. */
  lemma KeyOfIff(body: string, final: char, key: Key)
    ensures KeyOf(body, final) == Some(key) <==> SendsKey(body + [final], key)
  {
    var tail := body + [final];
    assert tail[|body|] == final && tail[..|body|] == body;
    assert body != [] ==> tail[0] == body[0];
    assert |tail| == 1 ==> tail == [final];
    assert |tail| == 2 ==> tail == [body[0], final];
  }

  predicate BodyByte(c: char) {
    0x20 <= c as int <= 0x3f
  }

  predicate FinalByte(c: char) {
    0x40 <= c as int <= 0x7e
  }

  /** The key that a whole sequence presses, if it is a known one. */
  ghost predicate Says(seen: Seen, tail: string) {
    match seen
    case Press(key) => SendsKey(tail, key)
    case Taken => forall key :: !SendsKey(tail, key)
    case Pass => false
  }

  /** A body of parameter and intermediate bytes is taken, and its final byte is the key or nothing. */
  lemma SequenceIsTaken(body: string, final: char)
    requires (forall k :: 0 <= k < |body| ==> BodyByte(body[k])) && FinalByte(final)
    ensures var run := Run(Idle, [ESC, '['] + body + [final]);
      && (forall k :: 0 <= k < |body| + 2 ==> run[k] == Taken) && Says(run[|body| + 2], body + [final])
      && After(Idle, [ESC, '['] + body + [final]) == Idle
  {
    hide Run, After, SendsKey, KeyOf;
    OpensSequence(body + [final]);
    BodyIsTaken([], body, final);
    assert [] + body == body;
    assert [ESC, '['] + body + [final] == [ESC, '['] + (body + [final]);
    forall key ensures KeyOf(body, final) == Some(key) <==> SendsKey(body + [final], key) {
      KeyOfIff(body, final, key);
    }
  }

  lemma OpensSequence(rest: string)
    ensures Run(Idle, [ESC, '['] + rest) == [Taken, Taken] + Run(Keep([]), rest)
    ensures After(Idle, [ESC, '['] + rest) == After(Keep([]), rest)
  {
    var all := [ESC, '['] + rest;
    assert all[1..] == ['['] + rest && all[1..][1..] == rest;
    assert [Taken] + ([Taken] + Run(Keep([]), rest)) == [Taken, Taken] + Run(Keep([]), rest);
  }

  lemma {:induction false} BodyIsTaken(before: string, body: string, final: char)
    requires (forall k :: 0 <= k < |body| ==> BodyByte(body[k])) && FinalByte(final)
    ensures var run := Run(Keep(before), body + [final]);
      && (forall k :: 0 <= k < |body| ==> run[k] == Taken)
      && run[|body|] == SeenOf(KeyOf(before + body, final))
      && After(Keep(before), body + [final]) == Idle
    decreases |body|
  {
    hide KeyOf;
    var s := body + [final];
    if body == [] {
      assert s == [final] && before + [] == before && s[1..] == [];
      LongBodyIsNoKey(before, final);
    } else {
      BodyIsTaken(before + [body[0]], body[1..], final);
      assert s[1..] == body[1..] + [final] && before + [body[0]] + body[1..] == before + body;
      KeepFeeds(before, body[0]);
    }
  }

  lemma KeepFeeds(before: string, c: char)
    requires BodyByte(c)
    ensures Feed(Keep(before), c) == (Keep(before + [c]), Taken)
  {
    if |before| >= CSI_MAX {
      assert (before + [c])[..CSI_MAX] == before[..CSI_MAX];
    }
    assert |before| == CSI_MAX ==> before[..CSI_MAX] == before;
  }

  lemma LongBodyIsNoKey(body: string, final: char)
    ensures |body| > CSI_MAX ==> KeyOf(body, final) == None
  {
  }

  /** Any other byte but ESC ends a sequence: it is taken, and the next byte is not part of it. */
  lemma BadByteEndsSequence(body: string, bad: char)
    requires forall k :: 0 <= k < |body| ==> BodyByte(body[k])
    requires !BodyByte(bad) && !FinalByte(bad) && bad != ESC
    ensures var stream := [ESC, '['] + body + [bad];
      Run(Idle, stream)[|body| + 2] == Taken && After(Idle, stream) == Idle
  {
    hide Run, After;
    OpensSequence(body + [bad]);
    BadByteAfterBody([], body, bad);
    assert [ESC, '['] + body + [bad] == [ESC, '['] + (body + [bad]);
  }

  lemma {:induction false} BadByteAfterBody(before: string, body: string, bad: char)
    requires forall k :: 0 <= k < |body| ==> BodyByte(body[k])
    requires !BodyByte(bad) && !FinalByte(bad) && bad != ESC
    ensures Run(Keep(before), body + [bad])[|body|] == Taken && After(Keep(before), body + [bad]) == Idle
    decreases |body|
  {
    var s := body + [bad];
    if body == [] {
      assert s == [bad] && s[1..] == [];
    } else {
      BadByteAfterBody(before + [body[0]], body[1..], bad);
      assert s[1..] == body[1..] + [bad];
      KeepFeeds(before, body[0]);
    }
  }
}
