/** What the bytes of typing and editing do, told by the whole line and the place of the cursor in it. */
module EditingLaws {
  import opened Text
  import opened Ansi
  import opened Registry
  import opened Config
  import opened Completion
  import opened Editor
  import opened EditorLaws

  /** The session with this line, and the cursor behind its first characters. */
  function Placed(s: Session, text: string, cursor: nat): Session
    requires cursor <= |text|
  {
    s.(left := text[..cursor], right := text[cursor..])
  }

  /** The decoder is not in the middle of a key. */
  ghost predicate Calm(cfg: Config, s: Session) {
    Valid(cfg, s) && s.ansi == Idle
  }

  predicate Typed(text: string) {
    forall k :: 0 <= k < |text| ==> ' ' <= text[k] <= '~'
  }

  /** A fresh session is empty and calm, and nothing has been called. */
  lemma FreshIsEmpty(cfg: Config, echo: bool)
    ensures var s := Fresh(echo);
      && Calm(cfg, s) && s.Line() == [] && s.hist == [] && s.view == -1 && s.draft == []
      && !s.afterCr && s.echo == echo && s.calls == []
  {
  }

  // ----- typing -----

  lemma TypeOne(cfg: Config, roots: Roots, s: Session, c: char)
    requires Accepted(cfg) && Calm(cfg, s) && ' ' <= c <= '~'
    ensures var t, status := InputByte(cfg, roots, s, c).0, InputByte(cfg, roots, s, c).1;
      if |s.Line()| < cfg.lineMax then
        t == s.(left := s.left + [c], view := -1, afterCr := false) && status == OK && Calm(cfg, t)
      else t == s.(afterCr := false) && status == LineTooLong
  {
    hide Enter, PressTab, WordBefore;
  }

  /** Typed text goes into the line, in front of the cursor, byte for byte; nothing else changes. */
  lemma {:induction false} TypingInserts(cfg: Config, roots: Roots, s: Session, text: string)
    requires Accepted(cfg) && CStrings(cfg) && Calm(cfg, s) && Typed(text) && |s.Line()| + |text| <= cfg.lineMax
    ensures InputAll(cfg, roots, s, text) ==
      (if text == [] then s else s.(left := s.left + text, view := -1, afterCr := false), OK)
    decreases |text|
  {
    hide InputByte, InputAll, CStrings, Calm, Valid;
    assert Valid(cfg, s) by { CalmIsValid(cfg, s); }
    if text == [] {
      InputNothing(cfg, roots, s);
    } else {
      var c, more := text[0], text[1..];
      TypeOne(cfg, roots, s, c);
      var t := s.(left := s.left + [c], view := -1, afterCr := false);
      CalmIsValid(cfg, t);
      InputStep(cfg, roots, s, c, more, t);
      TypingInserts(cfg, roots, t, more);
      assert text == [c] + more && s.left + [c] + more == s.left + text;
      assert t.left + [] == t.left;
    }
  }

  lemma CalmIsValid(cfg: Config, s: Session)
    requires Calm(cfg, s)
    ensures Valid(cfg, s)
  {
  }

  /** On a full line a further character is refused. */
  lemma FullLineRefuses(cfg: Config, roots: Roots, s: Session, c: char)
    requires Accepted(cfg) && Calm(cfg, s) && ' ' <= c <= '~' && |s.Line()| == cfg.lineMax
    ensures InputByte(cfg, roots, s, c) == (s.(afterCr := false), LineTooLong)
  {
    hide InputByte;
    TypeOne(cfg, roots, s, c);
  }

  // ----- control bytes -----

  /** Backspace and DEL take away the character in front of the cursor. */
  lemma BackspaceErases(cfg: Config, roots: Roots, s: Session, byte: char)
    requires Calm(cfg, s) && (byte as int == 8 || byte as int == 127)
    ensures var all, c, t := s.Line(), |s.left|, s.(afterCr := false);
      InputByte(cfg, roots, s, byte) ==
        (if c == 0 then t else Placed(t, all[..c - 1] + all[c..], c - 1).(view := -1), OK)
  {
    hide Enter, PressTab, WordBefore;
    var all, c := s.Line(), |s.left|;
    if c > 0 {
      var text := all[..c - 1] + all[c..];
      assert text[..c - 1] == s.left[..c - 1] && text[c - 1..] == s.right;
    }
  }

  /** Ctrl-U empties the line, and the draft as well when secure clearing is on. */
  lemma CtrlUEmpties(cfg: Config, roots: Roots, s: Session)
    requires Calm(cfg, s)
    ensures InputByte(cfg, roots, s, 21 as char) ==
      (Placed(s, [], 0).(view := -1, afterCr := false, draft := if cfg.secureClear then [] else s.draft), OK)
  {
    hide Enter, PressTab, WordBefore;
  }

  /** Ctrl-C empties line and draft. */
  lemma CtrlCEmpties(cfg: Config, roots: Roots, s: Session)
    requires Calm(cfg, s)
    ensures InputByte(cfg, roots, s, 3 as char) == (Placed(s, [], 0).(view := -1, afterCr := false, draft := []), OK)
  {
    hide Enter, PressTab, WordBefore;
  }

  /** Ctrl-W takes away the text from k to the cursor: one word up to b, and the blanks behind it. */
  lemma CtrlWErasesWord(cfg: Config, roots: Roots, s: Session) returns (k: nat, b: nat)
    requires Calm(cfg, s)
    ensures k <= b <= |s.left|
    ensures forall i :: k <= i < b ==> !IsSpace(s.left[i])
    ensures forall i :: b <= i < |s.left| ==> IsSpace(s.left[i])
    ensures (k > 0 ==> IsSpace(s.left[k - 1])) && (b > 0 ==> !IsSpace(s.left[b - 1]))
    ensures var all, c, t := s.Line(), |s.left|, s.(afterCr := false);
      InputByte(cfg, roots, s, 23 as char) == (if k == c then t else Placed(t, all[..k] + all[c..], k).(view := -1), OK)
  {
    hide Enter, PressTab;
    DeleteWordRemoves(s.left);
    k, b := WordBefore(s.left), BlankStart(s.left);
    hide WordBefore;
    var all, c := s.Line(), |s.left|;
    var text := all[..k] + all[c..];
    assert text[..k] == s.left[..k] && text[k..] == s.right;
    assert forall i :: k <= i < b ==> s.left[k..b][i - k] == s.left[i];
  }

  /** The bytes that do something by themselves: Ctrl-C, Backspace, Tab, Enter, Ctrl-U, Ctrl-W, ESC, DEL and text. */
  predicate DoesSomething(byte: char) {
    byte as int in {3, 8, 9, 10, 13, 21, 23, 27, 127} || ' ' <= byte <= '~'
  }

  /** All other bytes leave the session alone, and so does a line feed behind a carriage return. */
  lemma OtherBytesDoNothing(cfg: Config, roots: Roots, s: Session, byte: char)
    requires Valid(cfg, s)
    ensures s.ansi == Idle && !DoesSomething(byte) ==> InputByte(cfg, roots, s, byte) == (s.(afterCr := false), OK)
    ensures byte == '\n' && s.afterCr ==> InputByte(cfg, roots, s, byte) == (s.(afterCr := false), OK)
  {
    hide Enter, PressTab, WordBefore;
  }

  /** A Tab replaces the text around the cursor and leaves the history view, or it changes nothing. */
  lemma TabByte(cfg: Config, roots: Roots, s: Session)
    requires Calm(cfg, s)
    ensures var t := Tab(cfg, roots, s.left, s.right);
      InputByte(cfg, roots, s, '\t') ==
        (if t.changed then s.(left := t.left, right := t.right, view := -1, afterCr := false)
         else s.(afterCr := false), t.status)
  {
    hide Enter, Tab, WordBefore;
  }

  // ----- keys -----

  /** The bytes of a control sequence, behind ESC [, and what they do to the cursor and the line. */
  function CursorAfter(tail: string, all: string, c: nat): nat
    requires c <= |all|
  {
    if tail == "C" then (if c < |all| then c + 1 else c)
    else if tail == "D" then (if c > 0 then c - 1 else c)
    else if tail == "H" || tail == "1~" then 0
    else if tail == "F" || tail == "4~" then |all|
    else c
  }

  /** The keys that move over the line move the cursor and nothing else. */
  lemma CursorKeysMove(cfg: Config, roots: Roots, s: Session, tail: string)
    requires Accepted(cfg) && CStrings(cfg) && Valid(cfg, s) && tail in {"C", "D", "H", "F", "1~", "4~"}
    ensures var calm := s.(ansi := Idle, afterCr := false);
      InputAll(cfg, roots, s, [ESC, '['] + tail) ==
        (Placed(calm, s.Line(), CursorAfter(tail, s.Line(), |s.left|)), OK)
  {
    var key :=
      if tail == "C" then Right else if tail == "D" then Left else if tail == "H" || tail == "1~" then Home else End;
    assert Valid(cfg, s.(ansi := Idle, afterCr := false));
    hide InputAll, CStrings, Valid;
    assert SendsKey(tail, key);
    SequencePresses(cfg, roots, s, tail, key);
    KeyPlaces(cfg, s.(ansi := Idle, afterCr := false), tail, key);
  }

  lemma KeyPlaces(cfg: Config, s: Session, tail: string, key: Key)
    requires Valid(cfg, s) && SendsKey(tail, key) && key in {Right, Left, Home, End}
    ensures PressKey(cfg, s, key) == Placed(s, s.Line(), CursorAfter(tail, s.Line(), |s.left|))
  {
    var all, c := s.Line(), |s.left|;
    if key == Right && s.right != [] {
      assert all[..c + 1] == s.left + [s.right[0]] && all[c + 1..] == s.right[1..];
    } else if key == Left && c > 0 {
      assert all[..c - 1] == s.left[..c - 1] && all[c - 1..] == [s.left[c - 1]] + s.right;
    } else if key == Home {
      assert all[..0] == [] && all[0..] == all;
    } else if key == End {
      assert all[..|all|] == all && all[|all|..] == [];
    }
    assert all[..c] == s.left && all[c..] == s.right;
  }

  /** Delete takes away the character at the cursor. */
  lemma DeleteKeyErases(cfg: Config, roots: Roots, s: Session)
    requires Accepted(cfg) && CStrings(cfg) && Valid(cfg, s)
    ensures var all, c, calm := s.Line(), |s.left|, s.(ansi := Idle, afterCr := false);
      InputAll(cfg, roots, s, [ESC, '['] + "3~") ==
        (if c == |all| then calm else Placed(calm, all[..c] + all[c + 1..], c).(view := -1), OK)
  {
    assert SendsKey("3~", Delete);
    SequencePresses(cfg, roots, s, "3~", Delete);
    var all, c := s.Line(), |s.left|;
    if c < |all| {
      var text := all[..c] + all[c + 1..];
      assert text[..c] == s.left && text[c..] == s.right[1..];
    }
  }

  /** One step up or down the history from s; the line is the entry or the draft, with the cursor at its end. */
  predicate Steps(cfg: Config, s: Session, up: bool, t: Session)
    requires -1 <= s.view < |s.hist|
  {
    if s.hist == [] then t == s
    else
      && t == s.(left := t.left, right := [], view := t.view, draft := t.draft)
      && t.view == (if up then Min(s.view + 1, |s.hist| - 1) else if s.view >= 0 then s.view - 1 else -1)
      && t.draft == (if s.view < 0 then s.Line() else s.draft)
      && t.left == (if t.view < 0 then t.draft else Cut(s.hist[|s.hist| - 1 - t.view], cfg.lineMax))
  }

  /** Up and Down step through the history, and keep the typed line as the draft when they leave it. */
  lemma HistoryKeysStep(cfg: Config, roots: Roots, s: Session, up: bool)
    requires Accepted(cfg) && CStrings(cfg) && Valid(cfg, s)
    ensures var t := InputAll(cfg, roots, s, [ESC, '[', if up then 'A' else 'B']);
      t.1 == OK && Steps(cfg, s.(ansi := Idle, afterCr := false), up, t.0)
  {
    var key, tail := if up then Up else Down, if up then "A" else "B";
    assert SendsKey(tail, key) && [ESC, '['] + tail == [ESC, '[', if up then 'A' else 'B'];
    var calm := s.(ansi := Idle, afterCr := false);
    assert Valid(cfg, calm) && -1 <= s.view < |s.hist|;
    hide InputAll, CStrings, Valid, SendsKey, PressKey, Steps;
    SequencePresses(cfg, roots, s, tail, key);
    HistoryStep(cfg, calm, up);
  }

  lemma HistoryStep(cfg: Config, s: Session, up: bool)
    requires Accepted(cfg) && Valid(cfg, s)
    ensures Steps(cfg, s, up, PressKey(cfg, s, if up then Up else Down))
  {
  }

  /** ESC [ and one of the nine known tails press the key, whatever the decoder was in the middle of. */
  lemma SequencePresses(cfg: Config, roots: Roots, s: Session, tail: string, key: Key)
    requires Accepted(cfg) && CStrings(cfg) && Valid(cfg, s) && SendsKey(tail, key)
    ensures InputAll(cfg, roots, s, [ESC, '['] + tail) == (PressKey(cfg, s.(ansi := Idle, afterCr := false), key), OK)
  {
    hide PressKey, InputAll, CStrings, SendsKey;
    KeyBegins(cfg, roots, s, tail);
    SendsKeyParts(tail, key);
    var body, last := tail[..|tail| - 1], tail[|tail| - 1];
    assert tail == body + [last];
    if body != [] {
      DigitBody(cfg, roots, s, body[0], last);
      assert body == [body[0]] && tail == [body[0], last];
    } else {
      assert body == [] && tail == [last];
    }
    TailEnds(cfg, roots, s, body, last, key);
  }

  lemma SendsKeyParts(tail: string, key: Key)
    requires SendsKey(tail, key)
    ensures 1 <= |tail| <= 2 && (|tail| == 2 ==> '1' <= tail[0] <= '4')
  {
  }

  lemma DigitBody(cfg: Config, roots: Roots, s: Session, digit: char, last: char)
    requires Accepted(cfg) && CStrings(cfg) && Valid(cfg, s) && '1' <= digit <= '4'
    ensures var u, v := s.(ansi := Csi([], false), afterCr := false), s.(ansi := Csi([digit], false), afterCr := false);
      Valid(cfg, u) && Valid(cfg, v) && InputAll(cfg, roots, u, [digit, last]) == InputAll(cfg, roots, v, [last])
  {
    var u, v := s.(ansi := Csi([], false), afterCr := false), s.(ansi := Csi([digit], false), afterCr := false);
    assert [] + [digit] == [digit] && [digit, last] == [digit] + [last];
    assert Valid(cfg, u) && Valid(cfg, v) && InputByte(cfg, roots, u, digit) == (v, OK);
    InputStep(cfg, roots, u, digit, [last], v);
  }

  lemma TailEnds(cfg: Config, roots: Roots, s: Session, body: string, last: char, key: Key)
    requires Accepted(cfg) && CStrings(cfg) && Valid(cfg, s) && SendsKey(body + [last], key)
    ensures var v := s.(ansi := Csi(body, false), afterCr := false);
      Valid(cfg, v) && InputAll(cfg, roots, v, [last]) == (PressKey(cfg, s.(ansi := Idle, afterCr := false), key), OK)
  {
    var v := s.(ansi := Csi(body, false), afterCr := false);
    var pressed := PressKey(cfg, s.(ansi := Idle, afterCr := false), key);
    TailLast(cfg, roots, s, body, last, key);
    hide InputByte, CStrings, InputAll, Valid, PressKey, SendsKey;
    InputByteValid(cfg, roots, v, last);
    InputStep(cfg, roots, v, last, [], pressed);
    InputNothing(cfg, roots, pressed);
    assert [last] + [] == [last];
  }

  lemma TailLast(cfg: Config, roots: Roots, s: Session, body: string, last: char, key: Key)
    requires Valid(cfg, s) && SendsKey(body + [last], key)
    ensures var v := s.(ansi := Csi(body, false), afterCr := false);
      && Valid(cfg, v)
      && InputByte(cfg, roots, v, last) == (PressKey(cfg, s.(ansi := Idle, afterCr := false), key), OK)
  {
    hide PressKey, PlainByte, SendsKey, KeyOf;
    SendsKeyParts(body + [last], key);
    KeyOfIff(body, last, key);
    FinalBytes(body, last, key);
  }

  lemma FinalBytes(body: string, last: char, key: Key)
    requires SendsKey(body + [last], key)
    ensures last as int >= 0x40 && last as int <= 0x7e
  {
    var tail := body + [last];
    assert tail[|tail| - 1] == last;
  }
}
