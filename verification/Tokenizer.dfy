/**
 * shell/src/sh_tokenizer.c.  ScanWord and Tokens are the grammar of quoted and escaped words, read
 * off an immutable string; Tokenize is the parser that compacts the words inside the buffer it reads.
 */
module Tokenizer {
  import opened Text

  const INT_MAX: nat := 2147483647

  /** One word: its text and the input after it, or the reason there is none. */
  datatype Scan = Word(text: string, rest: string) | NoWord(status: Status)

  /** Puts text in front of a word whose beginning has been read already. */
  function Continue(text: string, scan: Scan): Scan {
    match scan
    case Word(more, rest) => Word(text + more, rest)
    case NoWord(_) => scan
  }

  /** Reads the rest of a word; quote is the quote that is open, or NUL. */
  function ScanWord(s: string, quote: char): (r: Scan)
    ensures r.Word? ==> |r.rest| <= |s| && |r.text| + |r.rest| <= |s|
    decreases |s|
  {
    if s == [] then
      if quote != NUL then NoWord(UnterminatedQuote) else Word([], [])
    else if quote == NUL && IsSpace(s[0]) then
      Word([], s[1..])
    else if s[0] == '\\' && quote != '\'' then
      if |s| == 1 then NoWord(InvalidArg) else Continue([s[1]], ScanWord(s[2..], quote))
    else if quote == NUL && IsQuote(s[0]) then
      ScanWord(s[1..], s[0])
    else if quote != NUL && s[0] == quote then
      ScanWord(s[1..], NUL)
    else
      Continue([s[0]], ScanWord(s[1..], quote))
  }

  /** The blanks are tab, line feed, vertical tab, form feed, carriage return and space. */
  lemma BlanksAre(c: char)
    ensures IsSpace(c) <==> 9 <= c as int <= 13 || c as int == 32
  {
  }

  function SkipSpaces(s: string): (r: string)
    ensures |r| <= |s|
    ensures r != [] ==> !IsSpace(r[0])
  {
    if s != [] && IsSpace(s[0]) then SkipSpaces(s[1..]) else s
  }

  datatype Parse = Parsed(tokens: seq<string>) | Rejected(status: Status)

  /** Puts words in front of a parse of the input after them. */
  function Prepend(words: seq<string>, parse: Parse): Parse {
    match parse
    case Parsed(more) => Parsed(words + more)
    case Rejected(_) => parse
  }

  /** Every word of s, when there are at most room of them. */
  function Tokens(s: string, room: nat): Parse
    decreases |s|
  {
    var t := SkipSpaces(s);
    if t == [] then Parsed([])
    else if room == 0 then Rejected(TooManyArgs)
    else
      var scan := ScanWord(t, NUL);
      match scan
      case NoWord(status) => Rejected(status)
      case Word(text, rest) =>
        assert rest == [] || |rest| < |t|;
        Prepend([text], Tokens(rest, room - 1))
  }

  /** argc is a C int, so the argument limit is the smaller of the capacity and INT_MAX. */
  function Limit(capacity: nat): nat {
    if capacity < INT_MAX then capacity else INT_MAX
  }

  /** What a call with an argv array of the given capacity must answer. */
  function ParseLine(s: string, capacity: nat): Parse {
    if capacity == 0 then Rejected(InvalidArg) else Tokens(s, Limit(capacity))
  }

  function Sealed(token: string): string {
    token + [NUL]
  }

  /** The memory image of the words: each one followed by its terminator. */
  function Image(tokens: seq<string>): string {
    if tokens == [] then [] else Sealed(tokens[0]) + Image(tokens[1..])
  }

  /** The words lie contiguously from the start of mem and pointers are their offsets. */
  ghost predicate LaidOut(mem: string, pointers: seq<nat>, tokens: seq<string>) {
    && Image(tokens) <= mem
    && |pointers| == |tokens|
    && (forall i :: 0 <= i < |tokens| ==> pointers[i] == |Image(tokens[..i])|)
  }

  lemma {:induction false} ImageAppend(a: seq<string>, b: seq<string>)
    ensures Image(a + b) == Image(a) + Image(b)
  {
    if a == [] {
      assert a + b == b;
    } else {
      ImageAppend(a[1..], b);
      assert (a + b)[1..] == a[1..] + b;
      assert Sealed(a[0]) + (Image(a[1..]) + Image(b)) == Sealed(a[0]) + Image(a[1..]) + Image(b);
    }
  }

  /** Each pointer is a C string inside the buffer, and it is the token. */
  lemma PointerReadsToken(mem: string, pointers: seq<nat>, tokens: seq<string>, i: nat)
    requires LaidOut(mem, pointers, tokens) && i < |tokens|
    requires NoNul(tokens[i])
    ensures pointers[i] + |tokens[i]| < |mem| && CStr(mem[pointers[i]..]) == tokens[i]
  {
    ImageAppend(tokens[..i], tokens[i..]);
    assert tokens[..i] + tokens[i..] == tokens;
    var at := |Image(tokens[..i])|;
    var tail := Image(tokens[i..]);
    assert tail == Sealed(tokens[i]) + Image(tokens[i..][1..]);
    assert mem[at..at + |tail|] == tail by {
      assert mem[..at + |tail|] == Image(tokens[..i]) + tail;
    }
    assert mem[at..][..|tokens[i]|] == tail[..|tokens[i]|] == tokens[i];
    assert mem[at..][|tokens[i]|] == mem[at..at + |tail|][|tokens[i]|] == NUL;
    CStrIs(mem[at..], tokens[i]);
  }

  lemma {:induction false} ScanWordNoNul(s: string, quote: char)
    requires NoNul(s)
    ensures var r := ScanWord(s, quote); r.Word? ==> NoNul(r.text) && NoNul(r.rest)
    decreases |s|
  {
    if |s| >= 2 {
      ScanWordNoNul(s[2..], quote);
    }
    if s != [] {
      ScanWordNoNul(s[1..], quote);
      ScanWordNoNul(s[1..], s[0]);
      ScanWordNoNul(s[1..], NUL);
    }
  }

  lemma {:induction false} SkipSpacesDrops(s: string)
    ensures SkipSpaces(s) == s[|s| - |SkipSpaces(s)|..]
  {
    if s != [] && IsSpace(s[0]) {
      SkipSpacesDrops(s[1..]);
    }
  }

  /** A word that ends before the input does was ended by a blank that is not part of it. */
  lemma {:induction false} ScanWordFits(s: string, quote: char)
    ensures var r := ScanWord(s, quote);
      r.Word? && r.rest != [] ==> |r.text| + |r.rest| < |s|
    decreases |s|
  {
    if |s| >= 2 {
      ScanWordFits(s[2..], quote);
    }
    if s != [] {
      ScanWordFits(s[1..], quote);
      ScanWordFits(s[1..], s[0]);
      ScanWordFits(s[1..], NUL);
    }
  }

  /** A word that was ended by a blank is the same whatever is appended to the line. */
  lemma {:induction false} ScanWordExtends(s: string, quote: char, more: string)
    ensures var r := ScanWord(s, quote);
      r.Word? && r.rest != [] ==> ScanWord(s + more, quote) == Word(r.text, r.rest + more)
    decreases |s|
  {
    if s != [] {
      assert (s + more)[1..] == s[1..] + more;
      if quote == NUL && IsSpace(s[0]) {
      } else if s[0] == '\\' && quote != '\'' {
        if |s| >= 2 {
          assert (s + more)[2..] == s[2..] + more;
          ScanWordExtends(s[2..], quote, more);
        }
      } else if quote == NUL && IsQuote(s[0]) {
        ScanWordExtends(s[1..], s[0], more);
      } else if quote != NUL && s[0] == quote {
        ScanWordExtends(s[1..], NUL, more);
      } else {
        ScanWordExtends(s[1..], quote, more);
      }
    }
  }

  lemma {:induction false} SkipSpacesExtends(s: string, more: string)
    ensures SkipSpaces(s) != [] ==> SkipSpaces(s + more) == SkipSpaces(s) + more
    ensures SkipSpaces(s) == [] ==> SkipSpaces(s + more) == SkipSpaces(more)
  {
    if s == [] {
      assert s + more == more;
    } else if IsSpace(s[0]) {
      assert (s + more)[1..] == s[1..] + more;
      SkipSpacesExtends(s[1..], more);
    }
  }

  /** The words after the first one are all that an addition to the line can change. */
  lemma TokensExtend(s: string, more: string, room: nat)
    requires SkipSpaces(s) != [] && room > 0
    requires var r := ScanWord(SkipSpaces(s), NUL); r.Word? && r.rest != []
    ensures var Word(text, rest) := ScanWord(SkipSpaces(s), NUL);
      Tokens(s + more, room) == Prepend([text], Tokens(rest + more, room - 1))
  {
    hide ScanWord;
    SkipSpacesExtends(s, more);
    ScanWordExtends(SkipSpaces(s), NUL, more);
  }

  /** Words keep the parts of the line they were cut from: no NUL, at most room words, and they fit. */
  lemma {:induction false} TokensBounds(s: string, room: nat)
    requires NoNul(s)
    ensures var p := Tokens(s, room); p.Parsed? ==>
      && |p.tokens| <= room
      && |Image(p.tokens)| <= |s| + 1
      && forall t :: t in p.tokens ==> NoNul(t) && |t| <= |s|
    decreases |s|
  {
    hide ScanWord, SkipSpaces;
    var t := SkipSpaces(s);
    SkipSpacesDrops(s);
    if t != [] && room > 0 {
      ScanWordNoNul(t, NUL);
      ScanWordFits(t, NUL);
      var scan := ScanWord(t, NUL);
      if scan.Word? {
        TokensBounds(scan.rest, room - 1);
        var p := Tokens(scan.rest, room - 1);
        if p.Parsed? {
          assert ([scan.text] + p.tokens)[1..] == p.tokens;
          if scan.rest == [] {
            NoWords([], room - 1);
          }
        }
      }
    }
  }

  /** One turn of the inner loop: the word so far, followed by the scan of the input from read. */
  lemma ScanTurn(mem: string, read: nat, n: nat, quote: char, text: string)
    requires read < n <= |mem|
    ensures var c := mem[read];
      var here := Continue(text, ScanWord(mem[read..n], quote));
      if quote == NUL && IsSpace(c) then here == Word(text, mem[read + 1..n])
      else if c == '\\' && quote != '\'' then
        if read + 1 == n then here == NoWord(InvalidArg)
        else here == Continue(text + [mem[read + 1]], ScanWord(mem[read + 2..n], quote))
      else if quote == NUL && IsQuote(c) then here == Continue(text, ScanWord(mem[read + 1..n], c))
      else if quote != NUL && c == quote then here == Continue(text, ScanWord(mem[read + 1..n], NUL))
      else here == Continue(text + [c], ScanWord(mem[read + 1..n], quote))
  {
    var s := mem[read..n];
    assert s[1..] == mem[read + 1..n] && s[0] == mem[read];
    ContinueTwice(text, [s[0]], ScanWord(s[1..], quote));
    assert text + [] == text;
    if |s| > 1 {
      assert s[2..] == mem[read + 2..n] && s[1] == mem[read + 1];
      ContinueTwice(text, [s[1]], ScanWord(s[2..], quote));
    }
  }

  /** A backslash outside single quotes keeps the next character as it is. */
  lemma ScanEscape(c: char, more: string, quote: char)
    requires quote != '\''
    ensures ScanWord(['\\', c] + more, quote) == Continue([c], ScanWord(more, quote))
  {
    assert (['\\', c] + more)[2..] == more;
  }

  lemma ContinueTwice(a: string, b: string, scan: Scan)
    ensures Continue(a, Continue(b, scan)) == Continue(a + b, scan)
  {
    if scan.Word? {
      assert a + (b + scan.text) == a + b + scan.text;
    }
  }

  /** The word a finished scan stands for. */
  lemma ScanEnd(text: string, quote: char)
    ensures Continue(text, ScanWord([], quote)) == if quote == NUL then Word(text, []) else NoWord(UnterminatedQuote)
  {
    assert text + [] == text;
  }

  /** The grammar of a line, one word at a time. */
  lemma TokensUnfold(s: string, room: nat)
    ensures SkipSpaces(s) == [] ==> Tokens(s, room) == Parsed([])
    ensures SkipSpaces(s) != [] && room == 0 ==> Tokens(s, room) == Rejected(TooManyArgs)
    ensures SkipSpaces(s) != [] && room > 0 ==>
      match ScanWord(SkipSpaces(s), NUL)
      case NoWord(status) => Tokens(s, room) == Rejected(status)
      case Word(text, rest) => Tokens(s, room) == Prepend([text], Tokens(rest, room - 1))
  {
  }

  /** How the outer loop stops: no word left, or no room for one. */
  lemma TokensStop(s: string, room: nat, done: seq<string>)
    ensures SkipSpaces(s) == [] ==> Prepend(done, Tokens(s, room)) == Parsed(done)
    ensures SkipSpaces(s) != [] && room == 0 ==> Prepend(done, Tokens(s, room)) == Rejected(TooManyArgs)
  {
    assert done + [] == done;
  }

  /** The input from offset k on is still what the line held when the call began. */
  ghost predicate Unread(line: array<char>, mem: string, from: nat, n: nat)
    reads line
  {
    && line.Length == |mem| && from <= n < |mem| && mem[n] == NUL
    && (forall k :: from <= k < |mem| ==> line[k] == mem[k])
    && (forall k :: from <= k < n ==> mem[k] != NUL)
  }

  /**
   * The inner loop of sh_tokenize: reads one word at offset first and compacts it, with its
   * terminator, to offset start.  Nothing unread is overwritten and nothing before start changes.
   */
  method CompactWord(line: array<char>, start: nat, first: nat, ghost mem: string, ghost n: nat)
    returns (status: Status, write: nat, read: nat, ghost text: string)
    requires start <= first && Unread(line, mem, first, n)
    modifies line
    ensures forall k :: 0 <= k < start ==> line[k] == old(line[k])
    ensures match ScanWord(mem[first..n], NUL)
      case NoWord(error) => status == error && status != OK
      case Word(word, rest) =>
        && status == OK && text == word
        && write == start + |text| + 1 <= line.Length
        && (forall k :: 0 <= k < |text| ==> line[start + k] == text[k])
        && line[write - 1] == NUL
        && (first < n ==> first < read) && Unread(line, mem, read, n) && rest == mem[read..n]
        && (write <= read || (read == n && write == n + 1))
  {
    hide ScanWord;
    ghost var goal := ScanWord(mem[first..n], NUL);
    text := [];
    read, write := first, start;
    var quote := NUL;
    assert Continue([], goal) == goal by { if goal.Word? { assert [] + goal.text == goal.text; } }
    while line[read] != NUL
      invariant first <= read && write == start + |text| <= read
      invariant Unread(line, mem, read, n)
      invariant forall k :: 0 <= k < start ==> line[k] == old(line[k])
      invariant forall k :: 0 <= k < |text| ==> line[start + k] == text[k]
      invariant Continue(text, ScanWord(mem[read..n], quote)) == goal
      decreases n - read
    {
      ScanTurn(mem, read, n, quote, text);
      var c := line[read];
      read := read + 1;
      if quote == NUL && IsSpace(c) {
        line[write] := NUL;
        return OK, write + 1, read, text;
      }
      if c == '\\' && quote != '\'' {
        if line[read] == NUL {
          return InvalidArg, 0, 0, [];
        }
        line[write] := line[read];
        text := text + [mem[read]];
        read := read + 1;
        write := write + 1;
      } else if quote == NUL && IsQuote(c) {
        quote := c;
      } else if quote != NUL && c == quote {
        quote := NUL;
      } else {
        line[write] := c;
        text := text + [c];
        write := write + 1;
      }
    }
    assert mem[read..n] == [];
    ScanEnd(text, quote);
    if quote != NUL {
      return UnterminatedQuote, 0, 0, [];
    }
    line[write] := NUL;
    return OK, write + 1, read, text;
  }

  lemma NoWords(s: string, room: nat)
    ensures Image([]) == [] && LaidOut([], [], [])
    ensures Prepend([], Tokens(s, room)) == Tokens(s, room)
    ensures SkipSpaces([]) == []
  {
    var p := Tokens(s, room);
    assert p.Parsed? ==> [] + p.tokens == p.tokens;
  }

  lemma AppendWord(pointers: seq<nat>, done: seq<string>, text: string)
    requires LaidOut(Image(done), pointers, done)
    ensures Image(done + [text]) == Image(done) + text + [NUL]
    ensures LaidOut(Image(done + [text]), pointers + [|Image(done)|], done + [text])
  {
    ImageAppend(done, [text]);
    assert Image([text]) == Sealed(text) + [];
    var all := done + [text];
    forall i | 0 <= i < |all|
      ensures (pointers + [|Image(done)|])[i] == |Image(all[..i])|
    {
      assert all[..i] == done[..i];
      assert done[..|done|] == done;
    }
  }

  /** One turn of the outer loop, on the grammar's side. */
  lemma TokensTurn(s: string, room: nat, done: seq<string>)
    requires SkipSpaces(s) != [] && room > 0
    ensures var here := Prepend(done, Tokens(s, room));
      match ScanWord(SkipSpaces(s), NUL)
      case NoWord(status) => here == Rejected(status)
      case Word(text, rest) => here == Prepend(done + [text], Tokens(rest, room - 1))
  {
    var scan := ScanWord(SkipSpaces(s), NUL);
    if scan.Word? {
      var p := Tokens(scan.rest, room - 1);
      if p.Parsed? {
        assert done + ([scan.text] + p.tokens) == done + [scan.text] + p.tokens;
      }
    }
  }

  /** The loop over blanks: returns the offset of the next byte that is not one. */
  method SkipBlanks(line: array<char>, from: nat, ghost mem: string, ghost n: nat) returns (read: nat)
    requires Unread(line, mem, from, n)
    ensures from <= read <= n && !IsSpace(line[read])
    ensures mem[read..n] == SkipSpaces(mem[from..n])
  {
    read := from;
    while IsSpace(line[read])
      invariant from <= read <= n
      invariant SkipSpaces(mem[from..n]) == SkipSpaces(mem[read..n])
      decreases n - read
    {
      assert mem[read..n][1..] == mem[read + 1..n];
      read := read + 1;
    }
  }

  /** The first write bytes of the line are the words done so far, and argv points at them. */
  ghost predicate Packed(line: array<char>, argv: array<nat>, count: nat, write: nat, done: seq<string>)
    reads line, argv
  {
    && write <= line.Length && count <= argv.Length
    && line[..write] == Image(done)
    && LaidOut(Image(done), argv[..count], done)
  }

  /** One more word: what the loop body of sh_tokenize does after its checks. */
  method TakeWord(line: array<char>, argv: array<nat>, count: nat, write: nat, read: nat,
                  ghost mem: string, ghost n: nat, ghost done: seq<string>)
    returns (status: Status, end: nat, next: nat, ghost text: string)
    requires Packed(line, argv, count, write, done) && Unread(line, mem, read, n)
    requires write <= read < n && count < argv.Length
    modifies line, argv
    ensures match ScanWord(mem[read..n], NUL)
      case NoWord(error) => status == error && status != OK
      case Word(word, rest) =>
        && status == OK && word == text
        && Packed(line, argv, count + 1, end, done + [text])
        && read < next && Unread(line, mem, next, n) && rest == mem[next..n]
        && (end <= next || (next == n && end == n + 1))
  {
    hide ScanWord, Image, LaidOut;
    ghost var image, pointers := line[..write], argv[..count];
    assert write == |Image(done)|;
    argv[count] := write;
    status, end, next, text := CompactWord(line, write, read, mem, n);
    if status == OK {
      AppendWord(pointers, done, text);
      assert argv[..count + 1] == pointers + [write];
      assert line[..end] == image + text + [NUL];
    }
  }

  /** sh_tokenize: the words, in place; argc stays 0 on every error. */
  method Tokenize(line: array<char>, argv: array<nat>, capacity: nat) returns (status: Status, argc: nat)
    requires NUL in line[..]
    requires capacity <= argv.Length
    modifies line, argv
    ensures var p := ParseLine(CStr(old(line[..])), capacity);
      if p.Parsed?
      then status == OK && argc == |p.tokens| <= capacity && LaidOut(line[..], argv[..argc], p.tokens)
      else status == p.status && status != OK && argc == 0
  {
    hide ScanWord, SkipSpaces, Image, Tokens, Prepend, IsSpace;
    if capacity == 0 {
      return InvalidArg, 0;
    }
    ghost var mem := line[..];
    CStrShort(mem);
    ghost var s := CStr(mem);
    ghost var n, room := |s|, Limit(capacity);
    ghost var done: seq<string> := [];
    var count: nat, read: nat, write: nat := 0, 0, 0;
    NoWords(s, room);
    assert s == mem[0..n] && argv[..0] == [];
    while line[read] != NUL
      invariant Unread(line, mem, read, n) && Packed(line, argv, count, write, done)
      invariant write <= read || read == n
      invariant count == |done| <= room
      invariant Tokens(s, room) == Prepend(done, Tokens(mem[read..n], room - count))
      decreases n - read
    {
      ghost var from := read;
      read := SkipBlanks(line, read, mem, n);
      TokensStop(mem[from..n], room - count, done);
      if line[read] == NUL {
        assert read == n;
        break;
      }
      assert mem[read..n][0] == mem[read];
      if count >= capacity || count >= INT_MAX {
        return TooManyArgs, 0;
      }
      TokensTurn(mem[from..n], room - count, done);
      var error, end, next, text := TakeWord(line, argv, count, write, read, mem, n, done);
      if error != OK {
        return error, 0;
      }
      count, write, read, done := count + 1, end, next, done + [text];
    }
    TokensStop(mem[n..n], room - count, done);
    assert line[..][..write] == line[..write];
    return OK, count;
  }

  /** The argument vector as the code that follows reads it: one C string behind each pointer. */
  method ReadArgs(line: array<char>, argv: array<nat>, argc: nat, ghost tokens: seq<string>) returns (args: seq<string>)
    requires argc <= argv.Length && LaidOut(line[..], argv[..argc], tokens)
    requires forall t :: t in tokens ==> NoNul(t)
    ensures args == tokens
  {
    hide Image, CStr;
    args := [];
    for i := 0 to argc
      invariant |args| == i && args == tokens[..i]
    {
      PointerReadsToken(line[..], argv[..argc], tokens, i);
      var at := argv[i];
      assert line[..][at..] == line[at..at + (line.Length - at)];
      CStrInside(line[at..at + (line.Length - at)]);
      var arg := StrAt(line, at, line.Length - at);
      args := args + [arg];
    }
  }

  lemma CStrInside(mem: seq<char>)
    requires |CStr(mem)| < |mem|
    ensures NUL in mem
  {
    assert mem[|CStr(mem)|] == NUL;
  }
}
