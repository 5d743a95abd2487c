/** Shared vocabulary: shell statuses, C character classes and C strings. */
module Text {

  /** The status values returned by the shell core. */
  datatype Status =
    | OK
    | InvalidArg
    | LineTooLong
    | TooManyArgs
    | UnterminatedQuote
    | UnknownCommand
    | Ambiguous
    | InvalidConfig
    | IncompleteCommand
    | Application(code: int)  // any other value a command handler returns

  datatype Option<+T> = None | Some(value: T)

  const NUL: char := '\0'

  const MAX_LINE_LEN: nat := 256
  const MAX_ARGC: nat := 32

  /** isspace in the C locale. */
  predicate IsSpace(c: char) {
    c == ' ' || c == '\t' || c == '\n' || c == '\U{0b}' || c == '\U{0c}' || c == '\r'
  }

  predicate IsQuote(c: char) {
    c == '"' || c == '\''
  }

  /** Holds when s can be the contents of a C string. */
  predicate NoNul(s: string) {
    NUL !in s
  }

  predicate NoSpace(s: string) {
    forall k :: 0 <= k < |s| ==> !IsSpace(s[k])
  }

  function Min(a: nat, b: nat): nat {
    if a <= b then a else b
  }

  /** As much of s as n characters hold. */
  function Cut(s: string, n: nat): string {
    if |s| <= n then s else s[..n]
  }

  /** The C string that starts at the front of a block of memory. */
  function CStr(mem: seq<char>): (s: string)
    ensures |s| <= |mem| && s == mem[..|s|] && NoNul(s)
    ensures |s| < |mem| ==> mem[|s|] == NUL
  {
    if mem == [] || mem[0] == NUL then [] else [mem[0]] + CStr(mem[1..])
  }

  /** The first NUL ends the C string. */
  lemma {:induction false} CStrIs(mem: seq<char>, s: string)
    requires NoNul(s) && |s| < |mem| && mem[..|s|] == s && mem[|s|] == NUL
    ensures CStr(mem) == s
  {
    if s != [] {
      assert mem[1..][..|s| - 1] == s[1..];
      CStrIs(mem[1..], s[1..]);
    }
  }

  lemma CStrShort(mem: seq<char>)
    requires NUL in mem
    ensures |CStr(mem)| < |mem| && mem[|CStr(mem)|] == NUL
  {
    assert mem[..|mem|] == mem;
  }

  /** Length of the part of u before its first blank. */
  function WordLen(u: string): (k: nat)
    ensures k <= |u| && NoSpace(u[..k]) && (k < |u| ==> IsSpace(u[k]))
  {
    if u == [] || IsSpace(u[0]) then 0
    else
      var k := WordLen(u[1..]);
      assert u[..k + 1] == [u[0]] + u[1..][..k];
      k + 1
  }

  /** Where the last run of non-blanks begins; |u| when u ends in a blank. */
  function WordStart(u: string): (k: nat)
    ensures k <= |u| && NoSpace(u[k..]) && (k > 0 ==> IsSpace(u[k - 1]))
  {
    if u == [] || IsSpace(u[|u| - 1]) then |u|
    else
      var k := WordStart(u[..|u| - 1]);
      assert u[k..] == u[..|u| - 1][k..] + [u[|u| - 1]];
      k
  }

  /** Where the last run of blanks begins; |u| when u does not end in a blank. */
  function BlankStart(u: string): (k: nat)
    ensures k <= |u|
  {
    if u != [] && IsSpace(u[|u| - 1]) then BlankStart(u[..|u| - 1]) else |u|
  }

  /** memmove within one buffer. */
  method MemMove(a: array<char>, dst: nat, src: nat, n: nat)
    requires dst + n <= a.Length && src + n <= a.Length
    modifies a
    ensures forall i :: 0 <= i < a.Length ==> a[i] == old(if dst <= i < dst + n then a[src + i - dst] else a[i])
  {
    forall i | 0 <= i < n { a[dst + i] := a[src + i]; }
  }

  /** memcpy of a read-only block into a buffer. */
  method MemCopy(a: array<char>, dst: nat, block: string)
    requires dst + |block| <= a.Length
    modifies a
    ensures forall i :: 0 <= i < a.Length ==> a[i] == if dst <= i < dst + |block| then block[i - dst] else old(a[i])
  {
    forall i | 0 <= i < |block| { a[dst + i] := block[i]; }
  }

  /** memset to zero. */
  method MemZero(a: array<char>, n: nat)
    requires n <= a.Length
    modifies a
    ensures forall i :: 0 <= i < n ==> a[i] == NUL
    ensures a[n..] == old(a[n..])
  {
    forall i | 0 <= i < n { a[i] := NUL; }
  }

  /** strlen: a terminator must be inside the buffer. */
  method StrLen(a: array<char>) returns (n: nat)
    requires NUL in a[..]
    ensures n < a.Length && a[n] == NUL && a[..n] == CStr(a[..])
  {
    n := 0;
    while a[n] != NUL
      invariant n < a.Length
      invariant forall k :: 0 <= k < n ==> a[k] != NUL
      decreases a.Length - n
    {
      assert exists k :: 0 <= k < a.Length && a[..][k] == NUL;
      n := n + 1;
    }
    CStrIs(a[..], a[..n]);
  }

  /** The C string at an offset of a buffer. */
  method StrAt(a: array<char>, at: nat, size: nat) returns (s: string)
    requires at + size <= a.Length && NUL in a[at..at + size]
    ensures s == CStr(a[at..at + size])
  {
    var n := 0;
    while a[at + n] != NUL
      invariant n < size
      invariant forall k :: at <= k < at + n ==> a[k] != NUL
      decreases size - n
    {
      assert exists k :: at <= k < at + size && a[k] == NUL;
      n := n + 1;
    }
    s := a[at..at + n];
    assert a[at..at + size][..n] == s;
    CStrIs(a[at..at + size], s);
  }
}
