/** The order of the command sets does not matter: not for dispatch, not for the Tab key, not for a session. */
module PermutationLaws {
  import opened Text
  import opened Tokenizer
  import Ansi
  import opened Commands
  import opened Registry
  import opened Config
  import opened Completion
  import opened CompletionLaws
  import opened Masking
  import opened Editor
  import opened EditorLaws

  // ----- the same candidates, in another order -----

  lemma {:induction false} VisibleSplit(a: seq<Cmd>, b: seq<Cmd>, prefix: string)
    ensures VisibleNames(a + b, prefix) == VisibleNames(a, prefix) + VisibleNames(b, prefix)
  {
    if b == [] {
      assert a + b == a;
    } else {
      VisibleSplit(a, b[..|b| - 1], prefix);
      assert (a + b)[..|a + b| - 1] == a + b[..|b| - 1];
    }
  }

  lemma {:induction false} SetRowsSplit(mem: Memory, a: seq<Level>, b: seq<Level>)
    ensures SetRows(mem, a + b) == SetRows(mem, a) + SetRows(mem, b)
  {
    hide Rows;
    if a == [] {
      assert a + b == b;
    } else {
      SetRowsSplit(mem, a[1..], b);
      assert (a + b)[1..] == a[1..] + b;
      var x, y, z := Rows(mem, a[0]), SetRows(mem, a[1..]), SetRows(mem, b);
      assert x + (y + z) == x + y + z;
    }
  }

  /** The names that the sets show, one block for each set. */
  function Shows(mem: Memory, sets: seq<Level>, prefix: string): seq<string> {
    VisibleNames(SetRows(mem, sets), prefix)
  }

  lemma ShowsSplit(mem: Memory, a: seq<Level>, b: seq<Level>, prefix: string)
    ensures Shows(mem, a + b, prefix) == Shows(mem, a, prefix) + Shows(mem, b, prefix)
  {
    SetRowsSplit(mem, a, b);
    VisibleSplit(SetRows(mem, a), SetRows(mem, b), prefix);
  }

  lemma WithoutOne(b: seq<Level>, k: nat)
    requires k < |b|
    ensures b == b[..k] + ([b[k]] + b[k + 1..])
    ensures multiset(b[..k] + b[k + 1..]) == multiset(b) - multiset([b[k]])
  {
    assert b == b[..k] + ([b[k]] + b[k + 1..]);
    assert multiset(b) == multiset(b[..k]) + multiset([b[k]]) + multiset(b[k + 1..]);
  }

  /** Where the first element of a stands in a permutation of a. */
  lemma FirstElsewhere(a: seq<Level>, b: seq<Level>) returns (k: nat)
    requires multiset(a) == multiset(b) && a != []
    ensures k < |b| && b == b[..k] + ([a[0]] + b[k + 1..])
    ensures a == [a[0]] + a[1..] && multiset(a[1..]) == multiset(b[..k] + b[k + 1..])
  {
    assert a[0] in multiset(b);
    k :| 0 <= k < |b| && b[k] == a[0];
    assert a == [a[0]] + a[1..];
    WithoutOne(b, k);
    assert multiset(a[1..]) == multiset(a) - multiset([a[0]]);
  }

  lemma {:induction false} PermutedShows(mem: Memory, a: seq<Level>, b: seq<Level>, prefix: string)
    requires multiset(a) == multiset(b)
    ensures multiset(Shows(mem, a, prefix)) == multiset(Shows(mem, b, prefix))
    decreases |a|
  {
    hide Shows;
    if a == [] {
      assert b == [] by { assert |multiset(b)| == 0; }
    } else {
      var k := FirstElsewhere(a, b);
      var one := [a[0]];
      PermutedShows(mem, a[1..], b[..k] + b[k + 1..], prefix);
      ShowsSplit(mem, one, a[1..], prefix);
      ShowsSplit(mem, b[..k], b[k + 1..], prefix);
      ShowsSplit(mem, b[..k], one + b[k + 1..], prefix);
      ShowsSplit(mem, one, b[k + 1..], prefix);
    }
  }

  /** What a Tab does with its candidates does not depend on their order. */
  lemma SameShared(x: seq<string>, y: seq<string>)
    requires multiset(x) == multiset(y) && x != []
    ensures |x| == |y| && y != [] && Shared(x) == Shared(y)
  {
    assert |x| == |multiset(x)| == |multiset(y)| == |y|;
    SharedBegins(x, y);
    SharedBegins(y, x);
    SharedOne(x);
    SharedOne(y);
    var p, q := Shared(x), Shared(y);
    assert p[..|p|] == p && q[..|q|] == q;
  }

  lemma SharedBegins(x: seq<string>, y: seq<string>)
    requires multiset(x) == multiset(y) && x != [] && y != []
    ensures StartsWith(Shared(y), Shared(x))
  {
    hide Shared;
    var p := Shared(x);
    SharedIsLongest(x, p);
    forall k | 0 <= k < |y|
      ensures StartsWith(y[k], p)
    {
      assert y[k] in multiset(x);
      assert y[k] in x;
    }
    assert |p| <= MAX_LINE_LEN by { SharedFits(x); }
    SharedIsLongest(y, p);
  }

  lemma SharedFits(names: seq<string>)
    requires names != []
    ensures |Shared(names)| <= MAX_LINE_LEN
  {
  }

  lemma SameTabIn(cfg: Config, one: Scope, other: Scope, left: string, right: string)
    requires var prefix := left[WordStart(left)..];
      multiset(Matches(cfg, one, prefix)) == multiset(Matches(cfg, other, prefix))
    ensures TabIn(cfg, one, left, right) == TabIn(cfg, other, left, right)
  {
    hide WordStart, Matches, ReplaceToken;
    var prefix := left[WordStart(left)..];
    var x, y := Matches(cfg, one, prefix), Matches(cfg, other, prefix);
    assert |x| == |multiset(x)| == |multiset(y)| == |y|;
    if x != [] {
      SameShared(x, y);
      SharedOne(x);
      SharedOne(y);
    }
  }

  // ----- the laws -----

  /** The scope of a Tab is the same, or it is the root with the same candidates. */
  lemma ScopesAlike(cfg: Config, a: seq<Level>, b: seq<Level>, before: seq<string>, prefix: string)
    requires Registered(cfg.mem, Sets(a), cfg.builtins) && multiset(a) == multiset(b)
    ensures var x := Descend(cfg.mem, RootScope(cfg, Sets(a)), before);
      var y := Descend(cfg.mem, RootScope(cfg, Sets(b)), before);
      && (x.Some? <==> y.Some?)
      && (x.Some? ==> multiset(Matches(cfg, x.value, prefix)) == multiset(Matches(cfg, y.value, prefix)))
  {
    hide Registered, SetRows, Rows, Find, VisibleNames;
    var extra := if cfg.builtins then BUILTIN_ROWS else [];
    if before == [] {
      PermutedShows(cfg.mem, a, b, prefix);
      VisibleSplit(SetRows(cfg.mem, a), extra, prefix);
      VisibleSplit(SetRows(cfg.mem, b), extra, prefix);
    } else {
      RootsFoundAlike(cfg.mem, a, b, cfg.builtins, before[0]);
      FindSplit(SetRows(cfg.mem, a), extra, before[0]);
      FindSplit(SetRows(cfg.mem, b), extra, before[0]);
    }
  }

  lemma PermutingSetsTabsAlike(cfg: Config, a: seq<Level>, b: seq<Level>, left: string, right: string)
    requires Registered(cfg.mem, Sets(a), cfg.builtins) && multiset(a) == multiset(b)
    ensures Tab(cfg, Sets(a), left, right) == Tab(cfg, Sets(b), left, right)
  {
    hide Registered, Descend, RootScope, Matches, TabIn, WordStart, Tokens;
    var parse := ParseLine(left, cfg.argcMax);
    if parse.Parsed? {
      var prefix := left[WordStart(left)..];
      ScopesAlike(cfg, a, b, Before(parse.tokens, prefix), prefix);
      var x, y := TabScope(cfg, Sets(a), left), TabScope(cfg, Sets(b), left);
      if x.Some? {
        SameTabIn(cfg, x.value, y.value, left, right);
      }
    }
  }

  /** What the history keeps of a line is the same. */
  lemma PermutingSetsRemembersAlike(cfg: Config, a: seq<Level>, b: seq<Level>, hist: seq<string>, line: string,
      args: seq<string>)
    requires Registered(cfg.mem, Sets(a), cfg.builtins) && multiset(a) == multiset(b)
    ensures Remember(cfg, Sets(a), hist, line, args) == Remember(cfg, Sets(b), hist, line, args)
  {
    hide Registered, Resolve;
    PermutingSetsResolvesAlike(cfg.mem, a, b, cfg.builtins, args);
  }

  lemma PermutingSetsExecutesAlike(cfg: Config, a: seq<Level>, b: seq<Level>, s: Session, line: string)
    requires Registered(cfg.mem, Sets(a), cfg.builtins) && multiset(a) == multiset(b)
    ensures ExecuteLine(cfg, Sets(a), s, line) == ExecuteLine(cfg, Sets(b), s, line)
  {
    hide Registered, Resolve, Dispatch, Remember, Perform, Tokens;
    var parse := ParseLine(line, cfg.argcMax);
    if parse.Parsed? {
      PermutingSetsRemembersAlike(cfg, a, b, s.hist, line, parse.tokens);
      PermutingSetsDispatchesAlike(cfg.mem, a, b, cfg.builtins, parse.tokens);
    }
  }

  /** Permuting the command sets changes nothing: every stream of bytes has the same effect. */
  lemma {:induction false} PermutingSetsChangesNothing(cfg: Config, a: seq<Level>, b: seq<Level>, s: Session,
      data: string)
    requires Accepted(cfg) && CStrings(cfg) && Valid(cfg, s)
    requires Registered(cfg.mem, Sets(a), cfg.builtins) && multiset(a) == multiset(b)
    ensures Registered(cfg.mem, Sets(b), cfg.builtins)
    ensures InputAll(cfg, Sets(a), s, data) == InputAll(cfg, Sets(b), s, data)
    decreases |data|
  {
    hide Registered, InputByte, Valid, CStrings;
    PermutedRegistered(cfg.mem, a, b, cfg.builtins);
    if data != [] {
      InputByteValid(cfg, Sets(a), s, data[0]);
      ByteAlike(cfg, a, b, s, data[0]);
      PermutingSetsChangesNothing(cfg, a, b, InputByte(cfg, Sets(a), s, data[0]).0, data[1..]);
    }
  }

  lemma ByteAlike(cfg: Config, a: seq<Level>, b: seq<Level>, s: Session, byte: char)
    requires Valid(cfg, s) && Registered(cfg.mem, Sets(a), cfg.builtins) && multiset(a) == multiset(b)
    ensures InputByte(cfg, Sets(a), s, byte) == InputByte(cfg, Sets(b), s, byte)
  {
    hide Registered, ExecuteLine, Tab, PressKey;
    var t := s.(afterCr := byte == '\r', ansi := Ansi.Feed(s.ansi, byte).0);
    PermutingSetsExecutesAlike(cfg, a, b, t, t.Line());
    PermutingSetsTabsAlike(cfg, a, b, t.left, t.right);
  }
}
