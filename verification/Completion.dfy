/**
 * shell/src/sh_completion.c: the candidates a Tab sees, their longest common prefix, and the text a Tab
 * leaves in the line.
 */
module Completion {
  import opened Text
  import opened Tokenizer
  import opened Commands
  import opened Registry
  import opened Config

  const PROVIDER_MAX_ITEMS: nat := 256

  const BUILTIN_ROWS: seq<Cmd> := [
    Plain("clear"), Plain("help"),
    Plain("history").(subs := HistorySubs, subCount := 2, maxArgs := Some(1)),
    Plain("echo").(subs := EchoSubs, subCount := 3, maxArgs := Some(1))]

  /** Where the completed token stands: beside the commands of a table, or as an argument of a leaf. */
  datatype Scope = Beside(rows: seq<Cmd>) | Payload(provider: nat, argIndex: nat)

  function RootScope(cfg: Config, roots: Roots): seq<Cmd> {
    RootRows(cfg.mem, roots) + if cfg.builtins then BUILTIN_ROWS else []
  }

  /** The descent along the tokens before the completed one. */
  function Descend(mem: Memory, rows: seq<Cmd>, before: seq<string>): Option<Scope>
    decreases |before|
  {
    if before == [] then Some(Beside(rows))
    else match Find(rows, before[0])
      case None => None
      case Some(cmd) =>
        if IsParent(cmd) then Descend(mem, Rows(mem, Children(cmd)), before[1..])
        else if cmd.completion.Some? && !cmd.sensitive then Some(Payload(cmd.completion.value, |before|))
        else None
  }

  // ----- candidates -----

  predicate StartsWith(name: string, prefix: string) {
    |prefix| <= |name| && name[..|prefix|] == prefix
  }

  /** The visible names of a table that start with prefix, in order. */
  function VisibleNames(rows: seq<Cmd>, prefix: string): seq<string> {
    if rows == [] then []
    else
      var last := rows[|rows| - 1];
      VisibleNames(rows[..|rows| - 1], prefix) +
        if !last.hidden && last.name.Some? && StartsWith(last.name.value, prefix) then [last.name.value] else []
  }

  /** The answers of a provider with index below n that start with prefix, up to its first refusal. */
  function Answers(cfg: Config, provider: nat, argIndex: nat, prefix: string, n: nat): seq<string> {
    if n == 0 then []
    else
      Answers(cfg, provider, argIndex, prefix, n - 1) +
        if Refused(cfg, provider, argIndex, n) then []
        else
          var name := cfg.provide(provider, argIndex, n - 1).value;
          if StartsWith(name, prefix) then [name] else []
  }

  /** The provider refused one of its first n candidates. */
  predicate Refused(cfg: Config, provider: nat, argIndex: nat, n: nat) {
    exists k: nat :: k < n && cfg.provide(provider, argIndex, k) == None
  }

  function Matches(cfg: Config, scope: Scope, prefix: string): seq<string> {
    match scope
    case Beside(rows) => VisibleNames(rows, prefix)
    case Payload(provider, argIndex) => Answers(cfg, provider, argIndex, prefix, PROVIDER_MAX_ITEMS)
  }

  function CommonLen(a: string, b: string): (n: nat)
    ensures n <= |a| && n <= |b| && a[..n] == b[..n]
    ensures n < |a| && n < |b| ==> a[n] != b[n]
  {
    if a == [] || b == [] || a[0] != b[0] then 0
    else
      var n := CommonLen(a[1..], b[1..]);
      assert a[..n + 1] == [a[0]] + a[1..][..n] && b[..n + 1] == [b[0]] + b[1..][..n];
      n + 1
  }

  lemma {:induction false} CommonLenIsLongest(a: string, b: string, p: string)
    requires StartsWith(a, p) && StartsWith(b, p)
    ensures CommonLen(a, b) >= |p|
  {
    if p != [] {
      assert a[0] == a[..|p|][0] && b[0] == b[..|p|][0];
      assert a[1..][..|p| - 1] == a[..|p|][1..] && b[1..][..|p| - 1] == b[..|p|][1..];
      CommonLenIsLongest(a[1..], b[1..], p[1..]);
    }
  }

  /** How much of the first name (cut to the line limit) all the names share. */
  function SharedLen(names: seq<string>): (n: nat)
    requires names != []
    ensures n <= |Cut(names[0], MAX_LINE_LEN)|
  {
    if |names| == 1 then |Cut(names[0], MAX_LINE_LEN)|
    else
      Min(SharedLen(names[..|names| - 1]), CommonLen(Cut(names[0], MAX_LINE_LEN), names[|names| - 1]))
  }

  function Shared(names: seq<string>): string
    requires names != []
  {
    names[0][..SharedLen(names)]
  }

  predicate PrefixOfAll(p: string, names: seq<string>) {
    forall k :: 0 <= k < |names| ==> StartsWith(names[k], p)
  }

  /** What is inserted is the longest common prefix: every common prefix (of a line's length) begins it. */
  lemma {:induction false} SharedIsLongest(names: seq<string>, p: string)
    requires names != []
    ensures PrefixOfAll(Shared(names), names)
    ensures PrefixOfAll(p, names) && |p| <= MAX_LINE_LEN ==> StartsWith(Shared(names), p)
  {
    var first := Cut(names[0], MAX_LINE_LEN);
    if |names| > 1 {
      var init, last := names[..|names| - 1], names[|names| - 1];
      SharedIsLongest(init, p);
      var n, m := SharedLen(init), CommonLen(first, last);
      assert forall k :: 0 <= k < |init| ==> init[k] == names[k];
      forall k | 0 <= k < |names|
        ensures StartsWith(names[k], Shared(names))
      {
        if k < |init| {
          assert names[k][..n] == names[0][..n];
          assert names[k][..Min(n, m)] == names[k][..n][..Min(n, m)];
        }
      }
      if PrefixOfAll(p, names) && |p| <= MAX_LINE_LEN {
        assert StartsWith(names[0], p) && StartsWith(last, p);
        CommonLenIsLongest(first, last, p);
      }
    }
  }

  // ----- the text of the line after a Tab -----

  /** The line around the cursor after a Tab, and the status of the Tab. */
  datatype Tabbed = Tabbed(left: string, right: string, changed: bool, status: Status)

  /** replace_token: the token from start in left to end in right gives way to text. */
  function ReplaceToken(cfg: Config, left: string, right: string, text: string, unique: bool): Tabbed {
    var start, tail := WordStart(left), right[WordLen(right)..];
    var put := text + if unique && tail == [] then [' '] else [];
    if start + |put| + |tail| > cfg.lineMax then Tabbed(left, right, false, LineTooLong)
    else Tabbed(left[..start] + put, tail, true, OK)
  }

  /** The tokens before the one that is completed. */
  function Before(tokens: seq<string>, prefix: string): seq<string> {
    if prefix != [] && tokens != [] then tokens[..|tokens| - 1] else tokens
  }

  function ScopeOf(cfg: Config, roots: Roots, tokens: seq<string>, prefix: string): Option<Scope> {
    Descend(cfg.mem, RootScope(cfg, roots), Before(tokens, prefix))
  }

  function TabIn(cfg: Config, scope: Scope, left: string, right: string): Tabbed {
    var prefix := left[WordStart(left)..];
    var names := Matches(cfg, scope, prefix);
    if names == [] then Tabbed(left, right, false, OK)
    else if |names| == 1 then ReplaceToken(cfg, left, right, Cut(names[0], MAX_LINE_LEN), true)
    else if SharedLen(names) > |prefix| then ReplaceToken(cfg, left, right, Shared(names), false)
    else Tabbed(left, right, false, Ambiguous)
  }

  /** sh_complete_line_internal. */
  function Tab(cfg: Config, roots: Roots, left: string, right: string): Tabbed {
    match ParseLine(left, cfg.argcMax)
    case Rejected(status) => Tabbed(left, right, false, status)
    case Parsed(tokens) =>
      match ScopeOf(cfg, roots, tokens, left[WordStart(left)..])
      case None => Tabbed(left, right, false, OK)
      case Some(scope) => TabIn(cfg, scope, left, right)
  }

  // ----- the loops compute these functions -----

  /** sh_completion_level_t. */
  datatype CompletionLevel = CompletionLevel(
    primary: Level, secondary: seq<Cmd>, provider: Option<nat>, argIndex: nat, registeredRoot: bool)

  function LevelRows(cfg: Config, roots: Roots, level: CompletionLevel): seq<Cmd> {
    (if level.registeredRoot && roots.Sets? then SetRows(cfg.mem, roots.sets) else Rows(cfg.mem, level.primary))
    + level.secondary
  }

  function LevelScope(cfg: Config, roots: Roots, level: CompletionLevel): Scope {
    match level.provider
    case Some(provider) => Payload(provider, level.argIndex)
    case None => Beside(LevelRows(cfg, roots, level))
  }

  lemma {:induction false} SetRowsLen(mem: Memory, sets: seq<Level>, i: nat)
    requires i < |sets|
    ensures SetRows(mem, sets[i..]) == Rows(mem, sets[i]) + SetRows(mem, sets[i + 1..])
  {
    assert sets[i..][1..] == sets[i + 1..];
  }

  /** level_limit. */
  method LevelLimit(cfg: Config, roots: Roots, level: CompletionLevel) returns (limit: nat)
    ensures limit == if level.provider.Some? then PROVIDER_MAX_ITEMS else |LevelRows(cfg, roots, level)|
  {
    if level.provider.Some? {
      return PROVIDER_MAX_ITEMS;
    }
    if level.registeredRoot && roots.Sets? {
      var sets, count := roots.sets, 0;
      assert sets[0..] == sets;
      for i := 0 to |sets|
        invariant count + |SetRows(cfg.mem, sets[i..])| == |SetRows(cfg.mem, sets)|
      {
        SetRowsLen(cfg.mem, sets, i);
        count := count + |Rows(cfg.mem, sets[i])|;
      }
      return count + |level.secondary|;
    }
    return |Rows(cfg.mem, level.primary)| + |level.secondary|;
  }

  /** level_candidate. */
  method LevelCandidate(cfg: Config, roots: Roots, level: CompletionLevel, at: nat)
    returns (more: bool, name: Option<string>)
    ensures match level.provider
      case Some(provider) => name == cfg.provide(provider, level.argIndex, at) && more == name.Some?
      case None =>
        var rows := LevelRows(cfg, roots, level);
        more == (at < |rows|) && name == if at < |rows| && !rows[at].hidden then rows[at].name else None
  {
    if level.provider.Some? {
      name := cfg.provide(level.provider.value, level.argIndex, at);
      return name.Some?, name;
    }
    var index: nat := at;
    if level.registeredRoot && roots.Sets? {
      var sets := roots.sets;
      assert sets[0..] == sets;
      for i := 0 to |sets|
        invariant index <= at && at - index + |SetRows(cfg.mem, sets[i..])| == |SetRows(cfg.mem, sets)|
        invariant index < |SetRows(cfg.mem, sets[i..])| ==>
          SetRows(cfg.mem, sets)[at] == SetRows(cfg.mem, sets[i..])[index]
      {
        SetRowsLen(cfg.mem, sets, i);
        var rows := Rows(cfg.mem, sets[i]);
        if index < |rows| {
          return true, if rows[index].hidden then None else rows[index].name;
        }
        index := index - |rows|;
      }
      if index >= |level.secondary| {
        return false, None;
      }
      return true, if level.secondary[index].hidden then None else level.secondary[index].name;
    }
    var rows := Rows(cfg.mem, level.primary);
    if index < |rows| {
      return true, if rows[index].hidden then None else rows[index].name;
    }
    index := index - |rows|;
    if index >= |level.secondary| {
      return false, None;
    }
    return true, if level.secondary[index].hidden then None else level.secondary[index].name;
  }

  /** find_exact_level. */
  method FindExactLevel(cfg: Config, roots: Roots, level: CompletionLevel, name: string) returns (cmd: Option<Cmd>)
    ensures cmd == Find(LevelRows(cfg, roots, level), name)
  {
    FindSplit(
      if level.registeredRoot && roots.Sets? then SetRows(cfg.mem, roots.sets) else Rows(cfg.mem, level.primary),
              level.secondary, name);
    if level.registeredRoot && roots.Sets? {
      cmd := FindRoot(cfg.mem, roots, name);
    } else {
      cmd := FindChild(cfg.mem, level.primary, name);
    }
    if cmd.Some? {
      return;
    }
    cmd := None;
    assert level.secondary[0..] == level.secondary;
    for i := 0 to |level.secondary|
      invariant Find(level.secondary, name) == Find(level.secondary[i..], name)
    {
      assert level.secondary[i..][1..] == level.secondary[i + 1..];
      if level.secondary[i].name == Some(name) {
        return Some(level.secondary[i]);
      }
    }
    return None;
  }

  method CommonPrefixLen(a: string, b: string) returns (i: nat)
    ensures i == CommonLen(a, b)
  {
    i := 0;
    assert a[0..] == a && b[0..] == b;
    while i < |a| && i < |b| && a[i] == b[i]
      invariant i <= |a| && i <= |b| && CommonLen(a, b) == i + CommonLen(a[i..], b[i..])
    {
      assert a[i..][1..] == a[i + 1..] && b[i..][1..] == b[i + 1..];
      i := i + 1;
    }
  }

  /** The matches among the first n candidates. */
  function MatchesBelow(cfg: Config, scope: Scope, prefix: string, n: nat): seq<string> {
    match scope
    case Beside(rows) => VisibleNames(if n <= |rows| then rows[..n] else rows, prefix)
    case Payload(provider, argIndex) => Answers(cfg, provider, argIndex, prefix, n)
  }

  lemma OneMore(cfg: Config, scope: Scope, prefix: string, n: nat, name: Option<string>)
    requires match scope
      case Beside(rows) => n < |rows| && name == if rows[n].hidden then None else rows[n].name
      case Payload(provider, argIndex) =>
        && name == cfg.provide(provider, argIndex, n) && name.Some?
        && !Refused(cfg, provider, argIndex, n)
    ensures scope.Payload? ==> !Refused(cfg, scope.provider, scope.argIndex, n + 1)
    ensures MatchesBelow(cfg, scope, prefix, n + 1) ==
      MatchesBelow(cfg, scope, prefix, n) + if name.Some? && StartsWith(name.value, prefix) then [name.value] else []
  {
    match scope
    case Beside(rows) => assert rows[..n + 1][..n] == rows[..n];
    case Payload(_, _) =>
  }

  lemma NoCandidates(cfg: Config, scope: Scope, prefix: string)
    ensures MatchesBelow(cfg, scope, prefix, 0) == []
    ensures scope.Payload? ==> !Refused(cfg, scope.provider, scope.argIndex, 0)
  {
  }

  lemma OneMoreShared(names: seq<string>, name: string)
    ensures SharedLen(names + [name]) ==
      if names == [] then |Cut(name, MAX_LINE_LEN)|
      else Min(SharedLen(names), CommonLen(Cut(names[0], MAX_LINE_LEN), name))
  {
    assert (names + [name])[..|names|] == names;
  }

  lemma {:induction false} NoMoreAnswers(cfg: Config, provider: nat, argIndex: nat, prefix: string, n: nat, limit: nat)
    requires n <= limit && cfg.provide(provider, argIndex, n) == None
    ensures Answers(cfg, provider, argIndex, prefix, limit) == Answers(cfg, provider, argIndex, prefix, n)
  {
    if n < limit {
      NoMoreAnswers(cfg, provider, argIndex, prefix, n, limit - 1);
    }
  }

  /** The candidate loop of sh_complete_line_internal. */
  method ScanCandidates(cfg: Config, roots: Roots, level: CompletionLevel, prefix: string)
    returns (first: string, common: nat, count: nat)
    ensures var names := Matches(cfg, LevelScope(cfg, roots, level), prefix);
      count == |names| && (count > 0 ==> first == Cut(names[0], MAX_LINE_LEN) && common == SharedLen(names))
  {
    hide Answers, VisibleNames, SharedLen, LevelRows, CommonLen, Refused, StartsWith;
    ghost var scope := LevelScope(cfg, roots, level);
    ghost var names: seq<string> := [];
    first, common, count := [], 0, 0;
    var limit := LevelLimit(cfg, roots, level);
    var i := 0;
    NoCandidates(cfg, scope, prefix);
    while i < limit
      invariant i <= limit && names == MatchesBelow(cfg, scope, prefix, i)
      invariant count == |names|
      invariant count > 0 ==> first == Cut(names[0], MAX_LINE_LEN) && common == SharedLen(names)
      invariant scope.Payload? ==> !Refused(cfg, scope.provider, scope.argIndex, i)
    {
      var more, name := LevelCandidate(cfg, roots, level, i);
      if !more {
        NoMoreAnswers(cfg, scope.provider, scope.argIndex, prefix, i, PROVIDER_MAX_ITEMS);
        break;
      }
      OneMore(cfg, scope, prefix, i, name);
      if name.Some? && StartsWith(name.value, prefix) {
        OneMoreShared(names, name.value);
        names := names + [name.value];
        if count == 0 {
          first := Cut(name.value, MAX_LINE_LEN);
          common := |first|;
        } else {
          var length := CommonPrefixLen(first, name.value);
          if length < common {
            common := length;
          }
        }
        count := count + 1;
      }
      i := i + 1;
    }
    assert scope.Beside? ==> scope.rows[..|scope.rows|] == scope.rows;
  }

  /** The root level of sh_complete_line_internal. */
  function RootLevel(cfg: Config, roots: Roots): (level: CompletionLevel)
    ensures LevelRows(cfg, roots, level) == RootScope(cfg, roots) && level.provider == None
  {
    var secondary := if cfg.builtins then BUILTIN_ROWS else [];
    match roots
    case Flat(flat) => CompletionLevel(flat, secondary, None, 0, false)
    case Sets(_) => CompletionLevel(Level(Null, 0), secondary, None, 0, true)
  }

  /** The descent loop of sh_complete_line_internal. */
  method DescendLevels(cfg: Config, roots: Roots, before: seq<string>) returns (found: bool, level: CompletionLevel)
    ensures var scope := Descend(cfg.mem, RootScope(cfg, roots), before);
      found == scope.Some? && (found ==> LevelScope(cfg, roots, level) == scope.value)
  {
    hide Rows, Find, RootScope;
    level := RootLevel(cfg, roots);
    assert before[0..] == before;
    for i := 0 to |before|
      invariant level.provider == None
      invariant Descend(cfg.mem, RootScope(cfg, roots), before) ==
          Descend(cfg.mem, LevelRows(cfg, roots, level), before[i..])
    {
      assert before[i..][1..] == before[i + 1..];
      var exact := FindExactLevel(cfg, roots, level, before[i]);
      if exact.None? {
        return false, level;
      }
      if !IsParent(exact.value) && exact.value.completion.Some? && !exact.value.sensitive {
        level := CompletionLevel(Level(Null, 0), [], exact.value.completion, |before| - i, false);
        return true, level;
      }
      if !IsParent(exact.value) {
        return false, level;
      }
      level := CompletionLevel(Children(exact.value), [], None, 0, false);
      assert Rows(cfg.mem, Children(exact.value)) + [] == Rows(cfg.mem, Children(exact.value));
    }
    return true, level;
  }
}
