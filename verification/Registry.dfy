/**
 * shell/src/sh_command.c, continued: the registered roots, the longest-path resolver and the dispatcher.
 */
module Registry {
  import opened Text
  import opened Commands

  /** shell->commands when there are no command sets, shell->command_sets otherwise. */
  datatype Roots = Flat(level: Level) | Sets(sets: seq<Level>)

  function SetRows(mem: Memory, sets: seq<Level>): seq<Cmd> {
    if sets == [] then [] else Rows(mem, sets[0]) + SetRows(mem, sets[1..])
  }

  /** All registered root commands, in the order in which they are searched. */
  function RootRows(mem: Memory, roots: Roots): seq<Cmd> {
    match roots
    case Flat(level) => Rows(mem, level)
    case Sets(sets) => SetRows(mem, sets)
  }

  // ----- registration -----

  predicate Apart(a: seq<Cmd>, b: seq<Cmd>) {
    forall i, j :: 0 <= i < |a| && 0 <= j < |b| ==> a[i].name != b[j].name
  }

  /** What may be registered: accepted tables, with no root name in two sets. */
  ghost predicate Registered(mem: Memory, roots: Roots, builtins: bool) {
    match roots
    case Flat(level) => Accepts(mem, level, 1, builtins)
    case Sets(sets) =>
      && (forall s :: s in sets ==> Accepts(mem, s, 1, builtins))
      && (forall i, j :: 0 <= i < j < |sets| ==> Apart(Rows(mem, sets[i]), Rows(mem, sets[j])))
  }

  method RowsApart(a: seq<Cmd>, b: seq<Cmd>) returns (apart: bool)
    ensures apart == Apart(a, b)
  {
    for i := 0 to |a|
      invariant forall k, l :: 0 <= k < i && 0 <= l < |b| ==> a[k].name != b[l].name
    {
      for j := 0 to |b|
        invariant forall l :: 0 <= l < j ==> a[i].name != b[l].name
      {
        if a[i].name == b[j].name {
          return false;
        }
      }
    }
    return true;
  }

  /** The checks of sh_register_command_sets. */
  method CheckCommandSets(mem: Memory, sets: seq<Level>, builtins: bool) returns (status: Status)
    ensures status == if Registered(mem, Sets(sets), builtins) then OK else InvalidConfig
  {
    hide Accepts, Rows, Apart;
    for i := 0 to |sets|
      invariant forall k :: 0 <= k < i ==> Accepts(mem, sets[k], 1, builtins)
    {
      status := ValidateLevel(mem, sets[i], 1, true, builtins);
      if status != OK {
        assert sets[i] in sets;
        return status;
      }
    }
    for i := 0 to |sets|
      invariant forall k, l :: 0 <= k < i && k < l < |sets| ==> Apart(Rows(mem, sets[k]), Rows(mem, sets[l]))
    {
      for j := i + 1 to |sets|
        invariant forall l :: i < l < j ==> Apart(Rows(mem, sets[i]), Rows(mem, sets[l]))
      {
        var apart := RowsApart(Rows(mem, sets[i]), Rows(mem, sets[j]));
        if !apart {
          return InvalidConfig;
        }
      }
    }
    return OK;
  }

  // ----- resolution -----

  /** The first command of that name. */
  function Find(rows: seq<Cmd>, name: string): Option<Cmd> {
    if rows == [] then None
    else if rows[0].name == Some(name) then Some(rows[0])
    else Find(rows[1..], name)
  }

  datatype Resolved = Resolved(cmd: Option<Cmd>, consumed: nat)

  /** The longest path of command names at the front of the arguments. */
  function ResolveIn(mem: Memory, rows: seq<Cmd>, args: seq<string>): (r: Resolved)
    ensures r.consumed <= |args| && (r.cmd.Some? <==> r.consumed > 0)
    decreases |args|
  {
    if args == [] then Resolved(None, 0)
    else match Find(rows, args[0])
      case None => Resolved(None, 0)
      case Some(cmd) =>
        var deeper := ResolveIn(mem, Rows(mem, Children(cmd)), args[1..]);
        Resolved(if deeper.cmd.Some? then deeper.cmd else Some(cmd), deeper.consumed + 1)
  }

  function Resolve(mem: Memory, roots: Roots, args: seq<string>): (r: Resolved)
    ensures r.consumed <= |args| && (r.cmd.Some? <==> r.consumed > 0)
  {
    ResolveIn(mem, RootRows(mem, roots), args)
  }

  lemma {:induction false} FindSplit(a: seq<Cmd>, b: seq<Cmd>, name: string)
    ensures Find(a + b, name) == if Find(a, name).Some? then Find(a, name) else Find(b, name)
  {
    if a == [] {
      assert a + b == b;
    } else {
      FindSplit(a[1..], b, name);
      assert (a + b)[1..] == a[1..] + b;
    }
  }

  /** find_child. */
  method FindChild(mem: Memory, level: Level, name: string) returns (found: Option<Cmd>)
    ensures found == Find(Rows(mem, level), name)
  {
    var rows := Rows(mem, level);
    assert rows[0..] == rows;
    for i := 0 to |rows|
      invariant Find(rows, name) == Find(rows[i..], name)
    {
      assert rows[i..][1..] == rows[i + 1..];
      if rows[i].name.Some? && rows[i].name.value == name {
        return Some(rows[i]);
      }
    }
    return None;
  }

  /** The search of the roots in sh_resolve_command_internal. */
  method FindRoot(mem: Memory, roots: Roots, name: string) returns (found: Option<Cmd>)
    ensures found == Find(RootRows(mem, roots), name)
  {
    match roots
    case Flat(level) => found := FindChild(mem, level, name);
    case Sets(sets) =>
      found := None;
      assert sets[0..] == sets;
      for i := 0 to |sets|
        invariant found == None
        invariant Find(SetRows(mem, sets), name) == Find(SetRows(mem, sets[i..]), name)
      {
        assert sets[i..][1..] == sets[i + 1..];
        FindSplit(Rows(mem, sets[i]), SetRows(mem, sets[i + 1..]), name);
        found := FindChild(mem, sets[i], name);
        if found.Some? {
          return;
        }
      }
  }

  /** sh_resolve_command_internal. */
  method ResolveCommand(mem: Memory, roots: Roots, args: seq<string>) returns (cmd: Option<Cmd>, consumed: nat)
    ensures Resolve(mem, roots, args) == Resolved(cmd, consumed)
  {
    cmd := None;
    var level := Level(Null, 0);
    ghost var rows := RootRows(mem, roots);
    assert args[0..] == args;
    consumed := 0;
    while consumed < |args|
      invariant consumed <= |args|
      invariant rows == if consumed == 0 then RootRows(mem, roots) else Rows(mem, level)
      invariant cmd.Some? <==> consumed > 0
      invariant var rest := ResolveIn(mem, rows, args[consumed..]);
        Resolve(mem, roots, args) == Resolved(if rest.cmd.Some? then rest.cmd else cmd, rest.consumed + consumed)
    {
      assert args[consumed..][1..] == args[consumed + 1..];
      var next;
      if consumed == 0 {
        next := FindRoot(mem, roots, args[0]);
      } else {
        next := FindChild(mem, level, args[consumed]);
      }
      if next.None? {
        break;
      }
      cmd := next;
      level := Children(next.value);
      rows := Rows(mem, level);
      consumed := consumed + 1;
    }
  }

  // ----- what resolution finds on a registered tree -----

  /** The node at the end of a path of row numbers, when names are the names along that path. */
  ghost predicate Names(mem: Memory, rows: seq<Cmd>, path: seq<nat>, names: seq<string>, node: Cmd)
    decreases |path|
  {
    && |path| == |names| > 0
    && path[0] < |rows|
    && rows[path[0]].name == Some(names[0])
    && if |path| == 1 then node == rows[path[0]]
       else Names(mem, Rows(mem, Children(rows[path[0]])), path[1..], names[1..], node)
  }

  /** Siblings are distinct here and below. */
  ghost predicate Orderly(mem: Memory, rows: seq<Cmd>, depth: nat) {
    Distinct(rows) && forall c :: c in rows && c.subCount != 0 ==> Accepts(mem, Children(c), depth, false)
  }

  lemma OrderlyChild(mem: Memory, rows: seq<Cmd>, depth: nat, c: Cmd)
    requires Orderly(mem, rows, depth) && c in rows
    ensures Orderly(mem, Rows(mem, Children(c)), depth + 1)
  {
  }

  lemma {:induction false} FindIs(rows: seq<Cmd>, name: string, i: nat)
    requires Distinct(rows) && i < |rows| && rows[i].name == Some(name)
    ensures Find(rows, name) == Some(rows[i])
  {
    if i > 0 {
      assert rows[0].name != rows[i].name;
      FindIs(rows[1..], name, i - 1);
    }
  }

  lemma {:induction false} FindGives(rows: seq<Cmd>, name: string) returns (i: nat)
    requires Find(rows, name).Some?
    ensures i < |rows| && rows[i].name == Some(name) && Find(rows, name) == Some(rows[i])
  {
    if rows[0].name == Some(name) {
      i := 0;
    } else {
      i := FindGives(rows[1..], name);
      i := i + 1;
    }
  }

  lemma {:induction false} FindNothing(rows: seq<Cmd>, name: string)
    ensures Find(rows, name) == None <==> forall c :: c in rows ==> c.name != Some(name)
  {
    if rows != [] {
      FindNothing(rows[1..], name);
      assert rows == [rows[0]] + rows[1..];
    }
  }

  /** The registered roots are orderly, also across command sets. */
  lemma RootsOrderly(mem: Memory, roots: Roots, builtins: bool)
    requires Registered(mem, roots, builtins)
    ensures Orderly(mem, RootRows(mem, roots), 2)
  {
    match roots
    case Flat(level) => OrderlyLevel(mem, level, 1, builtins);
    case Sets(sets) => SetsOrderly(mem, sets, builtins);
  }

  lemma {:induction false} ApartFromSets(mem: Memory, rows: seq<Cmd>, sets: seq<Level>)
    requires forall s :: s in sets ==> Apart(rows, Rows(mem, s))
    ensures Apart(rows, SetRows(mem, sets))
  {
    if sets != [] {
      ApartFromSets(mem, rows, sets[1..]);
      assert sets[0] in sets;
    }
  }

  lemma OrderlyTogether(mem: Memory, a: seq<Cmd>, b: seq<Cmd>, depth: nat)
    requires Orderly(mem, a, depth) && Orderly(mem, b, depth) && Apart(a, b)
    ensures Orderly(mem, a + b, depth)
  {
    hide Accepts;
  }

  lemma OrderlyLevel(mem: Memory, level: Level, depth: nat, reserved: bool)
    requires Accepts(mem, level, depth, reserved)
    ensures Orderly(mem, Rows(mem, level), depth + 1)
  {
  }

  lemma {:induction false} SetsOrderly(mem: Memory, sets: seq<Level>, builtins: bool)
    requires Registered(mem, Sets(sets), builtins)
    ensures Orderly(mem, SetRows(mem, sets), 2)
  {
    hide Accepts, Orderly, Apart, Rows;
    if sets == [] {
      NoRowsOrderly(mem);
    } else {
      var first, rest := sets[0], sets[1..];
      OrderlyLevel(mem, first, 1, builtins);
      assert forall i :: 0 <= i < |rest| ==> rest[i] == sets[i + 1];
      SetsOrderly(mem, rest, builtins);
      ApartFromSets(mem, Rows(mem, first), rest);
      OrderlyTogether(mem, Rows(mem, first), SetRows(mem, rest), 2);
    }
  }

  lemma NoRowsOrderly(mem: Memory)
    ensures Orderly(mem, SetRows(mem, []), 2)
  {
  }

  predicate StopsAt(mem: Memory, node: Cmd, args: seq<string>, n: nat) {
    n <= |args| && (n == |args| || Find(Rows(mem, Children(node)), args[n]) == None)
  }

  lemma {:induction false} ResolvedPath(mem: Memory, rows: seq<Cmd>, args: seq<string>, node: Cmd, n: nat)
    returns (path: seq<nat>)
    requires ResolveIn(mem, rows, args) == Resolved(Some(node), n)
    ensures n <= |args| && Names(mem, rows, path, args[..n], node) && StopsAt(mem, node, args, n)
    decreases |args|
  {
    var i := FindGives(rows, args[0]);
    var below := Rows(mem, Children(rows[i]));
    if ResolveIn(mem, below, args[1..]).cmd.Some? {
      path := ResolvedPath(mem, below, args[1..], node, n - 1);
      assert args[..n][1..] == args[1..][..n - 1];
      path := [i] + path;
      assert path[1..] == path[1..];
    } else {
      path := [i];
      if |args| > 1 {
        assert args[1..][0] == args[1];
      }
    }
  }

  lemma {:induction false} PathResolved(mem: Memory, rows: seq<Cmd>, depth: nat, path: seq<nat>, args: seq<string>,
      node: Cmd, n: nat)
    requires Orderly(mem, rows, depth)
    requires n <= |args| && Names(mem, rows, path, args[..n], node) && StopsAt(mem, node, args, n)
    ensures ResolveIn(mem, rows, args) == Resolved(Some(node), n)
    decreases |path|
  {
    hide Rows, Accepts, Distinct;
    var c := rows[path[0]];
    var below := Rows(mem, Children(c));
    assert args[..n][0] == args[0];
    FindIs(rows, args[0], path[0]);
    if |path| == 1 {
      if |args| > 1 {
        assert args[1..][0] == args[1];
      }
    } else {
      OrderlyChild(mem, rows, depth, c);
      assert args[..n][1..] == args[1..][..n - 1];
      PathResolved(mem, below, depth + 1, path[1..], args[1..], node, n - 1);
    }
  }

  /**
   * Resolution is exact on a registered tree: it answers a node with n consumed arguments if and only if
   * those n arguments are the names on a path to that node and the next argument names no child of it.
   */
  lemma ResolveIff(mem: Memory, roots: Roots, builtins: bool, args: seq<string>, node: Cmd, n: nat)
    requires Registered(mem, roots, builtins)
    ensures Resolve(mem, roots, args) == Resolved(Some(node), n) <==>
      StopsAt(mem, node, args, n) && exists path :: Names(mem, RootRows(mem, roots), path, args[..n], node)
  {
    hide ResolveIn, RootRows, Names, Orderly, Registered;
    RootsOrderly(mem, roots, builtins);
    var rows := RootRows(mem, roots);
    if Resolve(mem, roots, args) == Resolved(Some(node), n) {
      var path := ResolvedPath(mem, rows, args, node, n);
      assert Names(mem, RootRows(mem, roots), path, args[..n], node);
    }
    if StopsAt(mem, node, args, n) {
      forall path | Names(mem, rows, path, args[..n], node)
        ensures Resolve(mem, roots, args) == Resolved(Some(node), n)
      {
        PathResolved(mem, rows, 2, path, args, node, n);
      }
    }
  }

  // ----- the order of command sets does not matter -----

  lemma {:induction false} TwiceInMultiset(s: seq<Level>, x: Level) returns (i: nat, j: nat)
    requires multiset(s)[x] >= 2
    ensures i < j < |s| && s[i] == s[j] == x
  {
    assert s == [s[0]] + s[1..];
    if s[0] == x {
      assert x in multiset(s[1..]);
      assert x in s[1..];
      var k :| 0 <= k < |s[1..]| && s[1..][k] == x;
      i, j := 0, k + 1;
    } else {
      i, j := TwiceInMultiset(s[1..], x);
      i, j := i + 1, j + 1;
    }
  }

  lemma TwiceCounts(s: seq<Level>, i: nat, j: nat)
    requires i < j < |s| && s[i] == s[j]
    ensures multiset(s)[s[i]] >= 2
  {
    assert s == s[..j] + [s[j]] + s[j + 1..];
    assert s[i] in s[..j];
  }

  /** A permutation of registered command sets is registered too. */
  lemma PermutedRegistered(mem: Memory, a: seq<Level>, b: seq<Level>, builtins: bool)
    requires Registered(mem, Sets(a), builtins) && multiset(a) == multiset(b)
    ensures Registered(mem, Sets(b), builtins)
  {
    forall s | s in b
      ensures Accepts(mem, s, 1, builtins)
    {
      assert s in multiset(b);
      assert s in a;
    }
    forall i, j | 0 <= i < j < |b|
      ensures Apart(Rows(mem, b[i]), Rows(mem, b[j]))
    {
      if b[i] == b[j] {
        TwiceCounts(b, i, j);
        var k, l := TwiceInMultiset(a, b[i]);
      } else {
        assert b[i] in multiset(a) && b[j] in multiset(a);
        var k :| 0 <= k < |a| && a[k] == b[i];
        var l :| 0 <= l < |a| && a[l] == b[j];
      }
    }
  }

  lemma {:induction false} InSetRows(mem: Memory, sets: seq<Level>, c: Cmd)
    ensures c in SetRows(mem, sets) <==> exists s :: s in sets && c in Rows(mem, s)
  {
    if sets != [] {
      InSetRows(mem, sets[1..], c);
      assert forall s :: s in sets <==> s == sets[0] || s in sets[1..];
    }
  }

  /** Permuting the command sets is accepted alike and changes no resolution. */
  lemma PermutingSetsResolvesAlike(mem: Memory, a: seq<Level>, b: seq<Level>, builtins: bool, args: seq<string>)
    requires Registered(mem, Sets(a), builtins) && multiset(a) == multiset(b)
    ensures Registered(mem, Sets(b), builtins)
    ensures Resolve(mem, Sets(a), args) == Resolve(mem, Sets(b), args)
  {
    PermutedRegistered(mem, a, b, builtins);
    if args != [] {
      RootsFoundAlike(mem, a, b, builtins, args[0]);
    }
  }

  lemma RootsFoundAlike(mem: Memory, a: seq<Level>, b: seq<Level>, builtins: bool, name: string)
    requires Registered(mem, Sets(a), builtins) && multiset(a) == multiset(b)
    ensures Find(SetRows(mem, a), name) == Find(SetRows(mem, b), name)
  {
    PermutedRegistered(mem, a, b, builtins);
    assert forall s :: s in a <==> s in multiset(a);
    assert forall s :: s in b <==> s in multiset(b);
    if Find(SetRows(mem, a), name).Some? {
      SameFind(mem, a, b, builtins, name);
    } else if Find(SetRows(mem, b), name).Some? {
      SameFind(mem, b, a, builtins, name);
    }
  }

  lemma SameFind(mem: Memory, a: seq<Level>, b: seq<Level>, builtins: bool, name: string)
    requires Registered(mem, Sets(b), builtins) && forall s :: s in a <==> s in b
    requires Find(SetRows(mem, a), name).Some?
    ensures Find(SetRows(mem, a), name) == Find(SetRows(mem, b), name)
  {
    var i := FindGives(SetRows(mem, a), name);
    var c := SetRows(mem, a)[i];
    InSetRows(mem, a, c);
    InSetRows(mem, b, c);
    RootsOrderly(mem, Sets(b), builtins);
    var j :| 0 <= j < |SetRows(mem, b)| && SetRows(mem, b)[j] == c;
    FindIs(SetRows(mem, b), name, j);
  }

  // ----- dispatch -----

  /** One call of a command handler. */
  datatype Call = Call(cmd: Cmd, args: seq<string>)

  /** What a dispatch does besides printing. */
  datatype Action =
    | Answer(status: Status)
    | Invoke(call: Call)
    | ClearHistory
    | SetEcho(on: bool)

  predicate IsHelpWord(arg: string) {
    arg == "help" || arg == "--help" || arg == "-h"
  }

  predicate ArityOk(cmd: Cmd, argc: nat) {
    cmd.minArgs <= argc && (cmd.maxArgs.Some? ==> argc <= cmd.maxArgs.value)
  }

  /** The commands the shell answers itself. */
  function Builtin(mem: Memory, roots: Roots, args: seq<string>): Option<Action>
    requires args != []
  {
    if args[0] == "help" then
      var topic := Resolve(mem, roots, args[1..]);
      Some(Answer(if |args| == 1 || (topic.cmd.Some? && topic.consumed == |args| - 1) then OK else UnknownCommand))
    else if args[0] == "history" then
      Some(if |args| == 2 && args[1] == "clear" then ClearHistory
           else Answer(if |args| == 1 || (|args| == 2 && args[1] == "status") then OK else InvalidArg))
    else if args[0] == "echo" then
      Some(if |args| == 1 || (|args| == 2 && args[1] == "status") then Answer(OK)
           else if |args| == 2 && args[1] == "on" then SetEcho(true)
           else if |args| == 2 && args[1] == "off" then SetEcho(false)
           else Answer(InvalidArg))
    else if args[0] == "clear" then Some(Answer(OK))
    else None
  }

  /** sh_command_dispatch_internal: which built-in or handler runs, and with which arguments. */
  function Dispatch(mem: Memory, roots: Roots, builtins: bool, args: seq<string>): Action {
    if args == [] then Answer(OK)
    else if builtins && Builtin(mem, roots, args).Some? then Builtin(mem, roots, args).value
    else
      var Resolved(cmd, n) := Resolve(mem, roots, args);
      if cmd == None then Answer(UnknownCommand)
      else if n < |args| && IsHelpWord(args[n]) then Answer(OK)
      else if n < |args| && IsParent(cmd.value) then Answer(UnknownCommand)
      else if IsParent(cmd.value) then Answer(OK)
      else if !cmd.value.handler then Answer(IncompleteCommand)
      else if !ArityOk(cmd.value, |args| - n + 1) then Answer(InvalidArg)
      else Invoke(Call(cmd.value, args[n - 1..]))
  }

  /** Nor does it change what runs. */
  lemma PermutingSetsDispatchesAlike(mem: Memory, a: seq<Level>, b: seq<Level>, builtins: bool, args: seq<string>)
    requires Registered(mem, Sets(a), builtins) && multiset(a) == multiset(b)
    ensures Dispatch(mem, Sets(a), builtins, args) == Dispatch(mem, Sets(b), builtins, args)
  {
    hide Registered, Resolve;
    PermutingSetsResolvesAlike(mem, a, b, builtins, args);
    if args != [] {
      PermutingSetsResolvesAlike(mem, a, b, builtins, args[1..]);
    }
  }

  /** The built-ins of sh_command_dispatch_internal. */
  method DispatchBuiltin(mem: Memory, roots: Roots, args: seq<string>) returns (action: Option<Action>)
    requires args != []
    ensures action == Builtin(mem, roots, args)
  {
    hide Resolve;
    if args[0] == "help" {
      if |args| == 1 {
        return Some(Answer(OK));
      }
      var topic, used := ResolveCommand(mem, roots, args[1..]);
      return Some(Answer(if topic.Some? && used == |args| - 1 then OK else UnknownCommand));
    }
    if args[0] == "history" {
      if |args| == 2 && args[1] == "clear" {
        return Some(ClearHistory);
      }
      return Some(Answer(if (|args| == 2 && args[1] == "status") || |args| == 1 then OK else InvalidArg));
    }
    if args[0] == "echo" {
      if |args| == 1 || (|args| == 2 && args[1] == "status") {
        return Some(Answer(OK));
      }
      if |args| == 2 && (args[1] == "on" || args[1] == "off") {
        return Some(SetEcho(args[1] == "on"));
      }
      return Some(Answer(InvalidArg));
    }
    return if args[0] == "clear" then Some(Answer(OK)) else None;
  }

  method DispatchCommand(mem: Memory, roots: Roots, builtins: bool, args: seq<string>) returns (action: Action)
    ensures action == Dispatch(mem, roots, builtins, args)
  {
    hide ResolveIn, RootRows, Builtin;
    if |args| == 0 {
      return Answer(OK);
    }
    if builtins {
      var own := DispatchBuiltin(mem, roots, args);
      if own.Some? {
        return own.value;
      }
    }
    var cmd, consumed := ResolveCommand(mem, roots, args);
    if cmd.None? {
      return Answer(UnknownCommand);
    }
    if consumed < |args| && IsHelpWord(args[consumed]) {
      return Answer(OK);
    }
    if IsParent(cmd.value) {
      return Answer(if consumed < |args| then UnknownCommand else OK);
    }
    if !cmd.value.handler {
      return Answer(IncompleteCommand);
    }
    if !ArityOk(cmd.value, |args| - consumed + 1) {
      return Answer(InvalidArg);
    }
    return Invoke(Call(cmd.value, args[consumed - 1..]));
  }

  /** The first n arguments lead to the called leaf and the rest is a payload it accepts. */
  ghost predicate LeadsTo(mem: Memory, roots: Roots, args: seq<string>, call: Call, path: seq<nat>, n: nat) {
    && 0 < n <= |args| && Names(mem, RootRows(mem, roots), path, args[..n], call.cmd)
    && call.args == args[n - 1..] && call.cmd.name == Some(call.args[0])
    && call.cmd.handler && !IsParent(call.cmd) && ArityOk(call.cmd, |call.args|)
    && (|call.args| > 1 ==> !IsHelpWord(call.args[1]))
  }

  /**
   * On a registered tree a handler runs if and only if the arguments are the names on a path to its leaf
   * followed by a payload that does not ask for help and keeps the arity; the handler's argv[0] is then
   * the leaf's own name.  Built-in names cannot hide it.
   */
  lemma HandlerRunsIff(mem: Memory, roots: Roots, builtins: bool, args: seq<string>, call: Call)
    requires Registered(mem, roots, builtins)
    ensures Dispatch(mem, roots, builtins, args) == Invoke(call) <==>
      exists path, n :: LeadsTo(mem, roots, args, call, path, n)
  {
    hide LeadsTo, Dispatch, Registered;
    if Dispatch(mem, roots, builtins, args) == Invoke(call) {
      var path, n := InvokedPath(mem, roots, builtins, args, call);
    }
    forall path, n | LeadsTo(mem, roots, args, call, path, n)
      ensures Dispatch(mem, roots, builtins, args) == Invoke(call)
    {
      PathInvoked(mem, roots, builtins, args, call, path, n);
    }
  }

  lemma InvokedPath(mem: Memory, roots: Roots, builtins: bool, args: seq<string>, call: Call)
    returns (path: seq<nat>, n: nat)
    requires Dispatch(mem, roots, builtins, args) == Invoke(call)
    ensures LeadsTo(mem, roots, args, call, path, n)
  {
    hide ResolveIn, Names, IsHelpWord, RootRows;
    n := Resolve(mem, roots, args).consumed;
    path := ResolvedPath(mem, RootRows(mem, roots), args, call.cmd, n);
    PathName(mem, RootRows(mem, roots), path, args[..n], call.cmd);
  }

  /** The last name on a path is the node's own. */
  lemma {:induction false} PathName(mem: Memory, rows: seq<Cmd>, path: seq<nat>, names: seq<string>, node: Cmd)
    requires Names(mem, rows, path, names, node)
    ensures node.name == Some(names[|names| - 1])
    decreases |path|
  {
    if |path| > 1 {
      PathName(mem, Rows(mem, Children(rows[path[0]])), path[1..], names[1..], node);
    }
  }

  lemma PathInvoked(mem: Memory, roots: Roots, builtins: bool, args: seq<string>, call: Call, path: seq<nat>, n: nat)
    requires Registered(mem, roots, builtins)
    requires LeadsTo(mem, roots, args, call, path, n)
    ensures Dispatch(mem, roots, builtins, args) == Invoke(call)
  {
    hide Registered, ResolveIn, Names, IsHelpWord, Orderly, RootRows;
    RootsOrderly(mem, roots, builtins);
    PathResolved(mem, RootRows(mem, roots), 2, path, args, call.cmd, n);
    if builtins {
      RootNotReserved(mem, roots, builtins, path, args[..n], call.cmd);
      NotReserved(args[0]);
    }
    assert n < |args| ==> call.args[1] == args[n];
  }

  lemma NotReserved(name: string)
    requires name !in RESERVED
    ensures name != "clear" && name != "echo" && name != "help" && name != "history"
  {
    assert RESERVED[0] == "clear" && RESERVED[1] == "echo" && RESERVED[2] == "help" && RESERVED[3] == "history";
  }

  /** A registered path never starts with the name of an enabled built-in. */
  lemma RootNotReserved(mem: Memory, roots: Roots, builtins: bool, path: seq<nat>, names: seq<string>, node: Cmd)
    requires Registered(mem, roots, builtins) && builtins
    requires Names(mem, RootRows(mem, roots), path, names, node)
    ensures names[0] !in RESERVED
  {
    var c := RootRows(mem, roots)[path[0]];
    match roots
    case Flat(level) =>
    case Sets(sets) =>
      InSetRows(mem, sets, c);
      var s :| s in sets && c in Rows(mem, s);
  }
}
