/** What a line of arguments runs, told by the paths of the registered tree and the words of the built-ins. */
module DispatchLaws {
  import opened Text
  import opened Commands
  import opened Registry

  /** The first arguments are the names along a path to a node, and the next one names no child of it. */
  ghost predicate EndsAt(mem: Memory, roots: Roots, args: seq<string>, path: seq<nat>, n: nat, node: Cmd) {
    && 0 < n <= |args| && Names(mem, RootRows(mem, roots), path, args[..n], node)
    && (n < |args| ==> forall c :: c in Rows(mem, Children(node)) ==> c.name != Some(args[n]))
  }

  /** What is done at a node that is named by the first n arguments. */
  predicate NodeAnswers(node: Cmd, args: seq<string>, n: nat, action: Action)
    requires 0 < n <= |args|
  {
    if n < |args| && args[n] in {"help", "--help", "-h"} then action == Answer(OK)
    else if node.subs != Null then action == Answer(if n < |args| then UnknownCommand else OK)
    else if !node.handler then action == Answer(IncompleteCommand)
    else if |args| - n + 1 < node.minArgs || (node.maxArgs.Some? && |args| - n + 1 > node.maxArgs.value) then
      action == Answer(InvalidArg)
    else action == Invoke(Call(node, args[n - 1..]))
  }

  /** The words of the built-ins, and what each line of them does. */
  ghost predicate BuiltinAnswers(mem: Memory, roots: Roots, args: seq<string>, action: Action)
    requires args != []
  {
    match args[0]
    case "help" => action == Answer(if |args| == 1 || IsPath(mem, roots, args[1..]) then OK else UnknownCommand)
    case "history" =>
      if args == ["history", "clear"] then action == ClearHistory
      else action == Answer(if args == ["history"] || args == ["history", "status"] then OK else InvalidArg)
    case "echo" =>
      if args == ["echo", "on"] || args == ["echo", "off"] then action == SetEcho(args == ["echo", "on"])
      else action == Answer(if args == ["echo"] || args == ["echo", "status"] then OK else InvalidArg)
    case _ => action == Answer(OK)
  }

  ghost predicate IsPath(mem: Memory, roots: Roots, names: seq<string>) {
    exists path, node :: Names(mem, RootRows(mem, roots), path, names, node)
  }

  /** What these arguments do. */
  ghost predicate Does(mem: Memory, roots: Roots, builtins: bool, args: seq<string>, action: Action) {
    if args == [] then action == Answer(OK)
    else if builtins && args[0] in {"help", "history", "echo", "clear"} then BuiltinAnswers(mem, roots, args, action)
    else if forall c :: c in RootRows(mem, roots) ==> c.name != Some(args[0]) then action == Answer(UnknownCommand)
    else exists path, n, node :: EndsAt(mem, roots, args, path, n, node) && NodeAnswers(node, args, n, action)
  }

  // ----- what resolution finds, and when it finds nothing -----

  /** Nothing is found, with nothing consumed, exactly when the first argument names no root. */
  lemma ResolveNothing(mem: Memory, roots: Roots, args: seq<string>)
    ensures var r := Resolve(mem, roots, args);
      && (r.cmd == None <==> args == [] || forall c :: c in RootRows(mem, roots) ==> c.name != Some(args[0]))
      && (r.cmd == None ==> r.consumed == 0)
  {
    hide RootRows;
    if args != [] {
      FindNothing(RootRows(mem, roots), args[0]);
    }
  }

  /** Resolution ends at a node if and only if the arguments do. */
  lemma EndsAtIff(mem: Memory, roots: Roots, builtins: bool, args: seq<string>, node: Cmd, n: nat)
    requires Registered(mem, roots, builtins)
    ensures Resolve(mem, roots, args) == Resolved(Some(node), n) <==>
      exists path :: EndsAt(mem, roots, args, path, n, node)
  {
    hide Registered, ResolveIn, Orderly, RootRows, Names;
    ResolveIff(mem, roots, builtins, args, node, n);
    if n < |args| {
      FindNothing(Rows(mem, Children(node)), args[n]);
    }
    if Resolve(mem, roots, args) == Resolved(Some(node), n) {
      var path :| Names(mem, RootRows(mem, roots), path, args[..n], node);
      PathNotEmpty(mem, RootRows(mem, roots), path, args[..n], node);
      assert EndsAt(mem, roots, args, path, n, node);
    }
    forall path | EndsAt(mem, roots, args, path, n, node)
      ensures Resolve(mem, roots, args) == Resolved(Some(node), n)
    {
      RootsOrderly(mem, roots, builtins);
      PathResolved(mem, RootRows(mem, roots), 2, path, args, node, n);
    }
  }

  lemma PathNotEmpty(mem: Memory, rows: seq<Cmd>, path: seq<nat>, names: seq<string>, node: Cmd)
    requires Names(mem, rows, path, names, node)
    ensures names != []
  {
  }

  /** All the arguments are a path if and only if resolution consumes them all. */
  lemma WholePathIff(mem: Memory, roots: Roots, builtins: bool, args: seq<string>)
    requires Registered(mem, roots, builtins)
    ensures var r := Resolve(mem, roots, args);
      r.cmd.Some? && r.consumed == |args| <==> IsPath(mem, roots, args)
  {
    hide Registered, ResolveIn, Orderly, RootRows, Names;
    var r := Resolve(mem, roots, args);
    assert args[..|args|] == args;
    if r.cmd.Some? && r.consumed == |args| {
      ResolveIff(mem, roots, builtins, args, r.cmd.value, |args|);
    }
    forall path, node | Names(mem, RootRows(mem, roots), path, args, node)
      ensures r.cmd.Some? && r.consumed == |args|
    {
      RootsOrderly(mem, roots, builtins);
      PathNotEmpty(mem, RootRows(mem, roots), path, args, node);
      PathResolved(mem, RootRows(mem, roots), 2, path, args, node, |args|);
    }
  }

  // ----- dispatch -----

  lemma BuiltinsDo(mem: Memory, roots: Roots, builtins: bool, args: seq<string>)
    requires Registered(mem, roots, builtins) && args != []
    ensures Builtin(mem, roots, args).Some? <==> args[0] in {"help", "history", "echo", "clear"}
    ensures Builtin(mem, roots, args).Some? ==> BuiltinAnswers(mem, roots, args, Builtin(mem, roots, args).value)
  {
    hide Registered, Resolve, IsPath;
    if args[0] == "help" && |args| > 1 {
      WholePathIff(mem, roots, builtins, args[1..]);
    }
    assert |args| == 1 ==> args == [args[0]];
    assert |args| == 2 ==> args == [args[0], args[1]];
  }

  /** A dispatch does exactly what the tree and the words of the built-ins say. */
  lemma DispatchDoes(mem: Memory, roots: Roots, builtins: bool, args: seq<string>, action: Action)
    requires Registered(mem, roots, builtins)
    ensures Dispatch(mem, roots, builtins, args) == action <==> Does(mem, roots, builtins, args, action)
  {
    hide Registered, Resolve, RootRows, Names, Builtin, BuiltinAnswers, EndsAt;
    if args == [] {
    } else if builtins && args[0] in {"help", "history", "echo", "clear"} {
      BuiltinsDo(mem, roots, builtins, args);
      BuiltinDoesOne(mem, roots, args, Dispatch(mem, roots, builtins, args), action);
    } else {
      BuiltinsDo(mem, roots, builtins, args);
      ResolveNothing(mem, roots, args);
      var r := Resolve(mem, roots, args);
      if r.cmd.Some? {
        TreeDoes(mem, roots, builtins, args, action);
      }
    }
  }

  lemma BuiltinDoesOne(mem: Memory, roots: Roots, args: seq<string>, one: Action, other: Action)
    requires args != [] && args[0] in {"help", "history", "echo", "clear"} && BuiltinAnswers(mem, roots, args, one)
    ensures BuiltinAnswers(mem, roots, args, other) <==> one == other
  {
    hide IsPath;
  }

  lemma TreeDoes(mem: Memory, roots: Roots, builtins: bool, args: seq<string>, action: Action)
    requires Registered(mem, roots, builtins) && args != []
    requires !(builtins && Builtin(mem, roots, args).Some?) && Resolve(mem, roots, args).cmd.Some?
    ensures Dispatch(mem, roots, builtins, args) == action <==>
      exists path, n, node :: EndsAt(mem, roots, args, path, n, node) && NodeAnswers(node, args, n, action)
  {
    hide Registered, Resolve, RootRows, Names, Builtin, EndsAt;
    var r := Resolve(mem, roots, args);
    var node, n := r.cmd.value, r.consumed;
    EndsAtIff(mem, roots, builtins, args, node, n);
    var path :| EndsAt(mem, roots, args, path, n, node);
    EndsAtBounds(mem, roots, args, path, n, node);
    ParentIff(mem, roots, builtins, args, path, n, node);
    assert NodeAnswers(node, args, n, Dispatch(mem, roots, builtins, args));
    forall p, k, c | EndsAt(mem, roots, args, p, k, c)
      ensures c == node && k == n
    {
      EndsAtIff(mem, roots, builtins, args, c, k);
    }
  }

  lemma EndsAtBounds(mem: Memory, roots: Roots, args: seq<string>, path: seq<nat>, n: nat, node: Cmd)
    requires EndsAt(mem, roots, args, path, n, node)
    ensures 0 < n <= |args|
  {
  }

  /** On a registered tree a node has children when its table pointer is not NULL. */
  lemma ParentIff(mem: Memory, roots: Roots, builtins: bool, args: seq<string>, path: seq<nat>, n: nat, node: Cmd)
    requires Registered(mem, roots, builtins) && EndsAt(mem, roots, args, path, n, node)
    ensures IsParent(node) <==> node.subs != Null
  {
    hide Registered, RootRows, Names;
    RootLevelsOk(mem, roots, builtins);
    PathRowOk(mem, RootRows(mem, roots), 2, path, args[..n], node);
  }

  /** Rows of accepted tables, with accepted tables below. */
  ghost predicate Sound(mem: Memory, rows: seq<Cmd>, depth: nat) {
    forall c :: c in rows ==>
      && (c.subs == Null <==> c.subCount == 0)
      && (c.subCount != 0 ==> Accepts(mem, Children(c), depth, false))
  }

  lemma RootLevelsOk(mem: Memory, roots: Roots, builtins: bool)
    requires Registered(mem, roots, builtins)
    ensures Sound(mem, RootRows(mem, roots), 2)
  {
    match roots
    case Flat(level) =>
    case Sets(sets) =>
      forall c | c in SetRows(mem, sets)
        ensures (c.subs == Null <==> c.subCount == 0) && (c.subCount != 0 ==> Accepts(mem, Children(c), 2, false))
      {
        InSetRows(mem, sets, c);
        var s :| s in sets && c in Rows(mem, s);
        assert Accepts(mem, s, 1, builtins);
      }
  }

  lemma {:induction false} PathRowOk(mem: Memory, rows: seq<Cmd>, depth: nat, path: seq<nat>,
                                     names: seq<string>, node: Cmd)
    requires Sound(mem, rows, depth) && Names(mem, rows, path, names, node)
    ensures node.subs == Null <==> node.subCount == 0
    decreases |path|
  {
    var c := rows[path[0]];
    assert c in rows;
    if |path| > 1 {
      hide Sound;
      SoundBelow(mem, rows, depth, c, path[1..], names[1..], node);
      PathRowOk(mem, Rows(mem, Children(c)), depth + 1, path[1..], names[1..], node);
    }
  }

  lemma SoundBelow(mem: Memory, rows: seq<Cmd>, depth: nat, c: Cmd, path: seq<nat>, names: seq<string>, node: Cmd)
    requires Sound(mem, rows, depth) && c in rows && Names(mem, Rows(mem, Children(c)), path, names, node)
    ensures Sound(mem, Rows(mem, Children(c)), depth + 1)
  {
    if c.subCount != 0 {
      assert Accepts(mem, Children(c), depth, false);
    }
  }
}
