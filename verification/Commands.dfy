/**
 * shell/src/sh_command.c: command tables, their validation, the resolution of a command path and the
 * choice a dispatch makes.  Tables are memory that may refer to itself, so a graph may be cyclic until
 * it has been validated.
 */
module Commands {
  import opened Text

  const MAX_DEPTH: nat := 8

  /** A pointer to an array of command descriptors; two arrays belong to the built-in commands. */
  datatype Table = Null | At(id: nat) | HistorySubs | EchoSubs

  /** A sibling table: a pointer and the number of descriptors there. */
  datatype Level = Level(table: Table, count: nat)

  /** sh_cmd_t; maxArgs is None for SH_ARGS_ANY, completion names a provider. */
  datatype Cmd = Cmd(
    name: Option<string>, handler: bool, subs: Table, subCount: nat,
    sensitive: bool, hidden: bool, noHistory: bool,
    minArgs: nat, maxArgs: Option<nat>, completion: Option<nat>)

  /** The descriptors behind each pointer. */
  type Memory = nat -> seq<Cmd>

  function Plain(name: string): Cmd {
    Cmd(Some(name), false, Null, 0, false, false, false, 1, None, None)
  }

  const HISTORY_ROWS: seq<Cmd> := [Plain("clear"), Plain("status")]
  const ECHO_ROWS: seq<Cmd> := [Plain("off"), Plain("on"), Plain("status")]

  function Pointed(mem: Memory, table: Table): seq<Cmd> {
    match table
    case Null => []
    case At(id) => mem(id)
    case HistorySubs => HISTORY_ROWS
    case EchoSubs => ECHO_ROWS
  }

  function Rows(mem: Memory, level: Level): seq<Cmd> {
    var all := Pointed(mem, level.table);
    if level.count <= |all| then all[..level.count] else all
  }

  function Children(cmd: Cmd): Level {
    Level(cmd.subs, cmd.subCount)
  }

  /** Does the code see subcommands there? */
  predicate IsParent(cmd: Cmd) {
    cmd.subs != Null && cmd.subCount != 0
  }

  // ----- validation -----

  predicate ValidName(name: Option<string>) {
    && name.Some? && name.value != []
    && forall k :: 0 <= k < |name.value| ==> !IsSpace(name.value[k]) && name.value[k] > ' ' && name.value[k] != '\U{7f}'
  }

  const RESERVED: seq<string> := ["clear", "echo", "help", "history"]

  predicate RowOk(cmd: Cmd, reserved: bool) {
    && ValidName(cmd.name)
    && (reserved ==> cmd.name.value !in RESERVED)
    && (cmd.subs == Null <==> cmd.subCount == 0)
    && (cmd.handler ==> cmd.minArgs != 0 && (cmd.maxArgs.Some? ==> cmd.minArgs <= cmd.maxArgs.value))
  }

  predicate Distinct(rows: seq<Cmd>) {
    forall i, j :: 0 <= i < j < |rows| ==> rows[i].name != rows[j].name
  }

  /** One level is well formed; reserved says whether the names of the built-ins are refused. */
  predicate LevelOk(mem: Memory, level: Level, reserved: bool) {
    && (level.count != 0 ==> level.table != Null)
    && (forall i :: 0 <= i < |Rows(mem, level)| ==> RowOk(Rows(mem, level)[i], reserved))
    && Distinct(Rows(mem, level))
  }

  /** What the recursive check accepts, in the order of the recursion. */
  ghost predicate Accepts(mem: Memory, level: Level, depth: nat, reserved: bool)
    decreases MAX_DEPTH + 1 - depth
  {
    && depth <= MAX_DEPTH
    && LevelOk(mem, level, reserved)
    && forall c :: c in Rows(mem, level) && c.subCount != 0 ==> Accepts(mem, Children(c), depth + 1, false)
  }

  method IsValidCommandName(name: Option<string>) returns (ok: bool)
    ensures ok == ValidName(name)
  {
    if name.None? || name.value == [] {
      return false;
    }
    for k := 0 to |name.value|
      invariant forall j :: 0 <= j < k ==>
        !IsSpace(name.value[j]) && name.value[j] > ' ' && name.value[j] != '\U{7f}'
    {
      var c := name.value[k];
      if IsSpace(c) || c < '!' || c == '\U{7f}' {
        return false;
      }
    }
    return true;
  }

  method IsReservedRootName(name: string) returns (reserved: bool)
    ensures reserved <==> name in RESERVED
  {
    for i := 0 to |RESERVED|
      invariant name !in RESERVED[..i]
    {
      if name == RESERVED[i] {
        return true;
      }
    }
    assert RESERVED[..|RESERVED|] == RESERVED;
    return false;
  }

  /** validate_command_level, for tables that may be cyclic: the depth bound ends the recursion. */
  method ValidateLevel(mem: Memory, level: Level, depth: nat, root: bool, builtins: bool) returns (status: Status)
    ensures status == if Accepts(mem, level, depth, root && builtins) then OK else InvalidConfig
    decreases MAX_DEPTH + 1 - depth
  {
    if level.count != 0 && level.table == Null {
      return InvalidConfig;
    }
    if depth > MAX_DEPTH {
      return InvalidConfig;
    }
    var rows := Rows(mem, level);
    for i := 0 to |rows|
      invariant forall k :: 0 <= k < i ==> RowOk(rows[k], root && builtins)
      invariant forall k, l :: 0 <= k < i && k < l < |rows| ==> rows[k].name != rows[l].name
      invariant forall k :: 0 <= k < i && rows[k].subCount != 0 ==> Accepts(mem, Children(rows[k]), depth + 1, false)
    {
      var cmd := rows[i];
      var valid := IsValidCommandName(cmd.name);
      if !valid {
        return InvalidConfig;
      }
      if root && builtins {
        var reserved := IsReservedRootName(cmd.name.value);
        if reserved {
          return InvalidConfig;
        }
      }
      if (cmd.subs == Null && cmd.subCount != 0) || (cmd.subs != Null && cmd.subCount == 0) ||
         (cmd.handler && (cmd.minArgs == 0 || (cmd.maxArgs.Some? && cmd.minArgs > cmd.maxArgs.value))) {
        return InvalidConfig;
      }
      for j := i + 1 to |rows|
        invariant forall l :: i < l < j ==> cmd.name != rows[l].name
      {
        if rows[j].name.Some? && cmd.name.value == rows[j].name.value {
          return InvalidConfig;
        }
      }
      if cmd.subCount != 0 {
        status := ValidateLevel(mem, Children(cmd), depth + 1, false, builtins);
        if status != OK {
          assert cmd in rows;
          return status;
        }
      }
    }
    return OK;
  }

  // ----- what acceptance means, over every walk -----

  /** The level reached from a level by taking the child table of the given row each time. */
  function Walk(mem: Memory, level: Level, path: seq<nat>): Option<Level>
    decreases |path|
  {
    if path == [] then Some(level)
    else
      var rows := Rows(mem, level);
      if path[0] < |rows| && rows[path[0]].subCount != 0 then Walk(mem, Children(rows[path[0]]), path[1..]) else None
  }

  /** Every walk ends within the depth bound and at a well-formed level. */
  ghost predicate AllWalksOk(mem: Memory, level: Level, depth: nat, reserved: bool) {
    forall path :: Walk(mem, level, path).Some? ==>
      depth + |path| <= MAX_DEPTH && LevelOk(mem, Walk(mem, level, path).value, reserved && path == [])
  }

  lemma WalkStep(mem: Memory, level: Level, i: nat, path: seq<nat>)
    requires i < |Rows(mem, level)| && Rows(mem, level)[i].subCount != 0
    ensures Walk(mem, level, [i] + path) == Walk(mem, Children(Rows(mem, level)[i]), path)
  {
    assert ([i] + path)[1..] == path;
  }

  lemma {:induction false} AcceptedWalk(mem: Memory, level: Level, depth: nat, reserved: bool, path: seq<nat>)
    requires Accepts(mem, level, depth, reserved) && Walk(mem, level, path).Some?
    ensures depth + |path| <= MAX_DEPTH
    ensures Accepts(mem, Walk(mem, level, path).value, depth + |path|, reserved && path == [])
    decreases |path|
  {
    hide LevelOk, Rows;
    if path != [] {
      AcceptedWalk(mem, Children(Rows(mem, level)[path[0]]), depth + 1, false, path[1..]);
    }
  }

  lemma ChildWalksOk(mem: Memory, level: Level, depth: nat, reserved: bool, i: nat)
    requires AllWalksOk(mem, level, depth, reserved)
    requires i < |Rows(mem, level)| && Rows(mem, level)[i].subCount != 0
    ensures AllWalksOk(mem, Children(Rows(mem, level)[i]), depth + 1, false)
  {
    hide LevelOk, Rows;
    var child := Children(Rows(mem, level)[i]);
    forall path | Walk(mem, child, path).Some?
      ensures depth + 1 + |path| <= MAX_DEPTH && LevelOk(mem, Walk(mem, child, path).value, false)
    {
      WalkStep(mem, level, i, path);
      assert Walk(mem, level, [i] + path).Some?;
    }
  }

  lemma {:induction false} WalksSuffice(mem: Memory, level: Level, depth: nat, reserved: bool)
    requires AllWalksOk(mem, level, depth, reserved)
    ensures Accepts(mem, level, depth, reserved)
    decreases MAX_DEPTH + 1 - depth
  {
    hide LevelOk, Rows, AllWalksOk;
    EmptyWalkOk(mem, level, depth, reserved);
    var rows := Rows(mem, level);
    forall i | 0 <= i < |rows| && rows[i].subCount != 0
      ensures Accepts(mem, Children(rows[i]), depth + 1, false)
    {
      ChildWalksOk(mem, level, depth, reserved, i);
      WalksSuffice(mem, Children(rows[i]), depth + 1, false);
    }
  }

  lemma EmptyWalkOk(mem: Memory, level: Level, depth: nat, reserved: bool)
    requires AllWalksOk(mem, level, depth, reserved)
    ensures depth <= MAX_DEPTH && LevelOk(mem, level, reserved)
  {
    assert Walk(mem, level, []) == Some(level);
  }

  /** Validation accepts a table if and only if every walk from it is short and meets well-formed levels. */
  lemma AcceptsIffWalks(mem: Memory, level: Level, depth: nat, reserved: bool)
    ensures Accepts(mem, level, depth, reserved) <==> AllWalksOk(mem, level, depth, reserved)
  {
    if Accepts(mem, level, depth, reserved) {
      forall path | Walk(mem, level, path).Some?
        ensures depth + |path| <= MAX_DEPTH && LevelOk(mem, Walk(mem, level, path).value, reserved && path == [])
      {
        AcceptedWalk(mem, level, depth, reserved, path);
      }
    } else if AllWalksOk(mem, level, depth, reserved) {
      WalksSuffice(mem, level, depth, reserved);
    }
  }

  lemma {:induction false} WalkOn(mem: Memory, level: Level, path: seq<nat>, more: seq<nat>)
    requires Walk(mem, level, path).Some?
    ensures Walk(mem, level, path + more) == Walk(mem, Walk(mem, level, path).value, more)
    decreases |path|
  {
    if path == [] {
      assert path + more == more;
    } else {
      WalkOn(mem, Children(Rows(mem, level)[path[0]]), path[1..], more);
      assert (path + more)[1..] == path[1..] + more;
    }
  }

  function Again(cycle: seq<nat>, n: nat): (path: seq<nat>)
    ensures cycle != [] ==> |path| >= n
  {
    if n == 0 then [] else cycle + Again(cycle, n - 1)
  }

  lemma {:induction false} WalkAgain(mem: Memory, level: Level, cycle: seq<nat>, n: nat)
    requires Walk(mem, level, cycle) == Some(level)
    ensures Walk(mem, level, Again(cycle, n)) == Some(level)
  {
    if n > 0 {
      WalkAgain(mem, level, cycle, n - 1);
      WalkOn(mem, level, cycle, Again(cycle, n - 1));
    }
  }

  /** An accepted graph is acyclic: no level that a walk reaches can be reached from itself. */
  lemma AcceptedIsAcyclic(mem: Memory, level: Level, depth: nat, reserved: bool, path: seq<nat>, cycle: seq<nat>)
    requires Accepts(mem, level, depth, reserved) && Walk(mem, level, path).Some? && cycle != []
    ensures Walk(mem, Walk(mem, level, path).value, cycle) != Walk(mem, level, path)
  {
    var there := Walk(mem, level, path).value;
    if Walk(mem, there, cycle) == Some(there) {
      var round := Again(cycle, MAX_DEPTH + 1);
      WalkAgain(mem, there, cycle, MAX_DEPTH + 1);
      WalkOn(mem, level, path, round);
      AcceptedWalk(mem, level, depth, reserved, path + round);
    }
  }
}
