/** Which command tables can be registered, in numbers and words. */
module RegistrationLaws {
  import opened Text
  import opened Commands
  import opened Registry

  /** A name is a nonempty word of printable bytes. */
  predicate GoodName(name: Option<string>) {
    name.Some? && |name.value| > 0 && forall k :: 0 <= k < |name.value| ==>
      name.value[k] as int > 32 && name.value[k] as int != 127
  }

  /** One row: its name, its child pointer and count, its arity, and, among the roots, no built-in's name. */
  predicate GoodRow(row: Cmd, root: bool) {
    && GoodName(row.name)
    && (root ==> row.name.value !in {"clear", "echo", "help", "history"})
    && (row.subs == Null <==> row.subCount == 0)
    && (row.handler ==> 1 <= row.minArgs && (row.maxArgs.Some? ==> row.minArgs <= row.maxArgs.value))
  }

  /** One table: there when it has rows, with good rows and no name twice. */
  predicate GoodTable(mem: Memory, level: Level, root: bool) {
    var rows := Rows(mem, level);
    && (level.count > 0 ==> level.table != Null)
    && (forall i :: 0 <= i < |rows| ==> GoodRow(rows[i], root))
    && forall i, j :: 0 <= i < j < |rows| ==> rows[i].name != rows[j].name
  }

  lemma GoodNameIff(name: Option<string>)
    ensures ValidName(name) <==> GoodName(name)
  {
  }

  lemma ReservedAre(name: string)
    ensures name in RESERVED <==> name in {"clear", "echo", "help", "history"}
  {
    assert RESERVED[0] == "clear" && RESERVED[1] == "echo" && RESERVED[2] == "help" && RESERVED[3] == "history";
  }

  lemma GoodTableIff(mem: Memory, level: Level, root: bool)
    ensures LevelOk(mem, level, root) <==> GoodTable(mem, level, root)
  {
    hide ValidName, GoodName, Rows;
    var rows := Rows(mem, level);
    forall i | 0 <= i < |rows|
      ensures RowOk(rows[i], root) <==> GoodRow(rows[i], root)
    {
      GoodNameIff(rows[i].name);
      NamedWhenGood(rows[i].name);
      if rows[i].name.Some? {
        ReservedAre(rows[i].name.value);
      }
    }
  }

  lemma NamedWhenGood(name: Option<string>)
    ensures GoodName(name) ==> name.Some?
  {
  }

  /**
   * A table is accepted if and only if every walk down from it takes fewer than eight steps and meets good
   * tables; only the first of them is among the roots.
   */
  lemma AcceptedIff(mem: Memory, level: Level, builtins: bool)
    ensures Accepts(mem, level, 1, builtins) <==>
      forall path :: Walk(mem, level, path).Some? ==>
        |path| < 8 && GoodTable(mem, Walk(mem, level, path).value, builtins && path == [])
  {
    hide Accepts, LevelOk, GoodTable, Walk;
    AcceptsIffWalks(mem, level, 1, builtins);
    forall path | Walk(mem, level, path).Some?
      ensures var end := Walk(mem, level, path).value;
        LevelOk(mem, end, builtins && path == []) <==> GoodTable(mem, end, builtins && path == [])
    {
      GoodTableIff(mem, Walk(mem, level, path).value, builtins && path == []);
    }
  }

  /** Command sets are registered if and only if each is accepted and no root name is in two of them. */
  lemma SetsRegisteredIff(mem: Memory, sets: seq<Level>, builtins: bool)
    ensures Registered(mem, Sets(sets), builtins) <==>
      && (forall i :: 0 <= i < |sets| ==> Accepts(mem, sets[i], 1, builtins))
      && forall i, j, a, b ::
        0 <= i < j < |sets| && a in Rows(mem, sets[i]) && b in Rows(mem, sets[j]) ==> a.name != b.name
  {
    hide Accepts, Rows;
    if forall i, j, a, b ::
      0 <= i < j < |sets| && a in Rows(mem, sets[i]) && b in Rows(mem, sets[j]) ==> a.name != b.name
    {
      forall i, j | 0 <= i < j < |sets|
        ensures Apart(Rows(mem, sets[i]), Rows(mem, sets[j]))
      {
      }
    }
  }

  /** The roots are the rows of all the sets. */
  lemma RootsAre(mem: Memory, sets: seq<Level>, row: Cmd)
    ensures row in RootRows(mem, Sets(sets)) <==> exists i :: 0 <= i < |sets| && row in Rows(mem, sets[i])
  {
    hide SetRows, Rows;
    InSetRows(mem, sets, row);
  }
}
