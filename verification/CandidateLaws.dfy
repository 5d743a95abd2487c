/** Which names a Tab can offer, told by the tables, the flags and the answers of a provider alone. */
module CandidateLaws {
  import opened Text
  import opened Tokenizer
  import opened Commands
  import opened Registry
  import opened Config
  import opened Completion
  import opened CompletionLaws

  // ----- the candidates beside a command -----

  /** A row that a Tab offers: it is not hidden, and its name begins with the prefix. */
  predicate Offers(row: Cmd, prefix: string) {
    !row.hidden && row.name.Some? && |prefix| <= |row.name.value| && row.name.value[..|prefix|] == prefix
  }

  function OfferedRows(rows: seq<Cmd>, prefix: string): set<nat> {
    set i: nat | i < |rows| && Offers(rows[i], prefix)
  }

  /** The matches in a table are the names of the rows that it offers, one for each of them. */
  lemma {:induction false} TableOffers(cfg: Config, rows: seq<Cmd>, prefix: string, name: string)
    ensures name in Matches(cfg, Beside(rows), prefix) <==>
      exists i :: 0 <= i < |rows| && Offers(rows[i], prefix) && rows[i].name == Some(name)
    ensures |Matches(cfg, Beside(rows), prefix)| == |OfferedRows(rows, prefix)|
    decreases |rows|
  {
    if rows == [] {
      assert OfferedRows(rows, prefix) == {};
    } else {
      var init, last := rows[..|rows| - 1], |rows| - 1;
      TableOffers(cfg, init, prefix, name);
      assert forall i :: 0 <= i < last ==> init[i] == rows[i];
      if Offers(rows[last], prefix) {
        assert OfferedRows(rows, prefix) == OfferedRows(init, prefix) + {last};
      } else {
        assert OfferedRows(rows, prefix) == OfferedRows(init, prefix);
      }
    }
  }

  /** A Tab among rows that are all hidden, or do not match, does nothing. */
  lemma HiddenIsNotOffered(cfg: Config, roots: Roots, left: string, right: string, rows: seq<Cmd>)
    requires |left| + |right| <= cfg.lineMax <= MAX_LINE_LEN
    requires TabScope(cfg, roots, left) == Some(Beside(rows))
    requires forall i :: 0 <= i < |rows| ==> !Offers(rows[i], left[WordStart(left)..])
    ensures Tab(cfg, roots, left, right) == Tabbed(left, right, false, OK)
  {
    hide Tab, Matches, Offers, WordStart, Fits, Extends;
    var prefix := left[WordStart(left)..];
    var names := Matches(cfg, Beside(rows), prefix);
    if names != [] {
      TableOffers(cfg, rows, prefix, names[0]);
    }
    TabEffect(cfg, roots, left, right);
  }

  // ----- the candidates of a provider -----

  /** The provider has a k-th answer, none before it was missing, and it begins with the prefix. */
  predicate Answered(cfg: Config, provider: nat, argIndex: nat, prefix: string, k: nat) {
    && (forall j: nat :: j <= k ==> cfg.provide(provider, argIndex, j).Some?)
    && var name := cfg.provide(provider, argIndex, k).value;
      |prefix| <= |name| && name[..|prefix|] == prefix
  }

  function AnsweredBelow(cfg: Config, provider: nat, argIndex: nat, prefix: string, n: nat): set<nat> {
    set k: nat | k < n && Answered(cfg, provider, argIndex, prefix, k)
  }

  lemma {:induction false} AnswersBelow(cfg: Config, provider: nat, argIndex: nat, prefix: string, n: nat, name: string)
    ensures name in Answers(cfg, provider, argIndex, prefix, n) <==>
      exists k: nat :: k < n && Answered(cfg, provider, argIndex, prefix, k)
        && cfg.provide(provider, argIndex, k) == Some(name)
    ensures |Answers(cfg, provider, argIndex, prefix, n)| == |AnsweredBelow(cfg, provider, argIndex, prefix, n)|
  {
    if n == 0 {
      assert AnsweredBelow(cfg, provider, argIndex, prefix, n) == {};
    } else {
      AnswersBelow(cfg, provider, argIndex, prefix, n - 1, name);
      LastAnswer(cfg, provider, argIndex, prefix, n);
      hide Answered, Refused;
      var before := AnsweredBelow(cfg, provider, argIndex, prefix, n - 1);
      if Answered(cfg, provider, argIndex, prefix, n - 1) {
        assert AnsweredBelow(cfg, provider, argIndex, prefix, n) == before + {n - 1};
      } else {
        assert AnsweredBelow(cfg, provider, argIndex, prefix, n) == before;
      }
    }
  }

  lemma LastAnswer(cfg: Config, provider: nat, argIndex: nat, prefix: string, n: nat)
    requires n > 0
    ensures Answers(cfg, provider, argIndex, prefix, n) == Answers(cfg, provider, argIndex, prefix, n - 1) +
      if Answered(cfg, provider, argIndex, prefix, n - 1) then [cfg.provide(provider, argIndex, n - 1).value] else []
  {
    assert Refused(cfg, provider, argIndex, n) <==>
      !(forall j: nat :: j <= n - 1 ==> cfg.provide(provider, argIndex, j).Some?);
  }

  /** The matches of a provider are its first 256 answers, up to the first missing one, that begin with the prefix. */
  lemma ProviderOffers(cfg: Config, provider: nat, argIndex: nat, prefix: string, name: string)
    ensures name in Matches(cfg, Payload(provider, argIndex), prefix) <==>
      exists k: nat :: k < 256 && Answered(cfg, provider, argIndex, prefix, k)
        && cfg.provide(provider, argIndex, k) == Some(name)
    ensures |Matches(cfg, Payload(provider, argIndex), prefix)| ==
      |AnsweredBelow(cfg, provider, argIndex, prefix, 256)|
  {
    hide Answers, Answered;
    AnswersBelow(cfg, provider, argIndex, prefix, 256, name);
  }

  // ----- where a Tab looks -----

  predicate EndsInBlank(text: string) {
    text == [] || IsSpace(text[|text| - 1])
  }

  /** A Tab completes the last token of the text before the cursor, or a new one behind a blank. */
  lemma TabLooksBehind(cfg: Config, roots: Roots, left: string)
    requires ParseLine(left, cfg.argcMax).Parsed?
    ensures var tokens := ParseLine(left, cfg.argcMax).tokens;
      TabScope(cfg, roots, left) == Descend(cfg.mem, RootScope(cfg, roots),
        if EndsInBlank(left) || tokens == [] then tokens else tokens[..|tokens| - 1])
  {
    hide WordStart, Tokens, Descend, RootScope;
    WordStartBlank(left);
  }

  lemma WordStartBlank(text: string)
    ensures text[WordStart(text)..] == [] <==> EndsInBlank(text)
  {
  }

  const BUILTINS: set<string> := {"clear", "help", "history", "echo"}

  /** At the start of a line the candidates are the visible registered commands and, with built-ins, those four. */
  lemma RootOffers(cfg: Config, roots: Roots, prefix: string, name: string)
    ensures name in Matches(cfg, Beside(RootScope(cfg, roots)), prefix) <==>
      || (exists i :: 0 <= i < |RootRows(cfg.mem, roots)|
            && Offers(RootRows(cfg.mem, roots)[i], prefix) && RootRows(cfg.mem, roots)[i].name == Some(name))
      || (cfg.builtins && name in BUILTINS && |prefix| <= |name| && name[..|prefix|] == prefix)
    ensures Descend(cfg.mem, RootScope(cfg, roots), []) == Some(Beside(RootScope(cfg, roots)))
  {
    hide Matches, RootRows, Offers;
    TableOffers(cfg, RootScope(cfg, roots), prefix, name);
    RowsBeforeBuiltins(RootRows(cfg.mem, roots), if cfg.builtins then BUILTIN_ROWS else [], prefix, name);
    BuiltinRowsOffer(prefix, name);
  }

  lemma RowsBeforeBuiltins(rows: seq<Cmd>, extra: seq<Cmd>, prefix: string, name: string)
    ensures
      (exists i ::
        0 <= i < |rows + extra| && Offers((rows + extra)[i], prefix) && (rows + extra)[i].name == Some(name))
      <==> || (exists i :: 0 <= i < |rows| && Offers(rows[i], prefix) && rows[i].name == Some(name))
           || (exists i :: 0 <= i < |extra| && Offers(extra[i], prefix) && extra[i].name == Some(name))
  {
    hide Offers;
    var all := rows + extra;
    assert forall i :: 0 <= i < |rows| ==> all[i] == rows[i];
    assert forall i :: 0 <= i < |extra| ==> all[|rows| + i] == extra[i];
    assert forall i :: |rows| <= i < |all| ==> all[i] == extra[i - |rows|];
  }

  lemma BuiltinRowsOffer(prefix: string, name: string)
    ensures
      (exists i :: 0 <= i < |BUILTIN_ROWS| && Offers(BUILTIN_ROWS[i], prefix) && BUILTIN_ROWS[i].name == Some(name))
      <==> name in BUILTINS && |prefix| <= |name| && name[..|prefix|] == prefix
  {
    BuiltinRowNamed(name);
    assert forall i :: 0 <= i < 4 ==> !BUILTIN_ROWS[i].hidden;
  }

  /** Behind the built-ins the candidates are their words; help and clear have none. */
  lemma BuiltinsOffer(cfg: Config, roots: Roots, which: string, prefix: string, name: string)
    requires Registered(cfg.mem, roots, cfg.builtins) && cfg.builtins
    ensures var scope := Descend(cfg.mem, RootScope(cfg, roots), [which]);
      && (which == "help" || which == "clear" ==> scope == None)
      && (which == "history" || which == "echo" ==>
            && scope.Some?
            && (name in Matches(cfg, scope.value, prefix) <==>
                  && |prefix| <= |name| && name[..|prefix|] == prefix
                  && name in if which == "history" then {"clear", "status"} else {"off", "on", "status"}))
  {
    hide Registered, Matches, RootRows;
    if which in BUILTINS {
      BuiltinNotRegistered(cfg, roots, which);
      FindSplit(RootRows(cfg.mem, roots), BUILTIN_ROWS, which);
      BuiltinsFound(which);
      assert HISTORY_ROWS[..2] == HISTORY_ROWS && ECHO_ROWS[..3] == ECHO_ROWS;
      TableOffers(cfg, HISTORY_ROWS, prefix, name);
      TableOffers(cfg, ECHO_ROWS, prefix, name);
      BuiltinWords(name);
    }
  }

  lemma BuiltinNotRegistered(cfg: Config, roots: Roots, which: string)
    requires Registered(cfg.mem, roots, cfg.builtins) && cfg.builtins && which in BUILTINS
    ensures Find(RootRows(cfg.mem, roots), which) == None
  {
    var rows := RootRows(cfg.mem, roots);
    hide Registered, RootRows;
    if Find(rows, which).Some? {
      var i := FindGives(rows, which);
      RootNotReserved(cfg.mem, roots, cfg.builtins, [i], [which], rows[i]);
      NotReserved(which);
    }
  }

  lemma BuiltinsFound(which: string)
    requires which in BUILTINS
    ensures which == "clear" ==> Find(BUILTIN_ROWS, which) == Some(BUILTIN_ROWS[0])
    ensures which == "help" ==> Find(BUILTIN_ROWS, which) == Some(BUILTIN_ROWS[1])
    ensures which == "history" ==> Find(BUILTIN_ROWS, which) == Some(BUILTIN_ROWS[2])
    ensures which == "echo" ==> Find(BUILTIN_ROWS, which) == Some(BUILTIN_ROWS[3])
  {
    var i := if which == "clear" then 0 else if which == "help" then 1 else if which == "history" then 2 else 3;
    assert "clear"[0] == 'c' && "help"[1] == 'e' && "history"[1] == 'i' && "echo"[0] == 'e';
    FindIs(BUILTIN_ROWS, which, i);
  }

  lemma BuiltinWords(name: string)
    ensures name in {"clear", "status"} <==>
      exists i :: 0 <= i < |HISTORY_ROWS| && !HISTORY_ROWS[i].hidden && HISTORY_ROWS[i].name == Some(name)
    ensures name in {"off", "on", "status"} <==>
      exists i :: 0 <= i < |ECHO_ROWS| && !ECHO_ROWS[i].hidden && ECHO_ROWS[i].name == Some(name)
  {
    assert HISTORY_ROWS[0].name == Some("clear") && HISTORY_ROWS[1].name == Some("status");
    assert ECHO_ROWS[0].name == Some("off") && ECHO_ROWS[1].name == Some("on") && ECHO_ROWS[2].name == Some("status");
  }

  /** Behind a word that names no root and no built-in there are no candidates. */
  lemma UnknownOffersNothing(cfg: Config, roots: Roots, before: seq<string>)
    requires before != [] && !(cfg.builtins && before[0] in BUILTINS)
    requires forall i :: 0 <= i < |RootRows(cfg.mem, roots)| ==> RootRows(cfg.mem, roots)[i].name != Some(before[0])
    ensures Descend(cfg.mem, RootScope(cfg, roots), before) == None
  {
    hide RootRows;
    var extra := if cfg.builtins then BUILTIN_ROWS else [];
    FindNothing(RootRows(cfg.mem, roots), before[0]);
    FindNothing(extra, before[0]);
    FindSplit(RootRows(cfg.mem, roots), extra, before[0]);
    BuiltinRowNamed(before[0]);
  }

  lemma BuiltinRowNamed(name: string)
    ensures name in BUILTINS <==> exists i :: 0 <= i < 4 && BUILTIN_ROWS[i].name == Some(name)
  {
    assert BUILTIN_ROWS[0].name == Some("clear") && BUILTIN_ROWS[1].name == Some("help");
    assert BUILTIN_ROWS[2].name == Some("history") && BUILTIN_ROWS[3].name == Some("echo");
  }
}
