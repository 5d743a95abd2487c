/** The configuration and callbacks of a shell (sh_config_t and the storage sizes given to sh_init). */
module Config {
  import opened Text
  import opened Commands
  import opened Registry

  /**
   * Callbacks are functions of what they are given: a provider of its identity, the argument index and the
   * candidate index; the mask of the resolved path's names, the argument index and the argument; a handler
   * of its call and of every call before it.
   */
  datatype Config = Config(
    lineMax: nat, argcMax: nat, historyDepth: nat, slotSize: nat,
    builtins: bool, secureClear: bool,
    mem: Memory,
    provide: (nat, nat, nat) -> Option<string>,
    mask: (seq<string>, nat, string) -> bool,
    handle: (seq<Call>, Call) -> Status)

  /** What sh_init accepts. */
  ghost predicate Accepted(cfg: Config) {
    && 0 < cfg.lineMax <= MAX_LINE_LEN
    && 0 < cfg.argcMax <= MAX_ARGC
    && (cfg.historyDepth > 0 ==> cfg.slotSize > cfg.lineMax)
  }

  const HISTORY_DEFAULT_DEPTH: nat := 16

  /** sh_default_config; tables and callbacks other than the mask are not part of it. */
  function Defaults(env: Config): Config {
    env.(lineMax := MAX_LINE_LEN, argcMax := MAX_ARGC, historyDepth := HISTORY_DEFAULT_DEPTH,
         builtins := true, secureClear := true, mask := (path, i, arg) => false)
  }

  /** The limits after sh_init has filled in those that were left at zero from the sizes of the buffers. */
  function Filled(cfg: Config, lineSize: nat, argvSize: nat, slotSize: nat): Config
    requires lineSize > 0
  {
    cfg.(lineMax := if cfg.lineMax == 0 then lineSize - 1 else cfg.lineMax,
         argcMax := if cfg.argcMax == 0 then argvSize else cfg.argcMax,
         slotSize := slotSize)
  }

  /** A size is None when the buffer's pointer is NULL. */
  predicate Given(size: Option<nat>) {
    size.Some? && size.value > 0
  }

  /** The buffers hold what the limits ask for; a history needs its slots and a draft. */
  predicate Roomy(cfg: Config, lineSize: nat, argvSize: nat, storage: bool, slots: nat, draftSize: Option<nat>) {
    && cfg.lineMax < lineSize && cfg.argcMax <= argvSize && cfg.historyDepth <= slots
    && (cfg.historyDepth > 0 ==> storage && draftSize.Some? && draftSize.value > cfg.lineMax)
  }

  /** Which limits sh_init takes, in numbers, when it has filled in those that were left at zero. */
  lemma LimitsInNumbers(asked: Config, lineSize: nat, argvSize: nat, storage: bool, slots: nat, slotSize: nat,
                        draftSize: Option<nat>)
    requires lineSize > 0
    ensures var cfg := Filled(asked, lineSize, argvSize, slotSize);
      && cfg == asked.(lineMax := cfg.lineMax, argcMax := cfg.argcMax, slotSize := slotSize)
      && (if asked.lineMax == 0 then cfg.lineMax + 1 == lineSize else cfg.lineMax == asked.lineMax)
      && (if asked.argcMax == 0 then cfg.argcMax == argvSize else cfg.argcMax == asked.argcMax)
      && (Accepted(cfg) && Roomy(cfg, lineSize, argvSize, storage, slots, draftSize) <==>
            && 1 <= cfg.lineMax <= 256 && cfg.lineMax + 1 <= lineSize
            && 1 <= cfg.argcMax <= 32 && cfg.argcMax <= argvSize
            && cfg.historyDepth <= slots
            && (cfg.historyDepth >= 1 ==>
                  storage && slotSize >= cfg.lineMax + 1 && draftSize.Some? && draftSize.value >= cfg.lineMax + 1))
  {
  }

  /** The default configuration, in numbers. */
  lemma DefaultsInNumbers(env: Config)
    ensures var cfg := Defaults(env);
      && cfg.lineMax == 256 && cfg.argcMax == 32 && cfg.historyDepth == 16 && cfg.builtins && cfg.secureClear
      && forall path, i, arg :: !cfg.mask(path, i, arg)
  {
  }

  /** C strings come out of the callbacks and out of the command tables. */
  ghost predicate CStrings(cfg: Config) {
    && (forall p, a, k :: cfg.provide(p, a, k).Some? ==> NoNul(cfg.provide(p, a, k).value))
    && (forall t, c :: c in Pointed(cfg.mem, t) && c.name.Some? ==> NoNul(c.name.value))
  }
}
