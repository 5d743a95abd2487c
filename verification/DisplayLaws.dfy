/** What the display of a line shows, byte for byte, told by the flags, the mask and the tokens. */
module DisplayLaws {
  import opened Text
  import opened Tokenizer
  import opened RawScanner
  import opened Commands
  import opened Registry
  import opened Config
  import opened Masking
  import opened EnterLaws

  /** The byte belongs to a secret argument and is not a quote. */
  predicate Starry(cfg: Config, r: Resolved, line: string, args: seq<string>, pos: nat)
    requires pos < |line| && r.consumed <= |args|
  {
    && line[pos] != '"' && line[pos] != '\''
    && exists i ::
      && 0 <= i < |args| && i < |Spans(line, 0)| && Secret(cfg, r, args, i)
      && Spans(line, 0)[i].start <= pos < Spans(line, 0)[i].end
  }

  lemma StarredIff(cfg: Config, r: Resolved, line: string, args: seq<string>, pos: nat)
    requires pos < |line| && r.consumed <= |args|
    ensures Starred(cfg, r, line, args, |args|, pos) <==> Starry(cfg, r, line, args, pos)
  {
    hide Spans;
    assert forall i :: 0 <= i < |args| ==> (Masked(cfg, r, args, i) <==> Secret(cfg, r, args, i));
  }

  /**
   * The display of a line the two readers agree about, if it does not end in a lone backslash and has no more
   * words than argv: a star for every byte of a secret argument that is not a quote, and every other byte as it
   * is.  The spans of the arguments are the tokens' own.
   */
  lemma DisplayIs(cfg: Config, roots: Roots, line: string, pos: nat)
    requires Accepted(cfg) && pos < |line| <= MAX_LINE_LEN && Agrees(line, START)
    requires !EndsEscaped(line, START) && |Spans(line, 0)| <= cfg.argcMax
    ensures DisplayParse(line, cfg.argcMax).Parsed? && |DisplayParse(line, cfg.argcMax).tokens| == |Spans(line, 0)|
    ensures var args := DisplayParse(line, cfg.argcMax).tokens;
      var closing := if ParseLine(line, cfg.argcMax).Parsed? then [] else [OpenQuote(line, START)];
      && SpansFit(line, 0, Spans(line, 0), args, closing)
      && Display(cfg, roots, line)[pos] ==
        if Starry(cfg, Resolve(cfg.mem, roots, args), line, args, pos) then '*' else line[pos]
  {
    hide Tokens, Masked, Resolve, OpenQuote, Agrees, EndsEscaped, Spans, Starred, Starry;
    DisplayParsesIff(cfg, roots, line);
    ReadersAgree(line, cfg.argcMax);
    var args := DisplayParse(line, cfg.argcMax).tokens;
    StarredIff(cfg, Resolve(cfg.mem, roots, args), line, args, pos);
  }
}
