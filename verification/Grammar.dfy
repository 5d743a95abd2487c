/**
 * The language of command lines, stated without a scanner: a word is spelled by plain characters, escapes
 * and quoted parts, and words stand between blanks.  The tokenizer accepts exactly this language.
 */
module Grammar {
  import opened Text
  import opened Tokenizer

  /** A character inside quotes; only double quotes know escapes. */
  datatype Item = Raw(c: char) | Esc(c: char)

  datatype Piece =
    | Plain(c: char)
    | Escaped(c: char)
    | Quoted(quote: char, items: seq<Item>)

  predicate ItemOk(item: Item, quote: char) {
    match item
    case Raw(c) => c != quote && (quote == '"' ==> c != '\\')
    case Esc(_) => quote == '"'
  }

  predicate PieceOk(piece: Piece) {
    match piece
    case Plain(c) => !IsSpace(c) && !IsQuote(c) && c != '\\'
    case Escaped(_) => true
    case Quoted(quote, items) => IsQuote(quote) && forall k :: 0 <= k < |items| ==> ItemOk(items[k], quote)
  }

  predicate AllOk(pieces: seq<Piece>) {
    forall k :: 0 <= k < |pieces| ==> PieceOk(pieces[k])
  }

  function SpellItems(items: seq<Item>): string {
    if items == [] then []
    else SpellItem(items[0]) + SpellItems(items[1..])
  }

  function SpellItem(item: Item): string {
    match item
    case Raw(c) => [c]
    case Esc(c) => ['\\', c]
  }

  function ItemsText(items: seq<Item>): string {
    if items == [] then [] else [items[0].c] + ItemsText(items[1..])
  }

  function Spell(pieces: seq<Piece>): string {
    if pieces == [] then []
    else SpellPiece(pieces[0]) + Spell(pieces[1..])
  }

  function SpellPiece(piece: Piece): string {
    match piece
    case Plain(c) => [c]
    case Escaped(c) => ['\\', c]
    case Quoted(quote, items) => [quote] + (SpellItems(items) + [quote])
  }

  function PieceText(piece: Piece): string {
    match piece
    case Plain(c) => [c]
    case Escaped(c) => [c]
    case Quoted(_, items) => ItemsText(items)
  }

  /** The text a spelled word stands for. */
  function TextOf(pieces: seq<Piece>): string {
    if pieces == [] then [] else PieceText(pieces[0]) + TextOf(pieces[1..])
  }

  // ----- every spelling is read as its text -----

  lemma ReadStep(c: char, more: string, quote: char)
    requires c != '\\' || quote == '\''
    requires quote == NUL ==> !IsSpace(c)
    ensures ScanWord([c] + more, quote) ==
      if quote == NUL && IsQuote(c) then ScanWord(more, c)
      else if quote != NUL && c == quote then ScanWord(more, NUL)
      else Continue([c], ScanWord(more, quote))
  {
    assert ([c] + more)[1..] == more;
  }

  lemma NoText(scan: Scan)
    ensures Continue([], scan) == scan
  {
    if scan.Word? {
      assert [] + scan.text == scan.text;
    }
  }

  lemma {:induction false} ItemsRead(items: seq<Item>, quote: char, rest: string)
    requires IsQuote(quote) && forall k :: 0 <= k < |items| ==> ItemOk(items[k], quote)
    ensures ScanWord(SpellItems(items) + ([quote] + rest), quote) == Continue(ItemsText(items), ScanWord(rest, NUL))
  {
    hide ScanWord;
    var tail := [quote] + rest;
    if items == [] {
      assert [] + tail == tail;
      ReadStep(quote, rest, quote);
      NoText(ScanWord(rest, NUL));
    } else {
      var more := SpellItems(items[1..]) + tail;
      ItemsRead(items[1..], quote, rest);
      match items[0]
      case Raw(c) =>
        assert SpellItems(items) + tail == [c] + more;
        ReadStep(c, more, quote);
        ContinueTwice([c], ItemsText(items[1..]), ScanWord(rest, NUL));
      case Esc(c) =>
        assert SpellItems(items) + tail == ['\\', c] + more;
        ScanEscape(c, more, quote);
        ContinueTwice([c], ItemsText(items[1..]), ScanWord(rest, NUL));
    }
  }

  lemma PieceRead(piece: Piece, more: string)
    requires PieceOk(piece)
    ensures ScanWord(SpellPiece(piece) + more, NUL) == Continue(PieceText(piece), ScanWord(more, NUL))
  {
    hide ScanWord;
    match piece
    case Plain(c) => ReadStep(c, more, NUL);
    case Escaped(c) => ScanEscape(c, more, NUL);
    case Quoted(quote, items) =>
      var inside := SpellItems(items) + ([quote] + more);
      assert SpellPiece(piece) + more == [quote] + inside;
      ReadStep(quote, inside, NUL);
      ItemsRead(items, quote, more);
  }

  lemma {:induction false} SpellingRead(pieces: seq<Piece>, rest: string)
    requires AllOk(pieces)
    ensures ScanWord(Spell(pieces) + rest, NUL) == Continue(TextOf(pieces), ScanWord(rest, NUL))
  {
    hide ScanWord, SpellPiece, PieceText, PieceOk;
    if pieces == [] {
      assert [] + rest == rest;
      NoText(ScanWord(rest, NUL));
    } else {
      var more := Spell(pieces[1..]) + rest;
      SpellingRead(pieces[1..], rest);
      ContinueTwice(PieceText(pieces[0]), TextOf(pieces[1..]), ScanWord(rest, NUL));
      assert Spell(pieces) + rest == SpellPiece(pieces[0]) + more;
      assert PieceOk(pieces[0]);
      PieceRead(pieces[0], more);
    }
  }

  // ----- every word that is read has a spelling -----

  /** s is spelling, then the end of the line or a blank and the rest. */
  predicate EndsWord(s: string, spelling: string, rest: string) {
    (s == spelling && rest == []) ||
    (|s| > |spelling| && s[..|spelling|] == spelling && IsSpace(s[|spelling|]) && rest == s[|spelling| + 1..])
  }

  lemma EndsLonger(lead: string, s: string, spelling: string, rest: string)
    requires EndsWord(s, spelling, rest)
    ensures EndsWord(lead + s, lead + spelling, rest)
  {
    var n := |spelling|;
    if s != spelling || rest != [] {
      assert (lead + s)[..|lead| + n] == lead + s[..n];
      assert (lead + s)[|lead| + n + 1..] == s[n + 1..];
    }
  }

  /** The scan of s is a word, spelled by these pieces. */
  ghost predicate SpelledBy(s: string, pieces: seq<Piece>, scan: Scan) {
    scan.Word? && AllOk(pieces) && scan.text == TextOf(pieces) && EndsWord(s, Spell(pieces), scan.rest)
  }

  /** The same inside an open quote: items up to the closing quote, pieces after it. */
  ghost predicate SpelledInside(s: string, quote: char, items: seq<Item>, pieces: seq<Piece>, scan: Scan) {
    && scan.Word? && AllOk(pieces) && (forall k :: 0 <= k < |items| ==> ItemOk(items[k], quote))
    && scan.text == ItemsText(items) + TextOf(pieces)
    && EndsWord(s, SpellItems(items) + ([quote] + Spell(pieces)), scan.rest)
  }

  lemma PieceInFront(piece: Piece, s: string, pieces: seq<Piece>, scan: Scan)
    requires PieceOk(piece) && SpelledBy(s, pieces, scan)
    ensures SpelledBy(SpellPiece(piece) + s, [piece] + pieces, Continue(PieceText(piece), scan))
  {
    hide EndsWord, PieceOk, SpellPiece, PieceText;
    assert ([piece] + pieces)[1..] == pieces;
    EndsLonger(SpellPiece(piece), s, Spell(pieces), scan.rest);
  }

  lemma ItemInFront(item: Item, s: string, quote: char, items: seq<Item>, pieces: seq<Piece>, scan: Scan)
    requires ItemOk(item, quote) && SpelledInside(s, quote, items, pieces, scan)
    ensures SpelledInside(SpellItem(item) + s, quote, [item] + items, pieces, Continue([item.c], scan))
  {
    hide EndsWord, ItemOk, SpellItem, AllOk, TextOf, Spell;
    var tail := [quote] + Spell(pieces);
    assert ([item] + items)[1..] == items;
    EndsLonger(SpellItem(item), s, SpellItems(items) + tail, scan.rest);
    assert SpellItem(item) + (SpellItems(items) + tail) == SpellItems([item] + items) + tail;
    assert [item.c] + (ItemsText(items) + TextOf(pieces)) == ItemsText([item] + items) + TextOf(pieces);
  }

  lemma QuoteOpens(quote: char, s: string, items: seq<Item>, pieces: seq<Piece>, scan: Scan)
    requires IsQuote(quote) && SpelledInside(s, quote, items, pieces, scan)
    ensures SpelledBy([quote] + s, [Quoted(quote, items)] + pieces, scan)
  {
    hide EndsWord, ItemOk;
    assert ([Quoted(quote, items)] + pieces)[1..] == pieces;
    EndsLonger([quote], s, SpellItems(items) + ([quote] + Spell(pieces)), scan.rest);
    assert [quote] + (SpellItems(items) + ([quote] + Spell(pieces))) == Spell([Quoted(quote, items)] + pieces);
  }

  lemma QuoteCloses(quote: char, s: string, pieces: seq<Piece>, scan: Scan)
    requires SpelledBy(s, pieces, scan)
    ensures SpelledInside([quote] + s, quote, [], pieces, scan)
  {
    hide EndsWord;
    EndsLonger([quote], s, Spell(pieces), scan.rest);
    assert SpellItems([]) + ([quote] + Spell(pieces)) == [quote] + Spell(pieces);
    assert ItemsText([]) + TextOf(pieces) == TextOf(pieces);
  }

  lemma {:induction false} WordSpelled(s: string) returns (pieces: seq<Piece>)
    requires ScanWord(s, NUL).Word?
    ensures SpelledBy(s, pieces, ScanWord(s, NUL))
    ensures s != [] && !IsSpace(s[0]) ==> pieces != []
    decreases |s|, 1
  {
    if s == [] || IsSpace(s[0]) {
      pieces := [];
    } else {
      var c, y := s[0], s[1..];
      assert s == [c] + y;
      if c == '\\' {
        assert s == ['\\', y[0]] + y[1..];
        hide ScanWord, SpelledBy, IsSpace;
        ScanEscape(y[0], y[1..], NUL);
        var more := WordSpelled(y[1..]);
        pieces := [Escaped(y[0])] + more;
        PieceInFront(Escaped(y[0]), y[1..], more, ScanWord(y[1..], NUL));
      } else {
        hide ScanWord, SpelledBy, SpelledInside;
        ReadStep(c, y, NUL);
        if IsQuote(c) {
          var items, more := InsideSpelled(y, c);
          pieces := [Quoted(c, items)] + more;
          QuoteOpens(c, y, items, more, ScanWord(y, c));
        } else {
          var more := WordSpelled(y);
          pieces := [Plain(c)] + more;
          PieceInFront(Plain(c), y, more, ScanWord(y, NUL));
        }
      }
    }
  }

  lemma {:induction false} InsideSpelled(s: string, quote: char) returns (items: seq<Item>, pieces: seq<Piece>)
    requires IsQuote(quote) && ScanWord(s, quote).Word?
    ensures SpelledInside(s, quote, items, pieces, ScanWord(s, quote))
    decreases |s|, 0
  {
    var c, y := s[0], s[1..];
    assert s == [c] + y;
    if c == '\\' && quote != '\'' {
      assert s == ['\\', y[0]] + y[1..];
      hide ScanWord, SpelledInside;
      ScanEscape(y[0], y[1..], quote);
      var more;
      more, pieces := InsideSpelled(y[1..], quote);
      items := [Esc(y[0])] + more;
      ItemInFront(Esc(y[0]), y[1..], quote, more, pieces, ScanWord(y[1..], quote));
    } else {
      hide ScanWord, SpelledInside, SpelledBy;
      ReadStep(c, y, quote);
      if c == quote {
        items := [];
        pieces := WordSpelled(y);
        QuoteCloses(quote, y, pieces, ScanWord(y, NUL));
      } else {
        var more;
        more, pieces := InsideSpelled(y, quote);
        items := [Raw(c)] + more;
        ItemInFront(Raw(c), y, quote, more, pieces, ScanWord(y, quote));
      }
    }
  }

  // ----- lines -----

  /** The line consists of blanks and of words that are spelled and stand for the tokens. */
  ghost predicate Spells(s: string, tokens: seq<string>)
    decreases |tokens|
  {
    var t := SkipSpaces(s);
    if t == [] then tokens == []
    else tokens != [] && exists pieces, rest ::
      pieces != [] && AllOk(pieces) && TextOf(pieces) == tokens[0]
      && EndsWord(t, Spell(pieces), rest) && Spells(rest, tokens[1..])
  }

  /** A word spelled in front of a blank or the end of the line is the scanned word. */
  lemma SpelledWord(t: string, pieces: seq<Piece>, rest: string)
    requires AllOk(pieces) && EndsWord(t, Spell(pieces), rest)
    ensures ScanWord(t, NUL) == Word(TextOf(pieces), rest)
  {
    hide Spell, TextOf, AllOk;
    var n := |Spell(pieces)|;
    var end := t[n..];
    assert t == Spell(pieces) + end;
    SpellingRead(pieces, end);
    assert TextOf(pieces) + [] == TextOf(pieces);
    if t != Spell(pieces) || rest != [] {
      assert end[1..] == rest;
    }
  }

  /** The tokenizer accepts exactly the lines that spell the tokens, as long as there is room. */
  lemma {:induction false} TokensSpell(s: string, room: nat, tokens: seq<string>)
    ensures Tokens(s, room) == Parsed(tokens) <==> |tokens| <= room && Spells(s, tokens)
    decreases |s|
  {
    hide ScanWord, SkipSpaces, AllOk, Spell, TextOf, EndsWord, Tokens;
    TokensUnfold(s, room);
    var t := SkipSpaces(s);
    if t != [] {
      if Tokens(s, room) == Parsed(tokens) {
        FirstSpelled(s, room, tokens);
      }
      if tokens != [] && |tokens| <= room {
        forall pieces, rest |
          pieces != [] && AllOk(pieces) && TextOf(pieces) == tokens[0]
          && EndsWord(t, Spell(pieces), rest) && Spells(rest, tokens[1..])
          ensures Tokens(s, room) == Parsed(tokens)
        {
          SpelledWord(t, pieces, rest);
          ScanWordShrinks(t);
          TokensSpell(rest, room - 1, tokens[1..]);
          assert [tokens[0]] + tokens[1..] == tokens;
        }
      }
    }
  }

  lemma ScanWordShrinks(t: string)
    requires t != []
    ensures ScanWord(t, NUL).Word? ==> |ScanWord(t, NUL).rest| < |t|
  {
    ScanWordFits(t, NUL);
  }

  lemma FirstSpelled(s: string, room: nat, tokens: seq<string>)
    requires SkipSpaces(s) != [] && Tokens(s, room) == Parsed(tokens)
    ensures |tokens| <= room && Spells(s, tokens)
    decreases |s|, 0
  {
    var t := SkipSpaces(s);
    hide ScanWord, SkipSpaces, AllOk, Spell, TextOf, EndsWord;
    ScanWordShrinks(t);
    var Word(text, rest) := ScanWord(t, NUL);
    var pieces := WordSpelled(t);
    assert tokens[1..] == Tokens(rest, room - 1).tokens;
    TokensSpell(rest, room - 1, tokens[1..]);
  }
}
