/** The quote-and-escape tokenizer for `PodmanArgs=`. */
module PodmanArgs {
  import opened Text

  /** The tokenizer's variables. */
  datatype Lexer = Lexer(tokens: seq<string>, current: string, inSingle: bool, inDouble: bool, escaped: bool)

  const START := Lexer([], "", false, false, false)

  function Feed(x: Lexer, c: char): Lexer {
    if x.escaped then x.(current := x.current + [c], escaped := false)
    else if c == '\\' && !x.inSingle then x.(escaped := true)
    else if c == '\'' && !x.inDouble then x.(inSingle := !x.inSingle)
    else if c == '"' && !x.inSingle then x.(inDouble := !x.inDouble)
    else if IsSpace(c) && !x.inSingle && !x.inDouble then
      if x.current != "" then x.(tokens := x.tokens + [x.current], current := "") else x
    else x.(current := x.current + [c])
  }

  function FeedAll(x: Lexer, s: string): Lexer
    decreases |s|
  {
    if s == "" then x else FeedAll(Feed(x, s[0]), s[1..])
  }

  function Finish(x: Lexer): seq<string> {
    var current := if x.escaped then x.current + "\\" else x.current;
    if current != "" then x.tokens + [current] else x.tokens
  }

  function Split(value: string): seq<string> {
    Finish(FeedAll(START, value))
  }

  /** `split_podman_args`. */
  method SplitPodmanArgs(value: string) returns (tokens: seq<string>)
    ensures tokens == Split(value)
  {
    tokens := [];
    var current, inSingle, inDouble, escaped := "", false, false, false;
    var i := 0;
    while i < |value|
      invariant 0 <= i <= |value|
      invariant FeedAll(START, value) == FeedAll(Lexer(tokens, current, inSingle, inDouble, escaped), value[i..])
    {
      var c := value[i];
      assert value[i..][0] == c && value[i..][1..] == value[i + 1..];
      i := i + 1;
      if escaped {
        current := current + [c];
        escaped := false;
        continue;
      }
      if c == '\\' && !inSingle {
        escaped := true;
        continue;
      }
      if c == '\'' && !inDouble {
        inSingle := !inSingle;
        continue;
      }
      if c == '"' && !inSingle {
        inDouble := !inDouble;
        continue;
      }
      if IsSpace(c) && !inSingle && !inDouble {
        if current != "" {
          tokens := tokens + [current];
          current := "";
        }
        continue;
      }
      current := current + [c];
    }
    if escaped {
      current := current + "\\";
    }
    if current != "" {
      tokens := tokens + [current];
    }
  }

  // ----- Ways to write a token -----

  datatype Quoted = Plain(c: char) | Backslashed(c: char)

  /** A character as it is, behind a backslash, or a run of them in single or double quotes. */
  datatype Piece = Raw(c: char) | Escaped(c: char) | SingleQuoted(text: string) | DoubleQuoted(parts: seq<Quoted>)

  predicate Special(c: char) {
    c == '\\' || c == '\'' || c == '"'
  }

  ghost predicate Legal(p: Piece) {
    match p
    case Raw(c) => !IsSpace(c) && !Special(c)
    case Escaped(_) => true
    case SingleQuoted(text) => '\'' !in text
    case DoubleQuoted(text) => forall q <- text :: q.Plain? ==> q.c != '"' && q.c != '\\'
  }

  function ShowQuoted(text: seq<Quoted>): string {
    if text == [] then ""
    else (if text[0].Plain? then [text[0].c] else ['\\', text[0].c]) + ShowQuoted(text[1..])
  }

  function MeantQuoted(text: seq<Quoted>): string {
    if text == [] then "" else [text[0].c] + MeantQuoted(text[1..])
  }

  function Show(p: Piece): string {
    match p
    case Raw(c) => [c]
    case Escaped(c) => ['\\', c]
    case SingleQuoted(text) => "'" + text + "'"
    case DoubleQuoted(text) => "\"" + ShowQuoted(text) + "\""
  }

  function Meant(p: Piece): string {
    match p
    case Raw(c) => [c]
    case Escaped(c) => [c]
    case SingleQuoted(text) => text
    case DoubleQuoted(text) => MeantQuoted(text)
  }

  function ShowAll(ps: seq<Piece>): string {
    if ps == [] then "" else Show(ps[0]) + ShowAll(ps[1..])
  }

  function MeantAll(ps: seq<Piece>): string {
    if ps == [] then "" else Meant(ps[0]) + MeantAll(ps[1..])
  }

  /** One token with the white space in front of it. */
  datatype Word = Word(gap: string, pieces: seq<Piece>)

  ghost predicate LegalWord(w: Word) {
    AllSpace(w.gap) && (forall p <- w.pieces :: Legal(p)) && MeantAll(w.pieces) != ""
  }

  /** Tokens are non-empty and apart; the first may stand at the very start. */
  ghost predicate LegalWords(ws: seq<Word>, first: bool) {
    ws != [] ==> LegalWord(ws[0]) && (first || ws[0].gap != "") && LegalWords(ws[1..], false)
  }

  /** The words one after the other, then `tail`. */
  function ShowWords(ws: seq<Word>, tail: string): string {
    if ws == [] then tail else ws[0].gap + (ShowAll(ws[0].pieces) + ShowWords(ws[1..], tail))
  }

  function MeantWords(ws: seq<Word>): seq<string> {
    if ws == [] then [] else [MeantAll(ws[0].pieces)] + MeantWords(ws[1..])
  }

  // ----- Reading them back -----

  lemma {:induction false} FeedAllAppends(x: Lexer, a: string, b: string)
    ensures FeedAll(x, a + b) == FeedAll(FeedAll(x, a), b)
    decreases |a|
  {
    if a == "" {
      assert a + b == b;
    } else {
      assert (a + b)[1..] == a[1..] + b;
      FeedAllAppends(Feed(x, a[0]), a[1..], b);
    }
  }

  predicate Between(x: Lexer) {
    !x.inSingle && !x.inDouble && !x.escaped
  }

  lemma {:induction false} SingleReads(x: Lexer, text: string)
    requires x.inSingle && !x.inDouble && !x.escaped && '\'' !in text
    ensures FeedAll(x, text) == x.(current := x.current + text)
    decreases |text|
  {
    if text == "" {
      assert x.current + text == x.current;
    } else {
      assert text[0] in text && forall c <- text[1..] :: c in text;
      SingleReads(x.(current := x.current + [text[0]]), text[1..]);
      assert x.current + [text[0]] + text[1..] == x.current + text;
    }
  }

  lemma QuotedReads(x: Lexer, q: Quoted, rest: string)
    requires x.inDouble && !x.inSingle && !x.escaped && (q.Plain? ==> q.c != '"' && q.c != '\\')
    ensures FeedAll(x, (if q.Plain? then [q.c] else ['\\', q.c]) + rest) == FeedAll(x.(current := x.current + [q.c]), rest)
  {
    if q.Plain? {
      FeedAllAppends(x, [q.c], rest);
      FeedOne(x, q.c);
    } else {
      FeedAllAppends(x, ['\\', q.c], rest);
      FeedTwo(x, '\\', q.c);
    }
  }

  lemma {:induction false} DoubleReads(x: Lexer, text: seq<Quoted>)
    requires x.inDouble && !x.inSingle && !x.escaped && Legal(DoubleQuoted(text))
    ensures FeedAll(x, ShowQuoted(text)) == x.(current := x.current + MeantQuoted(text))
    decreases |text|
  {
    if text == [] {
      assert x.current + MeantQuoted(text) == x.current;
    } else {
      var q := text[0];
      assert q in text && forall r <- text[1..] :: r in text;
      QuotedReads(x, q, ShowQuoted(text[1..]));
      DoubleReads(x.(current := x.current + [q.c]), text[1..]);
      RegroupChars(x.current, q.c, MeantQuoted(text[1..]));
    }
  }

  lemma RegroupChars(done: string, c: char, more: string)
    ensures done + [c] + more == done + ([c] + more)
  {
  }

  lemma FeedOne(x: Lexer, c: char)
    ensures FeedAll(x, [c]) == Feed(x, c)
  {
    assert [c][1..] == "";
  }

  lemma FeedTwo(x: Lexer, c: char, d: char)
    ensures FeedAll(x, [c, d]) == Feed(Feed(x, c), d)
  {
    assert [c, d][1..] == [d];
    FeedOne(Feed(x, c), d);
  }

  lemma PieceReads(x: Lexer, p: Piece)
    requires Between(x) && Legal(p)
    ensures FeedAll(x, Show(p)) == x.(current := x.current + Meant(p))
  {
    match p {
      case Raw(c) => FeedOne(x, c);
      case Escaped(c) => FeedTwo(x, '\\', c);
      case SingleQuoted(text) =>
        FeedAllAppends(x, "'" + text, "'");
        FeedAllAppends(x, "'", text);
        FeedOne(x, '\'');
        var y := x.(inSingle := true);
        SingleReads(y, text);
        FeedOne(y.(current := x.current + text), '\'');
      case DoubleQuoted(text) =>
        FeedAllAppends(x, "\"" + ShowQuoted(text), "\"");
        FeedAllAppends(x, "\"", ShowQuoted(text));
        FeedOne(x, '"');
        var y := x.(inDouble := true);
        DoubleReads(y, text);
        FeedOne(y.(current := x.current + MeantQuoted(text)), '"');
    }
  }

  lemma Chain(x: Lexer, shown: string, meant: string, restShown: string, restMeant: string)
    requires FeedAll(x, shown) == x.(current := x.current + meant)
    requires FeedAll(x.(current := x.current + meant), restShown) == x.(current := x.current + meant + restMeant)
    ensures FeedAll(x, shown + restShown) == x.(current := x.current + (meant + restMeant))
  {
    FeedAllAppends(x, shown, restShown);
    assert x.current + meant + restMeant == x.current + (meant + restMeant);
  }

  lemma {:induction false} PiecesRead(x: Lexer, ps: seq<Piece>)
    requires Between(x) && forall p <- ps :: Legal(p)
    ensures FeedAll(x, ShowAll(ps)) == x.(current := x.current + MeantAll(ps))
    decreases |ps|
  {
    if ps == [] {
      assert x.current + MeantAll(ps) == x.current;
    } else {
      assert ps[0] in ps && forall p <- ps[1..] :: p in ps;
      PieceReads(x, ps[0]);
      var shown, meant := Show(ps[0]), Meant(ps[0]);
      PiecesRead(x.(current := x.current + meant), ps[1..]);
      Chain(x, shown, meant, ShowAll(ps[1..]), MeantAll(ps[1..]));
    }
  }

  lemma {:induction false} GapReads(x: Lexer, gap: string)
    requires Between(x) && AllSpace(gap)
    ensures FeedAll(x, gap) ==
            if gap != "" && x.current != "" then x.(tokens := x.tokens + [x.current], current := "") else x
    decreases |gap|
  {
    if gap != "" {
      GapReads(Feed(x, gap[0]), gap[1..]);
    }
  }

  /** The tokens once the current one is closed. */
  function Closed(x: Lexer): seq<string> {
    if x.current == "" then x.tokens else x.tokens + [x.current]
  }

  lemma WordReads(x: Lexer, w: Word, rest: string)
    requires Between(x) && AllSpace(w.gap) && (w.gap != "" || x.current == "")
    requires forall p <- w.pieces :: Legal(p)
    ensures FeedAll(x, w.gap + (ShowAll(w.pieces) + rest)) == FeedAll(Lexer(Closed(x), MeantAll(w.pieces), false, false, false), rest)
  {
    var y := Lexer(Closed(x), "", false, false, false);
    FeedAllAppends(x, w.gap, ShowAll(w.pieces) + rest);
    GapReads(x, w.gap);
    FeedAllAppends(y, ShowAll(w.pieces), rest);
    PiecesRead(y, w.pieces);
    assert "" + MeantAll(w.pieces) == MeantAll(w.pieces);
  }

  lemma TailReads(x: Lexer, tail: string)
    requires Between(x) && AllSpace(tail)
    ensures Finish(FeedAll(x, tail)) == Closed(x)
  {
    GapReads(x, tail);
  }

  lemma WordThenRest(x: Lexer, w: Word, rest: string, tokens: seq<string>)
    requires Between(x) && LegalWord(w) && (w.gap != "" || x.current == "")
    requires Finish(FeedAll(Lexer(Closed(x), MeantAll(w.pieces), false, false, false), rest)) == tokens
    ensures Finish(FeedAll(x, w.gap + (ShowAll(w.pieces) + rest))) == tokens
  {
    WordReads(x, w, rest);
  }

  lemma {:induction false} WordsRead(x: Lexer, ws: seq<Word>, tail: string)
    requires Between(x) && LegalWords(ws, x.current == "") && AllSpace(tail)
    ensures Finish(FeedAll(x, ShowWords(ws, tail))) == Closed(x) + MeantWords(ws)
    decreases |ws|
  {
    if ws == [] {
      TailReads(x, tail);
      assert Closed(x) + [] == Closed(x);
    } else {
      var w, rest := ws[0], ShowWords(ws[1..], tail);
      var y := Lexer(Closed(x), MeantAll(w.pieces), false, false, false);
      WordsRead(y, ws[1..], tail);
      WordThenRest(x, w, rest, Closed(y) + MeantWords(ws[1..]));
      Regroup(Closed(x), MeantAll(w.pieces), MeantWords(ws[1..]));
    }
  }

  lemma Regroup(done: seq<string>, token: string, more: seq<string>)
    ensures done + [token] + more == done + ([token] + more)
  {
  }

  lemma NothingBefore(tokens: seq<string>)
    ensures [] + tokens == tokens
  {
  }

  /** Tokenizer round trip: however each character of each token is written (raw, behind a backslash, in
      single or in double quotes) and however wide the gaps are, the tokens come back. */
  lemma TokensReadBack(ws: seq<Word>, tail: string)
    requires LegalWords(ws, true) && AllSpace(tail)
    ensures Split(ShowWords(ws, tail)) == MeantWords(ws)
  {
    WordsRead(START, ws, tail);
    NothingBefore(MeantWords(ws));
  }

  /** Any two renderings of the same tokens are the same to the tokenizer. */
  lemma RenderingIsIrrelevant(ws1: seq<Word>, tail1: string, ws2: seq<Word>, tail2: string)
    requires LegalWords(ws1, true) && AllSpace(tail1) && LegalWords(ws2, true) && AllSpace(tail2)
    requires MeantWords(ws1) == MeantWords(ws2)
    ensures Split(ShowWords(ws1, tail1)) == Split(ShowWords(ws2, tail2))
  {
    TokensReadBack(ws1, tail1);
    TokensReadBack(ws2, tail2);
  }

  // ----- Texts that end inside a quote or behind a backslash -----

  /** Where the lexer stands after some words. */
  function AfterWords(x: Lexer, ws: seq<Word>): Lexer
    decreases |ws|
  {
    if ws == [] then x else AfterWords(Lexer(Closed(x), MeantAll(ws[0].pieces), false, false, false), ws[1..])
  }

  lemma {:induction false} WordsFeed(x: Lexer, ws: seq<Word>, tail: string)
    requires Between(x) && LegalWords(ws, x.current == "")
    ensures FeedAll(x, ShowWords(ws, tail)) == FeedAll(AfterWords(x, ws), tail)
    ensures Between(AfterWords(x, ws)) && Closed(AfterWords(x, ws)) == Closed(x) + MeantWords(ws)
    ensures ws != [] ==> AfterWords(x, ws).current != ""
    decreases |ws|
  {
    if ws == [] {
      assert Closed(x) + [] == Closed(x);
    } else {
      WordReads(x, ws[0], ShowWords(ws[1..], tail));
      WordsFeed(Lexer(Closed(x), MeantAll(ws[0].pieces), false, false, false), ws[1..], tail);
      Regroup(Closed(x), MeantAll(ws[0].pieces), MeantWords(ws[1..]));
    }
  }

  lemma LastOf(x: Lexer, tokens: seq<string>)
    requires x.current != "" && Closed(x) == tokens
    ensures tokens != [] && x.tokens == tokens[..|tokens| - 1] && x.current == tokens[|tokens| - 1]
  {
  }

  /** A backslash at the very end belongs to the last token, and so does all that follows an open quote. */
  lemma UnfinishedEnds(ws: seq<Word>, text: string)
    requires ws != [] && LegalWords(ws, true) && '\'' !in text
    ensures var tokens := MeantWords(ws);
      && tokens != []
      && var front, last := tokens[..|tokens| - 1], tokens[|tokens| - 1];
        && Split(ShowWords(ws, "\\")) == front + [last + "\\"]
        && Split(ShowWords(ws, "'" + text)) == front + [last + text]
  {
    WordsFeed(START, ws, "\\");
    WordsFeed(START, ws, "'" + text);
    NothingBefore(MeantWords(ws));
    var x := AfterWords(START, ws);
    LastOf(x, MeantWords(ws));
    FeedOne(x, '\\');
    FeedAllAppends(x, "'", text);
    FeedOne(x, '\'');
    SingleReads(x.(inSingle := true), text);
  }

  // ----- Sizes -----

  function Total(tokens: seq<string>): nat {
    if tokens == [] then 0 else Total(tokens[..|tokens| - 1]) + |tokens[|tokens| - 1]|
  }

  function Held(x: Lexer): nat {
    Total(x.tokens) + |x.current| + (if x.escaped then 1 else 0)
  }

  lemma {:induction false} FeedNeverGrows(x: Lexer, s: string)
    requires "" !in x.tokens
    ensures Held(FeedAll(x, s)) <= Held(x) + |s|
    ensures "" !in FeedAll(x, s).tokens
    decreases |s|
  {
    if s != "" {
      var y := Feed(x, s[0]);
      assert y.tokens == x.tokens || y.tokens[..|y.tokens| - 1] == x.tokens;
      FeedNeverGrows(y, s[1..]);
    }
  }

  /** No token is empty, and the tokens together are no longer than the value. */
  lemma TokensAreBounded(value: string)
    ensures "" !in Split(value)
    ensures Total(Split(value)) <= |value|
  {
    FeedNeverGrows(START, value);
    var x := FeedAll(START, value);
    var tokens := Split(value);
    assert tokens == x.tokens || tokens[..|tokens| - 1] == x.tokens;
  }
}
