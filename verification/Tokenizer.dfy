/** The tokenizer of nginx.conf text, and a printer it inverts. */
module Tokenizer {
  import opened Common

  datatype Token = Word(text: string) | Semicolon | OpenBrace | CloseBrace

  predicate IsSpace(c: char) { c == ' ' || c == '\t' || c == '\n' || c == '\r' || c == '\U{C}' }

  predicate IsQuote(c: char) { c == '"' || c == '\'' }

  predicate EndsBare(c: char) { IsSpace(c) || c == ';' || c == '{' || c == '}' || c == '#' }

  // ---- The tokenizer on the text that is left ----

  /** What is left after a line comment: everything behind the next newline. */
  function AfterLine(s: string): (r: string)
    ensures |r| <= |s|
    ensures s != "" ==> |r| < |s|
  {
    if s == "" then "" else if s[0] == '\n' then s[1..] else AfterLine(s[1..])
  }

  /** A quoted word after its opening quote. A backslash takes the next character as it is; a raw
      newline or the end of the text closes the word like the quote does. */
  function QuotedWord(s: string, q: char): (r: (string, string))
    ensures |r.1| <= |s|
  {
    if s == "" then ("", "")
    else if s[0] == '\n' || s[0] == q then ("", s[1..])
    else if s[0] == '\\' then
      if |s| == 1 then ("", "")
      else
        var (w, rest) := QuotedWord(s[2..], q);
        ([s[1]] + w, rest)
    else
      var (w, rest) := QuotedWord(s[1..], q);
      ([s[0]] + w, rest)
  }

  function BareLength(s: string): (n: nat)
    ensures n <= |s| && (s != "" && !EndsBare(s[0]) ==> n > 0)
  {
    if s == "" || EndsBare(s[0]) then 0 else 1 + BareLength(s[1..])
  }

  function MarkOf(c: char): Token
    requires c == ';' || c == '{' || c == '}'
  {
    if c == ';' then Semicolon else if c == '{' then OpenBrace else CloseBrace
  }

  /** One step: the token at the front, if there is one, and the text left. */
  function Step(s: string): (r: (seq<Token>, string))
    requires s != ""
    ensures |r.1| < |s|
  {
    if IsSpace(s[0]) then ([], s[1..])
    else if s[0] == '#' then ([], AfterLine(s))
    else if s[0] == ';' || s[0] == '{' || s[0] == '}' then ([MarkOf(s[0])], s[1..])
    else if IsQuote(s[0]) then
      var (w, rest) := QuotedWord(s[1..], s[0]);
      ([Word(w)], rest)
    else
      var n := BareLength(s);
      ([Word(s[..n])], s[n..])
  }

  function Tokens(s: string): seq<Token>
    decreases |s|
  {
    if s == "" then []
    else
      var (ts, rest) := Step(s);
      ts + Tokens(rest)
  }

  // ---- The tokenizer with its cursor ----

  lemma Tail(src: string, pos: nat)
    requires pos < |src|
    ensures src[pos..] != "" && src[pos..][0] == src[pos] && src[pos..][1..] == src[pos + 1..]
  {
  }

  method SkipLine(src: string, start: nat) returns (pos: nat)
    requires start < |src| && src[start] == '#'
    ensures start < pos <= |src| && src[pos..] == AfterLine(src[start..])
  {
    pos := start;
    var more := true;
    while more
      invariant pos <= |src| && (start < pos || more)
      invariant AfterLine(src[start..]) == if more then AfterLine(src[pos..]) else src[pos..]
      decreases more, |src| - pos
    {
      if pos == |src| { more := false; break; }
      Tail(src, pos);
      more := src[pos] != '\n';
      pos := pos + 1;
    }
  }

  function Prefixed(w: string, r: (string, string)): (string, string) { (w + r.0, r.1) }

  lemma PrefixedTwice(w: string, c: char, r: (string, string))
    ensures Prefixed(w, ([c] + r.0, r.1)) == Prefixed(w + [c], r)
  {
    Assoc(w, [c], r.0);
  }

  method ReadQuoted(src: string, start: nat, q: char) returns (word: string, pos: nat)
    requires start <= |src|
    ensures start <= pos <= |src| && QuotedWord(src[start..], q) == (word, src[pos..])
  {
    word, pos := "", start;
    assert "" + QuotedWord(src[start..], q).0 == QuotedWord(src[start..], q).0;
    while pos < |src|
      invariant start <= pos <= |src|
      invariant QuotedWord(src[start..], q) == Prefixed(word, QuotedWord(src[pos..], q))
    {
      Tail(src, pos);
      var c := src[pos];
      pos := pos + 1;
      if c == '\n' || c == q { assert word + "" == word; return; }
      if c == '\\' {
        if pos < |src| {
          Tail(src, pos);
          assert src[pos - 1..][2..] == src[pos + 1..];
          PrefixedTwice(word, src[pos], QuotedWord(src[pos + 1..], q));
          word := word + [src[pos]];
          pos := pos + 1;
        }
      } else {
        PrefixedTwice(word, c, QuotedWord(src[pos..], q));
        word := word + [c];
      }
    }
    assert word + "" == word;
  }

  method ReadBare(src: string, start: nat) returns (word: string, pos: nat)
    requires start < |src| && !EndsBare(src[start])
    ensures start < pos <= |src| && word == src[start..pos] && pos == start + BareLength(src[start..])
  {
    pos := start;
    word := "";
    while pos < |src| && !EndsBare(src[pos])
      invariant start <= pos <= |src| && word == src[start..pos]
      invariant BareLength(src[start..]) == (pos - start) + BareLength(src[pos..])
    {
      Tail(src, pos);
      word := word + [src[pos]];
      pos := pos + 1;
    }
    if pos < |src| { Tail(src, pos); }
  }

  method Tokenize(src: string) returns (tokens: seq<Token>)
    ensures tokens == Tokens(src)
  {
    hide QuotedWord, BareLength, AfterLine;
    tokens := [];
    var pos: nat := 0;
    assert src[0..] == src && [] + Tokens(src) == Tokens(src);
    while pos < |src|
      invariant pos <= |src|
      invariant tokens + Tokens(src[pos..]) == Tokens(src)
    {
      var c := src[pos];
      Tail(src, pos);
      ghost var before := pos;
      var pushed: seq<Token> := [];
      if IsSpace(c) {
        pos := pos + 1;
      } else if c == '#' {
        pos := SkipLine(src, pos);
      } else if c == ';' || c == '{' || c == '}' {
        pushed, pos := [MarkOf(c)], pos + 1;
      } else if IsQuote(c) {
        var word;
        word, pos := ReadQuoted(src, pos + 1, c);
        pushed := [Word(word)];
      } else {
        var word;
        word, pos := ReadBare(src, pos);
        pushed := [Word(word)];
        assert src[before..][..pos - before] == word && src[before..][pos - before..] == src[pos..];
      }
      assert Step(src[before..]) == (pushed, src[pos..]);
      Assoc(tokens, pushed, Tokens(src[pos..]));
      tokens := tokens + pushed;
    }
    assert src[pos..] == "" && tokens + [] == tokens;
  }

  // ---- Printing ----

  /** A piece of printed configuration text. A quoted word may carry more backslashes than it needs, and may
      be closed by a raw newline instead of its quote. */
  datatype Piece =
    | Blank(c: char)
    | Comment(line: string)
    | Mark(token: Token)
    | Bare(word: string)
    | Quoted(q: char, word: string, extra: seq<bool>, close: char)

  function EscapedChar(c: char, q: char, extra: seq<bool>): string {
    if c == '\\' || c == '\n' || c == q || (extra != [] && extra[0]) then ['\\', c] else [c]
  }

  /** A word with a backslash before every character that needs one, and before those that `extra` names. */
  function Escaped(w: string, q: char, extra: seq<bool>): string {
    if w == "" then "" else EscapedChar(w[0], q, extra) + Escaped(w[1..], q, Drop(extra, 1))
  }

  function PieceText(p: Piece): string {
    match p
    case Blank(c) => [c]
    case Comment(line) => "#" + line + "\n"
    case Mark(Semicolon) => ";"
    case Mark(OpenBrace) => "{"
    case Mark(_) => "}"
    case Bare(w) => w
    case Quoted(q, w, extra, close) => [q] + Escaped(w, q, extra) + [close]
  }

  function Print(ps: seq<Piece>): string {
    if ps == [] then "" else PieceText(ps[0]) + Print(ps[1..])
  }

  function PieceTokens(p: Piece): seq<Token> {
    match p
    case Blank(_) => []
    case Comment(_) => []
    case Mark(t) => [t]
    case Bare(w) => [Word(w)]
    case Quoted(_, w, _, _) => [Word(w)]
  }

  function TokensOf(ps: seq<Piece>): seq<Token> {
    if ps == [] then [] else PieceTokens(ps[0]) + TokensOf(ps[1..])
  }

  const BLANKS: set<char> := {' ', '\t', '\n', '\r', '\U{C}'}
  const QUOTES: set<char> := {'"', '\''}

  /** A word that needs no quotes: it starts with none, and holds no blank, mark or hash sign. */
  predicate BareWord(w: string) {
    w != "" && w[0] !in QUOTES && forall i | 0 <= i < |w| :: w[i] !in BLANKS && w[i] !in {';', '{', '}', '#'}
  }

  predicate GoodPiece(p: Piece) {
    match p
    case Blank(c) => c in BLANKS
    case Comment(line) => '\n' !in line
    case Mark(t) => !t.Word?
    case Bare(w) => BareWord(w)
    case Quoted(q, _, _, close) => q in QUOTES && (close == q || close == '\n')
  }

  /** Any pieces in any order, except that a bare word needs something other than a word behind it. */
  predicate WellPrinted(ps: seq<Piece>) {
    && (forall i | 0 <= i < |ps| :: GoodPiece(ps[i]))
    && (forall i | 0 <= i < |ps| - 1 :: ps[i].Bare? ==> !ps[i + 1].Bare? && !ps[i + 1].Quoted?)
  }

  lemma {:induction false} CommentEnds(line: string, rest: string)
    requires '\n' !in line
    ensures AfterLine(line + "\n" + rest) == rest
  {
    var s := line + "\n" + rest;
    if line == "" {
      assert s[1..] == rest;
    } else {
      assert line[0] in line && s[1..] == line[1..] + "\n" + rest;
      CommentEnds(line[1..], rest);
    }
  }

  lemma CharReadsBack(c: char, q: char, extra: seq<bool>, tail: string)
    requires IsQuote(q)
    ensures QuotedWord(EscapedChar(c, q, extra) + tail, q) == Prefixed([c], QuotedWord(tail, q))
  {
    var s := EscapedChar(c, q, extra) + tail;
    if |EscapedChar(c, q, extra)| == 2 {
      assert s[0] == '\\' && s[1] == c && s[2..] == tail;
    } else {
      assert s[0] == c && s[1..] == tail;
    }
  }

  /** The word read is the word escaped, if what stands behind it closes it. */
  lemma {:induction false} EscapedReadsBack(w: string, q: char, extra: seq<bool>, tail: string, rest: string)
    requires IsQuote(q) && QuotedWord(tail, q) == ("", rest)
    ensures QuotedWord(Escaped(w, q, extra) + tail, q) == (w, rest)
    decreases |w|
  {
    if w == "" {
      assert Escaped(w, q, extra) + tail == tail;
    } else {
      var more := Escaped(w[1..], q, Drop(extra, 1));
      assert Escaped(w, q, extra) + tail == EscapedChar(w[0], q, extra) + (more + tail);
      hide QuotedWord, Escaped, EscapedChar;
      CharReadsBack(w[0], q, extra, more + tail);
      EscapedReadsBack(w[1..], q, Drop(extra, 1), tail, rest);
      assert [w[0]] + w[1..] == w;
    }
  }

  lemma QuoteCloses(q: char, close: char, rest: string)
    requires IsQuote(q) && (close == q || close == '\n')
    ensures QuotedWord([close] + rest, q) == ("", rest)
  {
    assert ([close] + rest)[1..] == rest;
  }

  lemma {:induction false} BareEnds(w: string, rest: string)
    requires (forall i | 0 <= i < |w| :: !EndsBare(w[i])) && (rest != "" ==> EndsBare(rest[0]))
    ensures BareLength(w + rest) == |w|
    decreases |w|
  {
    if w == "" {
      assert w + rest == rest;
    } else {
      assert (w + rest)[1..] == w[1..] + rest;
      BareEnds(w[1..], rest);
    }
  }

  lemma StepReadsQuoted(p: Piece, rest: string)
    requires p.Quoted? && GoodPiece(p)
    ensures Step(PieceText(p) + rest) == ([Word(p.word)], rest)
  {
    var escaped := Escaped(p.word, p.q, p.extra);
    assert (PieceText(p) + rest)[1..] == escaped + ([p.close] + rest);
    QuoteCloses(p.q, p.close, rest);
    EscapedReadsBack(p.word, p.q, p.extra, [p.close] + rest, rest);
    hide QuotedWord, Escaped, AfterLine, BareLength;
  }

  /** The end of the text closes what is open: a comment, and a quoted word, even behind a backslash. */
  lemma EndOfTextCloses(line: string, q: char, w: string, extra: seq<bool>)
    requires '\n' !in line && IsQuote(q)
    ensures Tokens("#" + line) == []
    ensures Tokens([q] + Escaped(w, q, extra)) == [Word(w)]
    ensures Tokens([q] + Escaped(w, q, extra) + "\\") == [Word(w)]
  {
    var escaped := Escaped(w, q, extra);
    LastComment("#" + line);
    EscapedReadsBack(w, q, extra, "", "");
    EscapedReadsBack(w, q, extra, "\\", "");
    assert ([q] + escaped)[1..] == escaped && escaped + "" == escaped;
    assert ([q] + escaped + "\\")[1..] == escaped + "\\";
    hide QuotedWord, Escaped, AfterLine, BareLength;
    OneToken("#" + line, []);
    OneToken([q] + escaped, [Word(w)]);
    OneToken([q] + escaped + "\\", [Word(w)]);
  }

  lemma {:induction false} LastComment(s: string)
    requires '\n' !in s
    ensures AfterLine(s) == ""
  {
    if s != "" { LastComment(s[1..]); }
  }

  lemma OneToken(s: string, ts: seq<Token>)
    requires s != "" && Step(s) == (ts, "")
    ensures Tokens(s) == ts
  {
    assert Tokens("") == [] && ts + [] == ts;
  }

  lemma BareIsNotMarked(w: string)
    requires BareWord(w)
    ensures w != "" && !IsQuote(w[0]) && forall i | 0 <= i < |w| :: !EndsBare(w[i])
  {
  }

  lemma StepReadsBare(w: string, rest: string)
    requires BareWord(w) && (rest != "" ==> EndsBare(rest[0]))
    ensures Step(w + rest) == ([Word(w)], rest)
  {
    BareIsNotMarked(w);
    hide BareWord, BareLength, QuotedWord, AfterLine;
    BareEnds(w, rest);
    CutAppend(w, rest);
    assert (w + rest)[0] == w[0];
  }

  /** One piece is one step, whatever follows; a bare word must be followed by a delimiter. */
  lemma StepReadsPiece(p: Piece, rest: string)
    requires GoodPiece(p)
    requires p.Bare? && rest != "" ==> EndsBare(rest[0])
    ensures PieceText(p) != "" && Step(PieceText(p) + rest) == (PieceTokens(p), rest)
  {
    hide AfterLine, QuotedWord, BareLength, Escaped, BareWord;
    var s := PieceText(p) + rest;
    match p {
      case Blank(c) => assert s[1..] == rest;
      case Comment(line) =>
        assert s[1..] == line + "\n" + rest;
        CommentStarts(line, rest);
        CommentEnds(line, rest);
      case Mark(t) => assert s[1..] == rest;
      case Bare(w) =>
        BareIsNotMarked(w);
        StepReadsBare(w, rest);
      case Quoted(_, _, _, _) => StepReadsQuoted(p, rest);
    }
  }

  lemma CommentStarts(line: string, rest: string)
    ensures AfterLine("#" + line + "\n" + rest) == AfterLine(line + "\n" + rest)
  {
    var s := "#" + line + "\n" + rest;
    assert s[0] == '#' && s[1..] == line + "\n" + rest;
  }

  lemma FirstCharacter(ps: seq<Piece>)
    requires ps != [] && GoodPiece(ps[0]) && !ps[0].Bare? && !ps[0].Quoted?
    ensures Print(ps) != "" && EndsBare(Print(ps)[0])
  {
    assert |PieceText(ps[0])| > 0 && Print(ps)[0] == PieceText(ps[0])[0];
  }

  /** The tokenizer inverts the printer: any words, quoted with their escapes or bare, with any
      whitespace and newline-terminated comments around them, read back as the same tokens. */
  lemma {:induction false} TokenizerInvertsPrint(ps: seq<Piece>)
    requires WellPrinted(ps)
    ensures Tokens(Print(ps)) == TokensOf(ps)
  {
    if ps != [] {
      var rest := ps[1..];
      assert forall i | 0 <= i < |rest| :: rest[i] == ps[i + 1];
      TokenizerInvertsPrint(rest);
      if ps[0].Bare? && rest != [] {
        assert !ps[0 + 1].Bare?;
        FirstCharacter(rest);
      }
      StepReadsPiece(ps[0], Print(rest));
      hide Step, PieceText, PieceTokens;
    }
  }

  /** Every token sequence has a printed form: each word in double quotes, nothing between tokens. */
  function QuoteAll(ts: seq<Token>): seq<Piece> {
    if ts == [] then []
    else [match ts[0] case Word(w) => Quoted('"', w, [], '"') case t => Mark(t)] + QuoteAll(ts[1..])
  }

  lemma {:induction false} EveryTokenSequencePrints(ts: seq<Token>)
    ensures WellPrinted(QuoteAll(ts)) && TokensOf(QuoteAll(ts)) == ts && Tokens(Print(QuoteAll(ts))) == ts
  {
    QuoteAllFacts(ts);
    TokenizerInvertsPrint(QuoteAll(ts));
  }

  lemma {:induction false} QuoteAllFacts(ts: seq<Token>)
    ensures WellPrinted(QuoteAll(ts)) && TokensOf(QuoteAll(ts)) == ts
    ensures forall i | 0 <= i < |QuoteAll(ts)| :: !QuoteAll(ts)[i].Bare?
  {
    if ts != [] {
      QuoteAllFacts(ts[1..]);
      assert ts == [ts[0]] + ts[1..];
      assert QuoteAll(ts)[1..] == QuoteAll(ts[1..]);
    }
  }
}
