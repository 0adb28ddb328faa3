/**
 * What the tokenizer promises: one-character tokens, string literals with
 * backslash escapes, atoms ended by delimiters, keyword and number
 * classification, comments, and a round trip from canonical token text.
 */
module TokenLaws {
  import opened Types
  import opened Decimal
  import opened Tokens

  predicate Blank(ws: string) {
    forall i :: 0 <= i < |ws| ==> IsSpace(ws[i])
  }

  /** A rune that makes NextToken read a symbol-like atom. */
  predicate StartsAtom(c: char) {
    !IsDelimiter(c) && c != ';' && c != '\'' && c != '"' && c != ':'
  }

  /** Leading white space is skipped before a token. */
  lemma {:induction false} BlankSkipped(ws: string, rest: string)
    requires Blank(ws)
    ensures LexRune(ws + rest) == LexRune(rest)
    decreases |ws|
  {
    if ws != [] {
      var x := ws + rest;
      assert x[0] == ws[0] && x[1..] == ws[1..] + rest;
      assert SkipTop(x[0], x[1..]) == Some((ws[0], x[1..]));
      assert LexRune(x) == LexRune(ws[1..] + rest);
      BlankSkipped(ws[1..], rest);
    } else {
      assert ws + rest == rest;
    }
  }

  /** NextToken and Tokenize depend on the input only through NextRune. */
  lemma SameRuneSameTokens(a: string, b: string)
    requires LexRune(a) == LexRune(b)
    ensures LexToken(a) == LexToken(b) && LexAll(a) == LexAll(b)
  {
    assert LexToken(a) == LexToken(b);
    LexAllStep(a);
    LexAllStep(b);
  }

  /** A first rune that is neither white space nor a comment starts the
      token. */
  lemma TokenStarts(x: string)
    requires x != [] && x[0] != ';' && !IsSpace(x[0])
    ensures LexRune(x) == Some((x[0], x[1..]))
    ensures LexToken(x) == TokenAfter(x[0], x[1..])
  {
    assert SkipTop(x[0], x[1..]) == Some((x[0], x[1..]));
  }

  /** Each of `[ ] ( ) ' .` is a whole token without payload. */
  lemma PunctuationRead(c: char, rest: string)
    requires IsPunctuation(c)
    ensures LexToken([c] + rest) == Success((Bare(PunctuationKind(c)), rest))
  {
    var x := [c] + rest;
    assert x[0] == c && x[1..] == rest;
    TokenStarts(x);
  }

  // ---------------------------------------------------------------------------
  // Comments

  /** Once a comment line has ended, skipping proceeds exactly as NextRune. */
  lemma {:induction false} AfterNewline(rest: string)
    ensures SkipCommentLoop(rest, true) == LexRune(rest)
    decreases |rest|
  {
    if rest != [] && rest[0] != ';' && IsSpace(rest[0]) {
      AfterNewline(rest[1..]);
    }
  }

  lemma {:induction false} CommentLine(c: string, rest: string)
    requires '\n' !in c
    ensures SkipCommentLoop(c + ['\n'] + rest, false) == SkipCommentLoop(rest, true)
    decreases |c|
  {
    var s := c + ['\n'] + rest;
    if c == [] {
      assert s[0] == '\n' && s[1..] == rest;
    } else {
      assert s[0] == c[0] && s[1..] == c[1..] + ['\n'] + rest;
      CommentLine(c[1..], rest);
    }
  }

  lemma {:induction false} CommentToEnd(c: string, newline: bool)
    requires '\n' !in c && !newline
    ensures SkipCommentLoop(c, newline) == None
    decreases |c|
  {
    if c != [] {
      CommentToEnd(c[1..], false);
    }
  }

  /** A `;` comment is skipped to the end of its line, together with the
      white space and further comment lines after it. */
  lemma CommentSkipped(c: string, rest: string)
    requires '\n' !in c
    ensures LexRune([';'] + c + ['\n'] + rest) == LexRune(rest)
    ensures LexAll([';'] + c + ['\n'] + rest) == LexAll(rest)
  {
    var s := [';'] + c + ['\n'] + rest;
    assert s[0] == ';' && s[1..] == c + ['\n'] + rest;
    CommentLine(c, rest);
    AfterNewline(rest);
    SameRuneSameTokens(s, rest);
  }

  /** A comment running to the end of the input ends tokenization normally. */
  lemma CommentEndsInput(c: string)
    requires '\n' !in c
    ensures LexRune([';'] + c) == None
    ensures LexAll([';'] + c) == Success([])
  {
    assert ([';'] + c)[1..] == c;
    CommentToEnd(c, false);
  }

  // ---------------------------------------------------------------------------
  // String literals

  /** String text with every `"` and `\` preceded by a backslash. */
  function Escape(s: string): string {
    if s == [] then []
    else (if s[0] == '"' || s[0] == '\\' then ['\\', s[0]] else [s[0]]) + Escape(s[1..])
  }

  /** Reading an escaped body and its closing quote gives back the text:
      each backslash is dropped and the character after it kept literally. */
  lemma {:induction false} EscapedStringRead(s: string, rest: string, buf: string)
    ensures LexString(Escape(s) + ['"'] + rest, buf) == Success((Token(StringToken, 0, buf + s), rest))
    decreases |s|
  {
    var x := Escape(s) + ['"'] + rest;
    if s == [] {
      assert x == ['"'] + rest && x[1..] == rest;
      assert buf + s == buf;
    } else {
      assert buf + s == (buf + [s[0]]) + s[1..];
      if s[0] == '"' || s[0] == '\\' {
        assert x == ['\\', s[0]] + (Escape(s[1..]) + ['"'] + rest);
        assert x[2..] == Escape(s[1..]) + ['"'] + rest;
      } else {
        assert x == [s[0]] + (Escape(s[1..]) + ['"'] + rest);
        assert x[1..] == Escape(s[1..]) + ['"'] + rest;
      }
      EscapedStringRead(s[1..], rest, buf + [s[0]]);
    }
  }

  lemma Quoted(e: string, rest: string)
    ensures var x := ['"'] + e + ['"'] + rest;
            x[0] == '"' && x[1..] == e + ['"'] + rest
  {
  }

  /** A quoted literal is one String token carrying the unescaped text. */
  lemma StringLiteralRead(s: string, rest: string)
    ensures LexToken(['"'] + Escape(s) + ['"'] + rest) == Success((Token(StringToken, 0, s), rest))
  {
    var x := ['"'] + Escape(s) + ['"'] + rest;
    Quoted(Escape(s), rest);
    TokenStarts(x);
    EscapedStringRead(s, rest, []);
    AppendNil(s);
  }

  /** Without a closing quote, or ending in a lone backslash, the body fails. */
  lemma {:induction false} UnterminatedBody(s: string, buf: string)
    ensures LexString(Escape(s), buf) == Failure(UnexpectedEOF)
    ensures LexString(Escape(s) + ['\\'], buf) == Failure(UnexpectedEOF)
    decreases |s|
  {
    if s != [] {
      var x := Escape(s);
      var y := Escape(s) + ['\\'];
      if s[0] == '"' || s[0] == '\\' {
        assert x == ['\\', s[0]] + Escape(s[1..]) && x[2..] == Escape(s[1..]);
        assert y == ['\\', s[0]] + (Escape(s[1..]) + ['\\']) && y[2..] == Escape(s[1..]) + ['\\'];
      } else {
        assert x == [s[0]] + Escape(s[1..]) && x[1..] == Escape(s[1..]);
        assert y == [s[0]] + (Escape(s[1..]) + ['\\']) && y[1..] == Escape(s[1..]) + ['\\'];
      }
      UnterminatedBody(s[1..], buf + [s[0]]);
    }
  }

  /** An unterminated string makes the whole tokenization fail with the
      reader's end-of-input error; no tokens are returned. */
  lemma UnterminatedStringFails(s: string)
    ensures LexAll(['"'] + Escape(s)) == Failure(UnexpectedEOF)
    ensures LexAll(['"'] + Escape(s) + ['\\']) == Failure(UnexpectedEOF)
  {
    var x := ['"'] + Escape(s);
    var y := ['"'] + Escape(s) + ['\\'];
    UnterminatedBody(s, []);
    assert LexToken(x) == Failure(UnexpectedEOF) by {
      assert x[0] == '"' && x[1..] == Escape(s);
      TokenStarts(x);
    }
    assert LexToken(y) == Failure(UnexpectedEOF) by {
      assert y[0] == '"' && y[1..] == Escape(s) + ['\\'];
      TokenStarts(y);
    }
    LexAllStep(x);
    LexAllStep(y);
  }

  // ---------------------------------------------------------------------------
  // Atoms and keywords

  /** An atom runs up to end of input or a delimiter, which is left unread. */
  lemma {:induction false} AtomRead(a: string, rest: string, buf: string)
    requires NoDelimiter(a)
    requires rest == [] || IsDelimiter(rest[0])
    ensures LexAtom(a + rest, buf) == (buf + a, rest)
    decreases |a|
  {
    if a == [] {
      assert a + rest == rest && buf + a == buf;
    } else {
      assert (a + rest)[0] == a[0] && (a + rest)[1..] == a[1..] + rest;
      assert buf + a == (buf + [a[0]]) + a[1..];
      AtomRead(a[1..], rest, buf + [a[0]]);
    }
  }

  /** An atom becomes one token classified by SymbolTokenFromString; `;`, `"`
      and `'` inside it are part of it. */
  lemma AtomToken(a: string, rest: string)
    requires |a| > 0 && StartsAtom(a[0]) && NoDelimiter(a)
    requires rest == [] || IsDelimiter(rest[0])
    ensures LexToken(a + rest) == Success((SymbolTokenFromString(a), rest))
  {
    var x := a + rest;
    assert x[0] == a[0] && x[1..] == a[1..] + rest;
    TokenStarts(x);
    AtomRead(a[1..], rest, [a[0]]);
    assert [a[0]] + a[1..] == a;
  }

  /** A keyword excludes its colon, stops at a delimiter and may be empty. */
  lemma KeywordRead(k: string, rest: string)
    requires NoDelimiter(k)
    requires rest == [] || IsDelimiter(rest[0])
    ensures LexToken([':'] + k + rest) == Success((Token(KeywordToken, 0, k), rest))
  {
    var x := [':'] + k + rest;
    assert x[0] == ':' && x[1..] == k + rest;
    TokenStarts(x);
    AtomRead(k, rest, []);
    assert [] + k == k;
  }

  /** The `%d` text of an integer, up to a delimiter, is one Number token. */
  lemma NumberThen(m: int, rest: string)
    requires rest == [] || IsDelimiter(rest[0])
    ensures LexAll(IntToString(m) + rest) == Prepend([Token(NumberToken, m, IntToString(m))], LexAll(rest))
  {
    NumberTextDigits(m);
    AtomToken(IntToString(m), rest);
    NumberClassified(m);
    LexAllStep(IntToString(m) + rest);
  }

  lemma PunctuationThen(c: char, rest: string)
    requires IsPunctuation(c)
    ensures LexAll([c] + rest) == Prepend([Bare(PunctuationKind(c))], LexAll(rest))
  {
    PunctuationRead(c, rest);
    LexAllStep([c] + rest);
  }

  lemma NothingLeft()
    ensures LexAll([]) == Success([])
  {
    LexAllStep([]);
  }

  lemma DotThenNumber(n: int)
    ensures LexAll(['.'] + IntToString(n)) == Success([Bare(DotToken), Token(NumberToken, n, IntToString(n))])
  {
    var b := IntToString(n);
    var two := Token(NumberToken, n, b);
    NothingLeft();
    NumberThen(n, []);
    AppendNil(b);
    AppendNil([two]);
    PunctuationThen('.', b);
    ConsPair(Bare(DotToken), Bare(DotToken), two);
  }

  /** `1.2` is not a decimal: it is the number 1, a dot and the number 2,
      and likewise for any two integers written with a dot between them. */
  lemma DottedNumbers(m: int, n: int)
    ensures LexAll(IntToString(m) + "." + IntToString(n)) ==
            Success([Token(NumberToken, m, IntToString(m)), Bare(DotToken), Token(NumberToken, n, IntToString(n))])
  {
    var a, b := IntToString(m), IntToString(n);
    var one, two := Token(NumberToken, m, a), Token(NumberToken, n, b);
    DotThenNumber(n);
    NumberThen(m, ['.'] + b);
    AppendAssociates(a, ['.'], b);
    ConsPair(one, Bare(DotToken), two);
  }

  /** `;`, `"` and `'` in the middle of an atom belong to it: the token
      read is the whole run up to the delimiter. */
  lemma MarkerInsideAtom(a: string, m: char, b: string, rest: string)
    requires m == ';' || m == '"' || m == '\''
    requires |a| > 0 && StartsAtom(a[0]) && NoDelimiter(a) && NoDelimiter(b)
    requires rest == [] || IsDelimiter(rest[0])
    ensures LexToken(a + [m] + b + rest) == Success((SymbolTokenFromString(a + [m] + b), rest))
  {
    var t := a + [m] + b;
    assert t[0] == a[0];
    assert NoDelimiter(t) by {
      forall i | 0 <= i < |t| ensures !IsDelimiter(t[i]) {
        if i < |a| { assert t[i] == a[i]; }
        else if i > |a| { assert t[i] == b[i - |a| - 1]; }
      }
    }
    AtomToken(t, rest);
  }

  // ---------------------------------------------------------------------------
  // Classification of atoms

  lemma NumberTextDigits(n: int)
    ensures NoDelimiter(IntToString(n)) && StartsAtom(IntToString(n)[0])
    ensures IntToString(n) != "nil"
  {
    var s := IntToString(n);
    if n < 0 {
      assert forall i :: 1 <= i < |s| ==> s[i] == NatToString(-n)[i - 1];
    }
    assert s[0] != 'n';
  }

  /** The `%d` text of an integer reads back as that Number token. */
  lemma NumberClassified(n: int)
    ensures SymbolTokenFromString(IntToString(n)) == Token(NumberToken, n, IntToString(n))
  {
    IntToStringRoundTrip(n);
    NumberTextDigits(n);
  }

  /** A leading colon always makes a keyword, never a number or nil. */
  lemma KeywordClassified(k: string)
    ensures SymbolTokenFromString([':'] + k) == Token(KeywordToken, 0, k)
  {
    var s := [':'] + k;
    assert s[0] == ':' && s[1..] == k;
    assert !AtoiAccepts(s);
    assert s != "nil";
  }

  // ---------------------------------------------------------------------------
  // Round trip from canonical token text

  /** Symbol text that reads back as the same Symbol token. */
  predicate PlainSymbol(s: string) {
    |s| > 0 && StartsAtom(s[0]) && NoDelimiter(s) && s != "nil" && !AtoiAccepts(s)
  }

  /** Tokens that have a canonical text. */
  predicate Printable(t: Token) {
    match t.kind
    case StringToken => t.number == 0
    case NumberToken => t.str == IntToString(t.number)
    case KeywordToken => t.number == 0 && NoDelimiter(t.str)
    case SymbolToken => t.number == 0 && PlainSymbol(t.str)
    case EOFToken => false
    case _ => t == Bare(t.kind)
  }

  function TokenText(t: Token): string
    requires Printable(t)
  {
    match t.kind
    case StringToken => ['"'] + Escape(t.str) + ['"']
    case NumberToken => t.str
    case KeywordToken => [':'] + t.str
    case SymbolToken => t.str
    case NilToken => "nil"
    case OpenVectorToken => "["
    case CloseVectorToken => "]"
    case OpenParToken => "("
    case CloseParToken => ")"
    case QuoteToken => "'"
    case DotToken => "."
  }

  /** Printable tokens, each followed by one space. */
  function Render(ts: seq<Token>): string
    requires forall i :: 0 <= i < |ts| ==> Printable(ts[i])
  {
    if ts == [] then [] else TokenText(ts[0]) + [' '] + Render(ts[1..])
  }

  /** The canonical text of a token, followed by a delimiter or nothing,
      reads back as that token. */
  lemma TokenTextRead(t: Token, rest: string)
    requires Printable(t)
    requires rest == [] || IsDelimiter(rest[0])
    ensures LexToken(TokenText(t) + rest) == Success((t, rest))
  {
    match t.kind
    case StringToken =>
      StringLiteralRead(t.str, rest);
    case NumberToken =>
      NumberTextDigits(t.number);
      AtomToken(t.str, rest);
      NumberClassified(t.number);
    case KeywordToken =>
      KeywordRead(t.str, rest);
    case SymbolToken =>
      AtomToken(t.str, rest);
    case NilToken =>
      AtomToken("nil", rest);
    case OpenVectorToken =>
      PunctuationRead('[', rest);
    case CloseVectorToken =>
      PunctuationRead(']', rest);
    case OpenParToken =>
      PunctuationRead('(', rest);
    case CloseParToken =>
      PunctuationRead(')', rest);
    case QuoteToken =>
      PunctuationRead('\'', rest);
    case DotToken =>
      PunctuationRead('.', rest);
  }

  /** A token read up to a space is followed by the tokens of what comes
      after the space. */
  lemma SpaceSeparated(x: string, t: Token, r: string)
    requires LexToken(x + ([' '] + r)) == Success((t, [' '] + r)) && t.kind != EOFToken
    ensures LexAll(x + ([' '] + r)) == Prepend([t], LexAll(r))
  {
    BlankSkipped([' '], r);
    SameRuneSameTokens([' '] + r, r);
    LexAllStep(x + ([' '] + r));
  }

  lemma RenderCons(ts: seq<Token>)
    requires ts != [] && forall i :: 0 <= i < |ts| ==> Printable(ts[i])
    ensures Render(ts) == TokenText(ts[0]) + ([' '] + Render(ts[1..]))
  {
  }

  /** One printable token of a rendering. */
  lemma RenderStep(t: Token, r: string)
    requires Printable(t)
    ensures LexAll(TokenText(t) + ([' '] + r)) == Prepend([t], LexAll(r))
  {
    TokenTextRead(t, [' '] + r);
    SpaceSeparated(TokenText(t), t, r);
  }

  /** Tokenizing the rendering of printable tokens gives them back. */
  lemma {:induction false} RenderRoundTrip(ts: seq<Token>)
    requires forall i :: 0 <= i < |ts| ==> Printable(ts[i])
    ensures LexAll(Render(ts)) == Success(ts)
  {
    if ts == [] {
      LexAllStep([]);
    } else {
      RenderCons(ts);
      RenderStep(ts[0], Render(ts[1..]));
      RenderRoundTrip(ts[1..]);
      assert ts == [ts[0]] + ts[1..];
    }
  }
}
