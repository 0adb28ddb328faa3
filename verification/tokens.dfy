/**
 * The tokenizer of src/emenv/tokens.go. The pure functions Lex* describe, on
 * the input still unread, what each reader-driven step returns and what it
 * leaves unread; the class Tokenizer is the reader-driven implementation and
 * each of its methods is proved to agree with the corresponding function.
 */
module Tokens {
  import opened Types
  import opened Decimal

  /** unicode.IsSpace: the Latin-1 spaces and the other White_Space code points. */
  predicate IsSpace(c: char) {
    var n := c as int;
    (0x09 <= n <= 0x0D) || n == 0x20 || n == 0x85 || n == 0xA0 || n == 0x1680
    || (0x2000 <= n <= 0x200A) || n == 0x2028 || n == 0x2029 || n == 0x202F
    || n == 0x205F || n == 0x3000
  }

  /** The runes on which LastRune ends an atom (and unreads it). */
  predicate IsDelimiter(c: char) {
    c == '[' || c == ']' || c == '(' || c == ')' || c == '.' || IsSpace(c)
  }

  predicate NoDelimiter(s: string) {
    forall i :: 0 <= i < |s| ==> !IsDelimiter(s[i])
  }

  predicate IsSuffix(t: string, s: string) {
    |t| <= |s| && s[|s| - |t|..] == t
  }

  // ---------------------------------------------------------------------------
  // Specification of the reader-driven steps, on the input still unread.
  // Each returns the rune or token produced and the input left unread.

  /** The loop of SkipComments once a ';' has been read: skip to the end of
      the line, then over white space and further comment lines; None when the
      input ends first. */
  function SkipCommentLoop(rest: string, newline: bool): (r: Option<(char, string)>)
    ensures r.Some? ==> IsSuffix(r.value.1, rest) && |r.value.1| < |rest|
    ensures r.Some? ==> !IsSpace(r.value.0) && r.value.0 != ';'
    decreases |rest|
  {
    if rest == [] then None
    else
      var c := rest[0];
      var nl := if c == ';' then false else newline;
      if nl && !IsSpace(c) then Some((c, rest[1..]))
      else SkipCommentLoop(rest[1..], nl || c == '\n')
  }

  /** SkipComments(top): `top` is the rune just read. */
  function SkipTop(top: char, rest: string): (r: Option<(char, string)>)
    ensures r.Some? ==> IsSuffix(r.value.1, rest) && r.value.0 != ';'
  {
    if top != ';' then Some((top, rest)) else SkipCommentLoop(rest, false)
  }

  /** NextRune: the next rune that is neither white space nor inside a comment. */
  function LexRune(rest: string): (r: Option<(char, string)>)
    ensures r.Some? ==> IsSuffix(r.value.1, rest) && |r.value.1| < |rest|
    ensures r.Some? ==> !IsSpace(r.value.0) && r.value.0 != ';'
    decreases |rest|
  {
    if rest == [] then None
    else
      match SkipTop(rest[0], rest[1..])
      case None => None
      case Some((c, t)) => if !IsSpace(c) then Some((c, t)) else LexRune(t)
  }

  /** The body of a string literal after its opening quote; `buf` holds the
      characters kept so far. */
  function LexString(rest: string, buf: string): (r: Result<(Token, string)>)
    ensures r.Success? ==> IsSuffix(r.value.1, rest) && |r.value.1| < |rest|
    ensures r.Success? ==> r.value.0.kind == StringToken
    ensures r.Failure? ==> r.error == UnexpectedEOF
    decreases |rest|
  {
    if rest == [] then Failure(UnexpectedEOF)
    else if rest[0] == '\\' then
      if |rest| == 1 then Failure(UnexpectedEOF) else LexString(rest[2..], buf + [rest[1]])
    else if rest[0] == '"' then Success((Token(StringToken, 0, buf), rest[1..]))
    else LexString(rest[1..], buf + [rest[0]])
  }

  /** The loop of a keyword or an atom: the text read (after `buf`) up to end
      of input or a delimiter, which stays unread. */
  function LexAtom(rest: string, buf: string): (r: (string, string))
    ensures IsSuffix(r.1, rest)
    ensures r.1 == [] || IsDelimiter(r.1[0])
    ensures |r.0| == |buf| + |rest| - |r.1| && r.0[..|buf|] == buf
    decreases |rest|
  {
    if rest == [] || IsDelimiter(rest[0]) then (buf, rest)
    else LexAtom(rest[1..], buf + [rest[0]])
  }

  /** Reclassification of an atom: nil, a number, a keyword or a symbol. */
  function SymbolTokenFromString(s: string): (t: Token)
    ensures t.kind in {NilToken, NumberToken, KeywordToken, SymbolToken}
    ensures t.kind == NumberToken ==> AtoiAccepts(s) && t.str == s && t.number == Atoi(s)
    ensures t.kind == KeywordToken ==> s == [':'] + t.str
    ensures t.kind == SymbolToken ==> s == t.str
  {
    if s == "nil" then Bare(NilToken)
    else if AtoiAccepts(s) then Token(NumberToken, Atoi(s), s)
    else if |s| > 0 && s[0] == ':' then Token(KeywordToken, 0, s[1..])
    else Token(SymbolToken, 0, s)
  }

  /** The one-character tokens and their kinds. */
  predicate IsPunctuation(c: char) {
    c == '[' || c == ']' || c == '(' || c == ')' || c == '\'' || c == '.'
  }

  function PunctuationKind(c: char): TokenKind
    requires IsPunctuation(c)
  {
    if c == '[' then OpenVectorToken
    else if c == ']' then CloseVectorToken
    else if c == '(' then OpenParToken
    else if c == ')' then CloseParToken
    else if c == '\'' then QuoteToken
    else DotToken
  }

  /** The switch of NextToken on its first rune `c`, with `t` unread. */
  function TokenAfter(c: char, t: string): (r: Result<(Token, string)>)
    ensures r.Success? ==> IsSuffix(r.value.1, t) && r.value.0.kind != EOFToken
    ensures r.Failure? ==> r.error == UnexpectedEOF
  {
    if IsPunctuation(c) then Success((Bare(PunctuationKind(c)), t))
    else if c == '"' then LexString(t, [])
    else if c == ':' then
      var (k, u) := LexAtom(t, []);
      Success((Token(KeywordToken, 0, k), u))
    else
      var (a, u) := LexAtom(t, [c]);
      Success((SymbolTokenFromString(a), u))
  }

  /** NextToken: EOF once only white space and comments remain. */
  function LexToken(rest: string): (r: Result<(Token, string)>)
    ensures r.Success? ==> IsSuffix(r.value.1, rest)
    ensures r.Success? && r.value.0.kind != EOFToken ==> |r.value.1| < |rest|
    ensures r.Success? && r.value.0.kind == EOFToken ==> r.value.1 == [] && LexRune(rest) == None
    ensures r.Failure? ==> r.error == UnexpectedEOF
  {
    match LexRune(rest)
    case None => Success((Bare(EOFToken), []))
    case Some((c, t)) => TokenAfter(c, t)
  }

  /** Tokenize: every token up to (and without) the EOF token. */
  function LexAll(rest: string): (r: Result<seq<Token>>)
    ensures r.Failure? ==> r.error == UnexpectedEOF
    decreases |rest|
  {
    match LexToken(rest)
    case Failure(e) => Failure(e)
    case Success((tok, u)) =>
      if tok.kind == EOFToken then Success([])
      else
        match LexAll(u)
        case Failure(e) => Failure(e)
        case Success(ts) => Success([tok] + ts)
  }

  // ---------------------------------------------------------------------------
  // The reader-driven tokenizer.

  /** The rune a step returned (None for end of input) and what it left
      unread agree with the specification of that step. */
  predicate RuneAgrees(r: Option<char>, left: string, spec: Option<(char, string)>) {
    match spec
    case None => r == None && left == []
    case Some((c, t)) => r == Some(c) && left == t
  }

  predicate TokenAgrees(r: Result<Token>, left: string, spec: Result<(Token, string)>) {
    match spec
    case Failure(e) => r == Failure(e)
    case Success((tok, t)) => r == Success(tok) && left == t
  }

  /** A tokenizer reading `input` through a strings.Reader-like cursor `pos`. */
  class Tokenizer {
    const input: string
    var pos: nat

    ghost predicate Valid()
      reads this
    {
      pos <= |input|
    }

    /** The input not read yet. */
    ghost function Rest(): string
      reads this
      requires Valid()
    {
      input[pos..]
    }

    /** NewTokenizer */
    constructor (input: string)
      ensures Valid() && this.input == input && Rest() == input
    {
      this.input := input;
      pos := 0;
    }

    /** strings.Reader.ReadRune: the next rune, or None at end of input. */
    method ReadRune() returns (r: Option<char>)
      requires Valid()
      modifies this
      ensures Valid()
      ensures old(Rest()) == [] ==> r == None && Rest() == []
      ensures old(Rest()) != [] ==> r == Some(old(Rest())[0]) && Rest() == old(Rest())[1..]
      ensures r.Some? ==> pos == old(pos) + 1 && input[old(pos)] == r.value
    {
      if pos < |input| {
        r := Some(input[pos]);
        pos := pos + 1;
      } else {
        r := None;
      }
    }

    /** SkipComments: when `top` is ';', skip the comment it opens. */
    method SkipComments(top: char) returns (r: Option<char>)
      requires Valid()
      modifies this
      ensures Valid() && RuneAgrees(r, Rest(), SkipTop(top, old(Rest())))
    {
      if top != ';' {
        return Some(top);
      }
      var newline := false;
      while true
        invariant Valid()
        invariant SkipCommentLoop(Rest(), newline) == SkipTop(top, old(Rest()))
        decreases |Rest()|
      {
        var c := ReadRune();
        if c.None? {
          return None;
        }
        var ch := c.value;
        if ch == ';' {
          newline := false;
        }
        if newline && !IsSpace(ch) {
          return Some(ch);
        }
        if ch == '\n' {
          newline := true;
        }
      }
    }

    /** NextRune: the next rune outside white space and comments. */
    method NextRune() returns (r: Option<char>)
      requires Valid()
      modifies this
      ensures Valid() && RuneAgrees(r, Rest(), LexRune(old(Rest())))
    {
      while true
        invariant Valid()
        invariant LexRune(Rest()) == LexRune(old(Rest()))
        decreases |Rest()|
      {
        var c := ReadRune();
        if c.None? {
          return None;
        }
        var s := SkipComments(c.value);
        if s.None? {
          return None;
        }
        if !IsSpace(s.value) {
          return s;
        }
      }
    }

    /** LastRune: whether `r`, the rune just read, ends an atom; if so it is
        unread so that it starts the next token. */
    method LastRune(r: char) returns (isLast: bool)
      requires Valid() && 0 < pos && input[pos - 1] == r
      modifies this
      ensures Valid() && isLast == IsDelimiter(r)
      ensures Rest() == if isLast then [r] + old(Rest()) else old(Rest())
    {
      isLast := IsDelimiter(r);
      if isLast {
        pos := pos - 1;
      }
    }

    /** The string-literal loop of NextToken, after the opening quote. */
    method ReadString() returns (r: Result<Token>)
      requires Valid()
      modifies this
      ensures Valid() && TokenAgrees(r, Rest(), LexString(old(Rest()), []))
    {
      var buf := [];
      while true
        invariant Valid()
        invariant LexString(Rest(), buf) == LexString(old(Rest()), [])
        decreases |Rest()|
      {
        var sub := ReadRune();
        if sub.None? {
          return Failure(UnexpectedEOF);
        }
        var subr := sub.value;
        var escaped := false;
        if subr == '\\' {
          sub := ReadRune();
          if sub.None? {
            return Failure(UnexpectedEOF);
          }
          subr := sub.value;
          escaped := true;
        }
        if subr == '"' && !escaped {
          return Success(Token(StringToken, 0, buf));
        }
        buf := buf + [subr];
      }
    }

    /** The keyword and atom loops of NextToken: append runes to `buf` up to
        end of input or a delimiter, which LastRune unreads. */
    method ReadAtom(buf: string) returns (text: string)
      requires Valid()
      modifies this
      ensures Valid() && (text, Rest()) == LexAtom(old(Rest()), buf)
    {
      text := buf;
      while true
        invariant Valid()
        invariant LexAtom(Rest(), text) == LexAtom(old(Rest()), buf)
        decreases |Rest()|
      {
        ghost var before := Rest();
        var sub := ReadRune();
        if sub.None? {
          return;
        }
        var isLast := LastRune(sub.value);
        if isLast {
          assert Rest() == before;
          return;
        }
        assert before[0] == sub.value && Rest() == before[1..];
        text := text + [sub.value];
      }
    }

    /** NextToken */
    method NextToken() returns (r: Result<Token>)
      requires Valid()
      modifies this
      ensures Valid() && TokenAgrees(r, Rest(), LexToken(old(Rest())))
    {
      var c := NextRune();
      if c.None? {
        return Success(Bare(EOFToken));
      }
      var ch := c.value;
      if IsPunctuation(ch) {
        return Success(Bare(PunctuationKind(ch)));
      }
      if ch == '"' {
        r := ReadString();
        return;
      }
      if ch == ':' {
        var k := ReadAtom([]);
        return Success(Token(KeywordToken, 0, k));
      }
      var a := ReadAtom([ch]);
      return Success(SymbolTokenFromString(a));
    }

    /** Tokenize: all tokens of the unread input, in order, without EOF. */
    method Tokenize() returns (r: Result<seq<Token>>)
      requires Valid()
      modifies this
      ensures Valid() && r == LexAll(old(Rest()))
    {
      var tokens: seq<Token> := [];
      ghost var start := Rest();
      if LexAll(start).Success? {
        AppendNil(LexAll(start).value);
      }
      while true
        invariant Valid()
        invariant LexAll(start) == Prepend(tokens, LexAll(Rest()))
        decreases |Rest()|
      {
        ghost var before := Rest();
        LexAllStep(before);
        var token := NextToken();
        if token.Failure? {
          return Failure(token.error);
        }
        if token.value.kind == EOFToken {
          AppendNil(tokens);
          return Success(tokens);
        }
        PrependTwice(tokens, token.value, LexAll(Rest()));
        tokens := tokens + [token.value];
      }
    }
  }

  /** `done` followed by the outcome of the rest; a failure discards `done`. */
  function Prepend(done: seq<Token>, r: Result<seq<Token>>): Result<seq<Token>> {
    match r
    case Failure(e) => Failure(e)
    case Success(ts) => Success(done + ts)
  }

  /** One turn of the Tokenize loop, unfolded. */
  lemma LexAllStep(rest: string)
    ensures LexToken(rest).Failure? ==> LexAll(rest) == Failure(LexToken(rest).error)
    ensures LexToken(rest).Success? && LexToken(rest).value.0.kind == EOFToken ==> LexAll(rest) == Success([])
    ensures LexToken(rest).Success? && LexToken(rest).value.0.kind != EOFToken ==>
              LexAll(rest) == Prepend([LexToken(rest).value.0], LexAll(LexToken(rest).value.1))
  {
  }

  /** Tokenize never returns the EOF token. */
  lemma {:induction false} TokensExcludeEOF(rest: string)
    ensures LexAll(rest).Success? ==> forall i :: 0 <= i < |LexAll(rest).value| ==> LexAll(rest).value[i].kind != EOFToken
    decreases |rest|
  {
    LexAllStep(rest);
    if LexToken(rest).Success? && LexToken(rest).value.0.kind != EOFToken {
      var (tok, u) := LexToken(rest).value;
      TokensExcludeEOF(u);
      if LexAll(u).Success? {
        var ts := LexAll(u).value;
        assert forall i :: 0 <= i < |[tok] + ts| ==> ([tok] + ts)[i] == if i == 0 then tok else ts[i - 1];
      }
    }
  }

  lemma PrependTwice(done: seq<Token>, t: Token, r: Result<seq<Token>>)
    ensures Prepend(done, Prepend([t], r)) == Prepend(done + [t], r)
  {
    if r.Success? {
      assert done + ([t] + r.value) == (done + [t]) + r.value;
    }
  }

  /** ParseTokens: tokenize a whole input. */
  method ParseTokens(input: string) returns (r: Result<seq<Token>>)
    ensures r == LexAll(input)
  {
    var tk := new Tokenizer(input);
    r := tk.Tokenize();
  }
}
