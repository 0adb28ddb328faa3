/**
 * What the parser promises: a form parses back from its token text, a parsed
 * form covers exactly the tokens it consumed, and the error cases of
 * src/emenv/tree.go (stray closes, unknown tokens, running out of tokens,
 * trailing tokens).
 */
module TreeLaws {
  import opened Types
  import opened Decimal
  import opened Tree

  predicate IsBracket(kind: NodeKind) { kind == ListNode || kind == VectorNode }

  function OpenerOf(kind: NodeKind): TokenKind
    requires IsBracket(kind)
  {
    if kind == ListNode then OpenParToken else OpenVectorToken
  }

  /** The token a leaf node is parsed from. */
  function LeafToken(n: Node): (t: Token)
    requires Shaped(n) && !IsBracket(n.kind)
    ensures IsAtomToken(t)
  {
    match n.kind
    case NumberNode => Token(NumberToken, n.number, IntToString(n.number))
    case NilNode => Bare(NilToken)
    case DotNode => Bare(DotToken)
    case StringNode => Token(StringToken, 0, n.str)
    case KeywordNode => Token(KeywordToken, 0, n.str)
    case SymbolNode => Token(SymbolToken, 0, n.str)
  }

  /** The token text of a form: brackets around the text of its children. */
  function Flatten(n: Node): (ts: seq<Token>)
    requires Shaped(n)
    ensures |ts| > 0 && ts[0].kind != CloseParToken && ts[0].kind != CloseVectorToken
    decreases n, 1
  {
    if IsBracket(n.kind) then [Bare(OpenerOf(n.kind))] + FlattenFrom(n, 0) + [Bare(CloserOf(n.kind))]
    else [LeafToken(n)]
  }

  /** The token text of the children of `n` from the i-th on. */
  function FlattenFrom(n: Node, i: nat): seq<Token>
    requires Shaped(n) && IsBracket(n.kind) && i <= |n.children|
    decreases n, 0, |n.children| - i
  {
    if i == |n.children| then [] else Flatten(n.children[i]) + FlattenFrom(n, i + 1)
  }

  // ---------------------------------------------------------------------------
  // Single steps of the parser, each unfolded in a small context.

  lemma LeafRoundTrip(n: Node)
    requires Shaped(n) && !IsBracket(n.kind)
    ensures LeafOf(LeafToken(n)) == n
  {
  }

  /** A list or vector node is determined by its kind and children. */
  lemma Rebuilt(n: Node)
    requires Shaped(n) && IsBracket(n.kind)
    ensures Node(n.kind, 0, "", n.children) == n
  {
  }

  lemma ParseAtom(t: Token, rest: seq<Token>)
    requires IsAtomToken(t)
    ensures ParseOne([t] + rest) == Success((LeafOf(t), rest))
  {
    Uncons(t, rest);
  }

  lemma ParseAtomAt(ts: seq<Token>)
    requires ts != [] && IsAtomToken(ts[0])
    ensures ParseOne(ts) == Success((LeafOf(ts[0]), ts[1..]))
  {
  }

  lemma ParseCloseAt(ts: seq<Token>, kind: NodeKind, acc: seq<Node>)
    requires IsBracket(kind) && forall i :: 0 <= i < |acc| ==> Shaped(acc[i])
    requires ts != [] && ts[0].kind == CloserOf(kind)
    ensures ParseItems(ts, kind, acc) == Success((Node(kind, 0, "", acc), ts[1..]))
  {
  }

  lemma ParseOpen(ts: seq<Token>, kind: NodeKind)
    requires IsBracket(kind) && ts != [] && ts[0].kind == OpenerOf(kind)
    ensures ParseOne(ts) == ParseItems(ts[1..], kind, [])
  {
  }

  /** A form that parses and does not start with an atom starts with an open
      token, and is the items after it. */
  lemma ParseOpens(ts: seq<Token>)
    requires ParseOne(ts).Success? && !IsAtomToken(ts[0])
    ensures ts[0].kind == OpenVectorToken || ts[0].kind == OpenParToken
    ensures var kind := if ts[0].kind == OpenVectorToken then VectorNode else ListNode;
            ts[0].kind == OpenerOf(kind) && ParseOne(ts) == ParseItems(ts[1..], kind, [])
  {
  }

  lemma ParseClose(kind: NodeKind, acc: seq<Node>, rest: seq<Token>)
    requires IsBracket(kind) && forall i :: 0 <= i < |acc| ==> Shaped(acc[i])
    ensures ParseItems([Bare(CloserOf(kind))] + rest, kind, acc) == Success((Node(kind, 0, "", acc), rest))
  {
    Uncons(Bare(CloserOf(kind)), rest);
  }

  lemma ItemsStep(ts: seq<Token>, kind: NodeKind, acc: seq<Node>)
    requires IsBracket(kind) && forall i :: 0 <= i < |acc| ==> Shaped(acc[i])
    requires ts != [] && ts[0].kind != CloserOf(kind)
    ensures ParseOne(ts).Failure? ==> ParseItems(ts, kind, acc) == Failure(ParseOne(ts).error)
    ensures ParseOne(ts).Success? ==>
              (forall i :: 0 <= i < |acc + [ParseOne(ts).value.0]| ==> Shaped((acc + [ParseOne(ts).value.0])[i])) &&
              ParseItems(ts, kind, acc) == ParseItems(ParseOne(ts).value.1, kind, acc + [ParseOne(ts).value.0])
  {
  }

  /** `[o] + mid + [c] + rest` opens with `o`, and after it come `mid`, `c`
      and `rest`. */
  lemma Bracketed(o: Token, mid: seq<Token>, c: Token, rest: seq<Token>)
    ensures ([o] + mid + [c] + rest)[0] == o
    ensures ([o] + mid + [c] + rest)[1..] == mid + ([c] + rest)
  {
  }

  // ---------------------------------------------------------------------------
  // A form's token text parses back to the form.

  /** A form followed by anything parses back to itself and leaves the rest. */
  lemma {:induction false} ParseFlatten(n: Node, rest: seq<Token>)
    requires Shaped(n)
    ensures ParseOne(Flatten(n) + rest) == Success((n, rest))
    decreases n, 1
  {
    if IsBracket(n.kind) {
      var close := [Bare(CloserOf(n.kind))] + rest;
      Bracketed(Bare(OpenerOf(n.kind)), FlattenFrom(n, 0), Bare(CloserOf(n.kind)), rest);
      ParseOpen(Flatten(n) + rest, n.kind);
      ItemsThrough(n, 0, close);
      TakeEnds(n.children);
      ParseClose(n.kind, n.children, rest);
      Rebuilt(n);
    } else {
      LeafRoundTrip(n);
      ParseAtom(LeafToken(n), rest);
    }
  }

  /** The children's text is consumed child by child. */
  lemma {:induction false} ItemsThrough(n: Node, i: nat, rest: seq<Token>)
    requires Shaped(n) && IsBracket(n.kind) && i <= |n.children|
    ensures ParseItems(FlattenFrom(n, i) + rest, n.kind, n.children[..i]) == ParseItems(rest, n.kind, n.children)
    decreases n, 0, |n.children| - i
  {
    if i == |n.children| {
      TakeEnds(n.children);
      AppendNil(rest);
    } else {
      var c := n.children[i];
      var tail := FlattenFrom(n, i + 1) + rest;
      AppendAssociates(Flatten(c), FlattenFrom(n, i + 1), rest);
      ParseFlatten(c, tail);
      ItemsStep(Flatten(c) + tail, n.kind, n.children[..i]);
      TakeSnoc(n.children, i);
      ItemsThrough(n, i + 1, rest);
    }
  }

  // ---------------------------------------------------------------------------
  // A parsed form covers exactly the tokens it consumed.

  /** A token with its payload reduced to what the tree keeps. */
  function Canon(t: Token): Token {
    if IsAtomToken(t) then LeafToken(LeafOf(t)) else Bare(t.kind)
  }

  function CanonAll(ts: seq<Token>): (r: seq<Token>)
    ensures |r| == |ts|
  {
    seq(|ts|, i requires 0 <= i < |ts| => Canon(ts[i]))
  }

  lemma CanonAllAppend(a: seq<Token>, b: seq<Token>)
    ensures CanonAll(a + b) == CanonAll(a) + CanonAll(b)
  {
    assert forall i :: 0 <= i < |a + b| ==> CanonAll(a + b)[i] == (CanonAll(a) + CanonAll(b))[i];
  }

  /** An atom token's leaf flattens to the canonical atom token. */
  lemma FlattenLeaf(t: Token)
    requires IsAtomToken(t)
    ensures !IsBracket(LeafOf(t).kind) && Flatten(LeafOf(t)) == [Canon(t)]
  {
  }

  lemma CanonCloser(t: Token, kind: NodeKind)
    requires IsBracket(kind) && t.kind == CloserOf(kind)
    ensures Canon(t) == Bare(CloserOf(kind))
  {
  }

  lemma TakeHead(ts: seq<Token>)
    requires ts != []
    ensures ts[..|ts| - |ts[1..]|] == [ts[0]]
  {
  }

  lemma CanonOne(t: Token)
    ensures CanonAll([t]) == [Canon(t)]
  {
  }

  /** What a parse consumes is its first token followed by what comes after
      that token up to the rest. */
  lemma HeadConsumed(ts: seq<Token>, rest: seq<Token>)
    requires |rest| < |ts|
    ensures ts[..|ts| - |rest|] == [ts[0]] + ts[1..][..|ts| - 1 - |rest|]
  {
  }

  /** What two consecutive parses consume is what the first consumes followed
      by what the second does. */
  lemma ConsumedSplits(ts: seq<Token>, mid: seq<Token>, rest: seq<Token>)
    requires IsSuffixOf(mid, ts) && IsSuffixOf(rest, mid)
    ensures ts[..|ts| - |rest|] == ts[..|ts| - |mid|] + mid[..|mid| - |rest|]
  {
    assert forall i :: |ts| - |mid| <= i < |ts| ==> ts[i] == mid[i - (|ts| - |mid|)];
  }

  lemma AtomConsumed(ts: seq<Token>, n: Node, rest: seq<Token>)
    requires ParseOne(ts) == Success((n, rest)) && IsAtomToken(ts[0])
    ensures CanonAll(ts[..|ts| - |rest|]) == Flatten(n)
  {
    ParseAtomAt(ts);
    TakeHead(ts);
    CanonOne(ts[0]);
    FlattenLeaf(ts[0]);
  }

  /** The close token ending a list or vector is all its last step consumes. */
  lemma CloseConsumed(ts: seq<Token>, kind: NodeKind)
    requires IsBracket(kind) && ts != [] && ts[0].kind == CloserOf(kind)
    ensures CanonAll(ts[..|ts| - |ts[1..]|]) == [Bare(CloserOf(kind))]
  {
    TakeHead(ts);
    CanonOne(ts[0]);
    CanonCloser(ts[0], kind);
  }

  /** A list or vector has no children after its last one. */
  lemma NoMoreChildren(kind: NodeKind, acc: seq<Node>)
    requires IsBracket(kind) && forall i :: 0 <= i < |acc| ==> Shaped(acc[i])
    ensures Shaped(Node(kind, 0, "", acc))
    ensures FlattenFrom(Node(kind, 0, "", acc), |acc|) + [Bare(CloserOf(kind))] == [Bare(CloserOf(kind))]
  {
  }

  /** The consumed tokens are, up to payloads the tree does not keep, the
      token text of the parsed form: every open token is matched by the close
      token of its own kind, and each atom token is one leaf. */
  lemma {:induction false} ParsedCoversConsumed(ts: seq<Token>, n: Node, rest: seq<Token>)
    requires ParseOne(ts) == Success((n, rest))
    ensures |rest| <= |ts| && Shaped(n)
    ensures CanonAll(ts[..|ts| - |rest|]) == Flatten(n)
    decreases |ts|, 0
  {
    var head := ts[0];
    if IsAtomToken(head) {
      AtomConsumed(ts, n, rest);
    } else {
      ParseOpens(ts);
      var kind := if head.kind == OpenVectorToken then VectorNode else ListNode;
      var inner := ts[1..];
      ItemsCoverConsumed(inner, kind, [], n, rest);
      HeadConsumed(ts, rest);
      CanonAllAppend([head], inner[..|inner| - |rest|]);
      CanonOne(head);
      AppendAssociates([Bare(OpenerOf(kind))], FlattenFrom(n, 0), [Bare(CloserOf(kind))]);
    }
  }

  lemma {:induction false} ItemsCoverConsumed(ts: seq<Token>, kind: NodeKind, acc: seq<Node>, n: Node, rest: seq<Token>)
    requires IsBracket(kind) && forall i :: 0 <= i < |acc| ==> Shaped(acc[i])
    requires ParseItems(ts, kind, acc) == Success((n, rest))
    ensures |rest| <= |ts| && Shaped(n) && n.kind == kind && |acc| <= |n.children|
    ensures CanonAll(ts[..|ts| - |rest|]) == FlattenFrom(n, |acc|) + [Bare(CloserOf(kind))]
    decreases |ts|, 1
  {
    if ts[0].kind == CloserOf(kind) {
      ParseCloseAt(ts, kind, acc);
      CloseConsumed(ts, kind);
      NoMoreChildren(kind, acc);
    } else {
      ItemsStep(ts, kind, acc);
      var (c, r1) := ParseOne(ts).value;
      var closer := [Bare(CloserOf(kind))];
      ParsedCoversConsumed(ts, c, r1);
      ItemsCoverConsumed(r1, kind, acc + [c], n, rest);
      NextChild(n, acc, c);
      ConsumedSplits(ts, r1, rest);
      CanonAllAppend(ts[..|ts| - |r1|], r1[..|r1| - |rest|]);
      AppendAssociates(Flatten(c), FlattenFrom(n, |acc| + 1), closer);
    }
  }

  /** The child after the ones in `acc` is the one parsed next. */
  lemma NextChild(n: Node, acc: seq<Node>, c: Node)
    requires Shaped(n) && IsBracket(n.kind) && Shaped(c)
    requires |acc| < |n.children| && n.children[..|acc| + 1] == acc + [c]
    ensures FlattenFrom(n, |acc|) == Flatten(c) + FlattenFrom(n, |acc| + 1)
  {
    assert n.children[|acc|] == n.children[..|acc| + 1][|acc|] == c;
  }

  // ---------------------------------------------------------------------------
  // Errors

  /** A close token at the start of a form is stray; a quote or an EOF token
      has no parse rule. */
  lemma HeadErrors(t: Token, rest: seq<Token>)
    ensures t.kind == CloseVectorToken ==> ParseOne([t] + rest) == Failure(StrayVector)
    ensures t.kind == CloseParToken ==> ParseOne([t] + rest) == Failure(StrayList)
    ensures t.kind == QuoteToken || t.kind == EOFToken ==> ParseOne([t] + rest) == Failure(UnknownToken)
  {
    Uncons(t, rest);
  }

  /** Inside a list a `]` is a stray vector close, inside a vector a `)` a
      stray list close. */
  lemma MismatchedClose(n: Node, rest: seq<Token>)
    requires Shaped(n) && IsBracket(n.kind)
    ensures var wrong := if n.kind == ListNode then CloseVectorToken else CloseParToken;
            ParseOne([Bare(OpenerOf(n.kind))] + FlattenFrom(n, 0) + [Bare(wrong)] + rest)
              == Failure(if n.kind == ListNode then StrayVector else StrayList)
  {
    var wrong := if n.kind == ListNode then CloseVectorToken else CloseParToken;
    var after := [Bare(wrong)] + rest;
    var ts := [Bare(OpenerOf(n.kind))] + FlattenFrom(n, 0) + [Bare(wrong)] + rest;
    Bracketed(Bare(OpenerOf(n.kind)), FlattenFrom(n, 0), Bare(wrong), rest);
    ParseOpen(ts, n.kind);
    ItemsThrough(n, 0, after);
    TakeEnds(n.children);
    HeadErrors(Bare(wrong), rest);
    Uncons(Bare(wrong), rest);
    ItemsStep(after, n.kind, n.children);
  }

  /** Running out of tokens inside a list or vector is an index failure, not
      a dangling-close error; so is parsing no tokens at all. */
  lemma UnclosedFails(n: Node)
    requires Shaped(n) && IsBracket(n.kind)
    ensures ParseOne([Bare(OpenerOf(n.kind))] + FlattenFrom(n, 0)) == Failure(OutOfRange)
    ensures ParseWhole([Bare(OpenerOf(n.kind))] + FlattenFrom(n, 0)) == Failure(OutOfRange)
    ensures ParseWhole([]) == Failure(OutOfRange)
  {
    var ts := [Bare(OpenerOf(n.kind))] + FlattenFrom(n, 0);
    Uncons(Bare(OpenerOf(n.kind)), FlattenFrom(n, 0));
    AppendNil(FlattenFrom(n, 0));
    ParseOpen(ts, n.kind);
    ItemsThrough(n, 0, []);
    TakeEnds(n.children);
  }

  /** ParseTree accepts one form, optionally followed by EOF, and rejects
      anything more with TrailingTokens (so `(a) (b)` is rejected). */
  lemma WholeForm(n: Node, extra: seq<Token>)
    requires Shaped(n)
    ensures ParseWhole(Flatten(n)) == Success(n)
    ensures ParseWhole(Flatten(n) + [Bare(EOFToken)]) == Success(n)
    ensures !AtMostEOF(extra) ==> ParseWhole(Flatten(n) + extra) == Failure(TrailingTokens)
  {
    ParseFlatten(n, []);
    AppendNil(Flatten(n));
    ParseFlatten(n, [Bare(EOFToken)]);
    ParseFlatten(n, extra);
  }
}
