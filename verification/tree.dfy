/**
 * The recursive-descent parser of src/emenv/tree.go. ParseOne and
 * ParseItems specify, on a token sequence, the form parsed and the tokens
 * left; the class Stack consumes its token field in place as Stack.Parse does,
 * and ParseTree and ParseForm are built on it.
 */
module Tree {
  import opened Types
  import opened Decimal

  /** Tokens that become a leaf node. */
  predicate IsAtomToken(t: Token) {
    t.kind in {NumberToken, NilToken, StringToken, DotToken, KeywordToken, SymbolToken}
  }

  /** The leaf node an atom token becomes, with the same payload. */
  function LeafOf(t: Token): (n: Node)
    requires IsAtomToken(t)
    ensures Shaped(n) && n.children == []
  {
    match t.kind
    case NumberToken => Node(NumberNode, t.number, "", [])
    case NilToken => Leaf(NilNode)
    case StringToken => Node(StringNode, 0, t.str, [])
    case DotToken => Leaf(DotNode)
    case KeywordToken => Node(KeywordNode, 0, t.str, [])
    case SymbolToken => Node(SymbolNode, 0, t.str, [])
  }

  /** The token that closes a list or a vector. */
  function CloserOf(kind: NodeKind): TokenKind
    requires kind == ListNode || kind == VectorNode
  {
    if kind == ListNode then CloseParToken else CloseVectorToken
  }

  /** The nodes the parser can build: no Pair or EOF node, payload only where
      the node kind carries one, children only in lists and vectors. */
  ghost predicate Shaped(n: Node)
    decreases n
  {
    match n.kind
    case ListNode => n.number == 0 && n.str == "" && forall i :: 0 <= i < |n.children| ==> Shaped(n.children[i])
    case VectorNode => n.number == 0 && n.str == "" && forall i :: 0 <= i < |n.children| ==> Shaped(n.children[i])
    case NumberNode => n.str == "" && n.children == []
    case NilNode => n == Leaf(NilNode)
    case DotNode => n == Leaf(DotNode)
    case StringNode => n.number == 0 && n.children == []
    case KeywordNode => n.number == 0 && n.children == []
    case SymbolNode => n.number == 0 && n.children == []
    case PairNode => false
    case EOFNode => false
  }

  predicate IsSuffixOf(rest: seq<Token>, ts: seq<Token>) {
    |rest| <= |ts| && ts[|ts| - |rest|..] == rest
  }

  /** Stack.Parse: one form from the front of `ts`, and the tokens after it.
      Every call consumes the head token first. */
  function ParseOne(ts: seq<Token>): (r: Result<(Node, seq<Token>)>)
    ensures r.Success? ==> IsSuffixOf(r.value.1, ts) && |r.value.1| < |ts| && Shaped(r.value.0)
    decreases |ts|, 0
  {
    if ts == [] then Failure(OutOfRange)
    else
      var head := ts[0];
      if IsAtomToken(head) then Success((LeafOf(head), ts[1..]))
      else if head.kind == OpenVectorToken then ParseItems(ts[1..], VectorNode, [])
      else if head.kind == OpenParToken then ParseItems(ts[1..], ListNode, [])
      else if head.kind == CloseVectorToken then Failure(StrayVector)
      else if head.kind == CloseParToken then Failure(StrayList)
      else Failure(UnknownToken)
  }

  /** The loop of a list or vector: `acc` holds the children parsed so far. */
  function ParseItems(ts: seq<Token>, kind: NodeKind, acc: seq<Node>): (r: Result<(Node, seq<Token>)>)
    requires kind == ListNode || kind == VectorNode
    requires forall i :: 0 <= i < |acc| ==> Shaped(acc[i])
    ensures r.Success? ==> IsSuffixOf(r.value.1, ts) && |r.value.1| < |ts| && Shaped(r.value.0)
    ensures r.Success? ==> r.value.0.kind == kind && |acc| <= |r.value.0.children| && r.value.0.children[..|acc|] == acc
    decreases |ts|, 1
  {
    if ts == [] then Failure(OutOfRange)
    else if ts[0].kind == CloserOf(kind) then Success((Node(kind, 0, "", acc), ts[1..]))
    else
      match ParseOne(ts)
      case Failure(e) => Failure(e)
      case Success((n, rest)) =>
        ShapedSnoc(acc, n);
        var r := ParseItems(rest, kind, acc + [n]);
        if r.Success? then PrefixOfPrefix(r.value.0.children, acc, n); r else r
  }

  lemma ShapedSnoc(acc: seq<Node>, n: Node)
    requires (forall i :: 0 <= i < |acc| ==> Shaped(acc[i])) && Shaped(n)
    ensures forall i :: 0 <= i < |acc + [n]| ==> Shaped((acc + [n])[i])
  {
  }

  lemma PrefixOfPrefix(s: seq<Node>, acc: seq<Node>, n: Node)
    requires |acc + [n]| <= |s| && s[..|acc + [n]|] == acc + [n]
    ensures |acc| <= |s| && s[..|acc|] == acc
  {
    assert s[..|acc|] == s[..|acc + [n]|][..|acc|];
  }

  /** At most a terminal EOF token remains. */
  predicate AtMostEOF(rest: seq<Token>) {
    |rest| == 0 || (|rest| == 1 && rest[0].kind == EOFToken)
  }

  /** ParseTree: exactly one form, optionally followed by EOF. */
  function ParseWhole(ts: seq<Token>): (r: Result<Node>)
    ensures r.Success? ==> Shaped(r.value)
  {
    match ParseOne(ts)
    case Failure(e) => Failure(e)
    case Success((n, rest)) =>
      if |rest| > 1 then Failure(TrailingTokens)
      else if |rest| == 1 && rest[0].kind != EOFToken then Failure(TrailingTokens)
      else Success(n)
  }

  /** The token sequence the parser is consuming. */
  class Stack {
    var tokens: seq<Token>

    /** NewStack */
    constructor (tokens: seq<Token>)
      ensures this.tokens == tokens
    {
      this.tokens := tokens;
    }

    /** Parse: one form from the front of `tokens`; on success `tokens` is
        left holding exactly what follows it. */
    method Parse() returns (r: Result<Node>)
      modifies this
      ensures match ParseOne(old(tokens))
              case Failure(e) => r == Failure(e)
              case Success((n, rest)) => r == Success(n) && tokens == rest
      decreases |tokens|
    {
      if |tokens| == 0 {
        return Failure(OutOfRange);
      }
      var head := tokens[0];
      tokens := tokens[1..];
      if IsAtomToken(head) {
        return Success(LeafOf(head));
      }
      if head.kind == OpenVectorToken || head.kind == OpenParToken {
        var kind := if head.kind == OpenVectorToken then VectorNode else ListNode;
        var children: seq<Node> := [];
        ghost var start := tokens;
        while true
          invariant |tokens| <= |start|
          invariant forall i :: 0 <= i < |children| ==> Shaped(children[i])
          invariant ParseItems(tokens, kind, children) == ParseItems(start, kind, [])
          decreases |tokens|
        {
          if |tokens| == 0 {
            return Failure(OutOfRange);
          }
          var subhead := tokens[0];
          if subhead.kind == CloserOf(kind) {
            tokens := tokens[1..];
            break;
          }
          var sub := Parse();
          if sub.Failure? {
            return Failure(sub.error);
          }
          children := children + [sub.value];
        }
        return Success(Node(kind, 0, "", children));
      }
      if head.kind == CloseVectorToken {
        return Failure(StrayVector);
      }
      if head.kind == CloseParToken {
        return Failure(StrayList);
      }
      return Failure(UnknownToken);
    }
  }

  /** ParseTree */
  method ParseTree(ts: seq<Token>) returns (r: Result<Node>)
    ensures r == ParseWhole(ts)
  {
    var stack := new Stack(ts);
    var node := stack.Parse();
    if node.Failure? {
      return Failure(node.error);
    }
    if |stack.tokens| > 1 {
      return Failure(TrailingTokens);
    }
    if |stack.tokens| == 1 && stack.tokens[0].kind != EOFToken {
      return Failure(TrailingTokens);
    }
    return node;
  }

  /** ParseForm: the next top-level form of a token stream. An empty stream, or
      a lone EOF token, gives an EOF node and consumes nothing; on success
      `remaining` is exactly what follows the form; on failure the stream is
      left as it was. */
  method ParseForm(ts: seq<Token>) returns (r: Result<Node>, remaining: seq<Token>)
    ensures AtMostEOF(ts) ==> r == Success(Leaf(EOFNode)) && remaining == ts
    ensures !AtMostEOF(ts) && ParseOne(ts).Failure? ==> r == Failure(ParseOne(ts).error) && remaining == ts
    ensures !AtMostEOF(ts) && ParseOne(ts).Success? ==>
              r == Success(ParseOne(ts).value.0) && remaining == ParseOne(ts).value.1
  {
    var stack := new Stack(ts);
    if |stack.tokens| < 1 {
      return Success(Leaf(EOFNode)), ts;
    }
    if |stack.tokens| == 1 && stack.tokens[0].kind == EOFToken {
      return Success(Leaf(EOFNode)), ts;
    }
    var node := stack.Parse();
    if node.Failure? {
      return node, ts;
    }
    return node, stack.tokens;
  }
}
