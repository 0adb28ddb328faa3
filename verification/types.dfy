/**
 * The records shared by every stage of emenv: tokens, the generic data-literal
 * tree, the archive-contents records, the resolved install set and the diff set,
 * together with the closed set of error kinds the pipeline can report.
 */
module Types {

  datatype Option<+T> = None | Some(value: T)

  datatype Result<+T> = Success(value: T) | Failure(error: Error)

  /** Every error the modelled core can return. */
  datatype Error =
    | RepositoryNotFound(repo: string)
    | PackageNotFound(pkg: string, repo: string)
    | NoSuchPackage(pkg: string)
    | Unreachable
    | TrailingTokens
    | UnknownToken
    | StrayVector
    | StrayList
    | DanglingVector
    | DanglingList
    | UnknownDirective
    | BadSyntax
      // the reader ran out of input inside a string literal (io.EOF)
    | UnexpectedEOF
      // an index expression out of range; Go reports it as a run-time panic
    | OutOfRange
      // a failure of an external effect (file removal, download)
    | EffectFailed

  datatype TokenKind =
    | StringToken | NumberToken | OpenVectorToken | CloseVectorToken
    | OpenParToken | CloseParToken | SymbolToken | KeywordToken
    | DotToken | QuoteToken | NilToken | EOFToken

  /** A token; `number` is meaningful for numbers, `str` for strings, symbols,
      keywords and the text of numbers. */
  datatype Token = Token(kind: TokenKind, number: int, str: string)

  /** A token carrying no payload. */
  function Bare(kind: TokenKind): Token { Token(kind, 0, "") }

  datatype NodeKind =
    | ListNode | VectorNode | PairNode | DotNode | StringNode
    | SymbolNode | KeywordNode | NumberNode | NilNode | EOFNode

  datatype Node = Node(kind: NodeKind, number: int, str: string, children: seq<Node>)

  function Leaf(kind: NodeKind): Node { Node(kind, 0, "", []) }

  datatype Version = Version(members: seq<int>, literal: string)

  datatype StorageType = FileStorage | TarStorage

  datatype PackageType =
    | RootPackage | StandardPackage | ThemePackage
    | ProvidedPackage | ShadowPackage | DependencyPackage

  /** A requirement: an empty `repo` means "search in preference order". */
  datatype PackageDef = PackageDef(name: string, repo: string, kind: PackageType, version: Version)

  /** A catalog entry of a repository index. */
  datatype Package = Package(
    name: string, version: Version, desc: string, storage: StorageType,
    url: string, dependencies: seq<PackageDef>)

  datatype Repository = Repository(name: string, url: string, version: int, packages: seq<Package>)

  datatype Source = Source(name: string, url: string)

  /** A resolved decision for one name; `parent` is the arena index of the
      tree node the definition was attached under (None for root, provided
      and shadow definitions, whose Go parent field is nil). */
  datatype InstallDef = InstallDef(
    kind: PackageType, url: string, repo: string, name: string,
    version: string, storage: StorageType, depth: nat, parent: Option<nat>)

  /** A node of the provenance tree, stored in an arena; `children` are arena indices. */
  datatype InstallNode = InstallNode(def: InstallDef, children: seq<nat>)

  datatype Upgrade = Upgrade(prev: InstallDef, next: InstallDef)

  datatype DiffSet = DiffSet(
    keep: seq<InstallDef>, delete: seq<InstallDef>,
    install: seq<InstallDef>, upgrade: seq<Upgrade>)

  /** The placeholder definition recorded for a superseded or losing occurrence. */
  function ShadowDef(name: string): InstallDef {
    InstallDef(ShadowPackage, "", "", name, "", FileStorage, 0, None)
  }

  // Sequence facts stated once, so that a caller can use them without
  // asserting sequence equalities in a large context.

  lemma AppendAssociates<T>(a: seq<T>, b: seq<T>, c: seq<T>)
    ensures a + b + c == a + (b + c)
  {
  }

  lemma AppendNil<T>(s: seq<T>)
    ensures s + [] == s && [] + s == s
  {
  }

  lemma TakeEnds<T>(s: seq<T>)
    ensures s[..0] == [] && s[..|s|] == s
  {
  }

  /** Growing a prefix by one element. */
  lemma TakeSnoc<T>(s: seq<T>, i: nat)
    requires i < |s|
    ensures s[..i + 1] == s[..i] + [s[i]]
  {
  }

  /** The head and the tail of a sequence built by prepending. */
  lemma Uncons<T>(x: T, s: seq<T>)
    ensures ([x] + s)[0] == x && ([x] + s)[1..] == s
  {
  }

  lemma ConsPair<T>(x: T, y: T, z: T)
    ensures [y] + [z] == [y, z] && [x] + [y, z] == [x, y, z]
  {
  }

  /** A non-empty sequence is its head followed by its tail. */
  lemma HeadTail<T>(s: seq<T>)
    requires |s| > 0
    ensures s == [s[0]] + s[1..]
  {
  }

  /** Indexing the tail is indexing one further along. */
  lemma TailIndex<T>(s: seq<T>)
    requires |s| > 0
    ensures forall i :: 0 <= i < |s| - 1 ==> s[1..][i] == s[i + 1]
  {
  }
}
