/**
 * The decoders of src/emenv/package_list.go: fail-closed shape checks that
 * turn the tree of an `archive-contents` index into Version, dependency,
 * Package and Repository records. Each Go loop only accumulates a local
 * slice, so each is a recursive function over the children. Beside every
 * decoder sits the encoder of the shape it accepts; the round-trip lemmas
 * show that decoding inverts encoding, and the decoders' contracts show that
 * everything they return is in the encoders' domain.
 */
module PackageList {
  import opened Types
  import opened Decimal

  // ---------------------------------------------------------------------------
  // Versions

  /** The `%d` renderings of `ms` joined by `.` (strings.Join). */
  function DottedLiteral(ms: seq<int>): string
    decreases |ms|
  {
    if ms == [] then ""
    else if |ms| == 1 then IntToString(ms[0])
    else IntToString(ms[0]) + "." + DottedLiteral(ms[1..])
  }

  /** A version as the decoder builds it: at least one member, and the
      literal determined by the members. */
  predicate ValidVersion(v: Version) {
    |v.members| > 0 && v.literal == DottedLiteral(v.members)
  }

  predicate AllNumberNodes(ch: seq<Node>) {
    forall i :: 0 <= i < |ch| ==> ch[i].kind == NumberNode
  }

  /** The loop of VersionFromAST: the numbers of the children in order, or
      None at the first child that is not a number. */
  function NumbersOf(ch: seq<Node>): (r: Option<seq<int>>)
    ensures r.Some? <==> AllNumberNodes(ch)
    ensures r.Some? ==> |r.value| == |ch| && forall i :: 0 <= i < |ch| ==> r.value[i] == ch[i].number
    decreases |ch|
  {
    if ch == [] then Some([])
    else if ch[0].kind != NumberNode then None
    else match NumbersOf(ch[1..])
      case None => None
      case Some(rest) => Some([ch[0].number] + rest)
  }

  /** VersionFromAST: the node's own kind is not examined. */
  function VersionFromAST(node: Node): (r: Result<Version>)
    ensures r.Success? <==> |node.children| > 0 && AllNumberNodes(node.children)
    ensures r.Success? ==> ValidVersion(r.value) && |r.value.members| == |node.children|
    ensures r.Success? ==> forall i :: 0 <= i < |node.children| ==> r.value.members[i] == node.children[i].number
    ensures r.Failure? ==> r.error == BadSyntax
  {
    if |node.children| < 1 then Failure(BadSyntax)
    else match NumbersOf(node.children)
      case None => Failure(BadSyntax)
      case Some(ms) => Success(Version(ms, DottedLiteral(ms)))
  }

  function NumberLeaf(n: int): Node { Node(NumberNode, n, "", []) }

  /** The list `(1 2 3)` a version is written as. */
  function VersionNode(v: Version): Node {
    Node(ListNode, 0, "", seq(|v.members|, i requires 0 <= i < |v.members| => NumberLeaf(v.members[i])))
  }

  lemma VersionRoundTrip(v: Version)
    requires ValidVersion(v)
    ensures VersionFromAST(VersionNode(v)) == Success(v)
  {
    var r := VersionFromAST(VersionNode(v));
    assert r.Success?;
    assert r.value.members == v.members;
  }

  /** Version decoding does not depend on the kind of the node. */
  lemma VersionIgnoresKind(node: Node, kind: NodeKind)
    ensures VersionFromAST(node.(kind := kind)) == VersionFromAST(node)
  {
  }

  // The literal determines the members: splitting at the first `.`.

  /** The index of the first `.` in `w`, or |w| when there is none. */
  function DotIndex(w: string): (k: nat)
    ensures k <= |w|
  {
    if w == [] then 0 else if w[0] == '.' then 0 else 1 + DotIndex(w[1..])
  }

  lemma {:induction false} DotIndexAfter(x: string, tail: string)
    requires '.' !in x && (tail == "" || tail[0] == '.')
    ensures DotIndex(x + tail) == |x|
    decreases |x|
  {
    if x != [] {
      assert (x + tail)[1..] == x[1..] + tail;
      DotIndexAfter(x[1..], tail);
    }
  }

  /** What follows the first member in a literal: nothing, or `.` and the rest. */
  function DotTail(ms: seq<int>): string {
    if ms == [] then "" else "." + DottedLiteral(ms)
  }

  lemma DottedLiteralSplits(ms: seq<int>)
    requires |ms| > 0
    ensures DottedLiteral(ms) == IntToString(ms[0]) + DotTail(ms[1..])
  {
  }

  /** A dot-free head followed by nothing or by a dot splits uniquely. */
  lemma HeadsAgree(x: string, s: string, y: string, t: string)
    requires '.' !in x && '.' !in y
    requires (s == "" || s[0] == '.') && (t == "" || t[0] == '.')
    requires x + s == y + t
    ensures x == y && s == t
  {
    DotIndexAfter(x, s);
    DotIndexAfter(y, t);
    assert x == (x + s)[..|x|];
    assert y == (y + t)[..|y|];
    assert s == (x + s)[|x|..];
    assert t == (y + t)[|y|..];
  }

  /** Equal literals have equal first members and equal remainders. */
  lemma DottedStep(a: seq<int>, b: seq<int>)
    requires |a| > 0 && |b| > 0 && DottedLiteral(a) == DottedLiteral(b)
    ensures a[0] == b[0] && DotTail(a[1..]) == DotTail(b[1..])
  {
    var x, y := IntToString(a[0]), IntToString(b[0]);
    DottedLiteralSplits(a);
    DottedLiteralSplits(b);
    HeadsAgree(x, DotTail(a[1..]), y, DotTail(b[1..]));
    IntToStringInjective(a[0], b[0]);
  }

  /** Distinct member lists have distinct literals. */
  lemma {:induction false} DottedLiteralInjective(a: seq<int>, b: seq<int>)
    requires |a| > 0 && |b| > 0 && DottedLiteral(a) == DottedLiteral(b)
    ensures a == b
    decreases |a|
  {
    DottedStep(a, b);
    var s, t := a[1..], b[1..];
    if s != [] {
      assert t != [] && DottedLiteral(s) == DotTail(s)[1..] == DotTail(t)[1..] == DottedLiteral(t);
      DottedLiteralInjective(s, t);
    } else {
      assert t == [];
    }
    assert a == [a[0]] + s && b == [b[0]] + t;
  }

  /** Two decoded versions with the same literal are the same version. */
  lemma LiteralDeterminesVersion(v: Version, u: Version)
    requires ValidVersion(v) && ValidVersion(u) && v.literal == u.literal
    ensures v == u
  {
    DottedLiteralInjective(v.members, u.members);
  }

  // ---------------------------------------------------------------------------
  // Dependencies

  /** A dependency as the decoder builds it. */
  predicate ValidDependency(d: PackageDef) {
    d.repo == "" && d.kind == DependencyPackage && ValidVersion(d.version)
  }

  /** DependencyFromAST: exactly `(name (version...))`. */
  function DependencyFromAST(node: Node): (r: Result<PackageDef>)
    ensures r.Success? <==>
              node.kind == ListNode && |node.children| == 2 &&
              node.children[0].kind == SymbolNode && node.children[1].kind == ListNode &&
              VersionFromAST(node.children[1]).Success?
    ensures r.Success? ==> ValidDependency(r.value) && r.value.name == node.children[0].str
    ensures r.Failure? ==> r.error == BadSyntax
  {
    if node.kind != ListNode || |node.children| != 2 then Failure(BadSyntax)
    else if node.children[0].kind != SymbolNode || node.children[1].kind != ListNode then Failure(BadSyntax)
    else match VersionFromAST(node.children[1])
      case Failure(e) => Failure(e)
      case Success(version) => Success(PackageDef(node.children[0].str, "", DependencyPackage, version))
  }

  /** The loop of DependenciesFromAST: the definitions decoded before the
      first failure, and that failure. */
  function DecodeDependencies(ch: seq<Node>): (r: (seq<PackageDef>, Option<Error>))
    ensures |r.0| <= |ch|
    ensures r.1.None? ==> |r.0| == |ch|
    decreases |ch|
  {
    if ch == [] then ([], None)
    else match DependencyFromAST(ch[0])
      case Failure(e) => ([], Some(e))
      case Success(d) =>
        var (ds, err) := DecodeDependencies(ch[1..]);
        ([d] + ds, err)
  }

  /** The loop stops exactly at the first child that does not decode, and
      everything before it decoded in order. */
  lemma {:induction false} DecodeDependenciesMeaning(ch: seq<Node>)
    ensures var r := DecodeDependencies(ch);
            (forall i :: 0 <= i < |r.0| ==> DependencyFromAST(ch[i]) == Success(r.0[i])) &&
            (r.1.Some? ==> |r.0| < |ch| && DependencyFromAST(ch[|r.0|]) == Failure(r.1.value))
    decreases |ch|
  {
    if ch != [] && DependencyFromAST(ch[0]).Success? {
      var d := DependencyFromAST(ch[0]).value;
      var (ds, err) := DecodeDependencies(ch[1..]);
      DecodeDependenciesMeaning(ch[1..]);
      TailIndex(ch);
      Uncons(d, ds);
      TailIndex([d] + ds);
    }
  }

  /** DependenciesFromAST: `nil` and `()` give no dependencies; otherwise one
      per child in order, stopping at the first bad child with the
      definitions decoded so far. */
  function DependenciesFromAST(node: Node): (r: (seq<PackageDef>, Option<Error>))
    ensures node.kind == NilNode || node.children == [] ==> r == ([], None)
    ensures |r.0| <= |node.children|
    ensures forall i :: 0 <= i < |r.0| ==> DependencyFromAST(node.children[i]) == Success(r.0[i])
    ensures r.1.None? ==> (forall i :: 0 <= i < |r.0| ==> ValidDependency(r.0[i]))
    ensures r.1.None? && node.kind != NilNode ==> |r.0| == |node.children|
    ensures r.1.Some? ==> r.1.value == BadSyntax && |r.0| < |node.children| && DependencyFromAST(node.children[|r.0|]).Failure?
  {
    if node.kind == NilNode || |node.children| == 0 then ([], None)
    else
      DecodeDependenciesMeaning(node.children);
      DecodeDependencies(node.children)
  }

  function SymbolLeaf(s: string): Node { Node(SymbolNode, 0, s, []) }

  function DependencyNode(d: PackageDef): Node {
    Node(ListNode, 0, "", [SymbolLeaf(d.name), VersionNode(d.version)])
  }

  /** The entries of a dependency list, in order. */
  function DependencyNodes(ds: seq<PackageDef>): (r: seq<Node>)
    ensures |r| == |ds|
    decreases |ds|
  {
    if ds == [] then [] else [DependencyNode(ds[0])] + DependencyNodes(ds[1..])
  }

  /** `nil` for no dependencies, otherwise the list of them. */
  function DependenciesNode(ds: seq<PackageDef>): Node {
    if ds == [] then Leaf(NilNode)
    else Node(ListNode, 0, "", DependencyNodes(ds))
  }

  lemma DependencyRoundTrip(d: PackageDef)
    requires ValidDependency(d)
    ensures DependencyFromAST(DependencyNode(d)) == Success(d)
  {
    VersionRoundTrip(d.version);
  }

  /** DecodeDependencies on a non-empty list, unfolded once. */
  lemma DecodeDependenciesCons(ch: seq<Node>)
    requires ch != []
    ensures DecodeDependencies(ch) ==
              match DependencyFromAST(ch[0])
              case Failure(e) => ([], Some(e))
              case Success(d) => ([d] + DecodeDependencies(ch[1..]).0, DecodeDependencies(ch[1..]).1)
  {
  }

  lemma {:induction false} DecodeDependenciesRoundTrip(ds: seq<PackageDef>)
    requires forall i :: 0 <= i < |ds| ==> ValidDependency(ds[i])
    ensures DecodeDependencies(DependencyNodes(ds)) == (ds, None)
    decreases |ds|
  {
    if ds != [] {
      var ch := DependencyNodes(ds);
      DependencyRoundTrip(ds[0]);
      Uncons(DependencyNode(ds[0]), DependencyNodes(ds[1..]));
      DecodeDependenciesCons(ch);
      TailIndex(ds);
      DecodeDependenciesRoundTrip(ds[1..]);
      HeadTail(ds);
    }
  }

  lemma DependenciesRoundTrip(ds: seq<PackageDef>)
    requires forall i :: 0 <= i < |ds| ==> ValidDependency(ds[i])
    ensures DependenciesFromAST(DependenciesNode(ds)) == (ds, None)
  {
    if ds != [] {
      DecodeDependenciesRoundTrip(ds);
    }
  }

  // ---------------------------------------------------------------------------
  // Packages

  /** The storage kind named by the fourth detail, if it is known. */
  function StorageOf(kind: string): (r: Option<StorageType>)
    ensures r.Some? <==> kind == "single" || kind == "tar"
    ensures r.Some? ==> StorageName(r.value) == kind
  {
    if kind == "single" then Some(FileStorage)
    else if kind == "tar" then Some(TarStorage)
    else None
  }

  function StorageName(s: StorageType): string {
    match s
    case FileStorage => "single"
    case TarStorage => "tar"
  }

  lemma StorageRoundTrip(s: StorageType)
    ensures StorageOf(StorageName(s)) == Some(s)
  {
  }

  /** The file suffix of a download. */
  function Suffix(s: StorageType): string {
    match s
    case FileStorage => "el"
    case TarStorage => "tar"
  }

  /** The download URL of a package: `{url}/{name}-{literal}.{suffix}`. */
  function PackageUrl(url: string, name: string, literal: string, s: StorageType): string {
    url + "/" + name + "-" + literal + "." + Suffix(s)
  }

  /** A package as the decoder builds it from an index at `url`. */
  predicate ValidPackage(url: string, p: Package) {
    ValidVersion(p.version) &&
    (forall i :: 0 <= i < |p.dependencies| ==> ValidDependency(p.dependencies[i])) &&
    p.url == PackageUrl(url, p.name, p.version.literal, p.storage)
  }

  /** PackageFromAST: `(name . [(version) deps "desc" kind ...] ...)`; extra
      children and extra details are ignored. */
  function PackageFromAST(url: string, node: Node): (r: Result<Package>)
    ensures r.Failure? ==> r.error == BadSyntax
  {
    var ch := node.children;
    if |ch| < 3 then Failure(BadSyntax)
    else if ch[0].kind != SymbolNode || ch[1].kind != DotNode || ch[2].kind != VectorNode then Failure(BadSyntax)
    else if |ch[2].children| < 4 then Failure(BadSyntax)
    else PackageFromDetails(url, ch[0].str, ch[2].children)
  }

  /** The kinds the decoder demands of the first four details: a version list,
      a dependency list or nil, a description string and a storage symbol. */
  predicate DetailKinds(details: seq<Node>)
    requires |details| >= 4
  {
    details[0].kind == ListNode && (details[1].kind == ListNode || details[1].kind == NilNode) &&
    details[2].kind == StringNode && details[3].kind == SymbolNode
  }

  /** The second half of PackageFromAST: the details vector of the package
      `name`, of which only the first four are read. */
  function PackageFromDetails(url: string, name: string, details: seq<Node>): (r: Result<Package>)
    requires |details| >= 4
    ensures r.Failure? ==> r.error == BadSyntax
    ensures !DetailKinds(details) ==> r == Failure(BadSyntax)
  {
    if details[0].kind != ListNode || (details[1].kind != ListNode && details[1].kind != NilNode)
       || details[2].kind != StringNode || details[3].kind != SymbolNode then Failure(BadSyntax)
    else match VersionFromAST(details[0])
      case Failure(e) => Failure(e)
      case Success(version) =>
        var (deps, err) := DependenciesFromAST(details[1]);
        if err.Some? then Failure(err.value)
        else match StorageOf(details[3].str)
          case None => Failure(BadSyntax)
          case Some(storage) =>
            Success(Package(name, version, details[2].str, storage,
                            PackageUrl(url, name, version.literal, storage), deps))
  }

  /** What a decoded package is made of: the name, the description and the
      storage kind of the entry, its decoded version and dependencies, and the
      download URL they determine. */
  lemma PackageDecoded(url: string, node: Node)
    requires PackageFromAST(url, node).Success?
    ensures var p := PackageFromAST(url, node).value;
            ValidPackage(url, p) &&
            |node.children| >= 3 && |node.children[2].children| >= 4 &&
            node.children[0].kind == SymbolNode && node.children[1].kind == DotNode &&
            node.children[2].kind == VectorNode &&
            DetailKinds(node.children[2].children) &&
            p.name == node.children[0].str &&
            p.desc == node.children[2].children[2].str &&
            StorageName(p.storage) == node.children[2].children[3].str &&
            VersionFromAST(node.children[2].children[0]) == Success(p.version) &&
            DependenciesFromAST(node.children[2].children[1]) == (p.dependencies, None)
  {
  }

  /** The details vector a package is written with. */
  function DetailNodes(p: Package): seq<Node> {
    [VersionNode(p.version), DependenciesNode(p.dependencies),
     Node(StringNode, 0, p.desc, []), SymbolLeaf(StorageName(p.storage))]
  }

  /** The index entry a package is written as. */
  function EntryNode(p: Package): Node {
    Node(ListNode, 0, "", [SymbolLeaf(p.name), Leaf(DotNode), Node(VectorNode, 0, "", DetailNodes(p))])
  }

  lemma DetailsRoundTrip(url: string, p: Package)
    requires ValidPackage(url, p)
    ensures PackageFromDetails(url, p.name, DetailNodes(p)) == Success(p)
  {
    VersionRoundTrip(p.version);
    DependenciesRoundTrip(p.dependencies);
    StorageRoundTrip(p.storage);
  }

  lemma PackageRoundTrip(url: string, p: Package)
    requires ValidPackage(url, p)
    ensures PackageFromAST(url, EntryNode(p)) == Success(p)
  {
    DetailsRoundTrip(url, p);
  }

  /** Details after the fourth do not matter. */
  lemma ExtraDetailsIgnored(url: string, name: string, details: seq<Node>, more: seq<Node>)
    requires |details| >= 4
    ensures PackageFromDetails(url, name, details + more) == PackageFromDetails(url, name, details)
  {
    assert (details + more)[..4] == details[..4];
  }

  /** Children after the third and details after the fourth do not matter. */
  lemma ExtraFieldsIgnored(url: string, node: Node, more: seq<Node>, moreDetails: seq<Node>)
    requires |node.children| >= 3 && |node.children[2].children| >= 4
    ensures var vec := node.children[2];
            var wider := node.(children := [node.children[0], node.children[1],
                                            vec.(children := vec.children + moreDetails)] + node.children[3..] + more);
            PackageFromAST(url, wider) == PackageFromAST(url, node)
  {
    var vec := node.children[2];
    var wide := vec.(children := vec.children + moreDetails);
    var wider := node.(children := [node.children[0], node.children[1], wide] + node.children[3..] + more);
    ExtraDetailsIgnored(url, node.children[0].str, vec.children, moreDetails);
    assert wider.children[..3] == [node.children[0], node.children[1], wide];
  }

  // ---------------------------------------------------------------------------
  // Repositories

  /** The loop of RepositoryFromAST over the entries. */
  function DecodePackages(url: string, ch: seq<Node>): (r: Result<seq<Package>>)
    ensures r.Failure? ==> r.error == BadSyntax
    decreases |ch|
  {
    if ch == [] then Success([])
    else if ch[0].kind != ListNode then Failure(BadSyntax)
    else match PackageFromAST(url, ch[0])
      case Failure(e) => Failure(e)
      case Success(p) =>
        match DecodePackages(url, ch[1..])
        case Failure(e) => Failure(e)
        case Success(ps) => Success([p] + ps)
  }

  /** DecodePackages on a non-empty list, unfolded once. */
  lemma DecodePackagesCons(url: string, ch: seq<Node>)
    requires ch != []
    ensures DecodePackages(url, ch).Success? <==>
              ch[0].kind == ListNode && PackageFromAST(url, ch[0]).Success? && DecodePackages(url, ch[1..]).Success?
    ensures DecodePackages(url, ch).Success? ==>
              DecodePackages(url, ch).value == [PackageFromAST(url, ch[0]).value] + DecodePackages(url, ch[1..]).value
  {
  }

  /** Decoding succeeds exactly when every entry is a list that decodes. */
  lemma {:induction false} DecodePackagesSucceeds(url: string, ch: seq<Node>)
    ensures DecodePackages(url, ch).Success? <==>
              forall i :: 0 <= i < |ch| ==> ch[i].kind == ListNode && PackageFromAST(url, ch[i]).Success?
    decreases |ch|
  {
    if ch != [] {
      DecodePackagesSucceeds(url, ch[1..]);
      DecodePackagesCons(url, ch);
      TailIndex(ch);
    }
  }

  /** A successful decoding holds every entry's package, in order. */
  lemma {:induction false} DecodePackagesValues(url: string, ch: seq<Node>)
    requires DecodePackages(url, ch).Success?
    ensures |DecodePackages(url, ch).value| == |ch|
    ensures forall i :: 0 <= i < |ch| ==> PackageFromAST(url, ch[i]) == Success(DecodePackages(url, ch).value[i])
    decreases |ch|
  {
    if ch != [] {
      DecodePackagesCons(url, ch);
      DecodePackagesValues(url, ch[1..]);
      TailIndex(ch);
      var p, ps := PackageFromAST(url, ch[0]).value, DecodePackages(url, ch[1..]).value;
      Uncons(p, ps);
      TailIndex([p] + ps);
    }
  }

  /** RepositoryFromAST: `(version entry entry ...)` with at least one entry. */
  function RepositoryFromAST(name: string, url: string, node: Node): (r: Result<Repository>)
    ensures r.Failure? ==> r.error == BadSyntax
  {
    if node.kind != ListNode then Failure(BadSyntax)
    else if |node.children| < 2 then Failure(BadSyntax)
    else if node.children[0].kind != NumberNode then Failure(BadSyntax)
    else match DecodePackages(url, node.children[1..])
      case Failure(e) => Failure(e)
      case Success(packages) => Success(Repository(name, url, node.children[0].number, packages))
  }

  /** An index decodes exactly when it is a list holding a number and at
      least one entry, every entry decoding; the repository then holds the
      entries' packages in order. */
  lemma RepositoryMeaning(name: string, url: string, node: Node)
    ensures var r := RepositoryFromAST(name, url, node);
            (r.Success? <==>
              node.kind == ListNode && |node.children| >= 2 && node.children[0].kind == NumberNode &&
              forall i :: 1 <= i < |node.children| ==>
                node.children[i].kind == ListNode && PackageFromAST(url, node.children[i]).Success?) &&
            (r.Success? ==>
              r.value.name == name && r.value.url == url && r.value.version == node.children[0].number &&
              |r.value.packages| == |node.children| - 1 > 0 &&
              forall i :: 0 <= i < |r.value.packages| ==> PackageFromAST(url, node.children[i + 1]) == Success(r.value.packages[i]))
  {
    if node.kind == ListNode && |node.children| >= 2 && node.children[0].kind == NumberNode {
      var entries := node.children[1..];
      TailIndex(node.children);
      DecodePackagesSucceeds(url, entries);
      if DecodePackages(url, entries).Success? {
        DecodePackagesValues(url, entries);
      }
    }
  }

  /** The entries of an index, in order. */
  function EntryNodes(ps: seq<Package>): (r: seq<Node>)
    ensures |r| == |ps|
    decreases |ps|
  {
    if ps == [] then [] else [EntryNode(ps[0])] + EntryNodes(ps[1..])
  }

  /** The index a repository is written as. */
  function RepositoryNode(r: Repository): Node {
    Node(ListNode, 0, "", [NumberLeaf(r.version)] + EntryNodes(r.packages))
  }

  lemma {:induction false} DecodePackagesRoundTrip(url: string, ps: seq<Package>)
    requires forall i :: 0 <= i < |ps| ==> ValidPackage(url, ps[i])
    ensures DecodePackages(url, EntryNodes(ps)) == Success(ps)
    decreases |ps|
  {
    if ps != [] {
      var ch := EntryNodes(ps);
      PackageRoundTrip(url, ps[0]);
      Uncons(EntryNode(ps[0]), EntryNodes(ps[1..]));
      TailIndex(ps);
      DecodePackagesRoundTrip(url, ps[1..]);
      DecodePackagesCons(url, ch);
      HeadTail(ps);
    }
  }

  lemma RepositoryRoundTrip(r: Repository)
    requires |r.packages| > 0
    requires forall i :: 0 <= i < |r.packages| ==> ValidPackage(r.url, r.packages[i])
    ensures RepositoryFromAST(r.name, r.url, RepositoryNode(r)) == Success(r)
  {
    Uncons(NumberLeaf(r.version), EntryNodes(r.packages));
    DecodePackagesRoundTrip(r.url, r.packages);
  }

  /** An index without entries is rejected. */
  lemma EmptyRepositoryRejected(name: string, url: string, version: int)
    ensures RepositoryFromAST(name, url, Node(ListNode, 0, "", [NumberLeaf(version)])) == Failure(BadSyntax)
  {
  }
}
