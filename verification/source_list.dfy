/**
 * The manifest directives of src/emenv/source_list.go. A manifest form
 * `(package NAME OPTIONS...)`, `(theme ...)`, `(source NAME URL)`,
 * `(prefer NAMES...)` or `(provided NAMES...)` updates the settings part of
 * Env. The functions specify each directive on a Settings value; the class
 * Config holds the same fields and its methods, which loop as the source
 * does, are proved to make exactly those updates, and nothing on failure.
 */
module SourceList {
  import opened Types

  /** The version of a manifest requirement: Go's zero Version. */
  const ZeroVersion := Version([], "")

  /** The fields of Env the manifest sets. */
  datatype Settings = Settings(
    sources: map<string, Source>, prefer: seq<string>, provided: seq<string>,
    packages: seq<PackageDef>, previous: map<string, InstallDef>)

  /** A name may be written as a symbol or as a string. */
  predicate IsName(n: Node) { n.kind == SymbolNode || n.kind == StringNode }

  // ---------------------------------------------------------------------------
  // package and theme

  /** One option of a package directive: the repository it selects. The
      shape test of `repo` joins its two conditions with `&&`, so a
      two-element option is never rejected, `(repo)` indexes past its end,
      and a longer one is accepted when its second element is a symbol. */
  function OptionRepo(elem: Node): (r: Result<string>)
    ensures r.Success? ==> elem.kind == ListNode && |elem.children| >= 2 &&
                           elem.children[0] == Node(SymbolNode, elem.children[0].number, "repo", elem.children[0].children) &&
                           r.value == elem.children[1].str
    ensures (elem.kind == ListNode && |elem.children| == 2 && elem.children[0].kind == SymbolNode &&
             elem.children[0].str == "repo") ==> r.Success?
  {
    if elem.kind != ListNode then Failure(BadSyntax)
    else if |elem.children| == 0 then Failure(OutOfRange)
    else if elem.children[0].kind != SymbolNode then Failure(BadSyntax)
    else if elem.children[0].str == "repo" then
      if |elem.children| != 2 && |elem.children| < 2 then Failure(OutOfRange)
      else if |elem.children| != 2 && elem.children[1].kind != SymbolNode then Failure(BadSyntax)
      else Success(elem.children[1].str)
    else Failure(UnknownDirective)
  }

  /** The option loop: options apply in order, so the last `repo` wins; with
      no options the repository stays `repo`. */
  function ApplyOptions(opts: seq<Node>, repo: string): (r: Result<string>)
    ensures r.Success? <==> forall i :: 0 <= i < |opts| ==> OptionRepo(opts[i]).Success?
    ensures r.Success? && opts == [] ==> r.value == repo
    ensures r.Success? && opts != [] ==> r.value == OptionRepo(opts[|opts| - 1]).value
    decreases |opts|
  {
    if opts == [] then Success(repo)
    else match OptionRepo(opts[0])
      case Failure(e) => Failure(e)
      case Success(chosen) =>
        var r := ApplyOptions(opts[1..], chosen);
        assert forall i :: 1 <= i < |opts| ==> opts[i] == opts[1..][i - 1];
        r
  }

  /** ApplyOptions on a suffix, unfolded once. */
  lemma OptionsStep(opts: seq<Node>, i: nat, repo: string)
    requires i < |opts|
    ensures ApplyOptions(opts[i..], repo) ==
              match OptionRepo(opts[i])
              case Failure(e) => Failure(e)
              case Success(chosen) => ApplyOptions(opts[i + 1..], chosen)
  {
    assert opts[i..][0] == opts[i] && opts[i..][1..] == opts[i + 1..];
  }

  /** One option of the loop in AddPackageToConfig, checked as the source
      checks it. */
  method ReadOption(elem: Node) returns (r: Result<string>)
    ensures r == OptionRepo(elem)
  {
    if elem.kind != ListNode {
      return Failure(BadSyntax);
    }
    if |elem.children| == 0 {
      return Failure(OutOfRange);
    }
    if elem.children[0].kind != SymbolNode {
      return Failure(BadSyntax);
    }
    var arg := elem.children[0].str;
    if arg == "repo" {
      if |elem.children| != 2 && |elem.children| < 2 {
        return Failure(OutOfRange);
      }
      if |elem.children| != 2 && elem.children[1].kind != SymbolNode {
        return Failure(BadSyntax);
      }
      return Success(elem.children[1].str);
    }
    return Failure(UnknownDirective);
  }

  /** The option loop of AddPackageToConfig: the first bad option is the
      error, otherwise the last `repo` option is the repository. */
  method ReadOptions(opts: seq<Node>) returns (r: Result<string>)
    ensures r == ApplyOptions(opts, "")
  {
    var repo := "";
    var i := 0;
    assert opts[i..] == opts;
    while i < |opts|
      invariant i <= |opts|
      invariant ApplyOptions(opts[i..], repo) == ApplyOptions(opts, "")
    {
      OptionsStep(opts, i, repo);
      var chosen := ReadOption(opts[i]);
      if chosen.Failure? {
        return Failure(chosen.error);
      }
      repo := chosen.value;
      i := i + 1;
    }
    assert opts[i..] == [];
    return Success(repo);
  }

  /** The requirement a package directive's arguments describe. */
  function ParsePackage(list: seq<Node>, kind: PackageType): (r: Result<PackageDef>)
    ensures r.Success? ==> |list| > 0 && IsName(list[0])
    ensures r.Success? ==> r.value.name == list[0].str && r.value.kind == kind && r.value.version == ZeroVersion
    ensures r.Success? && |list| == 1 ==> r.value.repo == ""
    ensures r.Success? && |list| > 1 ==>
              OptionRepo(list[|list| - 1]).Success? && r.value.repo == OptionRepo(list[|list| - 1]).value
    ensures |list| == 0 ==> r == Failure(OutOfRange)
  {
    if |list| == 0 then Failure(OutOfRange)
    else if !IsName(list[0]) then Failure(BadSyntax)
    else match ApplyOptions(list[1..], "")
      case Failure(e) => Failure(e)
      case Success(repo) =>
        assert |list| > 1 ==> list[1..][|list| - 2] == list[|list| - 1];
        Success(PackageDef(list[0].str, repo, kind, ZeroVersion))
  }

  function AddPackage(s: Settings, list: seq<Node>, kind: PackageType): (r: Result<Settings>)
    ensures r.Success? ==> |r.value.packages| == |s.packages| + 1 && r.value.packages[..|s.packages|] == s.packages
    ensures r.Success? ==> ParsePackage(list, kind) == Success(r.value.packages[|s.packages|])
    ensures r.Success? ==> r.value.(packages := s.packages) == s
    ensures r.Failure? ==> ParsePackage(list, kind) == Failure(r.error)
  {
    match ParsePackage(list, kind)
    case Success(d) => Success(s.(packages := s.packages + [d]))
    case Failure(e) => Failure(e)
  }

  // ---------------------------------------------------------------------------
  // source, prefer, provided

  function AddSource(s: Settings, list: seq<Node>): (r: Result<Settings>)
    ensures r.Success? <==> |list| == 2 && list[0].kind == SymbolNode && list[1].kind == StringNode
    ensures r.Success? ==> r.value.sources.Keys == s.sources.Keys + {list[0].str}
    ensures r.Success? ==> r.value.sources[list[0].str] == Source(list[0].str, list[1].str)
    ensures r.Success? ==> forall k :: k in s.sources && k != list[0].str ==> r.value.sources[k] == s.sources[k]
    ensures r.Success? ==> r.value.(sources := s.sources) == s
    ensures r.Failure? ==> r.error == BadSyntax
  {
    if |list| != 2 || list[0].kind != SymbolNode || list[1].kind != StringNode then Failure(BadSyntax)
    else Success(s.(sources := s.sources[list[0].str := Source(list[0].str, list[1].str)]))
  }

  /** The names a prefer or provided directive lists, in order. */
  function NameList(list: seq<Node>): (r: Result<seq<string>>)
    ensures r.Success? <==> forall i :: 0 <= i < |list| ==> IsName(list[i])
    ensures r.Success? ==> |r.value| == |list| && forall i :: 0 <= i < |list| ==> r.value[i] == list[i].str
    ensures r.Failure? ==> r.error == BadSyntax
    decreases |list|
  {
    if list == [] then Success([])
    else if !IsName(list[0]) then Failure(BadSyntax)
    else match NameList(list[1..])
      case Failure(e) => Failure(e)
      case Success(rest) =>
        assert forall i :: 1 <= i < |list| ==> list[i] == list[1..][i - 1];
        Success([list[0].str] + rest)
  }

  /** Replaces, does not extend, the preference order. */
  function SetPrefer(s: Settings, list: seq<Node>): (r: Result<Settings>)
    ensures r.Success? ==> NameList(list) == Success(r.value.prefer) && r.value.(prefer := s.prefer) == s
    ensures r.Failure? ==> r.error == BadSyntax
  {
    match NameList(list)
    case Success(names) => Success(s.(prefer := names))
    case Failure(e) => Failure(e)
  }

  /** Replaces, does not extend, the provided names. */
  function SetProvided(s: Settings, list: seq<Node>): (r: Result<Settings>)
    ensures r.Success? ==> NameList(list) == Success(r.value.provided) && r.value.(provided := s.provided) == s
    ensures r.Failure? ==> r.error == BadSyntax
  {
    match NameList(list)
    case Success(names) => Success(s.(provided := names))
    case Failure(e) => Failure(e)
  }

  /** AddToConfig: a manifest form dispatched on its leading symbol. */
  function Directive(s: Settings, list: seq<Node>): (r: Result<Settings>)
    ensures |list| == 0 ==> r == Failure(OutOfRange)
    ensures |list| > 0 && list[0].kind != SymbolNode ==> r == Failure(BadSyntax)
    ensures (|list| > 0 && list[0].kind == SymbolNode &&
             list[0].str !in {"package", "theme", "source", "prefer", "provided"}) ==> r == Failure(UnknownDirective)
  {
    if |list| == 0 then Failure(OutOfRange)
    else if list[0].kind != SymbolNode then Failure(BadSyntax)
    else if list[0].str == "package" then AddPackage(s, list[1..], StandardPackage)
    else if list[0].str == "theme" then AddPackage(s, list[1..], ThemePackage)
    else if list[0].str == "source" then AddSource(s, list[1..])
    else if list[0].str == "prefer" then SetPrefer(s, list[1..])
    else if list[0].str == "provided" then SetProvided(s, list[1..])
    else Failure(UnknownDirective)
  }

  // ---------------------------------------------------------------------------
  // Properties of the directives

  function SymbolLeaf(s: string): Node { Node(SymbolNode, 0, s, []) }

  function RepoOption(v: Node): Node { Node(ListNode, 0, "", [SymbolLeaf("repo"), v]) }

  /** A package directive appends exactly one requirement, of the kind its
      keyword names, and a theme directive one of kind Theme; a failed one
      changes nothing. */
  lemma PackageDirectiveAppends(s: Settings, list: seq<Node>)
    requires |list| > 0 && list[0].kind == SymbolNode && (list[0].str == "package" || list[0].str == "theme")
    ensures var kind := if list[0].str == "package" then StandardPackage else ThemePackage;
            match Directive(s, list)
            case Success(t) =>
              t.packages == s.packages + [ParsePackage(list[1..], kind).value] && t.(packages := s.packages) == s
            case Failure(e) => ParsePackage(list[1..], kind) == Failure(e)
  {
    var kind := if list[0].str == "package" then StandardPackage else ThemePackage;
    var r := Directive(s, list);
    assert r == AddPackage(s, list[1..], kind);
    if r.Success? {
      assert r.value.packages == r.value.packages[..|s.packages|] + [r.value.packages[|s.packages|]];
    }
  }

  /** `(repo V)` sets the repository to V's text whatever V's kind, since the
      shape test never rejects two elements; with several options the last
      one wins. */
  lemma RepoTwoElements(name: string, v: Node, w: Node, kind: PackageType)
    ensures ParsePackage([SymbolLeaf(name), RepoOption(v)], kind) == Success(PackageDef(name, v.str, kind, ZeroVersion))
    ensures ParsePackage([SymbolLeaf(name), RepoOption(v), RepoOption(w)], kind) == Success(PackageDef(name, w.str, kind, ZeroVersion))
  {
    assert [SymbolLeaf(name), RepoOption(v)][1..] == [RepoOption(v)];
    assert [SymbolLeaf(name), RepoOption(v), RepoOption(w)][1..] == [RepoOption(v), RepoOption(w)];
  }

  /** `(repo)` indexes past its end; `(repo A B)` takes A when it is a symbol
      and is rejected otherwise; an empty option indexes past its end; an
      option other than `repo` is an unknown directive. */
  lemma OptionShapes(a: Node, b: Node, head: string)
    ensures OptionRepo(Node(ListNode, 0, "", [SymbolLeaf("repo")])) == Failure(OutOfRange)
    ensures OptionRepo(Node(ListNode, 0, "", [SymbolLeaf("repo"), a, b])) ==
              if a.kind == SymbolNode then Success(a.str) else Failure(BadSyntax)
    ensures OptionRepo(Leaf(ListNode)) == Failure(OutOfRange)
    ensures head != "repo" ==> OptionRepo(Node(ListNode, 0, "", [SymbolLeaf(head)])) == Failure(UnknownDirective)
  {
  }

  /** An empty form and a bare `(package)` index past the end of the form. */
  lemma EmptyForms(s: Settings)
    ensures Directive(s, []) == Failure(OutOfRange)
    ensures Directive(s, [SymbolLeaf("package")]) == Failure(OutOfRange)
  {
    assert [SymbolLeaf("package")][1..] == [];
  }

  /** A successful directive changes only the field its keyword is about. */
  lemma DirectiveTouchesOneField(s: Settings, list: seq<Node>)
    requires Directive(s, list).Success?
    ensures var t := Directive(s, list).value;
            t.previous == s.previous &&
            (list[0].str == "package" || list[0].str == "theme" ==> t.(packages := s.packages) == s) &&
            (list[0].str == "source" ==> t.(sources := s.sources) == s) &&
            (list[0].str == "prefer" ==> t.(prefer := s.prefer) == s) &&
            (list[0].str == "provided" ==> t.(provided := s.provided) == s)
  {
  }

  // ---------------------------------------------------------------------------
  // The settings part of Env

  /** How a method call ended relative to its specification function: the
      specified new state on success, the same error and no change on failure. */
  ghost predicate Outcome(before: Settings, spec: Result<Settings>, err: Option<Error>, after: Settings) {
    match spec
    case Success(t) => err == None && after == t
    case Failure(e) => err == Some(e) && after == before
  }

  class Config {
    var sources: map<string, Source>
    var prefer: seq<string>
    var provided: seq<string>
    var packages: seq<PackageDef>
    var previous: map<string, InstallDef>

    function State(): Settings
      reads this
    {
      Settings(sources, prefer, provided, packages, previous)
    }

    constructor (s: Settings)
      ensures State() == s
    {
      sources := s.sources;
      prefer := s.prefer;
      provided := s.provided;
      packages := s.packages;
      previous := s.previous;
    }

    /** AddPackageToConfig */
    method AddPackageToConfig(list: seq<Node>, kind: PackageType) returns (err: Option<Error>)
      modifies this
      ensures Outcome(old(State()), AddPackage(old(State()), list, kind), err, State())
    {
      if |list| == 0 {
        return Some(OutOfRange);
      }
      if list[0].kind != SymbolNode && list[0].kind != StringNode {
        return Some(BadSyntax);
      }
      var pdef := PackageDef(list[0].str, "", kind, ZeroVersion);
      if |list| > 1 {
        var repo := ReadOptions(list[1..]);
        if repo.Failure? {
          return Some(repo.error);
        }
        pdef := pdef.(repo := repo.value);
      }
      packages := packages + [pdef];
      return None;
    }

    /** AddSourceToConfig: inserts or overwrites one source. */
    method AddSourceToConfig(list: seq<Node>) returns (err: Option<Error>)
      modifies this
      ensures Outcome(old(State()), AddSource(old(State()), list), err, State())
    {
      if |list| != 2 || list[0].kind != SymbolNode || list[1].kind != StringNode {
        return Some(BadSyntax);
      }
      sources := sources[list[0].str := Source(list[0].str, list[1].str)];
      return None;
    }

    /** SetPreferenceOrder */
    method SetPreferenceOrder(list: seq<Node>) returns (err: Option<Error>)
      modifies this
      ensures Outcome(old(State()), SetPrefer(old(State()), list), err, State())
    {
      var names: seq<string> := [];
      var i := 0;
      while i < |list|
        invariant i <= |list| && |names| == i
        invariant forall j :: 0 <= j < i ==> IsName(list[j]) && names[j] == list[j].str
      {
        if list[i].kind != SymbolNode && list[i].kind != StringNode {
          return Some(BadSyntax);
        }
        names := names + [list[i].str];
        i := i + 1;
      }
      prefer := names;
      return None;
    }

    /** SetProvidedDependencies */
    method SetProvidedDependencies(list: seq<Node>) returns (err: Option<Error>)
      modifies this
      ensures Outcome(old(State()), SetProvided(old(State()), list), err, State())
    {
      var names: seq<string> := [];
      var i := 0;
      while i < |list|
        invariant i <= |list| && |names| == i
        invariant forall j :: 0 <= j < i ==> IsName(list[j]) && names[j] == list[j].str
      {
        if list[i].kind != SymbolNode && list[i].kind != StringNode {
          return Some(BadSyntax);
        }
        names := names + [list[i].str];
        i := i + 1;
      }
      provided := names;
      return None;
    }

    /** AddToConfig */
    method AddToConfig(list: seq<Node>) returns (err: Option<Error>)
      modifies this
      ensures Outcome(old(State()), Directive(old(State()), list), err, State())
    {
      if |list| == 0 {
        return Some(OutOfRange);
      }
      if list[0].kind != SymbolNode {
        return Some(BadSyntax);
      }
      var head := list[0].str;
      if head == "package" {
        err := AddPackageToConfig(list[1..], StandardPackage);
      } else if head == "theme" {
        err := AddPackageToConfig(list[1..], ThemePackage);
      } else if head == "source" {
        err := AddSourceToConfig(list[1..]);
      } else if head == "prefer" {
        err := SetPreferenceOrder(list[1..]);
      } else if head == "provided" {
        err := SetProvidedDependencies(list[1..]);
      } else {
        err := Some(UnknownDirective);
      }
    }
  }
}
