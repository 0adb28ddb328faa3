/**
 * The install-set resolver of src/emenv/install_set.go. The provenance tree
 * is an arena: `nodes[0]` is the root, a node lists its children by arena
 * index, and an InstallDef names the arena index of the node it was attached
 * under. The flat map `packages` holds one decision per name. Requirements
 * are looked up in repositories, host-provided names are never looked up,
 * and the shallowest occurrence of a name wins: a deeper earlier occurrence
 * is replaced by a shadow node in its parent's child list.
 */
module InstallSets {
  import opened Types

  // ---------------------------------------------------------------------------
  // Looking packages up

  /** The index of the first package called `name`. */
  function FirstNamedPackage(ps: seq<Package>, name: string): (r: Option<nat>)
    ensures r.Some? ==> r.value < |ps| && ps[r.value].name == name
    ensures r.Some? ==> forall j :: 0 <= j < r.value ==> ps[j].name != name
    ensures r.None? ==> forall j :: 0 <= j < |ps| ==> ps[j].name != name
    decreases |ps|
  {
    if ps == [] then None
    else if ps[0].name == name then Some(0)
    else match FirstNamedPackage(ps[1..], name)
      case None => None
      case Some(i) => Some(i + 1)
  }

  /** What FindPackageIn returns: the first package of that name in the
      repository's order, or why there is none. */
  function PackageIn(repos: map<string, Repository>, rname: string, pname: string): (r: Result<Package>)
    ensures rname !in repos ==> r == Failure(RepositoryNotFound(rname))
    ensures rname in repos ==>
              (r.Success? <==> exists i :: 0 <= i < |repos[rname].packages| && repos[rname].packages[i].name == pname)
    ensures rname in repos && r.Failure? ==> r.error == PackageNotFound(pname, rname)
    ensures r.Success? ==> rname in repos && r.value.name == pname && r.value in repos[rname].packages
    ensures r.Success? ==> exists i :: 0 <= i < |repos[rname].packages| && repos[rname].packages[i] == r.value &&
                                      forall j :: 0 <= j < i ==> repos[rname].packages[j].name != pname
  {
    if rname !in repos then Failure(RepositoryNotFound(rname))
    else match FirstNamedPackage(repos[rname].packages, pname)
      case None => Failure(PackageNotFound(pname, rname))
      case Some(i) => Success(repos[rname].packages[i])
  }

  /** The preference loop of AddToInstallSet: the first repository in
      `prefer` holding `name`; failed lookups are skipped. */
  function Preferred(repos: map<string, Repository>, prefer: seq<string>, name: string): (r: Option<(string, Package)>)
    ensures r.Some? ==> r.value.0 in prefer && PackageIn(repos, r.value.0, name) == Success(r.value.1)
    ensures r.None? <==> forall i :: 0 <= i < |prefer| ==> PackageIn(repos, prefer[i], name).Failure?
    decreases |prefer|
  {
    if prefer == [] then None
    else match PackageIn(repos, prefer[0], name)
      case Success(p) => Some((prefer[0], p))
      case Failure(_) =>
        var r := Preferred(repos, prefer[1..], name);
        assert forall i :: 1 <= i < |prefer| ==> prefer[i] == prefer[1..][i - 1];
        r
  }

  /** The repository preferred for `name` is the first one that has it. */
  lemma {:induction false} PreferredIsFirst(repos: map<string, Repository>, prefer: seq<string>, name: string, i: nat)
    requires i < |prefer| && PackageIn(repos, prefer[i], name).Success?
    requires forall j :: 0 <= j < i ==> PackageIn(repos, prefer[j], name).Failure?
    ensures Preferred(repos, prefer, name) == Some((prefer[i], PackageIn(repos, prefer[i], name).value))
    decreases i
  {
    if i > 0 {
      assert PackageIn(repos, prefer[0], name).Failure?;
      assert forall j :: 0 <= j < i - 1 ==> prefer[1..][j] == prefer[j + 1];
      PreferredIsFirst(repos, prefer[1..], name, i - 1);
    }
  }

  /** The repository and package a requirement that is not provided by the
      host resolves to: a pinned repository is the only one consulted. */
  function Lookup(repos: map<string, Repository>, prefer: seq<string>, pdef: PackageDef): (r: Result<(string, Package)>)
    ensures |pdef.repo| > 0 ==> match PackageIn(repos, pdef.repo, pdef.name)
                                case Success(p) => r == Success((pdef.repo, p))
                                case Failure(e) => r == Failure(e)
    ensures pdef.repo == "" ==>
              (r.Failure? <==> forall i :: 0 <= i < |prefer| ==> PackageIn(repos, prefer[i], pdef.name).Failure?)
    ensures pdef.repo == "" && r.Failure? ==> r.error == NoSuchPackage(pdef.name)
    ensures r.Success? ==> r.value.1.name == pdef.name && PackageIn(repos, r.value.0, pdef.name) == Success(r.value.1)
  {
    if |pdef.repo| > 0 then
      match PackageIn(repos, pdef.repo, pdef.name)
      case Success(p) => Success((pdef.repo, p))
      case Failure(e) => Failure(e)
    else
      match Preferred(repos, prefer, pdef.name)
      case Some(found) => Success(found)
      case None => Failure(NoSuchPackage(pdef.name))
  }

  // ---------------------------------------------------------------------------
  // The arena

  const RootDef := InstallDef(RootPackage, "", "", "", "", FileStorage, 0, None)

  /** The entry AddProvidedToInstallSet records: no repository, depth 0. */
  function ProvidedDef(name: string): InstallDef {
    InstallDef(ProvidedPackage, "", "", name, "", FileStorage, 0, None)
  }

  /** The entry AddPkgToInstallSet records for a package found in `repo`. */
  function InstalledDef(kind: PackageType, repo: string, pkg: Package, depth: nat, parent: nat): InstallDef {
    InstallDef(kind, pkg.url, repo, pkg.name, pkg.version.literal, pkg.storage, depth, Some(parent))
  }

  /** A root node, and child indices that stay inside the arena. */
  ghost predicate WellFormed(nodes: seq<InstallNode>) {
    |nodes| > 0 &&
    forall j, k :: 0 <= j < |nodes| && 0 <= k < |nodes[j].children| ==> nodes[j].children[k] < |nodes|
  }

  /** The depth at which the children of node `p` are decided: 0 under the
      root (ResolveInstallSet), one below the node's own depth elsewhere
      (the dependency loop of AddPkgToInstallSet). */
  function ChildDepth(nodes: seq<InstallNode>, p: nat): (d: nat)
    requires p < |nodes|
    ensures p > 0 ==> d == nodes[p].def.depth + 1
  {
    if p == 0 then 0 else nodes[p].def.depth + 1
  }

  /** `after` keeps every node of `before` with its definition and, except for
      `parent`, its child count; the old children of `parent` stay a prefix of
      its new ones, and no other node whose children are decided at `depth`
      or above has its child list changed: a shadow rewrite only reaches the
      parents of deeper decisions. */
  ghost predicate Extends(before: seq<InstallNode>, after: seq<InstallNode>, parent: nat, depth: nat) {
    |before| <= |after| &&
    (forall j :: 0 <= j < |before| ==> after[j].def == before[j].def) &&
    (forall j :: 0 <= j < |before| && j != parent ==> |after[j].children| == |before[j].children|) &&
    (forall j :: 0 <= j < |before| && j != parent && ChildDepth(before, j) <= depth ==>
       after[j].children == before[j].children) &&
    (parent < |before| ==> before[parent].children <= after[parent].children)
  }

  /** Entries are never removed and never get deeper. */
  ghost predicate Lowered(before: map<string, InstallDef>, after: map<string, InstallDef>) {
    forall n :: n in before ==> n in after && after[n].depth <= before[n].depth
  }

  /** The i-th child of `p` is a node for `name`. */
  ghost predicate ChildNamed(nodes: seq<InstallNode>, p: nat, i: nat, name: string) {
    p < |nodes| && i < |nodes[p].children| &&
    nodes[p].children[i] < |nodes| && nodes[nodes[p].children[i]].def.name == name
  }

  /** From position `from` on, the children of `p` are nodes for the
      requirements `defs`, in order. */
  ghost predicate ChildrenFrom(nodes: seq<InstallNode>, p: nat, from: nat, defs: seq<PackageDef>) {
    forall i :: 0 <= i < |defs| ==> ChildNamed(nodes, p, from + i, defs[i].name)
  }

  /** The child of `p` at position `at` holds `def`, and its children are
      nodes for `deps`, in order and nothing else. */
  ghost predicate Installed(nodes: seq<InstallNode>, p: nat, at: nat, def: InstallDef, deps: seq<PackageDef>) {
    p < |nodes| && at < |nodes[p].children| && nodes[p].children[at] < |nodes| &&
    var c := nodes[p].children[at];
    nodes[c].def == def && |nodes[c].children| == |deps| && ChildrenFrom(nodes, c, 0, deps)
  }

  /** Every requirement in `defs` is decided at `depth` or shallower. */
  ghost predicate Decided(packages: map<string, InstallDef>, defs: seq<PackageDef>, depth: nat) {
    forall i :: 0 <= i < |defs| ==> defs[i].name in packages && packages[defs[i].name].depth <= depth
  }

  /** Removes the i-th element by moving the last one into its slot. */
  function SwapRemove(ch: seq<nat>, i: nat): (r: seq<nat>)
    requires i < |ch|
    ensures |r| == |ch| - 1
    ensures multiset(r) == multiset(ch) - multiset{ch[i]}
    ensures forall x :: x in r ==> x in ch
    ensures i < |ch| - 1 ==> r[i] == ch[|ch| - 1]
    ensures forall j :: 0 <= j < |r| && j != i ==> r[j] == ch[j]
  {
    var last := |ch| - 1;
    SwapRemoveCounts(ch, i);
    ch[i := ch[last]][..last]
  }

  lemma SwapRemoveCounts(ch: seq<nat>, i: nat)
    requires i < |ch|
    ensures multiset(ch[i := ch[|ch| - 1]][..|ch| - 1]) == multiset(ch) - multiset{ch[i]}
    ensures forall x :: x in ch[i := ch[|ch| - 1]][..|ch| - 1] ==> x in ch
  {
    var last := |ch| - 1;
    var moved := ch[i := ch[last]];
    assert moved[last] == ch[last];
    assert moved[..last] + [moved[last]] == moved;
    assert multiset(moved) == multiset(ch) - multiset{ch[i]} + multiset{ch[last]};
    assert multiset(moved[..last]) + multiset{moved[last]} == multiset(moved);
    assert multiset(moved[..last]) == multiset(moved) - multiset{ch[last]};
    assert (multiset(ch) - multiset{ch[i]} + multiset{ch[last]}) - multiset{ch[last]} == multiset(ch) - multiset{ch[i]};
    assert forall x :: x in moved[..last] ==> x in ch by {
      forall x | x in moved[..last]
        ensures x in ch
      {
        var k :| 0 <= k < last && moved[k] == x;
        assert x == ch[if k == i then last else k];
      }
    }
  }

  /** Swap-removing a child and appending the index of a new node keeps every
      child index inside the grown arena. */
  lemma KeptInArena(ch: seq<nat>, i: nat, n: nat)
    requires i < |ch| && forall k :: 0 <= k < |ch| ==> ch[k] < n
    ensures forall k :: 0 <= k < |SwapRemove(ch, i) + [n]| ==> (SwapRemove(ch, i) + [n])[k] < n + 1
  {
    var s := SwapRemove(ch, i);
    forall k | 0 <= k < |s + [n]|
      ensures (s + [n])[k] < n + 1
    {
      if k < |s| {
        assert s[k] in s;
      }
    }
  }

  /** A fresh node holding `def`, attached as the last child of `parent`. */
  function AppendChild(nodes: seq<InstallNode>, parent: nat, def: InstallDef): (r: seq<InstallNode>)
    requires WellFormed(nodes) && parent < |nodes|
    ensures WellFormed(r) && |r| == |nodes| + 1 && r[|nodes|] == InstallNode(def, [])
    ensures r[parent].def == nodes[parent].def && r[parent].children == nodes[parent].children + [|nodes|]
    ensures forall j :: 0 <= j < |nodes| && j != parent ==> r[j] == nodes[j]
  {
    nodes[parent := nodes[parent].(children := nodes[parent].children + [|nodes|])] + [InstallNode(def, [])]
  }

  /** Attaching a fresh node extends the arena at any depth, and the new last
      child of `parent` is a node for `def`. */
  lemma AppendExtends(nodes: seq<InstallNode>, parent: nat, def: InstallDef, depth: nat)
    requires WellFormed(nodes) && parent < |nodes|
    ensures Extends(nodes, AppendChild(nodes, parent, def), parent, depth)
    ensures ChildNamed(AppendChild(nodes, parent, def), parent, |nodes[parent].children|, def.name)
  {
    var r := AppendChild(nodes, parent, def);
    assert r[parent].children[|nodes[parent].children|] == |nodes|;
  }

  /** Node `k`, already in the arena, attached as the last child of `parent`. */
  function AppendIndex(nodes: seq<InstallNode>, parent: nat, k: nat): (r: seq<InstallNode>)
    requires WellFormed(nodes) && parent < |nodes| && k < |nodes|
    ensures WellFormed(r) && |r| == |nodes| && r[parent].def == nodes[parent].def
    ensures r[parent].children == nodes[parent].children + [k]
    ensures forall j :: 0 <= j < |nodes| && j != parent ==> r[j] == nodes[j]
  {
    nodes[parent := nodes[parent].(children := nodes[parent].children + [k])]
  }

  lemma AppendIndexExtends(nodes: seq<InstallNode>, parent: nat, k: nat, depth: nat)
    requires WellFormed(nodes) && parent < |nodes| && k < |nodes|
    ensures Extends(nodes, AppendIndex(nodes, parent, k), parent, depth)
  {
  }

  lemma ExtendsRefl(nodes: seq<InstallNode>, parent: nat, depth: nat)
    ensures Extends(nodes, nodes, parent, depth)
  {
  }

  /** Adding an unattached node to the arena extends it at any depth. */
  lemma PushExtends(nodes: seq<InstallNode>, n: InstallNode, parent: nat, depth: nat)
    requires |nodes| > 0
    ensures Extends(nodes, nodes + [n], parent, depth)
  {
  }

  /** The position of the first child of a node that is a node for `name`. */
  function FirstNamedChild(nodes: seq<InstallNode>, ch: seq<nat>, name: string): (r: Option<nat>)
    requires forall k :: 0 <= k < |ch| ==> ch[k] < |nodes|
    ensures r.Some? ==> r.value < |ch| && nodes[ch[r.value]].def.name == name
    ensures r.Some? ==> forall j :: 0 <= j < r.value ==> nodes[ch[j]].def.name != name
    ensures r.None? ==> forall j :: 0 <= j < |ch| ==> nodes[ch[j]].def.name != name
    decreases |ch|
  {
    if ch == [] then None
    else if nodes[ch[0]].def.name == name then Some(0)
    else match FirstNamedChild(nodes, ch[1..], name)
      case None => None
      case Some(i) => Some(i + 1)
  }

  /** The edit TentativelyShadow makes to the recorded parent `p` of a deeper
      occurrence of `name`: its first child for `name` is swap-removed and a
      shadow node for `name` is appended, so every child count is kept. */
  function ShadowRewrite(nodes: seq<InstallNode>, p: nat, name: string): (r: seq<InstallNode>)
    requires WellFormed(nodes) && p < |nodes|
    ensures WellFormed(r) && |r| >= |nodes|
    ensures forall j :: 0 <= j < |nodes| ==> r[j].def == nodes[j].def && |r[j].children| == |nodes[j].children|
    ensures forall j :: 0 <= j < |nodes| && j != p ==> r[j] == nodes[j]
  {
    var ch := nodes[p].children;
    match FirstNamedChild(nodes, ch, name)
    case None => nodes
    case Some(i) =>
      var kept := SwapRemove(ch, i) + [|nodes|];
      KeptInArena(ch, i, |nodes|);
      nodes[p := nodes[p].(children := kept)] + [InstallNode(ShadowDef(name), [])]
  }

  /** After a shadow rewrite the removed child is gone from the parent's list
      exactly once, and the shadow node takes the last place. */
  lemma ShadowRewriteReplaces(nodes: seq<InstallNode>, p: nat, name: string, i: nat)
    requires WellFormed(nodes) && p < |nodes|
    requires FirstNamedChild(nodes, nodes[p].children, name) == Some(i)
    ensures var r := ShadowRewrite(nodes, p, name);
            |r| == |nodes| + 1 && r[|nodes|] == InstallNode(ShadowDef(name), []) &&
            multiset(r[p].children) == multiset(nodes[p].children) - multiset{nodes[p].children[i]} + multiset{|nodes|} &&
            ChildNamed(r, p, |nodes[p].children| - 1, name)
  {
  }

  /** A shadow rewrite of a parent whose children are decided deeper than
      `depth` leaves every node whose children are decided at `depth` or
      above untouched. */
  lemma ShadowExtends(nodes: seq<InstallNode>, p: nat, name: string, parent: nat, depth: nat)
    requires WellFormed(nodes) && p < |nodes| && parent < |nodes|
    requires ChildDepth(nodes, p) > depth && ChildDepth(nodes, parent) <= depth
    ensures Extends(nodes, ShadowRewrite(nodes, p, name), parent, depth)
    ensures ShadowRewrite(nodes, p, name)[parent] == nodes[parent]
  {
  }

  /** An entry is keyed by its own name; a detached entry (provided) has depth
      0, an attached one names an arena node and sits at the depth at which
      that node's children are decided; a provided name's entry is always the
      provided definition. */
  ghost predicate Consistent(nodes: seq<InstallNode>, packages: map<string, InstallDef>, provided: seq<string>) {
    WellFormed(nodes) && nodes[0].def == RootDef &&
    (forall n :: n in packages ==> packages[n].name == n) &&
    (forall n :: n in packages ==>
       match packages[n].parent
       case None => packages[n].depth == 0
       case Some(p) => p < |nodes| && packages[n].depth == ChildDepth(nodes, p)) &&
    (forall n :: n in packages && n in provided ==> packages[n] == ProvidedDef(n))
  }

  /** Growing the arena, keeping every definition and the arena's shape, keeps
      the entries consistent. */
  lemma ConsistentGrown(nodes: seq<InstallNode>, grown: seq<InstallNode>,
                        packages: map<string, InstallDef>, provided: seq<string>)
    requires Consistent(nodes, packages, provided)
    requires WellFormed(grown) && |grown| >= |nodes|
    requires forall j :: 0 <= j < |nodes| ==> grown[j].def == nodes[j].def
    ensures Consistent(grown, packages, provided)
  {
    forall n | n in packages && packages[n].parent.Some?
      ensures ChildDepth(grown, packages[n].parent.value) == ChildDepth(nodes, packages[n].parent.value)
    {
    }
  }

  /** Recording an entry attached to an arena node at that node's child depth
      keeps the entries consistent. */
  lemma ConsistentRecorded(nodes: seq<InstallNode>, packages: map<string, InstallDef>,
                           provided: seq<string>, def: InstallDef, p: nat)
    requires Consistent(nodes, packages, provided)
    requires def.name !in provided && def.parent == Some(p) && p < |nodes| && def.depth == ChildDepth(nodes, p)
    ensures Consistent(nodes, packages[def.name := def], provided)
  {
  }

  lemma LoweredKeepsDecided(before: map<string, InstallDef>, after: map<string, InstallDef>,
                            defs: seq<PackageDef>, depth: nat)
    requires Decided(before, defs, depth) && Lowered(before, after)
    ensures Decided(after, defs, depth)
  {
  }

  lemma DecidedSnoc(packages: map<string, InstallDef>, defs: seq<PackageDef>, d: PackageDef, depth: nat)
    requires Decided(packages, defs, depth)
    requires d.name in packages && packages[d.name].depth <= depth
    ensures Decided(packages, defs + [d], depth)
  {
  }

  /** Children named before an extension keep their places and names. */
  lemma ChildrenKept(before: seq<InstallNode>, after: seq<InstallNode>, p: nat, from: nat,
                     defs: seq<PackageDef>, depth: nat)
    requires Extends(before, after, p, depth) && p < |before|
    requires from + |defs| <= |before[p].children| && ChildrenFrom(before, p, from, defs)
    ensures ChildrenFrom(after, p, from, defs)
  {
    forall i | 0 <= i < |defs|
      ensures ChildNamed(after, p, from + i, defs[i].name)
    {
      assert ChildNamed(before, p, from + i, defs[i].name);
      assert after[p].children[from + i] == before[p].children[from + i];
    }
  }

  lemma ChildrenSnoc(nodes: seq<InstallNode>, p: nat, from: nat, defs: seq<PackageDef>, d: PackageDef)
    requires ChildrenFrom(nodes, p, from, defs) && ChildNamed(nodes, p, from + |defs|, d.name)
    ensures ChildrenFrom(nodes, p, from, defs + [d])
  {
  }

  /** One step of the requirement loops: the requirement `d` added as the
      next child of `p` extends what the loop has built so far. */
  lemma ChildAdded(start: seq<InstallNode>, before: seq<InstallNode>, after: seq<InstallNode>,
                   p: nat, depth: nat, defs: seq<PackageDef>, d: PackageDef,
                   first: map<string, InstallDef>, known: map<string, InstallDef>, packages: map<string, InstallDef>)
    requires p < |start| && Extends(start, before, p, depth) && Extends(before, after, p, depth)
    requires |before[p].children| == |start[p].children| + |defs|
    requires ChildrenFrom(before, p, |start[p].children|, defs)
    requires ChildNamed(after, p, |before[p].children|, d.name)
    requires Lowered(first, known) && Lowered(known, packages) && Decided(known, defs, depth)
    requires d.name in packages && packages[d.name].depth <= depth
    ensures Extends(start, after, p, depth) && Lowered(first, packages)
    ensures ChildrenFrom(after, p, |start[p].children|, defs + [d])
    ensures Decided(packages, defs + [d], depth)
  {
    ExtendsTrans(start, before, after, p, p, depth, depth);
    LoweredTrans(first, known, packages);
    ChildrenKept(before, after, p, |start[p].children|, defs, depth);
    ChildrenSnoc(after, p, |start[p].children|, defs, d);
    LoweredKeepsDecided(known, packages, defs, depth);
    DecidedSnoc(packages, defs, d, depth);
  }

  /** The search loop of TentativelyShadow over a parent's children. */
  method FindNamedChild(nodes: seq<InstallNode>, ch: seq<nat>, name: string) returns (r: Option<nat>)
    requires forall k :: 0 <= k < |ch| ==> ch[k] < |nodes|
    ensures r == FirstNamedChild(nodes, ch, name)
  {
    var i := 0;
    while i < |ch|
      invariant i <= |ch|
      invariant forall j :: 0 <= j < i ==> nodes[ch[j]].def.name != name
    {
      if nodes[ch[i]].def.name == name {
        return Some(i);
      }
      i := i + 1;
    }
    return None;
  }

  /** Two extensions in a row are one, when the second is about the same
      parent or about a node added by the first whose children are decided
      below the first parent's. */
  lemma ExtendsTrans(a: seq<InstallNode>, b: seq<InstallNode>, c: seq<InstallNode>,
                     p: nat, q: nat, d: nat, e: nat)
    requires Extends(a, b, p, d) && Extends(b, c, q, e) && d <= e
    requires q == p || (q >= |a| && (p < |a| ==> ChildDepth(a, p) <= e))
    ensures Extends(a, c, p, d)
  {
    forall j | 0 <= j < |a| && j != p && ChildDepth(a, j) <= d
      ensures c[j].children == a[j].children
    {
      assert ChildDepth(b, j) == ChildDepth(a, j);
    }
    if p < |a| {
      if q != p {
        assert ChildDepth(b, p) == ChildDepth(a, p);
      }
      PrefixTrans(a[p].children, b[p].children, c[p].children);
    }
  }

  lemma PrefixTrans(x: seq<nat>, y: seq<nat>, z: seq<nat>)
    requires x <= y && y <= z
    ensures x <= z
  {
    assert z[..|x|] == y[..|x|];
  }

  lemma LoweredTrans(a: map<string, InstallDef>, b: map<string, InstallDef>, c: map<string, InstallDef>)
    requires Lowered(a, b) && Lowered(b, c)
    ensures Lowered(a, c)
  {
  }

  // ---------------------------------------------------------------------------
  // The resolver

  /** The part of Env the resolver reads (repositories, preference order,
      provided names, the manifest's requirements) and the InstallSet it
      builds: the arena tree and the name map. */
  class Resolver {
    const repositories: map<string, Repository>
    const prefer: seq<string>
    const provided: seq<string>
    const manifest: seq<PackageDef>
    /** A ranking of names that the dependencies of every package a lookup
        can return respect. */
    ghost const rank: map<string, nat>
    var nodes: seq<InstallNode>
    var packages: map<string, InstallDef>

    ghost function Rank(name: string): nat {
      if name in rank then rank[name] else 0
    }

    /** Every dependency of a package that FindPackageIn can return for a
        name that is not provided ranks below the package, so no package
        reached through dependencies depends on itself, directly or not. */
    ghost predicate Acyclic() {
      forall rn, i, j :: rn in repositories && 0 <= i < |repositories[rn].packages| &&
                         repositories[rn].packages[i].name !in provided &&
                         FirstNamedPackage(repositories[rn].packages, repositories[rn].packages[i].name) == Some(i) &&
                         0 <= j < |repositories[rn].packages[i].dependencies| ==>
        Rank(repositories[rn].packages[i].dependencies[j].name) < Rank(repositories[rn].packages[i].name)
    }

    /** An error some lookup of a requirement that is not provided reports:
        the only errors the resolver raises itself. */
    ghost predicate LookupError(e: Error) {
      exists d: PackageDef :: d.name !in provided && Lookup(repositories, prefer, d).Failure? &&
                              e == Lookup(repositories, prefer, d).error
    }

    /** A requirement the resolver can satisfy without a lookup error. */
    ghost predicate Findable(d: PackageDef) {
      d.name in provided || Lookup(repositories, prefer, d).Success?
    }

    ghost predicate AllFindable(defs: seq<PackageDef>) {
      forall i :: 0 <= i < |defs| ==> Findable(defs[i])
    }

    /** Every dependency of a package a lookup can return is findable, so a
        resolution that starts from findable requirements meets no error. */
    ghost predicate Closed() {
      forall rn, i, j :: rn in repositories && 0 <= i < |repositories[rn].packages| &&
                         repositories[rn].packages[i].name !in provided &&
                         FirstNamedPackage(repositories[rn].packages, repositories[rn].packages[i].name) == Some(i) &&
                         0 <= j < |repositories[rn].packages[i].dependencies| ==>
        Findable(repositories[rn].packages[i].dependencies[j])
    }

    ghost predicate Valid()
      reads this
    {
      Consistent(nodes, packages, provided)
    }

    /** NewInstallSet, with the Env fields the resolver reads. */
    constructor (repositories: map<string, Repository>, prefer: seq<string>, provided: seq<string>,
                 manifest: seq<PackageDef>, ghost rank: map<string, nat>)
      ensures this.repositories == repositories && this.prefer == prefer
      ensures this.provided == provided && this.manifest == manifest && this.rank == rank
      ensures nodes == [InstallNode(RootDef, [])] && packages == map[]
      ensures Valid()
    {
      this.repositories := repositories;
      this.prefer := prefer;
      this.provided := provided;
      this.manifest := manifest;
      this.rank := rank;
      nodes := [InstallNode(RootDef, [])];
      packages := map[];
    }

    /** FindPackageIn */
    method FindPackageIn(rname: string, pname: string) returns (r: Result<Package>)
      ensures r == PackageIn(repositories, rname, pname)
    {
      if rname !in repositories {
        return Failure(RepositoryNotFound(rname));
      }
      var ps := repositories[rname].packages;
      var i := 0;
      while i < |ps|
        invariant i <= |ps|
        invariant forall j :: 0 <= j < i ==> ps[j].name != pname
      {
        if ps[i].name == pname {
          return Success(ps[i]);
        }
        i := i + 1;
      }
      return Failure(PackageNotFound(pname, rname));
    }

    lemma DependenciesRankBelow(rname: string, pname: string, p: Package)
      requires Acyclic() && pname !in provided && PackageIn(repositories, rname, pname) == Success(p)
      ensures forall j :: 0 <= j < |p.dependencies| ==> Rank(p.dependencies[j].name) < Rank(p.name)
    {
      var i := FirstNamedPackage(repositories[rname].packages, pname).value;
      assert repositories[rname].packages[i] == p;
    }

    lemma DependenciesFindable(rname: string, pname: string, p: Package)
      requires Closed() && pname !in provided && PackageIn(repositories, rname, pname) == Success(p)
      ensures AllFindable(p.dependencies)
    {
      var i := FirstNamedPackage(repositories[rname].packages, pname).value;
      assert repositories[rname].packages[i] == p;
    }

    /** TentativelyShadow: true when `name` is already decided at a depth no
        greater than `depth`. When it is decided deeper, the recorded parent's
        node for it is replaced by a shadow node, and the answer is false. */
    method TentativelyShadow(name: string, depth: nat) returns (shadowed: bool)
      requires Valid()
      modifies this
      ensures Valid() && packages == old(packages)
      ensures shadowed <==> name in packages && packages[name].depth <= depth
      ensures name in packages && packages[name].depth > depth ==>
                packages[name].parent.Some? && packages[name].parent.value < |old(nodes)| &&
                ChildDepth(old(nodes), packages[name].parent.value) > depth &&
                nodes == ShadowRewrite(old(nodes), packages[name].parent.value, name)
      ensures !(name in packages && packages[name].depth > depth) ==> nodes == old(nodes)
    {
      if name !in packages {
        return false;
      }
      var previous := packages[name];
      if previous.depth > depth {
        var p := previous.parent.value;
        var ch := nodes[p].children;
        var found := FindNamedChild(nodes, ch, name);
        if found.Some? {
          nodes := nodes[p := nodes[p].(children := SwapRemove(ch, found.value) + [|nodes|])] + [InstallNode(ShadowDef(name), [])];
          assert nodes == ShadowRewrite(old(nodes), p, name);
        }
        ConsistentGrown(old(nodes), nodes, packages, provided);
        return false;
      }
      return true;
    }

    /** AddPkgToInstallSet: a shadow node when `pkg.name` is already decided
        no deeper; otherwise the dependencies are resolved one level deeper
        under a new node, which is then attached to `parent` and recorded. */
    method AddPkgToInstallSet(parent: nat, repo: string, kind: PackageType, pkg: Package, depth: nat)
      returns (err: Option<Error>)
      requires Valid() && Acyclic() && parent < |nodes| && depth == ChildDepth(nodes, parent) && pkg.name !in provided
      requires forall j :: 0 <= j < |pkg.dependencies| ==> Rank(pkg.dependencies[j].name) < Rank(pkg.name)
      modifies this
      ensures Valid() && Extends(old(nodes), nodes, parent, depth) && Lowered(old(packages), packages)
      ensures err.None? ==> |nodes[parent].children| == |old(nodes)[parent].children| + 1
      ensures err.None? ==> ChildNamed(nodes, parent, |old(nodes)[parent].children|, pkg.name)
      ensures err.Some? ==> |nodes[parent].children| == |old(nodes)[parent].children|
      ensures err.None? ==> pkg.name in packages && packages[pkg.name].depth <= depth
      ensures pkg.name in old(packages) && old(packages)[pkg.name].depth <= depth ==>
                err.None? && packages == old(packages) && nodes == AppendChild(old(nodes), parent, ShadowDef(pkg.name))
      ensures err.None? && !(pkg.name in old(packages) && old(packages)[pkg.name].depth <= depth) ==>
                packages[pkg.name] == InstalledDef(kind, repo, pkg, depth, parent) &&
                Installed(nodes, parent, |old(nodes)[parent].children|, InstalledDef(kind, repo, pkg, depth, parent), pkg.dependencies) &&
                Decided(packages, pkg.dependencies, depth + 1)
      ensures err.Some? ==> LookupError(err.value)
      ensures Closed() && AllFindable(pkg.dependencies) ==> err.None?
      decreases Rank(pkg.name), 2
    {
      var shadowed := TentativelyShadow(pkg.name, depth);
      if shadowed {
        AppendExtends(nodes, parent, ShadowDef(pkg.name), depth);
        ConsistentGrown(nodes, AppendChild(nodes, parent, ShadowDef(pkg.name)), packages, provided);
        nodes := AppendChild(nodes, parent, ShadowDef(pkg.name));
        return None;
      }
      ghost var shadowedNodes := nodes;
      if pkg.name in packages {
        ShadowExtends(old(nodes), packages[pkg.name].parent.value, pkg.name, parent, depth);
      } else {
        ExtendsRefl(nodes, parent, depth);
      }
      assert shadowedNodes[parent] == old(nodes)[parent];
      err := AddFreshPackage(parent, repo, kind, pkg, depth);
      ExtendsTrans(old(nodes), shadowedNodes, nodes, parent, parent, depth, depth);
    }

    /** The second half of AddPkgToInstallSet, for a name not yet decided at
        this depth or shallower: a node for `pkg` whose children are its
        dependencies one level deeper; it is attached to `parent` and recorded
        only when every dependency was added. */
    method AddFreshPackage(parent: nat, repo: string, kind: PackageType, pkg: Package, depth: nat)
      returns (err: Option<Error>)
      requires Valid() && Acyclic() && parent < |nodes| && depth == ChildDepth(nodes, parent) && pkg.name !in provided
      requires forall j :: 0 <= j < |pkg.dependencies| ==> Rank(pkg.dependencies[j].name) < Rank(pkg.name)
      requires pkg.name in packages ==> packages[pkg.name].depth > depth
      modifies this
      ensures Valid() && Extends(old(nodes), nodes, parent, depth) && Lowered(old(packages), packages)
      ensures err.None? ==> |nodes[parent].children| == |old(nodes)[parent].children| + 1
      ensures err.None? ==> pkg.name in packages && packages[pkg.name] == InstalledDef(kind, repo, pkg, depth, parent)
      ensures err.None? ==>
                Installed(nodes, parent, |old(nodes)[parent].children|, InstalledDef(kind, repo, pkg, depth, parent), pkg.dependencies)
      ensures err.None? ==> Decided(packages, pkg.dependencies, depth + 1)
      ensures err.Some? ==> |nodes[parent].children| == |old(nodes)[parent].children|
      ensures err.Some? ==> LookupError(err.value)
      ensures Closed() && AllFindable(pkg.dependencies) ==> err.None?
      decreases Rank(pkg.name), 1
    {
      var def := InstalledDef(kind, repo, pkg, depth, parent);
      var k := |nodes|;
      ConsistentGrown(nodes, nodes + [InstallNode(def, [])], packages, provided);
      PushExtends(nodes, InstallNode(def, []), parent, depth);
      nodes := nodes + [InstallNode(def, [])];
      ghost var base := nodes;
      err := AddDependencies(k, pkg.dependencies, depth + 1, Rank(pkg.name));
      ExtendsTrans(old(nodes), base, nodes, parent, k, depth, depth + 1);
      if err.Some? {
        return err;
      }
      AttachFresh(old(nodes), old(packages), parent, k, def, pkg.dependencies);
      return None;
    }

    /** The end of AddFreshPackage: node `k`, whose dependencies were resolved
        while it was unattached, becomes the last child of `parent` and its
        definition is recorded. */
    method AttachFresh(ghost start: seq<InstallNode>, ghost first: map<string, InstallDef>,
                       parent: nat, k: nat, def: InstallDef, ghost deps: seq<PackageDef>)
      requires Valid() && Lowered(first, packages)
      requires parent < |start| && k == |start| && k < |nodes| && Extends(start, nodes, parent, def.depth)
      requires |nodes[parent].children| == |start[parent].children|
      requires def.name !in provided && def.parent == Some(parent) && def.depth == ChildDepth(start, parent)
      requires def.name in first ==> first[def.name].depth > def.depth
      requires nodes[k].def == def && |nodes[k].children| == |deps| && ChildrenFrom(nodes, k, 0, deps)
      modifies this
      ensures Valid() && Extends(start, nodes, parent, def.depth) && Lowered(first, packages)
      ensures nodes == AppendIndex(old(nodes), parent, k) && packages == old(packages)[def.name := def]
      ensures Installed(nodes, parent, |start[parent].children|, def, deps)
    {
      Attach(start, nodes, first, packages, provided, parent, k, def, deps);
      nodes := AppendIndex(nodes, parent, k);
      packages := packages[def.name := def];
    }

    /** The dependency loop of AddPkgToInstallSet: each requirement is added
        under node `k`, in order, and the first error ends the loop. */
    method AddDependencies(k: nat, deps: seq<PackageDef>, depth: nat, ghost bound: nat) returns (err: Option<Error>)
      requires Valid() && Acyclic() && k < |nodes| && depth == ChildDepth(nodes, k)
      requires forall j :: 0 <= j < |deps| ==> Rank(deps[j].name) < bound
      modifies this
      ensures Valid() && Extends(old(nodes), nodes, k, depth) && Lowered(old(packages), packages)
      ensures err.None? ==> |nodes[k].children| == |old(nodes)[k].children| + |deps|
      ensures err.None? ==> ChildrenFrom(nodes, k, |old(nodes)[k].children|, deps)
      ensures err.None? ==> Decided(packages, deps, depth)
      ensures err.Some? ==> LookupError(err.value)
      ensures Closed() && AllFindable(deps) ==> err.None?
      decreases bound, 0
    {
      var i := 0;
      while i < |deps|
        invariant i <= |deps|
        invariant Valid() && Extends(old(nodes), nodes, k, depth) && Lowered(old(packages), packages)
        invariant |nodes[k].children| == |old(nodes)[k].children| + i
        invariant ChildrenFrom(nodes, k, |old(nodes)[k].children|, deps[..i])
        invariant Decided(packages, deps[..i], depth)
      {
        ghost var before, known := nodes, packages;
        assert ChildDepth(nodes, k) == ChildDepth(old(nodes), k);
        err := AddToInstallSet(k, deps[i], depth);
        if err.Some? {
          ExtendsTrans(old(nodes), before, nodes, k, k, depth, depth);
          LoweredTrans(old(packages), known, packages);
          return err;
        }
        ChildAdded(old(nodes), before, nodes, k, depth, deps[..i], deps[i], old(packages), known, packages);
        TakeSnoc(deps, i);
        i := i + 1;
      }
      TakeEnds(deps);
      return None;
    }

    /** AddProvidedToInstallSet: the first occurrence of a provided name is
        recorded as provided at depth 0, every later one is a shadow node. */
    method AddProvidedToInstallSet(parent: nat, pdef: PackageDef, depth: nat)
      requires Valid() && parent < |nodes| && pdef.name in provided
      modifies this
      ensures Valid() && Lowered(old(packages), packages)
      ensures pdef.name in packages && packages[pdef.name] == ProvidedDef(pdef.name)
      ensures pdef.name in old(packages) ==>
                packages == old(packages) && nodes == AppendChild(old(nodes), parent, ShadowDef(pdef.name))
      ensures pdef.name !in old(packages) ==>
                packages == old(packages)[pdef.name := ProvidedDef(pdef.name)] &&
                nodes == AppendChild(old(nodes), parent, ProvidedDef(pdef.name))
    {
      var shadowed := TentativelyShadow(pdef.name, depth);
      if shadowed {
        ConsistentGrown(nodes, AppendChild(nodes, parent, ShadowDef(pdef.name)), packages, provided);
        nodes := AppendChild(nodes, parent, ShadowDef(pdef.name));
        return;
      }
      var def := ProvidedDef(pdef.name);
      ConsistentGrown(nodes, AppendChild(nodes, parent, def), packages, provided);
      nodes := AppendChild(nodes, parent, def);
      packages := packages[pdef.name := def];
    }

    /** AddToInstallSet: one requirement at `depth` under `parent`. */
    method AddToInstallSet(parent: nat, pdef: PackageDef, depth: nat) returns (err: Option<Error>)
      requires Valid() && Acyclic() && parent < |nodes| && depth == ChildDepth(nodes, parent)
      modifies this
      ensures Valid() && Extends(old(nodes), nodes, parent, depth) && Lowered(old(packages), packages)
      ensures err.None? ==> |nodes[parent].children| == |old(nodes)[parent].children| + 1
      ensures err.None? ==> ChildNamed(nodes, parent, |old(nodes)[parent].children|, pdef.name)
      ensures err.Some? ==> |nodes[parent].children| == |old(nodes)[parent].children|
      ensures err.None? ==> pdef.name in packages && packages[pdef.name].depth <= depth
      ensures pdef.name in provided ==> err.None? && packages[pdef.name] == ProvidedDef(pdef.name)
      ensures pdef.name !in provided && Lookup(repositories, prefer, pdef).Failure? ==>
                err == Some(Lookup(repositories, prefer, pdef).error) && nodes == old(nodes) && packages == old(packages)
      ensures (pdef.name in provided || Lookup(repositories, prefer, pdef).Success?) &&
              pdef.name in old(packages) && old(packages)[pdef.name].depth <= depth ==>
                err.None? && packages == old(packages) && nodes == AppendChild(old(nodes), parent, ShadowDef(pdef.name))
      ensures var l := Lookup(repositories, prefer, pdef);
              pdef.name !in provided && l.Success? && err.None? &&
              !(pdef.name in old(packages) && old(packages)[pdef.name].depth <= depth) ==>
                var def := InstalledDef(pdef.kind, l.value.0, l.value.1, depth, parent);
                packages[pdef.name] == def &&
                Installed(nodes, parent, |old(nodes)[parent].children|, def, l.value.1.dependencies)
      ensures err.Some? ==> LookupError(err.value)
      ensures Closed() && Findable(pdef) ==> err.None?
      decreases Rank(pdef.name), 3
    {
      if pdef.name in provided {
        AddProvidedToInstallSet(parent, pdef, depth);
        if pdef.name in old(packages) {
          AppendExtends(old(nodes), parent, ShadowDef(pdef.name), depth);
        } else {
          AppendExtends(old(nodes), parent, ProvidedDef(pdef.name), depth);
        }
        return None;
      }
      if |pdef.repo| > 0 {
        var found := FindPackageIn(pdef.repo, pdef.name);
        if found.Failure? {
          assert Lookup(repositories, prefer, pdef) == Failure(found.error);
          return Some(found.error);
        }
        DependenciesRankBelow(pdef.repo, pdef.name, found.value);
        if Closed() {
          DependenciesFindable(pdef.repo, pdef.name, found.value);
        }
        err := AddPkgToInstallSet(parent, pdef.repo, pdef.kind, found.value, depth);
        return err;
      }
      var i := 0;
      while i < |prefer|
        invariant i <= |prefer|
        invariant forall j :: 0 <= j < i ==> PackageIn(repositories, prefer[j], pdef.name).Failure?
        invariant nodes == old(nodes) && packages == old(packages)
      {
        var found := FindPackageIn(prefer[i], pdef.name);
        if found.Success? {
          PreferredIsFirst(repositories, prefer, pdef.name, i);
          DependenciesRankBelow(prefer[i], pdef.name, found.value);
          if Closed() {
            DependenciesFindable(prefer[i], pdef.name, found.value);
          }
          err := AddPkgToInstallSet(parent, prefer[i], pdef.kind, found.value, depth);
          return err;
        }
        i := i + 1;
      }
      assert Lookup(repositories, prefer, pdef) == Failure(NoSuchPackage(pdef.name));
      return Some(NoSuchPackage(pdef.name));
    }

    /** ResolveInstallSet: the manifest's requirements in order at depth 0
        under the root, stopping at the first error and keeping what was
        done before it. On success the root's new children are nodes for the
        requirements, in manifest order. */
    method ResolveInstallSet() returns (err: Option<Error>)
      requires Valid() && Acyclic()
      modifies this
      ensures Valid() && Extends(old(nodes), nodes, 0, 0) && Lowered(old(packages), packages)
      ensures err.None? ==> |nodes[0].children| == |old(nodes)[0].children| + |manifest|
      ensures err.None? ==> ChildrenFrom(nodes, 0, |old(nodes)[0].children|, manifest)
      ensures err.None? ==> Decided(packages, manifest, 0)
      ensures err.Some? ==> LookupError(err.value)
      ensures Closed() && AllFindable(manifest) ==> err.None?
    {
      var i := 0;
      while i < |manifest|
        invariant i <= |manifest|
        invariant Valid() && Extends(old(nodes), nodes, 0, 0) && Lowered(old(packages), packages)
        invariant |nodes[0].children| == |old(nodes)[0].children| + i
        invariant ChildrenFrom(nodes, 0, |old(nodes)[0].children|, manifest[..i])
        invariant Decided(packages, manifest[..i], 0)
      {
        ghost var before, known := nodes, packages;
        err := AddToInstallSet(0, manifest[i], 0);
        if err.Some? {
          ExtendsTrans(old(nodes), before, nodes, 0, 0, 0, 0);
          LoweredTrans(old(packages), known, packages);
          return err;
        }
        ChildAdded(old(nodes), before, nodes, 0, 0, manifest[..i], manifest[i], old(packages), known, packages);
        TakeSnoc(manifest, i);
        i := i + 1;
      }
      TakeEnds(manifest);
      return None;
    }
  }

  /** The end of AddPkgToInstallSet: node `k`, whose dependency children were
      added while it was unattached, becomes the new last child of `parent`
      and its definition is recorded; the arena and the map still extend
      those the call started from. */
  lemma Attach(start: seq<InstallNode>, resolved: seq<InstallNode>,
               first: map<string, InstallDef>, packages: map<string, InstallDef>, provided: seq<string>,
               parent: nat, k: nat, def: InstallDef, deps: seq<PackageDef>)
    requires Consistent(resolved, packages, provided) && Lowered(first, packages)
    requires parent < |start| && k == |start| && k < |resolved| && Extends(start, resolved, parent, def.depth)
    requires |resolved[parent].children| == |start[parent].children|
    requires def.name !in provided && def.parent == Some(parent) && def.depth == ChildDepth(start, parent)
    requires def.name in first ==> first[def.name].depth > def.depth
    requires resolved[k].def == def && |resolved[k].children| == |deps| && ChildrenFrom(resolved, k, 0, deps)
    ensures var attached := AppendIndex(resolved, parent, k);
            Consistent(attached, packages[def.name := def], provided) &&
            Extends(start, attached, parent, def.depth) && Lowered(first, packages[def.name := def]) &&
            Installed(attached, parent, |start[parent].children|, def, deps)
  {
    var attached := AppendIndex(resolved, parent, k);
    AppendIndexExtends(resolved, parent, k, def.depth);
    ConsistentGrown(resolved, attached, packages, provided);
    ExtendsTrans(start, resolved, attached, parent, parent, def.depth, def.depth);
    ConsistentRecorded(attached, packages, provided, def, parent);
    AttachedInstalled(start, resolved, attached, parent, k, def, deps);
  }

  /** Node `k`, whose dependency children were added while it was unattached,
      is the new last child of `parent` and still has those children. */
  lemma AttachedInstalled(start: seq<InstallNode>, resolved: seq<InstallNode>, attached: seq<InstallNode>,
                          parent: nat, k: nat, def: InstallDef, deps: seq<PackageDef>)
    requires WellFormed(resolved) && parent < |start| && k == |start| && k < |resolved|
    requires |resolved[parent].children| == |start[parent].children|
    requires resolved[k].def == def && |resolved[k].children| == |deps| && ChildrenFrom(resolved, k, 0, deps)
    requires attached == AppendIndex(resolved, parent, k)
    ensures Installed(attached, parent, |start[parent].children|, def, deps)
  {
    assert attached[k] == resolved[k];
    forall i | 0 <= i < |deps|
      ensures ChildNamed(attached, k, i, deps[i].name)
    {
      assert ChildNamed(resolved, k, i, deps[i].name);
    }
  }
}
