/**
 * The apply phase of src/emenv/env.go. Removing a package directory,
 * fetching a package and writing a file are external effects: the class
 * Effects records them, in order, in `trace`, and a fixed set `failing`
 * says which of them report an error. ApplyDiffSet, UpgradePackage and
 * FetchInstallSet are proved to perform a prefix of a planned effect list
 * that ends at the first failure; WritePackageList is proved to write the
 * two texts built from the install map, whatever the map's iteration order.
 */
module EnvOps {
  import opened Types

  datatype Effect =
    | Delete(def: InstallDef)
    | Fetch(def: InstallDef)
    | WriteFile(path: string, content: string)

  // ---------------------------------------------------------------------------
  // Planned effects

  function DeleteSteps(ds: seq<InstallDef>): (r: seq<Effect>)
    ensures |r| == |ds| && forall i :: 0 <= i < |ds| ==> r[i] == Delete(ds[i])
  {
    seq(|ds|, i requires 0 <= i < |ds| => Delete(ds[i]))
  }

  function FetchSteps(ds: seq<InstallDef>): (r: seq<Effect>)
    ensures |r| == |ds| && forall i :: 0 <= i < |ds| ==> r[i] == Fetch(ds[i])
  {
    seq(|ds|, i requires 0 <= i < |ds| => Fetch(ds[i]))
  }

  /** Each upgrade removes the previous version before fetching the next. */
  function UpgradeSteps(us: seq<Upgrade>): (r: seq<Effect>)
    ensures |r| == 2 * |us|
    decreases |us|
  {
    if us == [] then [] else [Delete(us[0].prev), Fetch(us[0].next)] + UpgradeSteps(us[1..])
  }

  /** The j-th upgrade is the pair of effects at 2j and 2j+1. */
  lemma {:induction false} UpgradeStepsAt(us: seq<Upgrade>, j: nat)
    requires j < |us|
    ensures UpgradeSteps(us)[2 * j] == Delete(us[j].prev)
    ensures UpgradeSteps(us)[2 * j + 1] == Fetch(us[j].next)
    decreases j
  {
    if j > 0 {
      UpgradeStepsAt(us[1..], j - 1);
      assert us[1..][j - 1] == us[j];
    }
  }

  /** The effects ApplyDiffSet performs when none fails: every delete, then
      every upgrade, then every install, each in list order. */
  function Plan(ds: DiffSet): (r: seq<Effect>)
    ensures |r| == |ds.delete| + 2 * |ds.upgrade| + |ds.install|
  {
    DeleteSteps(ds.delete) + UpgradeSteps(ds.upgrade) + FetchSteps(ds.install)
  }

  /** Performing `a` then `b` stops inside `a` if `a` has a failure. */
  lemma {:induction false} ExecutedAppend(a: seq<Effect>, b: seq<Effect>, failing: set<Effect>)
    ensures Executed(a + b, failing) == if Clean(a, failing) then a + Executed(b, failing) else Executed(a, failing)
    ensures Clean(a + b, failing) <==> Clean(a, failing) && Clean(b, failing)
    decreases |a|
  {
    if a != [] {
      ExecutedAppend(a[1..], b, failing);
      assert (a + b)[1..] == a[1..] + b;
      assert Clean(a, failing) <==> a[0] !in failing && Clean(a[1..], failing);
    } else {
      assert a + b == b;
    }
  }

  /** Three lists performed one after the other, each stopping the whole at
      its first failure. */
  lemma ThreePhases(t0: seq<Effect>, a: seq<Effect>, b: seq<Effect>, c: seq<Effect>, failing: set<Effect>)
    ensures t0 + Executed(a + b + c, failing) ==
            if !Clean(a, failing) then t0 + Executed(a, failing)
            else if !Clean(b, failing) then t0 + Executed(a, failing) + Executed(b, failing)
            else t0 + Executed(a, failing) + Executed(b, failing) + Executed(c, failing)
    ensures Clean(a + b + c, failing) <==> Clean(a, failing) && Clean(b, failing) && Clean(c, failing)
  {
    ExecutedAppend(a + b, c, failing);
    ExecutedAppend(a, b, failing);
    if Clean(a, failing) && Clean(b, failing) {
      AppendAssociates(t0, a + b, Executed(c, failing));
      AppendAssociates(t0, a, b);
    } else if Clean(a, failing) {
      AppendAssociates(t0, a, Executed(b, failing));
    }
  }

  /** NoOpDiffSet: Keep is not looked at. */
  function NoOpDiffSet(ds: DiffSet): (r: bool)
    ensures r <==> Plan(ds) == []
  {
    |ds.install| == 0 && |ds.upgrade| == 0 && |ds.delete| == 0
  }

  predicate Clean(es: seq<Effect>, failing: set<Effect>) {
    forall i :: 0 <= i < |es| ==> es[i] !in failing
  }

  /** The effects actually performed from a planned list: all of them, or
      those up to and including the first that fails. */
  function Executed(es: seq<Effect>, failing: set<Effect>): (r: seq<Effect>)
    ensures Clean(es, failing) ==> r == es
    decreases |es|
  {
    if es == [] then []
    else if es[0] in failing then [es[0]]
    else
      assert Clean(es, failing) ==> Clean(es[1..], failing);
      [es[0]] + Executed(es[1..], failing)
  }

  lemma {:induction false} ExecutedStops(es: seq<Effect>, failing: set<Effect>, k: nat)
    requires k < |es| && es[k] in failing && Clean(es[..k], failing)
    ensures Executed(es, failing) == es[..k + 1]
    decreases k
  {
    if k > 0 {
      assert es[0] == es[..k][0];
      assert es[1..][k - 1] == es[k] && es[1..][..k - 1] == es[..k][1..];
      ExecutedStops(es[1..], failing, k - 1);
      assert es[..k + 1] == [es[0]] + es[1..][..k];
    }
  }

  /** An effect that succeeds extends the clean prefix by one. */
  lemma StepOk(es: seq<Effect>, failing: set<Effect>, pos: nat)
    requires pos < |es| && Clean(es[..pos], failing) && es[pos] !in failing
    ensures Clean(es[..pos + 1], failing) && es[..pos + 1] == es[..pos] + [es[pos]]
  {
    assert es[..pos + 1] == es[..pos] + [es[pos]];
  }

  /** An effect that fails after a clean prefix is the last one performed. */
  lemma StepFails(es: seq<Effect>, failing: set<Effect>, pos: nat)
    requires pos < |es| && Clean(es[..pos], failing) && es[pos] in failing
    ensures Executed(es, failing) == es[..pos] + [es[pos]] && !Clean(es, failing)
  {
    ExecutedStops(es, failing, pos);
    assert es[..pos + 1] == es[..pos] + [es[pos]];
  }

  lemma FetchStepsAppend(a: seq<InstallDef>, b: seq<InstallDef>)
    ensures FetchSteps(a + b) == FetchSteps(a) + FetchSteps(b)
  {
  }

  // ---------------------------------------------------------------------------
  // The text of load.el and plist.el

  const LoadHeader := ";; autoload-file for Emenv\n"
  const PlistHeader := ";; package list file for Emenv\n(\n"
  const PlistFooter := ")\n"

  /** `{dir}{name}-{version}`: where a package is unpacked. */
  function PackagePath(dir: string, d: InstallDef): string {
    dir + d.name + "-" + d.version
  }

  /** The comment load.el gets for a provided entry. */
  function ProvidedLine(d: InstallDef): string {
    ";; " + d.name + " is provided\n"
  }

  /** The line that adds a theme's directory to the theme load path. */
  function ThemeLine(dir: string, d: InstallDef): string {
    "(add-to-list 'custom-theme-load-path \"" + PackagePath(dir, d) + "\")\n"
  }

  /** The line that adds a package's directory to the load path. */
  function LoadPathLine(dir: string, d: InstallDef): string {
    "(add-to-list 'load-path \"" + PackagePath(dir, d) + "\")\n"
  }

  /** The plist entry `(name "version" repo)`. */
  function PlistLine(d: InstallDef): string {
    "(" + d.name + " \"" + d.version + "\" " + d.repo + ")\n"
  }

  /** The lines load.el gets for one entry. */
  function LoadEntry(dir: string, d: InstallDef): (r: string)
    ensures d.kind == ProvidedPackage ==> r == ProvidedLine(d)
    ensures d.kind == ThemePackage ==> r == ThemeLine(dir, d) + LoadPathLine(dir, d)
    ensures d.kind != ProvidedPackage && d.kind != ThemePackage ==> r == LoadPathLine(dir, d)
  {
    if d.kind == ProvidedPackage then ProvidedLine(d)
    else (if d.kind == ThemePackage then ThemeLine(dir, d) else "") + LoadPathLine(dir, d)
  }

  /** The line plist.el gets for one entry: none for a provided one. */
  function PlistEntry(d: InstallDef): (r: string)
    ensures d.kind == ProvidedPackage <==> r == ""
    ensures d.kind != ProvidedPackage ==> r == PlistLine(d)
  {
    if d.kind == ProvidedPackage then "" else PlistLine(d)
  }

  /** The entries of load.el for the names of `order`, in that order. */
  function LoadEntries(dir: string, packages: map<string, InstallDef>, order: seq<string>): string
    requires forall i :: 0 <= i < |order| ==> order[i] in packages
  {
    if order == [] then ""
    else LoadEntries(dir, packages, order[..|order| - 1]) + LoadEntry(dir, packages[order[|order| - 1]])
  }

  function PlistEntries(packages: map<string, InstallDef>, order: seq<string>): string
    requires forall i :: 0 <= i < |order| ==> order[i] in packages
  {
    if order == [] then ""
    else PlistEntries(packages, order[..|order| - 1]) + PlistEntry(packages[order[|order| - 1]])
  }

  /** The entries of `order` that are not provided, in that order. */
  function NonProvided(packages: map<string, InstallDef>, order: seq<string>): (r: seq<InstallDef>)
    requires forall i :: 0 <= i < |order| ==> order[i] in packages
    ensures forall i :: 0 <= i < |r| ==> r[i].kind != ProvidedPackage
  {
    if order == [] then []
    else
      var last := packages[order[|order| - 1]];
      NonProvided(packages, order[..|order| - 1]) + if last.kind != ProvidedPackage then [last] else []
  }

  /** The fetched entries are exactly the non-provided entries of the order. */
  lemma {:induction false} NonProvidedMembers(packages: map<string, InstallDef>, order: seq<string>)
    requires forall i :: 0 <= i < |order| ==> order[i] in packages
    ensures forall i :: 0 <= i < |order| && packages[order[i]].kind != ProvidedPackage ==>
              packages[order[i]] in NonProvided(packages, order)
    ensures forall d :: d in NonProvided(packages, order) ==>
              exists i :: 0 <= i < |order| && packages[order[i]] == d
    decreases |order|
  {
    if order != [] {
      var init := order[..|order| - 1];
      var last := packages[order[|order| - 1]];
      NonProvidedMembers(packages, init);
      assert forall i :: 0 <= i < |init| ==> init[i] == order[i];
      assert NonProvided(packages, order) == NonProvided(packages, init) + if last.kind != ProvidedPackage then [last] else [];
    }
  }

  /** Over a full enumeration of the map, the fetches are exactly one per
      non-provided entry. */
  lemma FetchesEveryEntry(packages: map<string, InstallDef>, order: seq<string>)
    requires Enumerates(order, packages.Keys)
    ensures forall k :: k in packages && packages[k].kind != ProvidedPackage ==>
              Fetch(packages[k]) in FetchSteps(NonProvided(packages, order))
    ensures forall e :: e in FetchSteps(NonProvided(packages, order)) ==>
              e.Fetch? && e.def.kind != ProvidedPackage && exists k :: k in packages && packages[k] == e.def
    ensures |FetchSteps(NonProvided(packages, order))| <= |packages|
  {
    assert forall i :: 0 <= i < |order| ==> order[i] in packages;
    NonProvidedMembers(packages, order);
    var steps := FetchSteps(NonProvided(packages, order));
    forall k | k in packages && packages[k].kind != ProvidedPackage
      ensures Fetch(packages[k]) in steps
    {
      var i :| 0 <= i < |order| && order[i] == k;
      var j :| 0 <= j < |NonProvided(packages, order)| && NonProvided(packages, order)[j] == packages[k];
      assert steps[j] == Fetch(packages[k]);
    }
    forall e | e in steps
      ensures e.Fetch? && e.def.kind != ProvidedPackage && exists k :: k in packages && packages[k] == e.def
    {
      var j :| 0 <= j < |steps| && steps[j] == e;
      assert NonProvided(packages, order)[j] in NonProvided(packages, order);
      var i :| 0 <= i < |order| && packages[order[i]] == e.def;
    }
    NonProvidedLength(packages, order);
    DistinctKeysBound(order, packages.Keys);
  }

  lemma {:induction false} NonProvidedLength(packages: map<string, InstallDef>, order: seq<string>)
    requires forall i :: 0 <= i < |order| ==> order[i] in packages
    ensures |NonProvided(packages, order)| <= |order|
    decreases |order|
  {
    if order != [] {
      NonProvidedLength(packages, order[..|order| - 1]);
    }
  }

  /** A list of distinct members of a set is no longer than the set. */
  lemma {:induction false} DistinctKeysBound(order: seq<string>, keys: set<string>)
    requires Enumerates(order, keys)
    ensures |order| == |keys|
    decreases |order|
  {
    if order != [] {
      var last := order[|order| - 1];
      var init := order[..|order| - 1];
      assert forall k :: k in keys - {last} <==> k in init by {
        forall k ensures k in keys - {last} <==> k in init {
          if k in init {
            var i :| 0 <= i < |init| && init[i] == k;
            assert order[i] == k;
          }
          if k in order && k != last {
            var i :| 0 <= i < |order| && order[i] == k;
            assert i < |order| - 1;
            assert init[i] == k;
          }
        }
      }
      DistinctKeysBound(init, keys - {last});
    }
  }

  lemma NonProvidedStep(packages: map<string, InstallDef>, order: seq<string>, i: nat)
    requires forall j :: 0 <= j < |order| ==> order[j] in packages
    requires i < |order|
    ensures NonProvided(packages, order[..i + 1]) ==
            NonProvided(packages, order[..i]) + if packages[order[i]].kind != ProvidedPackage then [packages[order[i]]] else []
  {
    assert order[..i + 1][..i] == order[..i];
  }

  /** `order` lists every name of `keys` exactly once. */
  ghost predicate Enumerates(order: seq<string>, keys: set<string>) {
    (forall i, j :: 0 <= i < j < |order| ==> order[i] != order[j]) &&
    (forall k :: k in keys <==> k in order)
  }

  /** The plist text of an install map has one entry per non-provided
      definition, in the iteration order, between the header and `)`. */
  lemma {:induction false} PlistEntryPerPackage(packages: map<string, InstallDef>, order: seq<string>)
    requires forall i :: 0 <= i < |order| ==> order[i] in packages
    ensures PlistEntries(packages, order) == PlistLines(NonProvided(packages, order))
    decreases |order|
  {
    if order != [] {
      var init := order[..|order| - 1];
      var d := packages[order[|order| - 1]];
      PlistEntryPerPackage(packages, init);
      if d.kind != ProvidedPackage {
        PlistLinesSnoc(NonProvided(packages, init), d);
      } else {
        assert NonProvided(packages, order) == NonProvided(packages, init);
      }
    }
  }

  /** The plist lines of a list of definitions. */
  function PlistLines(ds: seq<InstallDef>): string {
    if ds == [] then "" else PlistLines(ds[..|ds| - 1]) + PlistEntry(ds[|ds| - 1])
  }

  lemma PlistLinesSnoc(a: seq<InstallDef>, d: InstallDef)
    ensures PlistLines(a + [d]) == PlistLines(a) + PlistEntry(d)
  {
    assert (a + [d])[..|a|] == a;
  }

  // ---------------------------------------------------------------------------
  // The effects

  class Effects {
    /** The effects whose external call reports an error. */
    const failing: set<Effect>
    /** Every effect performed so far, in order. */
    var trace: seq<Effect>

    constructor (failing: set<Effect>)
      ensures this.failing == failing && trace == []
    {
      this.failing := failing;
      trace := [];
    }

    /** An external call: it happens, and reports whether it failed. */
    method Perform(e: Effect) returns (err: Option<Error>)
      modifies this
      ensures trace == old(trace) + [e]
      ensures err == if e in failing then Some(EffectFailed) else None
    {
      trace := trace + [e];
      err := if e in failing then Some(EffectFailed) else None;
    }

    /** DeletePackage: removes the package directory. */
    method DeletePackage(p: InstallDef) returns (err: Option<Error>)
      modifies this
      ensures trace == old(trace) + [Delete(p)]
      ensures err == if Delete(p) in failing then Some(EffectFailed) else None
    {
      err := Perform(Delete(p));
    }

    /** InstallPackage: a fetch. */
    method InstallPackage(p: InstallDef) returns (err: Option<Error>)
      modifies this
      ensures trace == old(trace) + [Fetch(p)]
      ensures err == if Fetch(p) in failing then Some(EffectFailed) else None
    {
      err := Perform(Fetch(p));
    }

    /** UpgradePackage: the next version is fetched only once the previous one
        is removed. */
    method UpgradePackage(up: Upgrade) returns (err: Option<Error>)
      modifies this
      ensures trace == old(trace) + Executed(UpgradeSteps([up]), failing)
      ensures err.None? <==> Clean(UpgradeSteps([up]), failing)
    {
      var steps := UpgradeSteps([up]);
      assert steps == [Delete(up.prev), Fetch(up.next)];
      err := DeletePackage(up.prev);
      if err.Some? {
        ExecutedStops(steps, failing, 0);
        return err;
      }
      err := InstallPackage(up.next);
      if err.Some? {
        ExecutedStops(steps, failing, 1);
        assert steps[..2] == steps;
      }
    }


    /** The first loop of ApplyDiffSet. */
    method DeletePackages(ps: seq<InstallDef>) returns (err: Option<Error>)
      modifies this
      ensures trace == old(trace) + Executed(DeleteSteps(ps), failing)
      ensures err.None? <==> Clean(DeleteSteps(ps), failing)
    {
      ghost var plan := DeleteSteps(ps);
      var i := 0;
      while i < |ps|
        invariant i <= |ps|
        invariant trace == old(trace) + plan[..i] && Clean(plan[..i], failing)
      {
        err := DeletePackage(ps[i]);
        if err.Some? {
          StepFails(plan, failing, i);
          return err;
        }
        StepOk(plan, failing, i);
        i := i + 1;
      }
      assert plan[..i] == plan;
      return None;
    }

    /** The second loop of ApplyDiffSet. */
    method UpgradePackages(us: seq<Upgrade>) returns (err: Option<Error>)
      modifies this
      ensures trace == old(trace) + Executed(UpgradeSteps(us), failing)
      ensures err.None? <==> Clean(UpgradeSteps(us), failing)
    {
      ghost var plan := UpgradeSteps(us);
      var j := 0;
      while j < |us|
        invariant j <= |us|
        invariant trace == old(trace) + plan[..2 * j] && Clean(plan[..2 * j], failing)
      {
        var up := us[j];
        UpgradeStep(old(trace), us, j, failing);
        err := UpgradePackage(up);
        if err.Some? {
          return err;
        }
        j := j + 1;
      }
      assert plan[..2 * j] == plan;
      return None;
    }

    /** The third loop of ApplyDiffSet. */
    method InstallPackages(ps: seq<InstallDef>) returns (err: Option<Error>)
      modifies this
      ensures trace == old(trace) + Executed(FetchSteps(ps), failing)
      ensures err.None? <==> Clean(FetchSteps(ps), failing)
    {
      ghost var plan := FetchSteps(ps);
      var k := 0;
      while k < |ps|
        invariant k <= |ps|
        invariant trace == old(trace) + plan[..k] && Clean(plan[..k], failing)
      {
        err := InstallPackage(ps[k]);
        if err.Some? {
          StepFails(plan, failing, k);
          return err;
        }
        StepOk(plan, failing, k);
        k := k + 1;
      }
      assert plan[..k] == plan;
      return None;
    }

    /** ApplyDiffSet: deletes, then upgrades, then installs, stopping at the
        first failure. */
    method ApplyDiffSet(ds: DiffSet) returns (err: Option<Error>)
      modifies this
      ensures trace == old(trace) + Executed(Plan(ds), failing)
      ensures err.None? <==> Clean(Plan(ds), failing)
    {
      ThreePhases(trace, DeleteSteps(ds.delete), UpgradeSteps(ds.upgrade), FetchSteps(ds.install), failing);
      err := DeletePackages(ds.delete);
      if err.Some? {
        return err;
      }
      err := UpgradePackages(ds.upgrade);
      if err.Some? {
        return err;
      }
      err := InstallPackages(ds.install);
    }

    /** FetchInstallSet: every entry except provided ones is fetched, in the
        map's iteration order `order`, stopping at the first failure. */
    method FetchInstallSet(packages: map<string, InstallDef>) returns (err: Option<Error>, order: seq<string>)
      modifies this
      ensures Enumerates(order, packages.Keys)
      ensures trace == old(trace) + Executed(FetchSteps(NonProvided(packages, order)), failing)
      ensures err.None? <==> Clean(FetchSteps(NonProvided(packages, order)), failing)
    {
      order := MapOrder(packages);
      ghost var plan := FetchSteps(NonProvided(packages, order));
      var i := 0;
      while i < |order|
        invariant i <= |order|
        invariant trace == old(trace) + FetchSteps(NonProvided(packages, order[..i]))
        invariant Clean(FetchSteps(NonProvided(packages, order[..i])), failing)
      {
        var idef := packages[order[i]];
        FetchStep(old(trace), packages, order, i, failing);
        if idef.kind != ProvidedPackage {
          err := Perform(Fetch(idef));
          if err.Some? {
            return err, order;
          }
        }
        i := i + 1;
      }
      assert order[..i] == order;
      return None, order;
    }

    /** WritePackageList: load.el and plist.el are written with the texts
        built from every entry, in the map's iteration order `order`; a failed
        write is not reported. */
    method WritePackageList(baseDir: string, packageDir: string, packages: map<string, InstallDef>)
      returns (err: Option<Error>, order: seq<string>)
      modifies this
      ensures err == None && Enumerates(order, packages.Keys)
      ensures forall i :: 0 <= i < |order| ==> order[i] in packages
      ensures trace == old(trace) + [
                WriteFile(baseDir + "/load.el", LoadHeader + LoadEntries(packageDir, packages, order)),
                WriteFile(baseDir + "/plist.el", PlistHeader + PlistEntries(packages, order) + PlistFooter)]
    {
      order := MapOrder(packages);
      var load, plist := PackageListTexts(packageDir, packages, order);
      var ignored := Perform(WriteFile(baseDir + "/load.el", load));
      ignored := Perform(WriteFile(baseDir + "/plist.el", plist));
      return None, order;
    }
  }

  /** The loop of WritePackageList: the load.el and plist.el texts for the
      entries named by `order`, in that order. */
  method PackageListTexts(packageDir: string, packages: map<string, InstallDef>, order: seq<string>)
    returns (load: string, plist: string)
    requires forall i :: 0 <= i < |order| ==> order[i] in packages
    ensures load == LoadHeader + LoadEntries(packageDir, packages, order)
    ensures plist == PlistHeader + PlistEntries(packages, order) + PlistFooter
  {
    load := LoadHeader;
    plist := PlistHeader;
    assert order[..0] == [];
    var i := 0;
    while i < |order|
      invariant i <= |order|
      invariant load == LoadHeader + LoadEntries(packageDir, packages, order[..i])
      invariant plist == PlistHeader + PlistEntries(packages, order[..i])
    {
      var idef := packages[order[i]];
      var loadEntry, plistEntry := EntryLines(packageDir, idef);
      TextsStep(packageDir, packages, order, i);
      load := load + loadEntry;
      plist := plist + plistEntry;
      i := i + 1;
    }
    assert order[..i] == order;
    plist := plist + PlistFooter;
  }

  /** The body of the WritePackageList loop: the lines one entry adds to
      load.el and to plist.el. */
  method EntryLines(packageDir: string, idef: InstallDef) returns (loadEntry: string, plistEntry: string)
    ensures loadEntry == LoadEntry(packageDir, idef) && plistEntry == PlistEntry(idef)
  {
    loadEntry, plistEntry := "", "";
    if idef.kind == ProvidedPackage {
      loadEntry := ProvidedLine(idef);
    } else {
      if idef.kind == ThemePackage {
        loadEntry := ThemeLine(packageDir, idef);
      }
      loadEntry := loadEntry + LoadPathLine(packageDir, idef);
      plistEntry := PlistLine(idef);
    }
  }

  /** One more entry appends its lines to both texts. */
  lemma TextsStep(packageDir: string, packages: map<string, InstallDef>, order: seq<string>, i: nat)
    requires forall j :: 0 <= j < |order| ==> order[j] in packages
    requires i < |order|
    ensures LoadHeader + LoadEntries(packageDir, packages, order[..i + 1]) ==
            LoadHeader + LoadEntries(packageDir, packages, order[..i]) + LoadEntry(packageDir, packages[order[i]])
    ensures PlistHeader + PlistEntries(packages, order[..i + 1]) ==
            PlistHeader + PlistEntries(packages, order[..i]) + PlistEntry(packages[order[i]])
  {
    assert order[..i + 1][..i] == order[..i];
    AppendAssociates(LoadHeader, LoadEntries(packageDir, packages, order[..i]), LoadEntry(packageDir, packages[order[i]]));
    AppendAssociates(PlistHeader, PlistEntries(packages, order[..i]), PlistEntry(packages[order[i]]));
  }

  /** The order in which a Go `range` visits a map's keys: some order that
      lists each key once. */
  method MapOrder(m: map<string, InstallDef>) returns (order: seq<string>)
    ensures Enumerates(order, m.Keys)
    ensures forall i :: 0 <= i < |order| ==> order[i] in m
  {
    var remaining := m.Keys;
    order := [];
    while remaining != {}
      invariant remaining <= m.Keys
      invariant forall i :: 0 <= i < |order| ==> order[i] in m && order[i] !in remaining
      invariant forall i, j :: 0 <= i < j < |order| ==> order[i] != order[j]
      invariant forall k :: k in m.Keys ==> k in order || k in remaining
      decreases |remaining|
    {
      var name :| name in remaining;
      order := order + [name];
      remaining := remaining - {name};
    }
  }

  /** One iteration of the FetchInstallSet loop. */
  lemma FetchStep(t0: seq<Effect>, packages: map<string, InstallDef>, order: seq<string>, i: nat, failing: set<Effect>)
    requires forall j :: 0 <= j < |order| ==> order[j] in packages
    requires i < |order|
    requires Clean(FetchSteps(NonProvided(packages, order[..i])), failing)
    ensures var done := FetchSteps(NonProvided(packages, order[..i]));
            var next := FetchSteps(NonProvided(packages, order[..i + 1]));
            var d := packages[order[i]];
            if d.kind == ProvidedPackage then next == done
            else
              t0 + done + [Fetch(d)] == t0 + next &&
              (Fetch(d) !in failing ==> Clean(next, failing)) &&
              (Fetch(d) in failing ==>
                 t0 + done + [Fetch(d)] == t0 + Executed(FetchSteps(NonProvided(packages, order)), failing) &&
                 !Clean(FetchSteps(NonProvided(packages, order)), failing))
  {
    var done := NonProvided(packages, order[..i]);
    var d := packages[order[i]];
    NonProvidedStep(packages, order, i);
    if d.kind != ProvidedPackage {
      FetchStepsAppend(done, [d]);
      AppendAssociates(t0, FetchSteps(done), [Fetch(d)]);
      if Fetch(d) in failing {
        FetchPrefixFails(packages, order, i, failing);
      } else {
        StepOk(FetchSteps(done + [d]), failing, |done|);
        assert FetchSteps(done + [d])[..|done| + 1] == FetchSteps(done + [d]);
      }
    }
  }

  /** One iteration of the UpgradePackages loop. */
  lemma UpgradeStep(t0: seq<Effect>, us: seq<Upgrade>, j: nat, failing: set<Effect>)
    requires j < |us|
    requires Clean(UpgradeSteps(us)[..2 * j], failing)
    ensures var plan := UpgradeSteps(us);
            var one := UpgradeSteps([us[j]]);
            t0 + plan[..2 * j] + Executed(one, failing) ==
              (if Clean(one, failing) then t0 + plan[..2 * j + 2] else t0 + Executed(plan, failing)) &&
            (Clean(one, failing) ==> Clean(plan[..2 * j + 2], failing)) &&
            (!Clean(one, failing) ==> !Clean(plan, failing))
  {
    var plan := UpgradeSteps(us);
    var up := us[j];
    var one := UpgradeSteps([up]);
    UpgradeStepsAt(us, j);
    assert one == [plan[2 * j], plan[2 * j + 1]];
    if Delete(up.prev) in failing {
      StepFails(plan, failing, 2 * j);
      StepFails(one, failing, 0);
      AppendAssociates(t0, plan[..2 * j], [plan[2 * j]]);
    } else {
      StepOk(plan, failing, 2 * j);
      StepOk(one, failing, 0);
      AppendAssociates(t0, plan[..2 * j], [plan[2 * j], plan[2 * j + 1]]);
      assert plan[..2 * j + 2] == plan[..2 * j] + [plan[2 * j], plan[2 * j + 1]];
      if Fetch(up.next) in failing {
        StepFails(plan, failing, 2 * j + 1);
        StepFails(one, failing, 1);
        assert one[..1] + [one[1]] == one;
      } else {
        StepOk(plan, failing, 2 * j + 1);
        StepOk(one, failing, 1);
        assert one[..2] == one;
      }
    }
  }

  /** A failed fetch of the i-th entry ends the executed effects there. */
  lemma FetchPrefixFails(packages: map<string, InstallDef>, order: seq<string>, i: nat, failing: set<Effect>)
    requires forall j :: 0 <= j < |order| ==> order[j] in packages
    requires i < |order| && packages[order[i]].kind != ProvidedPackage
    requires Fetch(packages[order[i]]) in failing
    requires Clean(FetchSteps(NonProvided(packages, order[..i])), failing)
    ensures Executed(FetchSteps(NonProvided(packages, order)), failing) ==
            FetchSteps(NonProvided(packages, order[..i])) + [Fetch(packages[order[i]])]
    ensures !Clean(FetchSteps(NonProvided(packages, order)), failing)
  {
    var done := NonProvided(packages, order[..i]);
    FetchPlanAt(packages, order, i);
    StepFails(FetchSteps(NonProvided(packages, order)), failing, |done|);
  }

  /** Where the fetch of the i-th entry sits among all the fetches. */
  lemma FetchPlanAt(packages: map<string, InstallDef>, order: seq<string>, i: nat)
    requires forall j :: 0 <= j < |order| ==> order[j] in packages
    requires i < |order| && packages[order[i]].kind != ProvidedPackage
    ensures var done := NonProvided(packages, order[..i]);
            var all := FetchSteps(NonProvided(packages, order));
            |done| < |all| && all[..|done|] == FetchSteps(done) && all[|done|] == Fetch(packages[order[i]])
  {
    var done := NonProvided(packages, order[..i]);
    NonProvidedStep(packages, order, i);
    NonProvidedPrefix(packages, order, i + 1);
    var long := NonProvided(packages, order);
    assert long[..|done| + 1] == done + [packages[order[i]]];
    assert long[..|done|] == done;
  }

  /** The entries of a prefix of the order are a prefix of the entries. */
  lemma {:induction false} NonProvidedPrefix(packages: map<string, InstallDef>, order: seq<string>, n: nat)
    requires forall j :: 0 <= j < |order| ==> order[j] in packages
    requires n <= |order|
    ensures var short := NonProvided(packages, order[..n]);
            var long := NonProvided(packages, order);
            |short| <= |long| && long[..|short|] == short
    decreases |order| - n
  {
    if n < |order| {
      NonProvidedPrefix(packages, order, n + 1);
      NonProvidedStep(packages, order, n);
      var short := NonProvided(packages, order[..n]);
      var next := NonProvided(packages, order[..n + 1]);
      var long := NonProvided(packages, order);
      assert next[..|short|] == short;
      assert long[..|short|] == long[..|next|][..|short|];
    } else {
      assert order[..n] == order;
    }
  }
}
