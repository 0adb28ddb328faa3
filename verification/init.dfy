/**
 * LoadEnv of src/emenv/init.go without its file and directory I/O: the
 * manifest text is a parameter. The settings start from fixed defaults, the
 * top-level forms are applied in order until the end of input, and every
 * source that the preference order does not mention is then appended to it.
 */
module Init {
  import opened Types
  import opened Tokens
  import opened Tree
  import opened SourceList

  function DefaultSources(): map<string, Source> {
    map[
      "melpa-stable" := Source("melpa-stable", "http://stable.melpa.org/packages"),
      "melpa" := Source("melpa", "https://melpa.org/packages"),
      "gnu" := Source("gnu", "https://elpa.gnu.org/packages"),
      "org" := Source("org", "http://orgmode.org/elpa"),
      "sunrise" := Source("sunrise", "http://joseito.republika.pl/sunrise-commander")]
  }

  /** The settings before any manifest form is read: the five default
      archives, the default preference order over them, and the libraries
      that ship with Emacs as provided names. */
  function Defaults(): (s: Settings)
    ensures s.sources == DefaultSources()
    ensures s.prefer == ["melpa-stable", "org", "gnu", "melpa", "sunrise"]
    ensures s.provided == ["emacs", "cl-lib", "eieio", "json"]
    ensures s.packages == [] && s.previous == map[]
  {
    Settings(DefaultSources(),
             ["melpa-stable", "org", "gnu", "melpa", "sunrise"],
             ["emacs", "cl-lib", "eieio", "json"],
             [], map[])
  }

  /** Five archives, each keyed by its own name. */
  lemma DefaultArchives()
    ensures var m := DefaultSources();
            m.Keys == {"melpa-stable", "melpa", "gnu", "org", "sunrise"} && |m| == 5 &&
            forall k :: k in m ==> m[k].name == k
  {
    var m := DefaultSources();
    assert m.Keys == {"melpa-stable", "melpa", "gnu", "org", "sunrise"};
  }

  /** The URLs LoadEnv gives the default archives. */
  lemma DefaultURLs()
    ensures var m := DefaultSources();
            m["melpa-stable"].url == "http://stable.melpa.org/packages" &&
            m["melpa"].url == "https://melpa.org/packages" &&
            m["gnu"].url == "https://elpa.gnu.org/packages" &&
            m["org"].url == "http://orgmode.org/elpa" &&
            m["sunrise"].url == "http://joseito.republika.pl/sunrise-commander"
  {
  }

  /** The default preference order names every default archive exactly once
      and nothing else, so completing it adds nothing. */
  lemma DefaultOrderComplete()
    ensures var s := Defaults();
            (forall k :: k in s.sources <==> k in s.prefer) &&
            forall i, j :: 0 <= i < j < |s.prefer| ==> s.prefer[i] != s.prefer[j]
  {
  }

  /** No default provided name is an archive. */
  lemma DefaultProvidedApart()
    ensures var s := Defaults();
            forall n :: n in s.provided ==> n !in s.sources
  {
  }

  /** The form loop: forms are applied in order until only an EOF token (or
      nothing) is left; a form that is not a list is bad syntax, and the first
      error ends loading. */
  function LoadForms(s: Settings, ts: seq<Token>): (r: Result<Settings>)
    ensures r.Success? ==> r.value.previous == s.previous
    decreases |ts|
  {
    if AtMostEOF(ts) then Success(s)
    else match ParseOne(ts)
      case Failure(e) => Failure(e)
      case Success((n, rest)) =>
        if n.kind != ListNode then Failure(BadSyntax)
        else match Directive(s, n.children)
          case Failure(e) => Failure(e)
          case Success(t) =>
            DirectiveTouchesOneField(s, n.children);
            LoadForms(t, rest)
  }

  /** `after` is `before` followed by distinct names from `names` that
      `before` lacks. */
  predicate Extended(before: seq<string>, after: seq<string>, names: set<string>) {
    |before| <= |after| && after[..|before|] == before &&
    (forall i :: |before| <= i < |after| ==> after[i] in names && after[i] !in before) &&
    (forall i, j :: |before| <= i < j < |after| ==> after[i] != after[j])
  }

  /** The preference completion: every name is listed and the old order is
      kept as a prefix of the new one. */
  predicate Completes(before: seq<string>, after: seq<string>, names: set<string>) {
    Extended(before, after, names) && forall k :: k in names ==> k in after
  }

  /** The inner loop of the completion. */
  method Contains(xs: seq<string>, x: string) returns (found: bool)
    ensures found <==> x in xs
  {
    found := false;
    var i := 0;
    while i < |xs|
      invariant i <= |xs|
      invariant found <==> x in xs[..i]
    {
      assert xs[..i + 1] == xs[..i] + [xs[i]];
      if xs[i] == x {
        found := true;
      }
      i := i + 1;
    }
    assert xs[..i] == xs;
  }

  /** The preference completion of LoadEnv, over the source names in an
      unspecified order. */
  method CompletePreferences(env: Config)
    modifies env
    ensures env.sources == old(env.sources) && env.provided == old(env.provided)
    ensures env.packages == old(env.packages) && env.previous == old(env.previous)
    ensures Completes(old(env.prefer), env.prefer, env.sources.Keys)
  {
    var remaining := env.sources.Keys;
    while remaining != {}
      invariant remaining <= env.sources.Keys
      invariant env.sources == old(env.sources) && env.provided == old(env.provided)
      invariant env.packages == old(env.packages) && env.previous == old(env.previous)
      invariant Extended(old(env.prefer), env.prefer, env.sources.Keys - remaining)
      invariant forall k :: k in env.sources.Keys - remaining ==> k in env.prefer
      decreases |remaining|
    {
      var sname :| sname in remaining;
      var found := Contains(env.prefer, sname);
      if !found {
        env.prefer := env.prefer + [sname];
      }
      remaining := remaining - {sname};
    }
  }

  /** One step of the form loop, unfolded: a parsed form is never an EOF
      node, so the loop either applies a list form or stops with an error. */
  lemma LoadFormsStep(s: Settings, ts: seq<Token>)
    requires !AtMostEOF(ts) && ParseOne(ts).Success?
    ensures ParseOne(ts).value.0.kind != EOFNode
    ensures var (n, rest) := ParseOne(ts).value;
            LoadForms(s, ts) ==
              if n.kind != ListNode then Failure(BadSyntax)
              else match Directive(s, n.children)
                case Failure(e) => Failure(e)
                case Success(t) => LoadForms(t, rest)
  {
  }

  /** The form loop of LoadEnv: every top-level form is applied to `env` in
      order; the first error is returned. */
  method LoadAll(env: Config, tokens: seq<Token>) returns (err: Option<Error>)
    modifies env
    ensures match LoadForms(old(env.State()), tokens)
            case Failure(e) => err == Some(e)
            case Success(s) => err == None && env.State() == s
  {
    var ts := tokens;
    while true
      invariant LoadForms(env.State(), ts) == LoadForms(old(env.State()), tokens)
      decreases |ts|
    {
      ghost var s := env.State();
      var tree, remaining := ParseForm(ts);
      if tree.Failure? {
        return Some(tree.error);
      }
      if !AtMostEOF(ts) {
        LoadFormsStep(s, ts);
      }
      if tree.value.kind == EOFNode {
        return None;
      }
      if tree.value.kind != ListNode {
        return Some(BadSyntax);
      }
      err := env.AddToConfig(tree.value.children);
      if err.Some? {
        return err;
      }
      ts := remaining;
    }
  }

  /** LoadEnv: the settings a manifest text produces, or the first error of
      the tokenizer, the parser or a directive. */
  method LoadEnv(body: string) returns (env: Config?, err: Option<Error>)
    ensures err.None? <==> env != null
    ensures env != null ==> fresh(env)
    ensures match LexAll(body)
            case Failure(e) => err == Some(e)
            case Success(ts) =>
              match LoadForms(Defaults(), ts)
              case Failure(e) => err == Some(e)
              case Success(s) =>
                env != null && env.sources == s.sources && env.provided == s.provided &&
                env.packages == s.packages && env.previous == s.previous &&
                Completes(s.prefer, env.prefer, s.sources.Keys)
  {
    var tokens := ParseTokens(body);
    if tokens.Failure? {
      return null, Some(tokens.error);
    }
    var e := new Config(Defaults());
    err := LoadAll(e, tokens.value);
    if err.Some? {
      return null, err;
    }
    CompletePreferences(e);
    return e, None;
  }
}
