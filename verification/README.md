# emenv — a verified Dafny model of the manifest-to-install-plan pipeline

emenv is a small package manager for Emacs written in Go. A manifest written as
Emacs-Lisp data (`(source ...)`, `(prefer ...)`, `(provided ...)`,
`(package ...)`, `(theme ...)`) and the `archive-contents` indices of package
archives go through one pipeline:

1. a **tokenizer** (`tokens.dfy`, laws in `token_laws.dfy`);
2. a **recursive-descent parser** into a generic node tree (`tree.dfy`, laws
   in `tree_laws.dfy`);
3. **decoders** that turn index trees into versions, dependencies, packages
   and repositories (`package_list.dfy`, with `decimal.dfy` for `%d` and
   `strconv.Atoi`);
4. the **manifest directive interpreter** and the form loop of `LoadEnv`
   (`source_list.dfy`, `init.dfy`);
5. the **install-set resolver**. It picks one repository package per name and
   builds the provenance tree (`install_set.dfy`);
6. the **apply phase**: the texts of `load.el` and `plist.el`,
   `NoOpDiffSet`, and the order of deletes, upgrades and fetches
   (`env.dfy`).

The shared records and the closed set of error kinds are in `types.dfy`.

Where the Go code reads and writes its state step by step, the model does too:

- `Tokens.Tokenizer` is a class with a reader cursor.
- `Tree.Stack` consumes its token field in place.
- `SourceList.Config` holds the settings part of `Env`.
- `InstallSets.Resolver` holds the install set as an arena of nodes.
- `EnvOps.Effects` records external effects in a trace.

Each method of the tokenizer, the parser, the settings and the effect trace
is proved equal to a pure specification function, and the properties are
proved about those functions. There are two exceptions. `Init.CompletePreferences`,
and with it the preference order `Init.LoadEnv` returns, is specified by the
relation `Completes`, because the names it appends come in Go's unspecified
map order. The resolver has no
specification function for the resolved tree. Its methods are specified by
relational contracts instead. These say:

- which node each new child of the parent holds;
- that a fresh package's children are its dependencies in order;
- at what depth each name is decided;
- which nodes and decisions a call leaves untouched.

Go index expressions that run past the end of a slice panic at run time. The
model returns the error `OutOfRange` there. Go map iteration order is
unspecified, so the model takes it as a parameter: `order`, which must list
every key exactly once.

Four behaviours of the code that are easy to misread:

- An unclosed list or vector is not reported as a dangling-bracket error.
  The parser reads `Tokens[0]` before it checks the length, so it fails with
  `OutOfRange` (`TreeLaws.UnclosedFails`).
- The unknown-token error is reachable: the tokenizer emits `'` as a Quote
  token, which the parser rejects (`TreeLaws.HeadErrors`).
- A deeper occurrence is not rewritten in its place in the parent's child
  list. It is swap-removed, and the shadow node is appended at the end
  (`InstallSets.SwapRemove`, `InstallSets.ShadowRewriteReplaces`).
- Of the occurrences of a provided name, only the first is recorded; every
  later occurrence becomes a shadow node
  (`InstallSets.Resolver.AddProvidedToInstallSet`).

## Model

| member | source | states |
|---|---|---|
| Tokens.SkipCommentLoop | src/emenv/tokens.go:15-36 | after a `;`, the rune returned is neither white space nor `;`; what is left is a strict suffix of the input; None when the input ends inside the comment |
| Tokens.SkipTop | src/emenv/tokens.go:15-19 | a rune other than `;` is returned as it is; after `;` the comment is skipped, and the rune returned is never `;` |
| Tokens.LexRune | src/emenv/tokens.go:38-52 | the next rune outside white space and comments is neither white space nor `;`; what is left is a strict suffix |
| Tokens.LexString | src/emenv/tokens.go:110-128 | a string body either gives a String token and leaves a strict suffix, or fails only with the reader's EOF error |
| Tokens.LexAtom | src/emenv/tokens.go:130-171 | an atom or keyword loop keeps its buffer as a prefix, stops at end of input or a delimiter, and leaves that delimiter unread |
| Tokens.SymbolTokenFromString | src/emenv/tokens.go:54-70 | an atom becomes Nil, Number, Keyword or Symbol; a Number is text Atoi accepts and keeps its value and text; a Keyword drops exactly the leading colon; a Symbol keeps the text |
| Tokens.TokenAfter | src/emenv/tokens.go:97-172 | the token switch never yields EOF, leaves a suffix unread, and fails only with the EOF error |
| Tokens.LexToken | src/emenv/tokens.go:86-174 | NextToken returns EOF exactly when no rune is left outside white space and comments; any other token consumes at least one rune |
| Tokens.LexAll | src/emenv/tokens.go:176-190 | Tokenize collects tokens until the EOF token; its only failure is the reader's EOF error from an unterminated string |
| Tokens.TokensExcludeEOF | src/emenv/tokens.go:176-190 | the tokens Tokenize returns never include the EOF token |
| Tokens.Tokenizer.constructor | src/emenv/tokens.go:10-13 | a new tokenizer has the whole input unread |
| Tokens.Tokenizer.SkipComments | src/emenv/tokens.go:15-36 | the rune returned and the input left agree with the comment-skipping specification |
| Tokens.Tokenizer.NextRune | src/emenv/tokens.go:38-52 | the rune returned and the input left agree with LexRune |
| Tokens.Tokenizer.LastRune | src/emenv/tokens.go:72-84 | the answer is true exactly for `[ ] ( ) .` and white space, and exactly then the rune is unread |
| Tokens.Tokenizer.ReadString | src/emenv/tokens.go:110-129 | the string loop agrees with LexString: the same token and the same input left, or the same error |
| Tokens.Tokenizer.ReadAtom | src/emenv/tokens.go:130-171 | the keyword and atom loops agree with LexAtom on the text read and the input left |
| Tokens.Tokenizer.NextToken | src/emenv/tokens.go:86-174 | NextToken agrees with LexToken on the token and the input left, or on the error |
| Tokens.Tokenizer.Tokenize | src/emenv/tokens.go:176-190 | the tokens collected, or the first error, equal LexAll of the unread input |
| Tokens.ParseTokens | src/emenv/tokens.go:192-195 | tokenizing a whole input gives LexAll of it |
| TokenLaws.BlankSkipped | src/emenv/tokens.go:38-52 | leading white space does not change the next rune |
| TokenLaws.SameRuneSameTokens | src/emenv/tokens.go:86-95 | two inputs with the same next rune and the same rest give the same token and the same token list |
| TokenLaws.PunctuationRead | src/emenv/tokens.go:98-109 | each of `[ ] ( ) ' .` at a token start is one payload-free token of its kind, and nothing after it is consumed |
| TokenLaws.AfterNewline | src/emenv/tokens.go:28-33 | once a comment line has ended, skipping goes on exactly as NextRune does |
| TokenLaws.CommentLine | src/emenv/tokens.go:20-33 | a comment is skipped up to and including its newline |
| TokenLaws.CommentToEnd | src/emenv/tokens.go:20-24 | a comment without a newline runs to the end of the input |
| TokenLaws.CommentSkipped | src/emenv/tokens.go:15-52 | a `;` comment line is invisible to NextRune and to Tokenize |
| TokenLaws.CommentEndsInput | src/emenv/tokens.go:89-93 | a comment running to the end of the input ends tokenization normally, with no tokens |
| TokenLaws.EscapedStringRead | src/emenv/tokens.go:111-128 | a body where every `"` and `\` is escaped reads back as the unescaped text, up to the first unescaped quote |
| TokenLaws.StringLiteralRead | src/emenv/tokens.go:110-128 | a quoted literal is one String token holding the unescaped text, and the backslash is dropped |
| TokenLaws.UnterminatedBody | src/emenv/tokens.go:113-121 | a body without a closing quote, or one ending in a lone backslash, fails with the EOF error |
| TokenLaws.UnterminatedStringFails | src/emenv/tokens.go:180-183 | an unterminated string makes the whole tokenization fail with the EOF error, not return tokens |
| TokenLaws.AtomRead | src/emenv/tokens.go:153-170 | an atom runs to end of input or a delimiter, which stays unread |
| TokenLaws.AtomToken | src/emenv/tokens.go:151-170 | an atom up to a delimiter is one token classified by SymbolTokenFromString, and the delimiter starts the next token |
| TokenLaws.KeywordRead | src/emenv/tokens.go:130-149 | a keyword excludes its colon, stops at a delimiter or end of input, and may be empty |
| TokenLaws.DottedNumbers | src/emenv/tokens.go:151-170 | `M.N` tokenizes as Number M, Dot, Number N |
| TokenLaws.MarkerInsideAtom | src/emenv/tokens.go:151-170 | `;`, `"` and `'` inside an atom belong to the atom |
| TokenLaws.NumberClassified | src/emenv/tokens.go:59-62 | the decimal text of an integer is classified as that Number |
| TokenLaws.KeywordClassified | src/emenv/tokens.go:64-67 | a leading colon always gives a keyword, never nil or a number |
| TokenLaws.TokenTextRead | src/emenv/tokens.go:86-174 | the canonical text of a token, followed by a delimiter, reads back as that token |
| TokenLaws.RenderRoundTrip | src/emenv/tokens.go:176-190 | tokenizing printable tokens joined by spaces gives back the same tokens |
| Decimal.Atoi | src/emenv/tokens.go:59-62 | the value Atoi gives text it accepts is negative only when the text starts with a minus sign |
| Decimal.AtoiSignsAndZeros | src/emenv/tokens.go:59-62 | a plus sign reads as no sign, a minus sign negates, and a leading zero is ignored |
| Decimal.NatToString | src/emenv/package_list.go:20 | `%d` of a non-negative integer is one or more digits with no leading zero, except for 0 itself |
| Decimal.IntToString | src/emenv/package_list.go:20 | `%d` of an integer is never empty and never holds a dot, so joined members split back at the dots |
| Decimal.IntToStringRoundTrip | src/emenv/tokens.go:59-62 | the `%d` text of an integer is accepted by Atoi and reads back as that integer |
| Decimal.IntToStringInjective | src/emenv/package_list.go:20-22 | distinct integers have distinct `%d` texts |
| Tree.LeafOf | src/emenv/tree.go:13-24 | an atom token becomes a childless leaf with the same payload, never a Pair node |
| Tree.ParseOne | src/emenv/tree.go:7-71 | a parsed form is well shaped and leaves a strict suffix of the tokens, so every call consumes the head |
| Tree.ParseItems | src/emenv/tree.go:25-61 | a list or vector keeps the children parsed so far as a prefix and consumes at least its close token |
| Tree.ParseWhole | src/emenv/tree.go:73-88 | ParseTree succeeds only with a well-shaped form |
| Tree.Stack.constructor | src/emenv/tree.go:3-5 | a new stack holds the given tokens |
| Tree.Stack.Parse | src/emenv/tree.go:7-71 | Parse returns ParseOne's form and leaves exactly the tokens after it, or returns ParseOne's error |
| Tree.ParseTree | src/emenv/tree.go:73-88 | ParseTree returns ParseWhole of its tokens |
| Tree.ParseForm | src/emenv/tree.go:90-105 | an empty stream or a lone EOF gives an EOF node and consumes nothing; on success exactly the unconsumed suffix is left; on error the stream is unchanged |
| TreeLaws.LeafRoundTrip | src/emenv/tree.go:13-24 | atom tokens and leaf nodes correspond one to one |
| TreeLaws.ParseFlatten | src/emenv/tree.go:7-71 | the token text of any well-shaped form, followed by anything, parses back to that form and leaves the rest |
| TreeLaws.ItemsThrough | src/emenv/tree.go:25-61 | the children of a list or vector are parsed one by one, in order |
| TreeLaws.ParsedCoversConsumed | src/emenv/tree.go:7-71 | the tokens a parse consumes are the token text of the form it returns, up to payloads the tree does not keep |
| TreeLaws.ItemsCoverConsumed | src/emenv/tree.go:25-61 | a list or vector consumes its children's text and then exactly its close token |
| TreeLaws.HeadErrors | src/emenv/tree.go:62-68 | a close token at the start of a form is a stray-vector or stray-list error; a quote or EOF token is an unknown-token error |
| TreeLaws.MismatchedClose | src/emenv/tree.go:25-65 | a close token of the wrong kind inside a list or vector is a stray error |
| TreeLaws.UnclosedFails | src/emenv/tree.go:9-35 | running out of tokens inside a list or vector, and ParseTree of no tokens, fail with an index error, not a dangling error |
| TreeLaws.WholeForm | src/emenv/tree.go:81-87 | ParseTree accepts one form, optionally followed by EOF, and rejects anything else after it as trailing tokens |
| PackageList.NumbersOf | src/emenv/package_list.go:15-21 | the numbers of the children in order, present exactly when every child is a Number |
| PackageList.VersionFromAST | src/emenv/package_list.go:8-23 | a version decodes exactly when there is at least one child and all are Numbers; the members are those numbers in order and the literal is their `%d` texts joined by `.` |
| PackageList.VersionRoundTrip | src/emenv/package_list.go:8-23 | decoding the list a version is written as gives back the version |
| PackageList.VersionIgnoresKind | src/emenv/package_list.go:8-23 | the node's own kind is not examined |
| PackageList.DottedLiteralInjective | src/emenv/package_list.go:15-22 | distinct member lists have distinct literals |
| PackageList.LiteralDeterminesVersion | src/emenv/package_list.go:15-22 | two decoded versions with the same literal are equal |
| PackageList.DependencyFromAST | src/emenv/package_list.go:25-39 | only a two-child List `[Symbol, List]` whose version decodes is accepted; the result has kind Dependency, no repository, and the decoded version |
| PackageList.DependencyRoundTrip | src/emenv/package_list.go:25-39 | decoding the node a dependency is written as gives it back |
| PackageList.DecodeDependencies | src/emenv/package_list.go:48-55 | the loop returns at most one definition per child, and one for every child when there is no error |
| PackageList.DecodeDependenciesMeaning | src/emenv/package_list.go:48-55 | the definitions returned are those of the leading children, in order; an error is the decoding error of the first bad child |
| PackageList.DependenciesFromAST | src/emenv/package_list.go:41-56 | Nil and childless nodes give no dependencies; otherwise one definition per child in order, or the definitions before the first bad child together with BadSyntax |
| PackageList.DecodeDependenciesRoundTrip | src/emenv/package_list.go:48-55 | decoding the nodes of valid dependencies gives them back, with no error |
| PackageList.DependenciesRoundTrip | src/emenv/package_list.go:41-56 | decoding a written dependency list, `nil` when empty, gives it back |
| PackageList.StorageOf | src/emenv/package_list.go:94-107 | only `single` and `tar` name a storage kind, and each names its own |
| PackageList.StorageRoundTrip | src/emenv/package_list.go:94-107 | a storage kind's name reads back as that kind |
| PackageList.PackageFromAST | src/emenv/package_list.go:58-72 | every rejection of an entry is BadSyntax; an entry that is not `[Symbol, Dot, Vector]` with at least four details is rejected (the kinds are stated by PackageDecoded) |
| PackageList.PackageFromDetails | src/emenv/package_list.go:74-117 | every rejection of a details vector is BadSyntax; details whose first four are not a List, a List or Nil, a String and a Symbol (DetailKinds) are rejected |
| PackageList.PackageDecoded | src/emenv/package_list.go:58-117 | a decoded entry is `[Symbol, Dot, Vector]` whose details have the kinds List, List or Nil, String, Symbol; the package carries the entry's name, description and storage kind, the decoded version and dependencies, and the URL `url/name-literal.suffix` |
| PackageList.DetailsRoundTrip | src/emenv/package_list.go:74-117 | decoding the details a valid package is written with gives it back |
| PackageList.PackageRoundTrip | src/emenv/package_list.go:58-118 | decoding the entry a valid package is written as gives it back |
| PackageList.ExtraDetailsIgnored | src/emenv/package_list.go:69-82 | details after the fourth do not change the result |
| PackageList.ExtraFieldsIgnored | src/emenv/package_list.go:58-82 | children after the third and details after the fourth do not change the result |
| PackageList.DecodePackages | src/emenv/package_list.go:135-144 | every failure of the entry loop is BadSyntax |
| PackageList.DecodePackagesSucceeds | src/emenv/package_list.go:135-144 | the entry loop succeeds exactly when every entry is a List that decodes |
| PackageList.DecodePackagesValues | src/emenv/package_list.go:135-144 | a successful loop returns one package per entry, in order |
| PackageList.RepositoryFromAST | src/emenv/package_list.go:120-147 | every rejection of an index is BadSyntax |
| PackageList.RepositoryMeaning | src/emenv/package_list.go:120-147 | an index decodes exactly when it is a List of a Number and at least one entry, every entry decoding; the repository has that version and the entries' packages in order |
| PackageList.DecodePackagesRoundTrip | src/emenv/package_list.go:135-144 | decoding the entries of valid packages gives them back |
| PackageList.RepositoryRoundTrip | src/emenv/package_list.go:120-147 | decoding the index a repository with packages is written as gives it back |
| PackageList.EmptyRepositoryRejected | src/emenv/package_list.go:126-128 | an index without entries is rejected |
| SourceList.OptionRepo | src/emenv/source_list.go:18-30 | an accepted option is a List headed by the symbol `repo` with at least two elements, and selects the second one's text; a two-element `repo` option is never rejected |
| SourceList.ApplyOptions | src/emenv/source_list.go:16-32 | the options succeed exactly when each does; the last one wins, and with none the repository stays empty |
| SourceList.ReadOption | src/emenv/source_list.go:18-30 | one option is checked as OptionRepo specifies |
| SourceList.ReadOptions | src/emenv/source_list.go:16-32 | the option loop returns ApplyOptions' repository or its first error |
| SourceList.ParsePackage | src/emenv/source_list.go:9-32 | a requirement needs a Symbol or String name, and has the given kind, the zero version and the last option's repository; an empty argument list is an index error |
| SourceList.AddPackage | src/emenv/source_list.go:9-35 | success appends exactly one requirement at the end and changes nothing else; failure gives ParsePackage's error |
| SourceList.AddSource | src/emenv/source_list.go:37-45 | only `[Symbol, String]` is accepted; it inserts or overwrites that one source and keeps the others |
| SourceList.NameList | src/emenv/source_list.go:51-56 | the names in order, present exactly when every element is a Symbol or String |
| SourceList.SetPrefer | src/emenv/source_list.go:47-59 | the preference order is replaced, not extended, by the names; nothing else changes |
| SourceList.SetProvided | src/emenv/source_list.go:61-72 | the provided names are replaced, not extended, by the names; nothing else changes |
| SourceList.Directive | src/emenv/source_list.go:74-95 | an empty form is an index error; a non-symbol head is BadSyntax; an unknown keyword is UnknownDirective |
| SourceList.PackageDirectiveAppends | src/emenv/source_list.go:81-84 | `package` appends one Standard requirement and `theme` one Theme requirement; a failed one changes nothing |
| SourceList.RepoTwoElements | src/emenv/source_list.go:24-27 | `(repo V)` selects V's text whatever V's kind, and of several options the last wins |
| SourceList.OptionShapes | src/emenv/source_list.go:18-30 | `(repo)` and `()` are index errors; `(repo A B)` takes A when it is a symbol and fails otherwise; any other head is UnknownDirective |
| SourceList.EmptyForms | src/emenv/source_list.go:76-82 | `()` and `(package)` fail with an index error |
| SourceList.DirectiveTouchesOneField | src/emenv/source_list.go:74-93 | a successful directive changes only the field its keyword is about |
| SourceList.Config.constructor | src/emenv/init.go:45-53 | the settings start as given |
| SourceList.Config.AddPackageToConfig | src/emenv/source_list.go:9-35 | the new settings are AddPackage's; on failure the error is the same and nothing changes |
| SourceList.Config.AddSourceToConfig | src/emenv/source_list.go:37-45 | the new settings are AddSource's; on failure nothing changes |
| SourceList.Config.SetPreferenceOrder | src/emenv/source_list.go:47-59 | the new settings are SetPrefer's; on failure nothing changes |
| SourceList.Config.SetProvidedDependencies | src/emenv/source_list.go:61-72 | the new settings are SetProvided's; on failure nothing changes |
| SourceList.Config.AddToConfig | src/emenv/source_list.go:74-95 | the new settings are Directive's; on failure nothing changes |
| Init.Defaults | src/emenv/init.go:21-53 | the default archives, the preference order melpa-stable, org, gnu, melpa, sunrise, and the provided names emacs, cl-lib, eieio, json, with no requirements and no previous state |
| Init.DefaultArchives | src/emenv/init.go:21-27 | exactly the five archives melpa-stable, melpa, gnu, org and sunrise, each keyed by its own name |
| Init.DefaultURLs | src/emenv/init.go:23-27 | the URL of each default archive |
| Init.DefaultOrderComplete | src/emenv/init.go:29-34 | the default preference order names every default archive exactly once and nothing else |
| Init.DefaultProvidedApart | src/emenv/init.go:36-40 | no default provided name is an archive name |
| Init.LoadForms | src/emenv/init.go:56-73 | loading the forms never changes the previous state |
| Init.LoadFormsStep | src/emenv/init.go:56-73 | a parsed form is never an EOF node; a non-list form is BadSyntax; a directive error ends loading |
| Init.Contains | src/emenv/init.go:77-82 | the inner loop finds a name exactly when it is listed |
| Init.CompletePreferences | src/emenv/init.go:75-86 | every source name ends up in the preference order; the old order is kept as a prefix, and only missing names are appended, each once |
| Init.LoadAll | src/emenv/init.go:56-73 | the form loop ends with LoadForms' settings or returns its first error |
| Init.LoadEnv | src/emenv/init.go:16-86 | a tokenizer error or a form error is returned; otherwise the settings are those of the forms applied to the defaults, with the preference order completed |
| InstallSets.FirstNamedPackage | src/emenv/install_set.go:10-15 | the first package with the name, or none |
| InstallSets.PackageIn | src/emenv/install_set.go:3-16 | an unknown repository is RepositoryNotFound; otherwise the result is the first package with that name, or PackageNotFound |
| InstallSets.Preferred | src/emenv/install_set.go:110-118 | a repository is found exactly when some repository in the preference order has the name; failed lookups are skipped |
| InstallSets.PreferredIsFirst | src/emenv/install_set.go:110-118 | the repository chosen is the first in the preference order that has the name |
| InstallSets.Lookup | src/emenv/install_set.go:99-120 | a pinned repository is the only one consulted, and its error is returned; otherwise the first repository in the preference order wins, or NoSuchPackage |
| InstallSets.SwapRemove | src/emenv/install_set.go:26-27 | the i-th child is removed by moving the last into its slot: one fewer child, the last child now at position i, every other position unchanged, and the multiset of children loses exactly that one |
| InstallSets.FirstNamedChild | src/emenv/install_set.go:24-25 | the position of the first child node with the name, or none |
| InstallSets.FindNamedChild | src/emenv/install_set.go:24-33 | the search loop over a parent's children finds FirstNamedChild |
| InstallSets.AppendChild | src/emenv/install_set.go:46 | a new node is attached as the last child of the parent; no other child count changes |
| InstallSets.ShadowRewrite | src/emenv/install_set.go:23-33 | the rewrite keeps every definition and every child count, and touches only the recorded parent |
| InstallSets.ShadowRewriteReplaces | src/emenv/install_set.go:24-31 | the first child with the name leaves the parent's list exactly once, and a shadow node for the name becomes the last child |
| InstallSets.Resolver.constructor | src/emenv/install_set.go:133-141 | a new install set has only a root node, with no children, and an empty map |
| InstallSets.Resolver.FindPackageIn | src/emenv/install_set.go:3-16 | the lookup loop returns PackageIn |
| InstallSets.Resolver.TentativelyShadow | src/emenv/install_set.go:18-37 | the answer is true exactly when the name is decided no deeper; a deeper decision is replaced by a shadow in its recorded parent; the map never changes |
| InstallSets.Resolver.AddPkgToInstallSet | src/emenv/install_set.go:39-69 | a name decided no deeper gets a shadow node and the map is unchanged; otherwise, on success, the parent's new last child is a node holding the package's definition (repository, kind, depth, parent), whose children are nodes for its dependencies in declared order, each decided one level deeper or shallower; the map records that definition; a failure adds no child to the parent, whose old children are never disturbed; every error is one some lookup reports (LookupError), and no error occurs when every repository package's dependencies are findable (Closed) and so are the package's |
| InstallSets.Resolver.AddFreshPackage | src/emenv/install_set.go:50-68 | the dependencies are resolved under the new node before it is attached; on success the parent's new last child is that node, holding the package's definition, with one child per dependency in declared order, and the map records the definition; an error is only a dependency's lookup error, and none occurs under Closed when every dependency is findable |
| InstallSets.Resolver.AddDependencies | src/emenv/install_set.go:61-65 | when no error occurs, the package's node gains one child per dependency, the i-th a node for the i-th dependency, and every dependency is decided at the dependency depth or shallower; an error is one some lookup reports, passed on from the dependency that failed, and none occurs under Closed when every dependency is findable |
| InstallSets.Resolver.AddProvidedToInstallSet | src/emenv/install_set.go:71-88 | the first occurrence of a provided name is recorded as Provided at depth 0 and attached; every later one is a shadow node and leaves the map unchanged |
| InstallSets.Resolver.AddToInstallSet | src/emenv/install_set.go:90-121 | a provided name is never looked up; a failed lookup changes nothing and returns its error; a success adds one child for the requirement after the parent's old children; a fresh install's child holds the definition from the repository Lookup chooses, with its dependencies as children; no decision is ever removed or made deeper; every error is a lookup error (LookupError), and a findable requirement under Closed never fails |
| InstallSets.Resolver.ResolveInstallSet | src/emenv/install_set.go:123-131 | on success the root's new children are nodes for the manifest's requirements, in manifest order, and every requirement is decided at depth 0; every error is a lookup error (LookupError), and with every requirement findable under Closed resolution succeeds |
| InstallSets.ShadowExtends | src/emenv/install_set.go:23-33 | a shadow rewrite reaches only the parent of a deeper decision, so a node whose children are decided at the current depth or above, the current parent among them, is left as it was |
| EnvOps.UpgradeSteps | src/emenv/env.go:70-75 | each upgrade is two effects |
| EnvOps.UpgradeStepsAt | src/emenv/env.go:70-75 | the j-th upgrade deletes the previous version and then fetches the next one |
| EnvOps.Plan | src/emenv/env.go:77-94 | the planned effects are every delete, then two per upgrade, then every install |
| EnvOps.NoOpDiffSet | src/emenv/env.go:96-101 | true exactly when there is nothing to delete, upgrade or install; Keep is ignored |
| EnvOps.Executed | src/emenv/env.go:77-94 | when no effect fails, every planned effect is performed |
| EnvOps.ExecutedStops | src/emenv/env.go:77-94 | the effects performed end at the first failing one |
| EnvOps.ThreePhases | src/emenv/env.go:77-94 | three effect lists run in sequence stop the whole at the first failure |
| EnvOps.LoadEntry | src/emenv/env.go:39-52 | a provided entry gets only its comment; a theme gets the theme-path line and then the load-path line; any other entry gets the load-path line |
| EnvOps.PlistEntry | src/emenv/env.go:39-53 | a plist line `(name "version" repo)` for each non-provided entry, and none for a provided one |
| EnvOps.NonProvided | src/emenv/env.go:24-31 | the entries fetched are never provided ones |
| EnvOps.NonProvidedMembers | src/emenv/env.go:24-31 | the fetched entries are exactly the non-provided entries of the order |
| EnvOps.FetchesEveryEntry | src/emenv/env.go:21-33 | over a full enumeration of the map, every non-provided entry is fetched, nothing else is fetched, and there are at most as many fetches as entries |
| EnvOps.PlistEntryPerPackage | src/emenv/env.go:38-54 | the plist text has one line per non-provided entry, in iteration order |
| EnvOps.Effects.Perform | src/emenv/env.go:61-68 | an external call (directory removal or download) is appended to the trace and fails exactly when it is one of the failing effects |
| EnvOps.Effects.DeletePackage | src/emenv/env.go:61-64 | one delete effect is performed, and its failure is reported |
| EnvOps.Effects.InstallPackage | src/emenv/env.go:66-68 | one fetch effect is performed, and its failure is reported |
| EnvOps.Effects.UpgradePackage | src/emenv/env.go:70-75 | the delete comes first, and the fetch happens only if the delete succeeded |
| EnvOps.Effects.DeletePackages | src/emenv/env.go:78-82 | the deletes are performed in order up to the first failure |
| EnvOps.Effects.UpgradePackages | src/emenv/env.go:83-87 | the upgrades are performed in order up to the first failure |
| EnvOps.Effects.InstallPackages | src/emenv/env.go:88-92 | the installs are performed in order up to the first failure |
| EnvOps.Effects.ApplyDiffSet | src/emenv/env.go:77-94 | the trace grows by the plan (deletes, then upgrades, then installs) up to the first failure, and success means no effect failed |
| EnvOps.Effects.FetchInstallSet | src/emenv/env.go:21-33 | every non-provided entry is fetched in the map's iteration order, up to the first failure |
| EnvOps.Effects.WritePackageList | src/emenv/env.go:35-59 | load.el and plist.el are written with the texts built from every entry; the result is nil even if a write fails |
| EnvOps.PackageListTexts | src/emenv/env.go:36-55 | load.el is its header and then the entries' lines; plist.el is its header and `(`, the entries' lines, and `)` |
| EnvOps.EntryLines | src/emenv/env.go:39-53 | the loop body adds LoadEntry to load.el and PlistEntry to plist.el |
| EnvOps.MapOrder | src/emenv/env.go:38 | a Go map range visits every key exactly once, in some order |
| EnvOps.FetchPrefixFails | src/emenv/env.go:28-30 | a failed fetch of an entry is the last effect of FetchInstallSet, which then fails |

## Left out

- Reading the manifest file and the directories LoadEnv creates (src/emenv/init.go:11-14 and 88-103): the manifest text is a parameter, and the directory fields are not modelled.
- Downloading and unpacking packages and indices (fetcher.go, repository.go), and the CLI, prompt and debug output: these are not part of this model. The resolver takes the repository map as a parameter.
- DeletePackage's `os.RemoveAll`, FetchPackage and `ioutil.WriteFile` are external effects. They are recorded in a trace, and a fixed set says which of them fail. Their effect on the file system is not modelled.
- The progress lines DeletePackage and Sync print: output only.
- `LoadPreviousInstallSet` and the classification of the diff set: no code defining them is part of this model. `DiffSet` is only an input to `NoOpDiffSet` and `ApplyDiffSet`.
- `Install` and `Sync` in src/emenv/env.go, which only sequence the modelled operations with prompts and printing.
- The stale two-argument `LoadEnv` in src/emenv/source_list.go:97-175 is not modelled. The one in src/emenv/init.go is.
- Input is a sequence of Unicode code points. UTF-8 decoding of bytes, and the replacement of invalid bytes, are not modelled.
- Tokens.Tokenizer.LastRune: the error path of `UnreadRune` is not modelled. It cannot fail straight after a successful `ReadRune` on a `strings.Reader`.
- Tokens.SymbolTokenFromString: does not model Atoi's range check, because integers are mathematical. A decimal atom outside the 64-bit range is a Number here, where Go would make it a Symbol.
- Init.CompletePreferences: the order in which missing source names are appended is left unspecified, as Go map iteration leaves it.
- InstallSets.Resolver.AddToInstallSet: requires a ranking of names under which every dependency of a package that a lookup can return ranks below that package. Go recurses forever on a dependency cycle, and that is not modelled. Provided names and later entries of the same name are exempt, but the ranking still covers packages that no requirement reaches, where Go does not care about a cycle.
- InstallSets.Resolver.AddToInstallSet: requires `depth` to be the depth at which the parent's children are decided: 0 under the root, one more than the parent's own depth elsewhere. Every call in the source passes exactly that.
- InstallSets.Resolver.AddPkgToInstallSet: does not model aliasing through Go's node addresses and shared slices. In Go, the edit TentativelyShadow makes through a stale copy of the parent node reaches the stored tree through a shared backing array. The model applies that edit to the recorded parent's child list in the arena directly.
- InstallSets.Resolver.TentativelyShadow: drops the Go parameter `parent`, which the Go code never reads.
- InstallSets.Resolver.AddFreshPackage: when a dependency fails, the package's own node stays in the arena, unattached to any parent. In Go it is a local value that is discarded. Both leave the map entries the dependencies wrote.
- InstallSets.Resolver.ResolveInstallSet: does not state which requirement failed. It states that the error is a lookup error, and that none occurs when every requirement, and every dependency of every package a lookup can return, is findable.
- PackageList.PackageFromAST: its own contract states only the error kind. The entry and detail kinds a decoded package needs, and what it holds, are stated by PackageList.PackageDecoded.
- PackageList.RepositoryFromAST: its own contract states only the error kind. Its meaning is stated by PackageList.RepositoryMeaning.
