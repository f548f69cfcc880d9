# Sass import resolution, import caches, `@if` chains and option propagation

This project models, in Dafny, the part of the Ruby Sass compiler that turns an
`@import` name into a source file, the two small caches around it, the linked
`@if`/`@else` node and the visitor that hands the compiler options to every
node of a parsed tree.

- `ImportNames` (`import_names.dfy`): the pure string logic of the filesystem
  importer (`Sass::Importers::Filesystem`). It covers stripping the importer's
  root (`remove_root`), backslash-escaping glob characters
  (`escape_glob_characters`), splitting a name into directory, basename and
  known extension (`split`), the ordered candidate list of `each_possible_file`,
  the result and the probes of `_find_real_file` as functions of the set of
  existing files, and the cache key (`key`).
- `Importers` (`filesystem.dfy`): the stateful part of the same importer.
  A `Disk` object holds the existing files and a log of every existence test.
  `ProbeCandidates` is the probing loop of `_find_real_file`. `FindRealFile` is
  `find_real_file` with its three-valued memo in the compile cache. `FindIn`,
  `Find` and `FindRelative` are `_find`, `find` and `find_relative`, which write
  the syntax, the file name and the importer into the options.
  An importer is a datatype value, so two importers with equal roots are equal,
  as Ruby's `hash`/`eql?` make them.
- `ImporterCaches` (`importer_cache.dfy`): `Sass::Plugin::ImporterCache`, a class
  over a two-level map, importer → uri → value. Its default block inserts an
  empty inner map for an unseen importer.
- `CacheStores` (`pure_memory.dfy`): `Sass::CacheStores::PureMemory#retrieve`, a
  lookup guarded by the sha the entry was stored with.
- `SassTree` (`tree.dfy`): the node kinds and embedded expressions the visitor
  walks.
- `IfNodes` (`if_node.dfy`): `Sass::Tree::IfNode` as a class. A chain predicate
  describes the linked `@if`/`@else` list and its cached tail. The class covers
  `add_else`, `marshal_dump` and `marshal_load`, and what `Marshal.load` makes of
  a dumped chain.
- `SetOptions` (`set_options.dfy`): `Sass::Tree::Visitors::SetOptions` as a class
  whose `log` records, in order, every node and expression handed the options.
  Its order is specified by the function `Trace`. Two lemmas compare `Trace`
  with an independent definition of what must receive the options: `Reaches`,
  through children and `@else` links, and `Listed`, the expressions of each
  node kind. Coverage is proved in both directions.

Importing a name whose part after the root holds a glob character does not
find the file of that name. `escape_glob_characters`
(lib/sass/importers/filesystem.rb:79, 96-100) puts a backslash in front of each
of `*`, `?`, `[`, `]`, `{` and `}` in the name left by `remove_root`, but the
escaped candidate is then tested with `File.file?` (filesystem.rb:127), which
does no globbing. So such a file is never found under its own name. The
search directory (the root, or the importing file's directory) is not escaped
(filesystem.rb:126), so a glob character there does no harm. The model follows the code, and
`ImportNames.GlobNamesAreNotMatchedLiterally` states the consequence.

## Model

| member | source | states |
|---|---|---|
| ImportNames.SortedExtensionsEnumerateExtensions | lib/sass/importers/filesystem.rb:65-77 | the sorted extension list used for bare names holds exactly the `sass` and `scss` entries of `EXTENSIONS` with their syntaxes, `sass` first |
| ImportNames.RemoveRoot | lib/sass/importers/filesystem.rb:55-63 | a name starting with `root/` loses exactly that prefix (`root + "/" + r == name`); any other name is returned unchanged |
| ImportNames.RemoveRootOfJoined | lib/sass/importers/filesystem.rb:57-63 | `remove_root(root + "/" + s) == s` for every `s` |
| ImportNames.EscapeGlobCharacters | lib/sass/importers/filesystem.rb:96-100 | the escaped name is longer by exactly the number of glob characters; it is empty only for the empty name; a backslash is put in front of a leading glob character and any other first character is kept |
| ImportNames.EscapedGlobsArePreceded | lib/sass/importers/filesystem.rb:96-100 | in an escaped name every glob character stands right after a backslash |
| ImportNames.EscapeRoundTrip | lib/sass/importers/filesystem.rb:96-100 | dropping the inserted backslashes gives the name back, so every character is kept and in order |
| ImportNames.EscapeWithoutGlobs | lib/sass/importers/filesystem.rb:96-100 | a name without glob characters is left unchanged |
| ImportNames.LastSlash | lib/sass/importers/filesystem.rb:139 | the index answered holds a `/` and no `/` follows it; no index is answered only when the name holds no `/` |
| ImportNames.DirNameBaseName | lib/sass/importers/filesystem.rb:139 | a name without `/` has directory `.` and is its own basename; when the last `/` is not the first character, directory, `/` and basename put together give the name back; a basename holds no `/` |
| ImportNames.RootedDirNameBaseName | lib/sass/importers/filesystem.rb:139 | when the last `/` is the first character, the directory is `/` and `/` plus the basename gives the name back |
| ImportNames.Split | lib/sass/importers/filesystem.rb:137-145 | the directory is the name's directory; an extension is answered only if it is a key of `EXTENSIONS`, and then `base + "." + ext` is the basename; otherwise the base is the whole basename, which then ends in neither `.sass` nor `.scss` |
| ImportNames.PossibleFiles | lib/sass/importers/filesystem.rb:78-94 | `each_possible_file`: no contract of its own; the candidates it yields, their order and their syntaxes are stated by `KnownExtensionCandidates`, `UnknownExtensionCandidates` and `CandidateSyntaxMatchesExtension` |
| ImportNames.KnownExtensionCandidates | lib/sass/importers/filesystem.rb:79-87 | with a known extension there are exactly two candidates, `dir/base.ext` then `dir/_base.ext`, both in that extension's syntax |
| ImportNames.SortedCandidates | lib/sass/importers/filesystem.rb:88-93 | the bare-name candidates are the `sass` pair followed by the `scss` pair |
| ImportNames.UnknownExtensionCandidates | lib/sass/importers/filesystem.rb:79-93 | without a known extension there are exactly four candidates: plain `.sass`, partial `.sass`, plain `.scss`, partial `.scss` |
| ImportNames.CandidateSyntaxMatchesExtension | lib/sass/importers/filesystem.rb:79-94 | every candidate carries the syntax of the extension its file name ends with |
| ImportNames.AbsoluteAndRelativeNamesShareCandidates | lib/sass/importers/filesystem.rb:57-63 | importing `root/s` and `s` tries the same candidate files |
| ImportNames.FirstHit | lib/sass/importers/filesystem.rb:124-133 | the index answered is the least candidate index whose probed path exists, or the number of candidates when none exists |
| ImportNames.CollapseRedundant | lib/sass/importers/filesystem.rb:128 | replacing `/./` by `/` never makes the path longer |
| ImportNames.CollapseWithoutRedundantDirectory | lib/sass/importers/filesystem.rb:128 | a path with no `/./` is left unchanged by the replacement |
| ImportNames.CollapseIsOnePass | lib/sass/importers/filesystem.rb:128 | the replacement of `/./` by `/` is one left-to-right pass: `a/././b` becomes `a/./b` |
| ImportNames.CollapseScanStep | lib/sass/importers/filesystem.rb:128 | the scan replaces a `/./` at the front and continues after it, and otherwise keeps the first character and continues from the next, so replacements never overlap |
| ImportNames.ProbePaths | lib/sass/importers/filesystem.rb:125-127 | one probed path per candidate, in order: the candidate itself when `dir` is `.`, else `dir/` in front of it |
| ImportNames.Resolve | lib/sass/importers/filesystem.rb:124-133 | `_find_real_file`'s answer: no contract of its own; `FirstExistingIsFirst`, `FirstExistingNoneIff` and `GlobNamesAreNotMatchedLiterally` state what it answers |
| ImportNames.Probes | lib/sass/importers/filesystem.rb:124-133 | the paths `_find_real_file` tests with `File.file?`: no contract of its own; `ProbesStopAtFirstHit` states that they stop at the first hit |
| ImportNames.FirstExistingIsFirst | lib/sass/importers/filesystem.rb:124-133 | when candidate `k` exists and none before it does, the result is candidate `k`'s path with `/./` collapsed, in its syntax |
| ImportNames.FirstExistingNoneIff | lib/sass/importers/filesystem.rb:124-133 | the result is `nil` exactly when no candidate's probed path exists |
| ImportNames.ProbesStopAtFirstHit | lib/sass/importers/filesystem.rb:124-133 | no more probes than candidates; every probe but the last misses; a file is found exactly when the last probe hits |
| ImportNames.BackslashInEveryCandidate | lib/sass/importers/filesystem.rb:79-100 | when the escaped name holds a backslash, every candidate file name holds one |
| ImportNames.GlobNamesAreNotMatchedLiterally | lib/sass/importers/filesystem.rb:79-133 | a name whose part after the root holds a glob character resolves to nothing when no existing path holds a backslash, after probing every candidate; the search directory itself is not escaped |
| ImportNames.Key | lib/sass/importers/filesystem.rb:35-38 | `key`: no contract of its own; `KeyScopesByDirectory` states when two names share a key |
| ImportNames.KeyScopesByDirectory | lib/sass/importers/filesystem.rb:35-39 | two names have the same key exactly when their expanded directories and their basenames agree |
| ImporterCaches.Touched | lib/sass/plugin/importer_cache.rb:6-8 | the default block adds the importer with an empty inner map when it is missing and changes no existing importer's map |
| ImporterCaches.Lookup | lib/sass/plugin/importer_cache.rb:10-12 | a read answers a value exactly when the importer has an entry for the uri, and then that entry |
| ImporterCaches.TouchAddsNoEntry | lib/sass/plugin/importer_cache.rb:6-12 | the default block changes the value read for no pair |
| ImporterCaches.Written | lib/sass/plugin/importer_cache.rb:14-16 | the hash after `[]=`: no contract of its own; `ReadAfterWrite` and `WriteLeavesOtherPairs` state it |
| ImporterCaches.ReadAfterWrite | lib/sass/plugin/importer_cache.rb:10-16 | after `cache[i, u] = c`, `cache[i, u]` is `c` |
| ImporterCaches.WriteLeavesOtherPairs | lib/sass/plugin/importer_cache.rb:14-16 | a write leaves the value of every other pair unchanged |
| ImporterCaches.Removed | lib/sass/plugin/importer_cache.rb:18-20 | the hash after `delete`: no contract of its own; `ReadAfterDelete` and `DeleteLeavesOtherPairs` state it |
| ImporterCaches.ReadAfterDelete | lib/sass/plugin/importer_cache.rb:18-20 | after `delete(i, u)` a read of `(i, u)` answers `nil` |
| ImporterCaches.DeleteLeavesOtherPairs | lib/sass/plugin/importer_cache.rb:18-20 | a delete leaves the value of every other pair unchanged |
| ImporterCaches.NegativeEntryIsNotAbsent | lib/sass/plugin/importer_cache.rb:7-12 | a pair never written reads as `nil`, while a stored negative marker reads as a value |
| ImporterCaches.ImporterCache.constructor | lib/sass/plugin/importer_cache.rb:6-8 | a new cache is empty |
| ImporterCaches.ImporterCache.Get | lib/sass/plugin/importer_cache.rb:10-12 | answers the stored value of the pair, and the only change is the default block's empty inner map |
| ImporterCaches.ImporterCache.Set | lib/sass/plugin/importer_cache.rb:14-16 | the pair reads back as the written value and every other pair is unchanged |
| ImporterCaches.ImporterCache.Delete | lib/sass/plugin/importer_cache.rb:18-20 | answers the removed value; the pair then reads as `nil` and every other pair is unchanged |
| CacheStores.PureMemory.Retrieve | lib/sass/cache_stores/pure_memory.rb:4-8 | an object is answered exactly when the key has a bucket whose sha equals the sha asked for, and it is the bucket's object; the store is not changed |
| CacheStores.PureMemory.Store | lib/sass/cache_stores/pure_memory.rb:3 | the inherited `store` as modelled here: the key's bucket becomes the given sha and object, and every other key keeps its bucket |
| CacheStores.MissingKeyMisses | lib/sass/cache_stores/pure_memory.rb:5 | a key with no bucket is a miss |
| CacheStores.RetrieveAfterStore | lib/sass/cache_stores/pure_memory.rb:4-8 | after storing an object under a key and sha, retrieving with that sha answers the object |
| CacheStores.RetrieveWithOtherShaMisses | lib/sass/cache_stores/pure_memory.rb:5 | retrieving with any sha other than the stored one is a miss |
| CacheStores.StoreLeavesOtherKeys | lib/sass/cache_stores/pure_memory.rb:4-8 | storing under one key leaves what every other key retrieves unchanged |
| Importers.Disk.IsFile | lib/sass/importers/filesystem.rb:127 | answers whether the path is an existing file, and logs the test |
| Importers.ToEntry | lib/sass/importers/filesystem.rb:117 | the memoised value is `false` exactly when nothing was found, and the found path and syntax otherwise |
| Importers.CachedFind | lib/sass/importers/filesystem.rb:109-118 | `find_real_file` with a compile cache: no contract of its own; `CachedLookupDoesNotProbe`, `UncachedLookupIsMemoised`, `RepeatedLookupIsAnsweredFromCache`, `LookupLeavesOtherPairs` and `EqualRootsShareCache` state it |
| Importers.CachedLookupDoesNotProbe | lib/sass/importers/filesystem.rb:109-118 | a cached pair answers the cached path and a cached `false` answers nothing; neither probes a file |
| Importers.UncachedLookupIsMemoised | lib/sass/importers/filesystem.rb:116-117 | a lookup not yet cached probes as `_find_real_file` does and stores its result, or `false` when nothing was found |
| Importers.RepeatedLookupIsAnsweredFromCache | lib/sass/importers/filesystem.rb:109-118 | a second identical lookup answers what the first did, probes nothing and changes no entry, even if the files changed |
| Importers.LookupLeavesOtherPairs | lib/sass/importers/filesystem.rb:117 | a lookup changes the cached value of no other importer and uri |
| Importers.EqualRootsShareCache | lib/sass/importers/filesystem.rb:47-53 | an importer with the same root is answered from the entry another importer memoised |
| Importers.ProbeCandidates | lib/sass/importers/filesystem.rb:125-132 | the loop answers the first existing candidate with `/./` collapsed, or `nil`, and tests exactly the candidates up to the first hit, in order |
| Importers.FindRealFileUncached | lib/sass/importers/filesystem.rb:124-133 | `_find_real_file` answers `Resolve` of the root-stripped name and makes exactly the probes `Probes` lists |
| Importers.FindRealFile | lib/sass/importers/filesystem.rb:109-122 | without a cache it is `_find_real_file`; with one its answer, new cache entries and probes are those of the memoised lookup |
| Importers.FindIn | lib/sass/importers/filesystem.rb:149-158 | on a miss the options are left as they were; on a hit `:syntax`, `:filename` and `:importer` are the found syntax, the found path and the importer; the lookup is memoised in the options' compile cache when there is one |
| Importers.Find | lib/sass/importers/filesystem.rb:24-27 | `_find(@root, …)`: the answer, new cache entries and probes of the lookup under the root (memoised when there is a compile cache); on a hit `:syntax`, `:filename` and `:importer` are set, on a miss the options are left as they were |
| Importers.FindRelative | lib/sass/importers/filesystem.rb:19-22 | `_find(File.dirname(base), …)`: the answer, new cache entries and probes of the lookup under the importing file's directory (memoised when there is a compile cache); on a hit `:syntax`, `:filename` and `:importer` are set, on a miss the options are left as they were |
| SetOptions.ScriptExprsMembers | lib/sass/tree/visitors/set_options.rb:28-30 | the expressions taken from a selector or name are exactly its script fragments; plain strings are skipped |
| SetOptions.ArgExprs | lib/sass/tree/visitors/set_options.rb:39-45 | an expression is listed for an argument list exactly when it is some argument's name or present default value |
| SetOptions.KeywordValues | lib/sass/tree/visitors/set_options.rb:63 | an expression is listed exactly when it is some keyword argument's value; the keywords are not |
| SetOptions.HandlerExprsAreListed | lib/sass/tree/visitors/set_options.rb:18-96 | every handler hands the options to exactly the expressions of its node kind: the single expression, `from` and `to`, argument names and present defaults, positional arguments and keyword values, script fragments, the prop value, and the condition of an `@if` only when present |
| SetOptions.ReachableObjectsReceiveOptions | lib/sass/tree/visitors/set_options.rb:13-96 | every node reached through children and `@else` links, and every expression listed for it, receives the options |
| SetOptions.OnlyReachableObjectsReceiveOptions | lib/sass/tree/visitors/set_options.rb:13-96 | nothing else receives the options: every object in the visit is a reached node or one of its listed expressions |
| SetOptions.NodeReceivesOptionsFirst | lib/sass/tree/visitors/set_options.rb:13-16 | the visit of a node starts by handing the node itself the options |
| SetOptions.ChildVisitFollowsParent | lib/sass/tree/visitors/set_options.rb:13-16 | each child's whole visit is a contiguous part of its parent's visit, after the parent received the options |
| SetOptions.ElseVisitFollowsCondition | lib/sass/tree/visitors/set_options.rb:47-51 | an `@if`'s `@else` node is visited whole, after the condition and before the `@if`'s children |
| SetOptions.SetOptionsVisitor.constructor | lib/sass/tree/visitors/set_options.rb:9-11 | a new visitor has handed the options to nothing |
| SetOptions.SetOptionsVisitor.Visit | lib/sass/tree/visitors/set_options.rb:13-16 | visiting a node hands the options to exactly `Trace(n)`, in order |
| SetOptions.SetOptionsVisitor.Dispatch | lib/sass/tree/visitors/set_options.rb:18-96 | the handler for the node's kind, then the children: everything of `Trace(n)` after the node itself |
| SetOptions.SetOptionsVisitor.VisitChildren | lib/sass/tree/visitors/set_options.rb:20 | the `yield` visits every child once, in order |
| SetOptions.SetOptionsVisitor.SetOptionsOnEach | lib/sass/tree/visitors/set_options.rb:62 | each expression of the list receives the options, in order |
| SetOptions.SetOptionsVisitor.VisitDebug | lib/sass/tree/visitors/set_options.rb:18-21 | the expression, then the children |
| SetOptions.SetOptionsVisitor.VisitEach | lib/sass/tree/visitors/set_options.rb:23-26 | the list expression, then the children |
| SetOptions.SetOptionsVisitor.VisitExtend | lib/sass/tree/visitors/set_options.rb:28-31 | the selector's script fragments, then the children |
| SetOptions.SetOptionsVisitor.VisitFragments | lib/sass/tree/visitors/set_options.rb:29 | only the script fragments receive the options, in order |
| SetOptions.SetOptionsVisitor.VisitFor | lib/sass/tree/visitors/set_options.rb:33-37 | `from`, then `to`, then the children |
| SetOptions.SetOptionsVisitor.VisitArgs | lib/sass/tree/visitors/set_options.rb:40-43 | each argument's name, then its default value when present, in order |
| SetOptions.SetOptionsVisitor.VisitArg | lib/sass/tree/visitors/set_options.rb:41-42 | one argument's name, then its default value when present |
| SetOptions.SetOptionsVisitor.VisitFunction | lib/sass/tree/visitors/set_options.rb:39-45 | the arguments, then the children |
| SetOptions.SetOptionsVisitor.VisitIf | lib/sass/tree/visitors/set_options.rb:47-51 | the condition when present, then the whole `@else` node, then the children |
| SetOptions.SetOptionsVisitor.VisitMixinDef | lib/sass/tree/visitors/set_options.rb:53-59 | the arguments, then the children |
| SetOptions.SetOptionsVisitor.VisitMixin | lib/sass/tree/visitors/set_options.rb:61-65 | the positional arguments, then the keyword values, then the children |
| SetOptions.SetOptionsVisitor.VisitProp | lib/sass/tree/visitors/set_options.rb:67-71 | the name's script fragments, then the value, then the children |
| SetOptions.SetOptionsVisitor.VisitReturn | lib/sass/tree/visitors/set_options.rb:73-76 | the expression, then the children |
| SetOptions.SetOptionsVisitor.VisitRule | lib/sass/tree/visitors/set_options.rb:78-81 | the rule's script fragments, then the children |
| SetOptions.SetOptionsVisitor.VisitVariable | lib/sass/tree/visitors/set_options.rb:83-86 | the expression, then the children |
| SetOptions.SetOptionsVisitor.VisitWarn | lib/sass/tree/visitors/set_options.rb:88-91 | the expression, then the children |
| SetOptions.SetOptionsVisitor.VisitWhile | lib/sass/tree/visitors/set_options.rb:93-96 | the expression, then the children |
| SetOptions.Run | lib/sass/tree/visitors/set_options.rb:5 | `SetOptions.visit(root, options)` hands the options to exactly the reached nodes and their listed expressions |
| IfNodes.IfNode.constructor | lib/sass/tree/if_node.rb:24-28 | a new node has the given condition, no `else`, and is its own last node, so it heads a one-node chain |
| IfNodes.IfNode.AddElse | lib/sass/tree/if_node.rb:33-36 | the old last node's `else` becomes the new node, which becomes the last node; only those two fields change; a head of a chain then heads the chain extended by the new node |
| IfNodes.AppendAll | lib/sass/tree/if_node.rb:33-36 | appending new nodes one by one to a new head links them after it in insertion order, with the head's last node the last one added; only the `else` links and the head's last node change |
| IfNodes.IfNode.MarshalDump | lib/sass/tree/if_node.rb:38-40 | `marshal_dump`: no contract of its own; `MarshalLoad` and `MarshalLoadRelinked` ensure that a loaded node dumps the values it was loaded from |
| IfNodes.IfNode.Allocate | lib/sass/tree/if_node.rb:42-45 | the blank object Marshal hands to `marshal_load`: no field is set, and in particular `@last_else` is `nil` |
| IfNodes.IfNode.MarshalLoad | lib/sass/tree/if_node.rb:42-45 | the four dumped fields are restored exactly (`marshal_dump` after it answers the loaded values); the last node is taken from the restored `else` node when there is one and is otherwise left as it was |
| IfNodes.IfNode.MarshalLoadRelinked | lib/sass/tree/if_node.rb:42-45 | as `MarshalLoad`, but a node without `else` becomes its own last node |
| IfNodes.LoadBefore | lib/sass/tree/if_node.rb:42-45 | restoring one more node in front of an already restored chain extends the restored chain |
| IfNodes.RestoreChain | lib/sass/tree/if_node.rb:38-45 | loading a dumped chain restores its nodes, fields and links, and leaves every node's last node unset, so the head no longer heads its chain |
| IfNodes.RestoreChainRelinked | lib/sass/tree/if_node.rb:38-45 | with the relinked load every restored node's last node is the tail, and the head heads the restored chain |

## Left out

- File system access is abstract. `File.file?` is a test against a set of paths. `File.expand_path` is the function parameter `expand`. `File.join(dir, name)` is `dir + "/" + name` under `expand`. `Pathname#join` is not part of this model.
- `File.dirname` and `File.basename` split at the last `/`. Trailing and repeated slashes are not modelled. Neither are newlines in names, which `^` and `$` in `split` would treat specially. The separator is `/`.
- `mtime`, `try_mtime` and the `Errno::ENOENT` rescue: existence times are not modelled.
- `_make_engine`, `Sass::Engine.for_file`, `for_sha` and the `filename_to_sha` map: parsing and hashing are not modelled. `Importers.FindIn` answers the resolved file and syntax where `_find` answers an engine.
- `Importers.FindIn` requires an options object. The source accepts `nil` options only when nothing is found; on a hit it fails on the write.
- `initialize`'s `File.expand_path(root)`: an importer is built from an already expanded root.
- `to_s` and `extensions` overridden by subclasses: `EXTENSIONS` is fixed to `sass` and `scss`. `exts.invert` maps each syntax back to its extension, so the model uses the extension directly.
- `Sass::Tree::Visitors::Base` dispatch and `Node#set_options` are not part of this model. Dispatch is a `match` on the node kind. Handing out the options appends the object's identity to the visitor's `log`.
- How an expression passes the options on to its own sub-expressions is not part of this model. Each expression is one object.
- `Memory#store`, the parent class of `PureMemory`, is not part of this model. `CacheStores.PureMemory.Store` gives it a plain overwrite behaviour.
- Concurrent use of the shared caches is not modelled.
- Ruby Marshal's byte format is not modelled. A dump is the four-field `Dump` value, and loading runs `marshal_load` on freshly allocated nodes, the `else` node first.
- `IfNodes.IfNode.AddElse` requires a last node to exist. The source fails on `nil.else=` when `@last_else` is unset.

## Findings

| source | as written | input that shows it | evidently intended | confidence | as-written member | corrected member |
|---|---|---|---|---|---|---|
| lib/sass/tree/if_node.rb:42-45 | `marshal_load` copies `@last_else` from the restored `else` node and sets nothing when there is none. The tail of a chain is restored first and gets no last node, and each earlier node copies that unset value. | Dump and load `@if $a {} @else {}`: both restored nodes have `@last_else == nil`, so `add_else` on the restored head fails | a node without `else` is its own last node, so the restored head's last node is the tail, as the head's is after parsing; the relinked load gives every restored node the tail, while after parsing a non-head node keeps itself, a value `add_else` never reads | medium: `add_else` is called only during parsing; not executed | IfNodes.RestoreChain | IfNodes.RestoreChainRelinked |
