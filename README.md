# Build-script support of cargo's compiler driver, in Dafny

This project models `src/cargo/ops/cargo_rustc/custom_build.rs`, the part of
cargo that deals with package build scripts (`build.rs`). It covers three
pieces:

- **The output protocol.** A build script reports to cargo by printing lines.
  `BuildOutput::parse` turns the text into a `BuildOutput` record:
  - library search paths, libraries to link and `--cfg` flags;
  - metadata as ordered `(key, value)` pairs.

  `BuildOutput::parse_rustc_flags` reads the `-l NAME` / `-L PATH` pairs of a
  `cargo:rustc-flags=` line. Module `BuildOutputs` in `build_output.dfy` models
  both. The string primitives they rely on (`lines`, `splitn(2, _)`,
  `trim_right`, `trim`, whitespace splitting) are in module `Text`
  (`text.dfy`), written out as functions; `Lines` splits at `'\n'` only
  (see "## Left out").
- **The registry of outputs.** `BuildState` maps `(package id, kind)` to the
  `BuildOutput` recorded for that package compiled for the host or for the
  target. `BuildState::new` seeds it from the configuration's overrides.
  `BuildState::insert` records a script's output under the slots its
  requirement covers. Both are in module `BuildStates` (`build_state.dfy`).
  `BuildState` is a class whose `outputs` field the methods update.
- **The script-dependency map.** `build_map` and its memoised recursive
  `build` compute, for every unit and kind, which packages' build-script
  outputs that unit must see. These are the packages reached along linkable
  dependency edges that keep the kind. Every list is then sorted and
  deduplicated. This is module `ScriptDeps` (`build_map.dfy`).

Module `Kinds` (`kinds.dfy`) holds the shared identities. `Wrappers`
(`wrappers.dfy`) holds `Option` and `Result`.

The operations follow the source's own form:
- `Parse` and `ParseRustcFlags` are loops that push onto lists. Each is proved
  equal to a recursive function (`ParseText`, `RustcFlags`), and the
  protocol's promises are lemmas about those functions.
- The body of `parse`'s line loop is the method `ParseLine`. It returns what
  the line contributes, and the loop appends that to its four lists; the
  source pushes onto the lists inside the `match` itself.
- `Build` threads the memo table through the recursion. It does the lookup
  and the store; the loop over the dependencies between them is the method
  `BuildDeps`. Both are proved against the function `ScriptsOf`, and both
  keep the table's keys closed under the recursion.
- `ScriptsOf` in turn has exactly the members that an independent,
  path-based definition, `Visible`, describes.

Every value of a `cargo:KEY=VALUE` line is right-trimmed before it is
dispatched on its key, not only a metadata value
(`src/cargo/ops/cargo_rustc/custom_build.rs:281`).

## Model

All source paths are relative to the repository root.

| member | source | states |
|---|---|---|
| Text.Lines | src/cargo/ops/cargo_rustc/custom_build.rs:265 | no line contains `'\n'` |
| Text.JoinLinesOfLines | src/cargo/ops/cargo_rustc/custom_build.rs:265 | the lines are the pieces of the input: printing them one per line gives the input back, plus a final `'\n'` when the input did not end in one |
| Text.LinesOfJoinLines | src/cargo/ops/cargo_rustc/custom_build.rs:265 | splitting text printed one line per entry gives back exactly those lines, when none holds a newline |
| Text.SplitOnceSpec | src/cargo/ops/cargo_rustc/custom_build.rs:266-281 | `splitn(2, c)` (`SplitOnce`): no second part exactly when `c` does not occur, and then the first part is the whole text; otherwise the text is first part + `c` + second part, and the first part has no `c` |
| Text.SplitOnceJoin | src/cargo/ops/cargo_rustc/custom_build.rs:266-281 | splitting `head + c + tail` at `c` gives back `head` and `tail` whenever `head` has no `c`, so a value may itself contain `=` |
| Text.TrimEnd | src/cargo/ops/cargo_rustc/custom_build.rs:281 | `trim_right`: the result is a prefix of the text and does not end in whitespace |
| Text.TrimEndRemovesWhitespace | src/cargo/ops/cargo_rustc/custom_build.rs:281 | `trim_right` removes whitespace only |
| Text.TrimStart | src/cargo/ops/cargo_rustc/custom_build.rs:312 | the result is a suffix of the text and does not start with whitespace |
| Text.TrimStartRemovesWhitespace | src/cargo/ops/cargo_rustc/custom_build.rs:312 | trimming at the front removes whitespace only |
| Text.Trim | src/cargo/ops/cargo_rustc/custom_build.rs:312 | `trim`: the result neither starts nor ends with whitespace |
| Text.TrimRemovesWhitespace | src/cargo/ops/cargo_rustc/custom_build.rs:312 | `trim` removes whitespace only, and only at the ends: the text is blank text, the result, and blank text |
| Text.Tokens | src/cargo/ops/cargo_rustc/custom_build.rs:313-314 | splitting on whitespace and dropping blank pieces yields only non-empty, whitespace-free words |
| Text.TokensOfJoinWords | src/cargo/ops/cargo_rustc/custom_build.rs:313-314 | words joined by single spaces split back into exactly those words, in order |
| Text.TokensAfterWhitespace | src/cargo/ops/cargo_rustc/custom_build.rs:313-314 | any run of whitespace in front of a text adds no token |
| Text.TokensBeforeWhitespace | src/cargo/ops/cargo_rustc/custom_build.rs:313-314 | any run of whitespace after a text adds no token |
| Text.TokensOfWordSep | src/cargo/ops/cargo_rustc/custom_build.rs:313-314 | a word followed by any non-empty run of whitespace is the first token, and the tokens of the rest follow |
| Text.TokensOfTrim | src/cargo/ops/cargo_rustc/custom_build.rs:312-314 | trimming a text does not change its tokens |
| BuildOutputs.MessageQuotes | src/cargo/ops/cargo_rustc/custom_build.rs:283-284 | every error message ends with the script's name and the offending text in backquotes, and its first character tells the three kinds apart (also lines 322-324 and 328-330) |
| BuildOutputs.MessageIdentifies | src/cargo/ops/cargo_rustc/custom_build.rs:322-330 | for one script, two errors with the same message are the same error: the same kind and the same quoted text |
| BuildOutputs.ParseRustcFlags | src/cargo/ops/cargo_rustc/custom_build.rs:310-341 | the token loop of `parse_rustc_flags` computes `RustcFlags(value, whence)` |
| BuildOutputs.FlagsVerdict | src/cargo/ops/cargo_rustc/custom_build.rs:316-332 | the flag loop succeeds exactly when every even position holds `-l`/`-L` and the count is even (so empty input succeeds); it reports a missing value exactly when the flags are right but the count is odd; it reports a foreign flag exactly when some even position is not `-l`/`-L` |
| BuildOutputs.FlagsFromFlagTokens | src/cargo/ops/cargo_rustc/custom_build.rs:333-336 | reading `-l X` / `-L Y` pairs appends each X to the links and each Y to the paths, in input order |
| BuildOutputs.FlagTokensOfPairs | src/cargo/ops/cargo_rustc/custom_build.rs:316-340 | every accepted token list is the spelling of the flag pairs it is read as |
| BuildOutputs.RustcFlagsOk | src/cargo/ops/cargo_rustc/custom_build.rs:310-341 | a successful parse means the trimmed value's tokens are flag pairs; the result is their `-L` arguments in order and their `-l` arguments in order |
| BuildOutputs.RustcFlagsReadsTokens | src/cargo/ops/cargo_rustc/custom_build.rs:312-314 | `parse_rustc_flags` reads the tokens of the untrimmed value; trimming only changes the text an error quotes |
| BuildOutputs.FlagsFromQuoteIrrelevant | src/cargo/ops/cargo_rustc/custom_build.rs:316-340 | the token loop's success, its result and its kind of error do not depend on the text the error quotes |
| BuildOutputs.RustcFlagsSpacing | src/cargo/ops/cargo_rustc/custom_build.rs:310-341 | two values with the same tokens, however spaced with spaces, tabs or runs of them, parse alike: both succeed with the same paths and libraries, or both fail with the same kind of error |
| BuildOutputs.RustcFlagsRoundTrip | src/cargo/ops/cargo_rustc/custom_build.rs:310-341 | flag pairs with one-word arguments, printed space-separated, parse back to their paths and libraries |
| BuildOutputs.FlagsErrorWhence | src/cargo/ops/cargo_rustc/custom_build.rs:322-330 | every error of the flag loop names the build script it came from |
| BuildOutputs.RustcFlagsErrorWhence | src/cargo/ops/cargo_rustc/custom_build.rs:322-330 | every error of `parse_rustc_flags` names the build script it came from |
| BuildOutputs.RustcFlagsDirective | src/cargo/ops/cargo_rustc/custom_build.rs:288-294 | a `cargo:rustc-flags=` line that spells out flag pairs adds their paths to `library_paths` and their libraries to `library_links` |
| BuildOutputs.Parse | src/cargo/ops/cargo_rustc/custom_build.rs:258-308 | the line loop of `parse` computes `ParseText(input, pkg_name)` |
| BuildOutputs.ParseLine | src/cargo/ops/cargo_rustc/custom_build.rs:266-299 | the body of the line loop (split at `:`, split at `=`, trim, dispatch on the key) computes what `LineOutput` says the line contributes, or its error |
| BuildOutputs.ParseFromFold | src/cargo/ops/cargo_rustc/custom_build.rs:265-300 | the line loop is a fold over the lines' own results: it stops at the first error and otherwise appends every line's contribution, in order |
| BuildOutputs.ClassifySkipped | src/cargo/ops/cargo_rustc/custom_build.rs:265-274 | a line is skipped exactly when it does not start with `cargo:`; this covers a first part other than `cargo` and a line with no `:` |
| BuildOutputs.CargoPrefixSplit | src/cargo/ops/cargo_rustc/custom_build.rs:266-270 | a line starting with `cargo:` splits at that first `:` into `cargo` and the rest |
| BuildOutputs.CargoSplitPrefix | src/cargo/ops/cargo_rustc/custom_build.rs:266-274 | a line whose first `:` follows exactly `cargo` starts with `cargo:` |
| BuildOutputs.ClassifyMalformed | src/cargo/ops/cargo_rustc/custom_build.rs:277-285 | a line is rejected as wrong output exactly when it starts with `cargo:` and no `=` follows |
| BuildOutputs.ClassifyDirective | src/cargo/ops/cargo_rustc/custom_build.rs:277-281 | for `cargo:KEY=VALUE` with no `=` in KEY, the key is KEY untrimmed and the value is VALUE without its trailing whitespace |
| BuildOutputs.DirectiveOutput | src/cargo/ops/cargo_rustc/custom_build.rs:287-299 | `rustc-link-search`, `rustc-link-lib` and `rustc-cfg` lines add their value to the paths, links and cfgs respectively; any other non-reserved key adds the pair to the metadata |
| BuildOutputs.ParseFromConcat | src/cargo/ops/cargo_rustc/custom_build.rs:265-300 | parsing `a + b` is parsing `a`, then continuing with `b` from that record, unless `a` already failed |
| BuildOutputs.SkippedLineIgnored | src/cargo/ops/cargo_rustc/custom_build.rs:265-274 | inserting a line that does not start with `cargo:` anywhere in the input changes neither the result nor the error |
| BuildOutputs.FlagsLineOutput | src/cargo/ops/cargo_rustc/custom_build.rs:288-294 | a `rustc-flags` line whose value parses adds exactly the paths and libraries read from it |
| BuildOutputs.FlagsLineError | src/cargo/ops/cargo_rustc/custom_build.rs:288-291 | a `rustc-flags` line whose value fails fails with that same error |
| BuildOutputs.ParseErrorIsFirst | src/cargo/ops/cargo_rustc/custom_build.rs:265-300 | parsing fails exactly when some line fails on its own, and then with that line's error where all lines before it succeed; lines after it are not looked at |
| BuildOutputs.LineErrorWhence | src/cargo/ops/cargo_rustc/custom_build.rs:263-285 | every error a line raises names the build script it came from |
| BuildOutputs.ParseErrorWhence | src/cargo/ops/cargo_rustc/custom_build.rs:263-285 | every error `parse` returns names the script as "build script of `pkg_name`" |
| BuildOutputs.FoldErrorIsFirst | src/cargo/ops/cargo_rustc/custom_build.rs:265-300 | over any line results, the loop fails exactly when some result is an error, and then with the first one |
| BuildOutputs.ListDirectiveOutput | src/cargo/ops/cargo_rustc/custom_build.rs:295-297 | a printable `rustc-link-search`, `rustc-link-lib` or `rustc-cfg` line adds its value to that one list |
| BuildOutputs.DirectiveLinesParse | src/cargo/ops/cargo_rustc/custom_build.rs:295-297 | a run of list-valued directives appends their values to the one list, in order and without deduplication |
| BuildOutputs.MetadataLinesParse | src/cargo/ops/cargo_rustc/custom_build.rs:298 | a run of metadata directives appends their pairs to the metadata, in order and without deduplication |
| BuildOutputs.RenderParse | src/cargo/ops/cargo_rustc/custom_build.rs:258-308 | the directive lines of a printable record parse back to that record |
| BuildOutputs.RenderRoundTrip | src/cargo/ops/cargo_rustc/custom_build.rs:258-308 | a printable record, printed by a script one directive per line, is parsed back to the same record |
| Kinds.Flip | src/cargo/ops/cargo_rustc/custom_build.rs:407-413 | flipping gives the other kind |
| BuildStates.LinksSourcesNames | src/cargo/ops/cargo_rustc/custom_build.rs:215-224 | a `links` name is a key of `sources` exactly when some package in the set declares it |
| BuildStates.LinksSourcesLastWins | src/cargo/ops/cargo_rustc/custom_build.rs:215-224 | a name maps to the id of the last package in the set that declares it |
| BuildStates.AddOverrides | src/cargo/ops/cargo_rustc/custom_build.rs:226-235 | the overrides of one configuration are added in any order: a name known to `sources` lands in that package's slot for this kind, overwriting what the slot held, so a slot of this kind holds a known override of its package whenever one names it and keeps its old value only when none does; unknown names are dropped and slots of the other kind are untouched |
| BuildStates.BuildState.constructor | src/cargo/ops/cargo_rustc/custom_build.rs:213-236 | every entry is an override whose name is the `links` name of that package: a host override in the `Host` slot, a target override in the `Target` slot; every such override has an entry |
| BuildStates.Inserted | src/cargo/ops/cargo_rustc/custom_build.rs:238-252 | after recording, exactly the package's slots for the kinds the requirement includes hold the output, and every other entry is unchanged |
| BuildStates.BuildState.Insert | src/cargo/ops/cargo_rustc/custom_build.rs:238-252 | `insert` leaves the registry equal to `Inserted(old registry, id, req, output)` |
| BuildStates.InsertedIdempotent | src/cargo/ops/cargo_rustc/custom_build.rs:238-252 | recording the same output twice is the same as recording it once |
| BuildStates.InsertedBoth | src/cargo/ops/cargo_rustc/custom_build.rs:245-250 | a `PluginAndTarget` output lands in both slots with equal records, as a `Plugin` record followed by a `Target` record would |
| BuildStates.RecordOutput | src/cargo/ops/cargo_rustc/custom_build.rs:160-168 | the dirty work (and, identically, the fresh work at lines 203-204) parses the script output and records it with `insert`; a parse error is returned and leaves the registry unchanged |
| ScriptDeps.DepKind | src/cargo/ops/cargo_rustc/custom_build.rs:405-413 | the recursion keeps the kind exactly when the edge's requirement includes it, and flips it otherwise |
| ScriptDeps.Build | src/cargo/ops/cargo_rustc/custom_build.rs:374-427 | `build` returns the list `ScriptsOf` gives for `(unit, kind.for_target(target))` and stores it under that key. If the key was already memoised, the table comes back unchanged. Every stored entry stays correct, no key is dropped, new entries lie no higher in the graph than the unit, and the stored keys stay closed under the recursion: every key's dependency keys are stored too |
| ScriptDeps.BuildDeps | src/cargo/ops/cargo_rustc/custom_build.rs:396-424 | the loop over the dependencies returns the list `ScriptsOf` gives for the unit's key and leaves the key of every dependency stored; what it stores is correct, closed, and of lower rank than the unit |
| ScriptDeps.CollectStep | src/cargo/ops/cargo_rustc/custom_build.rs:404-421 | one turn of the loop: the list grows by the dependency's package (if it has a build script) and its own list exactly when its target is linkable and the edge keeps the kind |
| ScriptDeps.CollectContains | src/cargo/ops/cargo_rustc/custom_build.rs:404-421 | a package is in a unit's list exactly when one of its dependencies contributes it |
| ScriptDeps.ContributionContains | src/cargo/ops/cargo_rustc/custom_build.rs:416-421 | a dependency contributes only when its target is linkable and its requirement includes the current kind. It then contributes its own package (if it has a build script) and everything in its own list |
| ScriptDeps.ScriptsAreVisible | src/cargo/ops/cargo_rustc/custom_build.rs:396-427 | every package in a list has a build script and is reached from the key by a chain of link steps |
| ScriptDeps.VisibleAreScripts | src/cargo/ops/cargo_rustc/custom_build.rs:396-427 | every package with a build script that is reached by a chain of link steps is in the list |
| ScriptDeps.ScriptsOfVisible | src/cargo/ops/cargo_rustc/custom_build.rs:396-427 | the list for a key holds exactly the packages with a build script that are reachable along linkable, kind-preserving edges |
| ScriptDeps.InsertSorted | src/cargo/ops/cargo_rustc/custom_build.rs:365 | inserting into a sorted list keeps it sorted and adds exactly the one element |
| ScriptDeps.SortedInsertAt | src/cargo/ops/cargo_rustc/custom_build.rs:365 | an element placed after all elements not above it and before all above it keeps the list sorted |
| ScriptDeps.Sort | src/cargo/ops/cargo_rustc/custom_build.rs:365 | `slot.sort()` yields a sorted permutation of the slot |
| ScriptDeps.Dedup | src/cargo/ops/cargo_rustc/custom_build.rs:366 | `dedup` keeps the same elements, never lengthens, keeps the last element, and turns a sorted list into a strictly ascending one |
| ScriptDeps.DedupSlot | src/cargo/ops/cargo_rustc/custom_build.rs:366 | the one-pass loop computes `Dedup` |
| ScriptDeps.DedupStep | src/cargo/ops/cargo_rustc/custom_build.rs:366 | one more element extends the deduplicated list by it exactly when it differs from the element before it |
| ScriptDeps.StrictlySortedUnique | src/cargo/ops/cargo_rustc/custom_build.rs:363-367 | two strictly ascending lists with the same elements are equal, so a sorted slot does not depend on the order `build` collected it in |
| ScriptDeps.SortSlots | src/cargo/ops/cargo_rustc/custom_build.rs:363-368 | every slot, visited in any order, ends strictly ascending with the same elements as before |
| ScriptDeps.BuildMap | src/cargo/ops/cargo_rustc/custom_build.rs:353-428 | every requested unit has its target-kind and host-kind entries, and with every key the map holds the keys of all its dependencies, so every key the recursion reaches from the requested units has an entry. Every entry is strictly ascending and holds exactly the packages of `ScriptsOf` for its key, which are the packages visible from it |

## Left out

- Everything else in `prepare` is I/O and deferred work. Not modelled:
  - directories;
  - process construction and spawning;
  - the environment variables given to the script;
  - UTF-8 decoding of its output;
  - writing and reading the `output` cache file;
  - fingerprints;
  - the `Work` closures and the thread pool that runs them.

  Only their common tail, parse then insert, is modelled (`RecordOutput`).
- The `Mutex` around the registry is not modelled. The registry is used sequentially.
- Error messages and the `PathBuf` type are not modelled in full:
  - errors are a datatype carrying the script name and the quoted text, and `Message` gives the exact text the source formats;
  - paths are kept as strings.
- The graph queries are not modelled from cargo's own definitions, which are not part of this model:
  - `dep_targets`, `get_requirement`, `linkable`, `has_custom_build` and `Kind::for_target` are arbitrary functions in a `Context`;
  - the dependency graph's acyclicity, which the resolver guarantees, is stated by a `rank` that every edge decreases.
- `Platform::includes` is also defined outside this file. It is given its evident meaning, the slots `insert` writes.
- `PackageId`s are natural numbers, and their order stands for `PackageId`'s own ordering. So the sort order is not cargo's name/version/source order.
- `build_map` returns its map instead of storing it in `cx.build_scripts`.
- The `debug!` logging is not modelled.
- BuildStates.BuildState.constructor: when two override names map to the same package id, the model says only that the slot holds one of those overrides. The source's `HashMap` iteration order decides which, and it is not specified.
- BuildStates.AddOverrides: for the same reason, a slot that a known override names is said to hold one of that package's known overrides, not a particular one.
- Text.Lines: splits at `'\n'` only; a `'\r'` before a `'\n'` stays in the line. The toolchain that `custom_build.rs` is built with is not fixed by the file, and later versions of `str::lines` also drop that `'\r'`. The only difference this makes is the text that a `WrongOutput` error quotes for a malformed line ending in `'\r'`: a value loses its `'\r'` to `trim_right` (line 281) either way.
- Kinds.Flip: states only that the result differs from its argument. With two kinds, that fixes the result.
- The third arm of the flag `match` in `parse_rustc_flags` cannot be reached once a flag is checked. The model has no such branch.
