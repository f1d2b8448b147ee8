# OpenContext runtime: a verified model

This project models, in Dafny 4.11, the parts of the OpenContext core that carry
state or algebra hard enough to get wrong, and proves what they promise.

- **Layered configuration.** Partial configuration trees are folded with a recursive
  merge while a record notes which layer set every dotted name. `ConfigTree` holds the
  merge and its laws, `ConfigLeaves` the flattening to dotted names and the rebuilding
  from them, `Resolver` the resolve loop with its record and the profile selection,
  `Explain` the conflict report and the masking, `Sync` the validated patching of the
  project file, `SharedDicts` the same patch on a document with YAML aliases.
- **The MCP stdio server.** `Framing` cuts the input into lines. `Protocol` describes
  the conversation as an explicit stack machine and proves what every run of that machine keeps;
  `McpServer` is the recursive server itself (dispatcher, tool calls, sampling calls that serve
  interleaved requests while they wait), each method proved to be a run of the machine.
  `SourceLines`, `Rename` and `SymbolTools` are the symbol-edit tools.
- **Backups.** `Backups` is the project store with deduplication, pinning and pruning;
  `ConfigBackups` the user-configuration store with its clean-up.
- **Plugins.** `PluginInstall` is the copy-aside, extract, stamp and roll-back
  transaction with the tamper check at load; `Versions` the version order, and `Updates`
  the checks that drive installations by it.

`Options`, `Lists` and `Text` hold the option type, the filtering of sequences, and the
splitting, joining and ordering of text that the modules share.

`dafny verify dfyconfig.toml` checks everything.

## How to read the model

- A Python dict is a `map`, so equality of trees is dict equality. Where the source iterates
  over a dict or a set, the method picks the next key arbitrarily (or is given the visiting order), so
  each contract holds for every order.
- Exceptions are explicit. A message the dispatcher cannot take apart (not an object, a
  method that is not text, parameters that are not a mapping where they are looked into, a
  tool name that is not text, which fits no result) makes it raise; the exception travels to the enclosing tool
  handler, if there is one, or ends the main loop. The machine follows it with its
  `raising` flag. Response discipline is therefore stated exactly: a message gets one
  answer if and only if it is neither a notification nor one of these. A line on which
  the JSON decoder raises anything but its own error does the same to whoever reads it,
  and the value null reads as the end of the input.
- Tool handlers are parameters: a function from the message, the number of the request
  and the outcomes of its sampling calls so far to the next action, with some bound on
  the number of sampling calls. The number of the request lets a handler depend on
  whatever happened before. A handler may look the registered sampler up again before a
  sampling call or go on with the one it found, so an `initialize` that comes in between
  can take the sampler away from the one kind and not from the other.
- The clock, the host's silence, file-system faults, the file format, the schema, hashing and
  `int()` are parameters too. Where a theorem needs it, printing is assumed to be undone
  by parsing and hashing to be collision-free, as a `requires` on the member concerned.

## Where the code does less than its documentation says

- `_deep_merge` is not associative; `ConfigTree.OverlayAssociative` gives the exact condition.
- `_join_lines` is called the inverse of `_split_lines`; it is, except on the lone
  newline (`SourceLines.JoinInvertsSplit`).
- Fill-only patching lets "the explicit project value win" at the mapped path only: scalars are
  all kept if and only if nothing but dicts stands above it (`Sync.FillOnlyKeepsScalars`;
  a call that replaces one: `Sync.FillOnlyReplacesScalarAbove`).
- A patch of one path changes others if YAML aliases share the dict it ends in;
  `SharedDicts.DocumentWrite` gives the exact condition.
- Backups are said to be deduplicated when identical, but the hash sees only the bytes one
  file after another: `Backups.DroppedExactly` and `Backups.LostExactly` say exactly what is dropped. A create that reuses
  a name, as every installation does, overwrites the archive of the earlier entry, and its
  bytes are dropped from then on (`Backups.ReusedNameLosesBytes`, `Backups.PreInstallLosesBytes`;
  exactly what each archive holds: `Backups.RunTruthful`, `Backups.RunOneToOne`). The "5
  most recent" are kept in a stable order, so on equal timestamps the newest is the one
  pruned (`Backups.NewBackupKept`, `Backups.SixthInOneSecondLost`).
- Rolling back a plugin install restores the old tree unless the fault struck while the
  copy was made or removed (`PluginInstall.PluginDirs.InstallFromUrl`, `PluginInstall.PartialCopyRestored`);
  a copy left over from before is restored by a mere download failure; a manifest write
  that fails during stamping is reported as an installation; and an installed manifest
  that is no object makes the whole call raise (`PluginInstall.PluginDirs.InstallFromUrl`).
- So an update check can lower the installed version (`Updates.LowersExactly`, with a leftover copy
  `Updates.LeftoverComesBack`), and an archive with an unreadable manifest is reported as an
  update although no version is recorded (`Updates.FinishedVersion`).
- The main loop takes the line `null` for the end of the input (`Protocol.WholeRun`,
  `McpServer.Server.Serve`).
- A malformed request that arrives while a tool waits for a sampling reply is not answered and makes that
  sampling call raise (`Protocol.ExactlyOneAnswer`, `McpServer.Server.Consider`).

## Model

| member | source | states |
|---|---|---|
| ConfigTree.DeepMerge | packages/opencontext_core/opencontext_core/config.py:1974-1981 | the loop over the override's items, in any order, computes the tree overlay: dicts merge key by key, anything else is replaced |
| ConfigTree.GetOverlay | packages/opencontext_core/opencontext_core/config.py:1974-1981 | the value at every key path after a merge, from the values at that path before it |
| ConfigTree.OverlayIdentity | packages/opencontext_core/opencontext_core/config.py:1974-1981 | the empty configuration is a two-sided identity of the merge |
| ConfigTree.OverlayTwice | packages/opencontext_core/opencontext_core/config.py:1974-1981 | merging the same override again changes nothing |
| ConfigTree.OverlayAbsorbs | packages/opencontext_core/opencontext_core/config.py:1974-1981 | merging y over x gives exactly y if and only if x already sits inside y |
| ConfigTree.OverlayAssociative | packages/opencontext_core/opencontext_core/config.py:1974-1981 | the merge may be regrouped if and only if at every path with dict, non-dict, dict in the three trees the third absorbs the first |
| ConfigTree.OverlayNotAssociative | packages/opencontext_core/opencontext_core/config.py:1974-1981 | three concrete trees on which the grouping is visible |
| ConfigLeaves.DottedLeaves | packages/opencontext_core/opencontext_core/config_resolver.py:111-123 | the list holds exactly the pairs of a leaf's dotted name and its value, each leaf (non-dict value or empty dict) once, whatever the order of the items |
| ConfigLeaves.DottedInjective | packages/opencontext_core/opencontext_core/config_resolver.py:111-123 | with dot-free keys two leaves of any two trees with the same dotted name are at the same path |
| ConfigLeaves.Descend | packages/opencontext_core/opencontext_core/config_resolver.py:126-135 | the walk down the keys before the last stands where the write belongs: storing there and hanging the dicts back is the path write, and the last key is there just when the path is present |
| ConfigLeaves.SetDotted | packages/opencontext_core/opencontext_core/config_resolver.py:126-135 | splitting at dots, walking down and storing is the write at the split path |
| ConfigLeaves.GetAtOrBelow | packages/opencontext_core/opencontext_core/config_resolver.py:126-135 | after a write the path, and all below it, reads as the written value |
| ConfigLeaves.GetAbove | packages/opencontext_core/opencontext_core/config_resolver.py:126-135 | every path strictly above a write is a non-empty dict afterwards |
| ConfigLeaves.GetAside | packages/opencontext_core/opencontext_core/config_resolver.py:126-135 | a write leaves every path alone that is neither above nor below it |
| ConfigLeaves.RebuildLeaves | packages/opencontext_core/opencontext_core/config_resolver.py:126-143 | folding the writes of any prefix-free list of terminal values gives a tree whose leaves are exactly that list |
| ConfigLeaves.LeavesDetermine | packages/opencontext_core/opencontext_core/config_resolver.py:111-123 | two configurations with the same leaves are equal |
| ConfigLeaves.FlattenRebuild | packages/opencontext_core/opencontext_core/config_resolver.py:111-135 | writing the leaves of a tree into an empty one, in any order and with any repetition, rebuilds the tree |
| ConfigLeaves.FlattenRebuildDotted | packages/opencontext_core/opencontext_core/config_resolver.py:111-135 | the same through dotted names, for every tree with dot-free keys |
| ConfigLeaves.Overrides | packages/opencontext_core/opencontext_core/config_resolver.py:138-143 | for any prefix-free variable table the loop yields a layer whose leaves are exactly the variables set and not empty |
| ConfigLeaves.EnvOverrides | packages/opencontext_core/opencontext_core/config_resolver.py:63-70 | the same for the resolver's own table |
| ConfigLeaves.EnvMapPrefixFree | packages/opencontext_core/opencontext_core/config_resolver.py:63-70 | no mapped path leads through another and no key holds a dot |
| ConfigLeaves.EnvMapInFull | packages/opencontext_core/opencontext_core/config_resolver.py:63-70 | the six variables and the dotted keys they set, in full |
| Text.BelowByFirstDifference | packages/opencontext_core/opencontext_core/state.py:269 | one name sorts before another if it has the smaller character in the first place where they differ, or ends there |
| Text.DecimalStandsFor | packages/opencontext_core/opencontext_core/mcp_stdio.py:2383-2384 | the decimal text of a number has digits only, no leading zero, and stands for it |
| Resolver.LeafCameFrom | packages/opencontext_core/opencontext_core/config_resolver.py:277-287 | over key paths: the last layer with a leaf holds exactly the merged value there |
| Resolver.ProvenanceSound | packages/opencontext_core/opencontext_core/config_resolver.py:277-287 | over dotted names, for dot-free layers: every leaf of the merged tree has a last layer with its dotted name, and that layer's own tree holds exactly the merged value at that path |
| Resolver.RecordSound | packages/opencontext_core/opencontext_core/config_resolver.py:277-287 | provenance soundness: for dot-free layers every leaf of the merged tree is in the record by dotted name, and the tree of the layer recorded there holds exactly the merged value at that path |
| Resolver.MergedScalar | packages/opencontext_core/opencontext_core/config_resolver.py:277-287 | a scalar stands in the merged tree at a path if and only if some layer holds it there and no later layer touches that path |
| Resolver.EntryLive | packages/opencontext_core/opencontext_core/config_resolver.py:277-287 | a recorded name whose layer holds a scalar is still a leaf of the merged tree if and only if no later layer touches its path |
| Resolver.Provenance.Record | packages/opencontext_core/opencontext_core/config_resolver.py:281-286 | one layer's round keeps the record describing the layers seen: last layer per key and per dotted name, all definers in order |
| Resolver.Provenance.RecordLeaves | packages/opencontext_core/opencontext_core/config_resolver.py:283-286 | claiming the layer's dotted leaves one by one keeps winner and definers of every dotted name right |
| Resolver.MergeLayers | packages/opencontext_core/opencontext_core/config_resolver.py:276-287 | the whole loop returns the fold of the merge over the layers, with a record that describes them, empty layers skipped |
| Resolver.Resolve | packages/opencontext_core/opencontext_core/config_resolver.py:204-290 | the highest layer that names a profile chooses it; the result is defaults, global, organisation, project, the chosen profile's overlay if it is built in, environment, command line, run and policy merged in this order, and at every path a scalar stands exactly if one of them holds it and none above touches the path; each key and dotted name is credited to the highest layer that has it; with dot-free inputs every leaf is credited to a layer that holds exactly its value there, and chosen name and layer agree with the merge exactly when the highest profile entry is usable |
| Resolver.PickedIsChosen | packages/opencontext_core/opencontext_core/config_resolver.py:176-188 | the scan picks the name from policy, run, command line, environment, project, organisation or global, the first of these in that order that holds a non-empty text, and otherwise balanced from the defaults |
| Resolver.OrderedStacked | packages/opencontext_core/opencontext_core/config_resolver.py:250-287 | the fold over the layers is the nine merges in their order, eight if the profile is not built in |
| Resolver.StackedStands | packages/opencontext_core/opencontext_core/config_resolver.py:262-287 | at every path a scalar stands in the merged tree exactly if some layer holds it there and every one above leaves the path alone |
| Resolver.OverlayDecides | packages/opencontext_core/opencontext_core/config_resolver.py:250-287 | what the overlay of a built-in profile holds stands in the result, whatever is below, unless environment, command line, run or policy touch its path |
| Resolver.NamesCredited | packages/opencontext_core/opencontext_core/config_resolver.py:281-286 | every dotted name is credited to the highest layer with a leaf of that name, the overlay being named profile, and is missing exactly if no layer has one |
| Resolver.KeysCredited | packages/opencontext_core/opencontext_core/config_resolver.py:281-282 | the same for top-level keys |
| Resolver.PickProfile | packages/opencontext_core/opencontext_core/config_resolver.py:176-188 | the highest layer other than the profile layer with a non-empty string wins; otherwise the default profile from the defaults |
| Resolver.SelectionAgrees | packages/opencontext_core/opencontext_core/config_resolver.py:243-287 | the chosen name is the merged tree's profile, and the layer it is credited to is the one recorded for that key, each if and only if the highest profile entry is a non-empty string or there is none |
| Resolver.TopMerged | packages/opencontext_core/opencontext_core/config_resolver.py:277-287 | a top-level key of the merged tree is a scalar exactly when its last layer holds one, and then the same |
| Explain.ExplicitLayers | packages/opencontext_core/opencontext_core/config_explain.py:226-229 | the inner loop yields the definers of a name other than the defaults, in order of first occurrence |
| Explain.ConflictOf | packages/opencontext_core/opencontext_core/config_explain.py:224-231 | one name is reported exactly when contested, and then accurately |
| Explain.Conflicts | packages/opencontext_core/opencontext_core/config_explain.py:224-232 | the report, in ascending order of keys, holds a name, once, if and only if two layers other than the defaults define it; losers precede the winner, and the winner is the layer recorded for that name |
| Explain.SortByKeySorts | packages/opencontext_core/opencontext_core/config_explain.py:232 | sorting a report without repeated keys puts the keys in ascending order and keeps its members |
| Explain.SecretByKeyAlone | packages/opencontext_core/opencontext_core/config_explain.py:41-43 | the verdict on a dotted name does not depend on the path above its last key |
| Explain.CredentialPattern | packages/opencontext_core/opencontext_core/config_explain.py:33-43 | a segment is a credential's if and only if, in small letters, it holds secret, password, passwd or credential, or api, access or private followed by key with nothing, a dash or an underscore between, or ends in token or key, at the start or after a dash or an underscore, a final newline aside |
| Explain.SecretKeyPattern | packages/opencontext_core/opencontext_core/config_explain.py:41-43 | for keys without dots the verdict is exactly that pattern's |
| Explain.FoldedLetter | packages/opencontext_core/opencontext_core/config_explain.py:35-38 | which characters count as a small letter when case is ignored |
| Explain.MaskTree | packages/opencontext_core/opencontext_core/config_explain.py:108-119 | the recursion with its growing prefix computes the tree masked at exactly the keys the credential pattern names, whatever stands above them |
| Explain.MaskingNonInterference | packages/opencontext_core/opencontext_core/config_explain.py:108-119 | whichever keys are secret, two trees mask to the same if and only if they differ at most below secret keys |
| Explain.MaskingIdempotent | packages/opencontext_core/opencontext_core/config_explain.py:108-119 | masking twice is masking once |
| Explain.ClearPath | packages/opencontext_core/opencontext_core/config_explain.py:108-119 | with no secret key on its path a leaf is unchanged, and any other value is there, itself masked |
| Explain.SecretPath | packages/opencontext_core/opencontext_core/config_explain.py:108-119 | at a secret key only the mask is left, and nothing below it |
| Sync.ConfigFile.SetYamlKey | packages/opencontext_core/opencontext_core/config_sync.py:29-68 | the call returns true exactly when the patch applies; otherwise the text is what it was; if it does, the text is the printed mapping with exactly that path written, it loads, and a fill-only patch has kept every scalar if and only if nothing but dicts stood above the path |
| Sync.PatchEffect | packages/opencontext_core/opencontext_core/config_sync.py:47-64 | after a patch the value is at the path and every leaf not on, above or below it is unchanged |
| Sync.ConfigFile.SyncPrefs | packages/opencontext_core/opencontext_core/config_sync.py:100-115 | the text and the reported entries are those of applying the table's patches one after another, each to the text so far; a loadable file stays loadable, reported paths hold the preferred values, and paths that no reported one leads to or through are untouched; in fill-only mode reported paths were absent, mapped paths already present keep their values, and all scalars are kept if and only if nothing but dicts stood above the reported paths |
| Sync.FillOnlyKeepsScalars | packages/opencontext_core/opencontext_core/config_sync.py:52-62 | for every mapping and absent path: the write keeps every scalar if and only if whatever stands above the path is a dict |
| Sync.FillOnlyOverTable | packages/opencontext_core/opencontext_core/config_sync.py:100-115 | the same for any set of applied table entries that were absent |
| Sync.PrefTable | packages/opencontext_core/opencontext_core/config_sync.py:17-26 | no mapped path leads through another |
| Sync.PrefTableInFull | packages/opencontext_core/opencontext_core/config_sync.py:17-26 | the eight preferences and the dotted keys they set, in full |
| Sync.AllApplied | packages/opencontext_core/opencontext_core/config_sync.py:100-115 | in overwriting mode, when the format prints and accepts every mapping and no write fails, every preference found is applied and no other |
| Sync.MappingCases | packages/opencontext_core/opencontext_core/config_sync.py:47 | what each parsed value loads as: null, false, zero, the empty text and the empty list as the empty mapping, no other value that is not a mapping |
| Sync.ConfigFile.SyncPref | packages/opencontext_core/opencontext_core/config_sync.py:71-88 | one preference: the mapped path is patched exactly when the patch applies |
| Sync.FillOnlyReplacesScalarAbove | packages/opencontext_core/opencontext_core/config_sync.py:51-58 | a fill-only call that applies and replaces a scalar, which stands above the path |
| SharedDicts.Document.Write | packages/opencontext_core/opencontext_core/config_sync.py:52-62 | on a document whose dicts may be shared, the walking cursor steps into dicts, makes those that are missing and stores the value: the store afterwards |
| SharedDicts.WriteEffect | packages/opencontext_core/opencontext_core/config_sync.py:52-62 | the walk changes what one key of one dict shows, wherever in the document that dict shows |
| SharedDicts.DocumentWrite | packages/opencontext_core/opencontext_core/config_sync.py:52-62 | the document afterwards is the old tree with that one path written if and only if every other path to the dict the walk stopped at shows the new value already |
| SharedDicts.UnsharedWrite | packages/opencontext_core/opencontext_core/config_sync.py:52-62 | in particular if no other path leads to that dict |
| SharedDicts.DocumentFile.SetYamlKey | packages/opencontext_core/opencontext_core/config_sync.py:29-68 | on the file: a patch applies exactly when the document reads, the path may be written, and the result prints and validates; read back, an applied patch has changed its path alone if and only if every other path to the dict the walk stopped at showed the new value already |
| SharedDicts.AliasedProvider | packages/opencontext_core/opencontext_core/config_sync.py:17-26 | in any document where the generate role is an alias of the default model, setting the default provider to something new changes more than that path |
| SharedDicts.AliasedExists | packages/opencontext_core/opencontext_core/config_sync.py:17-26 | such a document |
| Framing.LineReader.Fill | packages/opencontext_core/opencontext_core/mcp_stdio.py:853-877 | reading on moves text from the input to the buffer and loses none; it stops early only at a silence under a limit, the last thing to have arrived |
| Framing.LineReader.NextLine | packages/opencontext_core/opencontext_core/mcp_stdio.py:842-884 | delivered lines with newlines restored, then the buffer, are always the text read so far; a call delivers exactly the next pending line, or none at the end or at a silence under a limit; under a limit at most one silence is met, and none if a line is delivered |
| Framing.LineReader.TakeLine | packages/opencontext_core/opencontext_core/mcp_stdio.py:878-880 | a buffered newline yields the next pending line and leaves the rest in the buffer |
| Framing.LineReader.ReadAll | packages/opencontext_core/opencontext_core/mcp_stdio.py:842-884 | under any schedule of limited and unlimited calls the lines delivered are the newline split of the whole text, a partial last line included |
| Framing.ChunkIndependent | packages/opencontext_core/opencontext_core/mcp_stdio.py:842-884 | what is pending depends on the text alone, not on where it is cut, and determines it up to a missing final newline |
| Framing.CompleteIsUnlines | packages/opencontext_core/opencontext_core/mcp_stdio.py:878-884 | the lines hold no newline and give the text back with its last line completed |
| Framing.TakeWhole | packages/opencontext_core/opencontext_core/mcp_stdio.py:878-880 | taking the first line off the buffer takes the first pending line and accounts for it in the text |
| Framing.LinesTakeOne | packages/opencontext_core/opencontext_core/mcp_stdio.py:878-880 | a text that starts with a whole line has that line first and then the lines of the rest |
| Protocol.ExactlyOneAnswer | packages/opencontext_core/opencontext_core/mcp_stdio.py:904-1041 | once nothing is being served, a dispatched message has had exactly one answer if it is neither a notification nor one the dispatcher raises on (no object, method not text, parameters no mapping where they are looked into, tool name not text), and none otherwise |
| Protocol.AnswersCounted | packages/opencontext_core/opencontext_core/mcp_stdio.py:904-974 | at every point of a run each request has had exactly the answers its place on the stack says |
| Protocol.AnswerIsForItsRequest | packages/opencontext_core/opencontext_core/mcp_stdio.py:904-974 | an answer carries its request's id and is what its method, the policy and its handler make due |
| Protocol.AnswerByMethod | packages/opencontext_core/opencontext_core/mcp_stdio.py:917-974 | in every run ping is answered with an empty result, initialize with the capability it announced, tools/list with the list, tools/call with a status that the policy or the handler's last action warrants, and any other method, or none, as not found |
| Protocol.DueToTool | packages/opencontext_core/opencontext_core/mcp_stdio.py:976-1047 | what is due for a tool call is a result with exactly the warranted status: Denied if the tool is denied, or neither allowed nor always allowed; Unknown if an allowed one has no handler; Passed if the handler returned no error and Failed if it returned one or raised |
| Protocol.InnerBeforeOuter | packages/opencontext_core/opencontext_core/mcp_stdio.py:2403-2413 | when a request is answered, every request opened after it is already settled |
| Protocol.SamplingDiscipline | packages/opencontext_core/opencontext_core/mcp_stdio.py:2383-2413 | sampling calls are numbered 1, 2, 3 and so on over the server's life, and each that is no longer waited for has ended exactly once |
| Protocol.SamplingIdInjective | packages/opencontext_core/opencontext_core/mcp_stdio.py:2383-2384 | different sampling calls carry different ids |
| Protocol.ReplyMatchesCall | packages/opencontext_core/opencontext_core/mcp_stdio.py:2407-2411 | a reply is accepted only for the innermost pending call, sent before and not yet ended, and carries that call's id and no other's |
| Protocol.ReplyReachesHandler | packages/opencontext_core/opencontext_core/mcp_stdio.py:2407-2411 | in every run an accepted reply gives the handler below the wait exactly one more outcome, its text, the empty text if the host refused, an exception if there is no content to read, and changes nothing else |
| Protocol.WireAnswersRequests | packages/opencontext_core/opencontext_core/mcp_stdio.py:2343-2357 | on the wire each id is answered as often as a request needing an answer came in with it, less those still being served |
| Protocol.RaisingIsFaulty | packages/opencontext_core/opencontext_core/mcp_stdio.py:886-974 | an exception is under way only right after a message the dispatcher raises on or a line the decoder raises on |
| Protocol.RunWellFormed | packages/opencontext_core/opencontext_core/mcp_stdio.py:2403-2413 | in every run requests and waits alternate on the stack, newer above older, and below a wait is an unanswered request |
| Protocol.TraceRuns | packages/opencontext_core/opencontext_core/mcp_stdio.py:833-840 | a log kept event by event is a run of the machine |
| Protocol.WholeRun | packages/opencontext_core/opencontext_core/mcp_stdio.py:833-840 | a conversation that leaves nothing open has answered every request and every id as it should; the main loop has stopped early if and only if a line it read itself holds null, makes the decoder raise or holds a message the dispatcher raises on, and only its last line can |
| Protocol.StopsTracked | packages/opencontext_core/opencontext_core/mcp_stdio.py:833-902 | at every point of a run: while a message is being served it is the last one the main loop read and no earlier line stopped the loop; otherwise the loop has stopped if and only if some line it read stops it |
| McpServer.Server.constructor | packages/opencontext_core/opencontext_core/mcp_stdio.py:833-840 | a new server has served nothing and has the whole input before it |
| McpServer.Server.Take | packages/opencontext_core/opencontext_core/mcp_stdio.py:893-902 | a line read is skipped if blank, answered with the parse error -32700 if it is not JSON, taken for no message if it holds null, passed on as an exception if the decoder raises anything else, and otherwise handed on as the message it decodes to |
| McpServer.Server.ReadMessage | packages/opencontext_core/opencontext_core/mcp_stdio.py:886-902 | the next message, an exception of the decoder, or none: at the end of the input or on the value null, for no other reason; every line passed over is accounted for |
| McpServer.Server.ReadMessageBefore | packages/opencontext_core/opencontext_core/mcp_stdio.py:2415-2434 | as above, but none also when the clock had just passed the deadline or the host fell silent, and for no other reason; the clock is looked at before every line read, no line is read once it has passed the deadline, and at most one silence is met, after which no line is read |
| McpServer.Server.HandleRequest | packages/opencontext_core/opencontext_core/mcp_stdio.py:904-974 | an accepted conversation of the machine that ends where it began; it raises exactly on the messages the dispatcher cannot take apart; a notification sends nothing, and every method its own response; it terminates; while it runs, every silence of the host makes one waiting sampling call give up |
| McpServer.Server.Dispatch | packages/opencontext_core/opencontext_core/mcp_stdio.py:917-974 | each method's own response goes on the wire: pong, the tool list, the announced capability, a tool's result with a warranted status, or the error -32601 with the method's name; and the request is closed |
| McpServer.Server.Initialize | packages/opencontext_core/opencontext_core/mcp_stdio.py:920-949 | the client's sampling capability is noted and announced; parameters that are not a mapping raise, unanswered |
| McpServer.Server.ToolsCall | packages/opencontext_core/opencontext_core/mcp_stdio.py:967-972 | the tool's result is sent; parameters that are not a mapping, or a tool name that is not text, raise, unanswered |
| McpServer.Server.SendAnswer | packages/opencontext_core/opencontext_core/mcp_stdio.py:2343-2357 | the answer due to the request goes on the wire under its id, as a result or as the method-not-found error, and the request is closed |
| McpServer.Server.CallTool | packages/opencontext_core/opencontext_core/mcp_stdio.py:976-1047 | no handler runs unless the policy allows the tool and it is known; the status is Denied, Unknown, Passed or Failed exactly as the policy, the handlers there are and the handler's last action warrant, an exception included |
| McpServer.Server.RunHandler | packages/opencontext_core/opencontext_core/mcp_stdio.py:1023-1047 | the handler runs to its end, the conversation back at this request; the status is Passed if, after the outcomes it heard, it returned without an error, and Failed otherwise |
| McpServer.Server.SampleOnce | packages/opencontext_core/opencontext_core/mcp_stdio.py:929-937 | a handler samples exactly if it finds the registered sampler, or holds one found before; otherwise it learns that there is none |
| McpServer.Server.RequestSampling | packages/opencontext_core/opencontext_core/mcp_stdio.py:2383-2413 | the caller's handler learns exactly one outcome: the text of the reply with this call's own id, the empty text if that reply is a refusal, an exception if it has no content to read; otherwise the empty text only from the value null or when the deadline had passed, the host fell silent or the input ended; the requests in between are served and closed; silences met are never more than calls given up, so that a silent host is waited out once a call |
| McpServer.Server.SendRequest | packages/opencontext_core/opencontext_core/mcp_stdio.py:2383-2402 | the request goes out under oc-sampling- and the next number in decimal, and the wait for it begins |
| McpServer.Server.AwaitReply | packages/opencontext_core/opencontext_core/mcp_stdio.py:2403-2413 | the waiting loop ends with exactly one of reply, exception and giving up, the last for one of the reasons above, and with the stack as it was |
| McpServer.Server.Consider | packages/opencontext_core/opencontext_core/mcp_stdio.py:2407-2413 | a message read while waiting is the reply, whose text, refusal or lack of content decides the outcome; a request, which is served with its own response; or a method-less message that is dropped without a trace on the wire |
| McpServer.Server.ServeBetween | packages/opencontext_core/opencontext_core/mcp_stdio.py:2412-2413 | an interleaved request is served and closed with the wait as it was; if it raises, the waiting call raises in its turn |
| McpServer.Server.Serve | packages/opencontext_core/opencontext_core/mcp_stdio.py:833-840 | a whole run is an accepted conversation with nothing left open; the lines read are accounted for in order, and all of them are read unless a line the loop reads itself stops it (null, a decoder exception, a message the dispatcher raises on), which is exactly when it stops early; every request has exactly its answers; each id is answered as often as asked |
| SourceLines.JoinInvertsSplit | packages/opencontext_core/opencontext_core/mcp_stdio.py:69-88 | joining inverts splitting on a text if and only if it is not the lone newline |
| SourceLines.SplitInvertsJoin | packages/opencontext_core/opencontext_core/mcp_stdio.py:69-88 | splitting inverts joining exactly on the canonical pairs of lines and flag |
| SourceLines.FlagAddsNewline | packages/opencontext_core/opencontext_core/mcp_stdio.py:82-88 | no lines join to the empty text; otherwise the flag adds one newline at the end, even after a single empty line |
| SourceLines.SpliceKeepsOutside | packages/opencontext_core/opencontext_core/mcp_stdio.py:2096-2106 | replacing a span keeps every line outside it, the later ones shifted |
| SourceLines.InsertThenDelete | packages/opencontext_core/opencontext_core/mcp_stdio.py:2165-2181 | after an insert, reading the written text and deleting the reported range gives lines and flag back if and only if what was written is canonical |
| Rename.ReplaceIsTokenMap | packages/opencontext_core/opencontext_core/mcp_stdio.py:58-66 | for a name of word characters the left-to-right scan is the map of old to new over the line's maximal word runs, and its count is the number of such runs |
| Rename.RenameBack | packages/opencontext_core/opencontext_core/mcp_stdio.py:58-66 | for any new name: renaming back restores the line if and only if the rewritten line held the new name, as a whole word, nowhere but where the old one had been |
| Rename.RenameBackWord | packages/opencontext_core/opencontext_core/mcp_stdio.py:58-66 | for a new name of ASCII word characters: if and only if the names are equal or the new one was not already a word in the line |
| Rename.ScanBack | packages/opencontext_core/opencontext_core/mcp_stdio.py:58-66 | over every list of tokens: scanning back gives it back if and only if there is no stray match |
| Rename.WordsOfRenamed | packages/opencontext_core/opencontext_core/mcp_stdio.py:58-66 | for any new name the words of the rewritten line are its words with those of the new name for each old one |
| Rename.RewriteShape | packages/opencontext_core/opencontext_core/mcp_stdio.py:58-66 | there are hits exactly when the old word occurs; a line never becomes empty or gains a newline |
| Rename.WordCharCodes | packages/opencontext_core/opencontext_core/mcp_stdio.py:58-66 | word characters are the ASCII letters and digits and the underscore, by their codes |
| SymbolTools.RenameInLines | packages/opencontext_core/opencontext_core/mcp_stdio.py:2236-2258 | exactly the recorded sites and import lines that hold the old word are rewritten, each once and each reported once with its hits, and the hits sum to the file's |
| SymbolTools.RenameSites | packages/opencontext_core/opencontext_core/mcp_stdio.py:2238-2246 | the first loop rewrites exactly the recorded sites with the old word |
| SymbolTools.RenameImports | packages/opencontext_core/opencontext_core/mcp_stdio.py:2251-2258 | the second loop adds exactly the import lines not yet rewritten |
| SymbolTools.RenameKeepsLines | packages/opencontext_core/opencontext_core/mcp_stdio.py:2233-2260 | read back, a renamed file has the renamed lines and the trailing-newline flag it had |
| SymbolTools.Workspace.RenameFile | packages/opencontext_core/opencontext_core/mcp_stdio.py:2232-2260 | one target file gets its renamed text, and is counted exactly when that differs; a symbolic link with hits is refused |
| SymbolTools.Workspace.RenameSymbol | packages/opencontext_core/opencontext_core/mcp_stdio.py:2229-2270 | it raises exactly if some target is a symbolic link with something to rewrite; otherwise every readable target gets its renamed text, every other file is untouched, the report covers exactly the touched lines, the count is the number of files changed |
| SymbolTools.Workspace.ReplaceSymbolBody | packages/opencontext_core/opencontext_core/mcp_stdio.py:2066-2122 | the file is written only with approval, for a symbol that resolves to a span that fits, if the result parses and the file is no symbolic link, and then as the lines before the span, the body's and those after it; every refusal leaves the files alone |
| SymbolTools.Workspace.InsertBesideSymbol | packages/opencontext_core/opencontext_core/mcp_stdio.py:2134-2182 | under the same conditions the block goes in after the span's last line or before its first, and at the end or the start of a file that does not reach there; the range reported begins there and has the block's length, and deleting it from the file as read again gives the old lines and flag if and only if the text written is canonical |
| SymbolTools.Workspace.WriteLines | packages/opencontext_core/opencontext_core/mcp_stdio.py:2312-2315 | a symbolic link is refused by raising; otherwise the joined text is stored, and the result says whether anything changed |
| Backups.SortedAtRank | packages/opencontext_core/opencontext_core/backup.py:256 | the stable newest-first sort puts every entry at its rank, the number of entries that are newer or as new and earlier |
| Backups.PrunedExactly | packages/opencontext_core/opencontext_core/backup.py:250-260 | whatever the ids, an id is pruned if and only if some unpinned entry carries it whose rank is five or more |
| Backups.PrunedByRank | packages/opencontext_core/opencontext_core/backup.py:250-260 | with distinct ids an unpinned entry is pruned if and only if its rank is five or more |
| Backups.PinnedSurvive | packages/opencontext_core/opencontext_core/backup.py:250-260 | a pinned entry is lost only to an unpinned namesake, never when ids are distinct |
| Backups.PinHolds | packages/opencontext_core/opencontext_core/backup.py:123-132 | over runs: with distinct ids, a backup once pinned stays in the index, pinned, with its archive as it was, through any further operations but another backup under its id, its unpinning and its deletion |
| Backups.UnpinCounts | packages/opencontext_core/opencontext_core/backup.py:134-143 | over runs: with distinct ids, a backup once unpinned is among the unpinned ones, and the next pruning removes it exactly if its rank among them is five or more |
| Backups.FlagSets | packages/opencontext_core/opencontext_core/backup.py:123-143 | with distinct ids pinning or unpinning gives the entry with the id that flag and leaves every other entry and the archives |
| Backups.RetentionBound | packages/opencontext_core/opencontext_core/backup.py:250-260 | after pruning at most five unpinned entries are left, whatever the ids |
| Backups.NewBackupKept | packages/opencontext_core/opencontext_core/backup.py:88-105 | whatever the ids, the id of a backup just created survives its own prune if and only if fewer than five unpinned entries are at least as new and no older entry of that id has a surplus rank |
| Backups.RunConsistent | packages/opencontext_core/opencontext_core/backup.py:80-105 | over every run hashes stay pairwise distinct, and index and archives name the same ids |
| Backups.RunOneToOne | packages/opencontext_core/opencontext_core/backup.py:80-105 | after every run, entries and archives correspond one to one, each archive holding what its entry's hash was computed from, if and only if no two entries share an id |
| Backups.RunTruthful | packages/opencontext_core/opencontext_core/backup.py:80-105 | over every run, whether or not ids are reused, hashes are distinct, index and archives name the same ids, and every archive holds what the last entry with its id was made from |
| Backups.ArchiveOfEntry | packages/opencontext_core/opencontext_core/backup.py:86-105 | an entry's archive is what its hash was computed from if and only if no later entry has its id |
| Backups.FreshRunDistinct | packages/opencontext_core/opencontext_core/backup.py:80-105 | if no create reuses an indexed id, ids stay distinct |
| Backups.BackupHoldsBytes | packages/opencontext_core/opencontext_core/backup.py:80-105 | after every run that ends in a create, an entry with the hash asked for has an archive with the bytes asked for if and only if no later entry has its id |
| Backups.NewNotSuperseded | packages/opencontext_core/opencontext_core/backup.py:86-105 | a backup just created, if kept, is the last entry with its id |
| Backups.RenamedFileNotBackedUp | packages/opencontext_core/opencontext_core/backup.py:203-209 | one file backed up, then the same bytes under another name: the second is lost |
| Backups.DroppedExactly | packages/opencontext_core/opencontext_core/backup.py:80-83 | with a collision-free hash the bytes of a snapshot are in an indexed archive if and only if the snapshot is dropped for an entry that no later entry with the same id has superseded |
| Backups.DroppedOverRuns | packages/opencontext_core/opencontext_core/backup.py:80-83 | the same after every run |
| Backups.LostExactly | packages/opencontext_core/opencontext_core/backup.py:203-217 | after every run a snapshot is dropped without being any indexed archive if and only if the entry it is dropped for is superseded, or its bytes are archived but every archive that has them names or cuts them differently |
| Backups.ReusedNameLosesBytes | packages/opencontext_core/opencontext_core/backup.py:80-105 | two creates of different bytes under one name: the bytes of the first are in no archive, and every further create of them is dropped |
| Backups.PreInstallLosesBytes | packages/opencontext_core/opencontext_core/install_manager.py:147-148 | the same for two installations |
| Backups.SameBytesDiffer | packages/opencontext_core/opencontext_core/backup.py:203-209 | two snapshots with the same bytes are the same if and only if their files agree in names and lengths |
| Backups.BurstOverflows | packages/opencontext_core/opencontext_core/backup.py:250-260 | after any five backups made in one second, which are all kept, one more in that second is pruned the moment it is made |
| Backups.SixthInOneSecondLost | packages/opencontext_core/opencontext_core/backup.py:250-260 | a concrete run of six |
| Backups.ExtractRestores | packages/opencontext_core/opencontext_core/backup.py:165-169 | extraction gives every archived file its bytes and leaves every other file alone |
| Backups.BackupManager.FindByHash | packages/opencontext_core/opencontext_core/backup.py:211-217 | the first entry with this hash |
| Backups.BackupManager.SetPinned | packages/opencontext_core/opencontext_core/backup.py:125-145 | the first entry with the id, and nothing else, gets the flag asked for; without one the index is what it was |
| Backups.BackupManager.DeleteBackup | packages/opencontext_core/opencontext_core/backup.py:178-188 | the archive goes, and exactly the entries with the id; every other entry stays |
| Backups.BackupManager.Prune | packages/opencontext_core/opencontext_core/backup.py:250-260 | exactly the ids of the surplus unpinned entries are deleted |
| Backups.BackupManager.CreateBackup | packages/opencontext_core/opencontext_core/backup.py:51-105 | an existing backup with the same hash is returned and nothing changes; otherwise the store gains the archive and entry and is pruned to at most five unpinned |
| Backups.BackupManager.RestoreBackup | packages/opencontext_core/opencontext_core/backup.py:147-176 | the archive's members over the target, or nothing for an unknown id |
| ConfigBackups.FirstByIdKeeps | packages/opencontext_core/opencontext_core/state.py:316-327 | deduplication keeps every id exactly once |
| ConfigBackups.FirstByIdOfDistinct | packages/opencontext_core/opencontext_core/state.py:303-327 | an index without repeats is saved and read back as it is |
| ConfigBackups.ConfigBackupManager.SaveIndex | packages/opencontext_core/opencontext_core/state.py:316-327 | the stored index is the first occurrence of every id, in order |
| ConfigBackups.ConfigBackupManager.CreateBackup | packages/opencontext_core/opencontext_core/state.py:175-211 | the files that exist are copied under their own names; the new entry names them and stands before the old ones, without repeats |
| ConfigBackups.ConfigBackupManager.RestoreBackup | packages/opencontext_core/opencontext_core/state.py:220-242 | the user files are what the backup directory holds, where it holds them |
| ConfigBackups.RestoreUndoes | packages/opencontext_core/opencontext_core/state.py:186-196 | restoring brings back every file that existed at the backup, and another one exactly when the reused directory already held it |
| ConfigBackups.ConfigBackupManager.RemoveExpired | packages/opencontext_core/opencontext_core/state.py:269-282 | exactly the removable expired directories go, and are counted |
| ConfigBackups.ConfigBackupManager.RebuildIndex | packages/opencontext_core/opencontext_core/state.py:284-299 | one entry for each remaining backup directory, names descending, descriptions kept |
| ConfigBackups.ConfigBackupManager.Cleanup | packages/opencontext_core/opencontext_core/state.py:257-300 | given the directory names in ascending order: a directory goes exactly if its name starts with backup-, the rest parses as a time before the cutoff, and its removal does not fail; the others are untouched; the index is exactly the backup directories left, names descending, with their files and the description the old index last had for them; removed and remaining add up to those there were |
| ConfigBackups.CleanupRemoves | packages/opencontext_core/opencontext_core/state.py:269-282 | which directories go and that they are counted |
| ConfigBackups.DescribedByLast | packages/opencontext_core/opencontext_core/state.py:266 | the description is that of the last entry with the id, or auto-pre-change without one |
| PluginInstall.PluginDirs.InstallFromUrl | packages/opencontext_core/opencontext_core/plugin_system.py:545-706 | skipped exactly if the manifest there names the plugin with this version and source; an installed plugin whose manifest cannot be looked into makes it raise and is left alone; otherwise the installation fails exactly on a bad checksum or when a step raises, by a fault, by a manifest that is no object or no UTF-8, or by an entry point that is no text or a directory; what is left is stated for every case; without a leftover copy a failure gives the old tree back if and only if it was not making or removing the copy that failed, or that left the same tree |
| PluginInstall.FilesDelivered | packages/opencontext_core/opencontext_core/plugin_system.py:600-628 | apart from the manifest the tree holds the archive's files, and under them those that were there before |
| PluginInstall.InstallDelivers | packages/opencontext_core/opencontext_core/plugin_system.py:632-671 | the manifest is created if there is none, brought to the version and source asked for if it reads, and left alone if it does not; stamping records the entry file's hash and a permissions block, and all else in it stays |
| PluginInstall.InstallsUnlessUnusable | packages/opencontext_core/opencontext_core/plugin_system.py:632-706 | without a fault the installation fails exactly on a manifest that is no object or no UTF-8, and on an entry point that is no text, empty or a directory |
| PluginInstall.PartialCopyRestored | packages/opencontext_core/opencontext_core/plugin_system.py:585-594 | a copy aside that stops after one of two files: the plugin is left with that one |
| PluginInstall.FinishesWithoutFault | packages/opencontext_core/opencontext_core/plugin_system.py:632-671 | without a fault an installation goes through if and only if the manifest is absent, caught as unreadable, or an object whose entry point is text and no directory |
| PluginInstall.PluginDirs.Stamp | packages/opencontext_core/opencontext_core/plugin_system.py:1281-1304 | the entry file's hash and a permissions block are recorded; an entry point that is no text or a directory raises |
| PluginInstall.PluginDirs.Rollback | packages/opencontext_core/opencontext_core/plugin_system.py:687-694 | the copy set aside, if any, becomes the tree again |
| PluginInstall.LoadsWhileUntouched | packages/opencontext_core/opencontext_core/plugin_system.py:986-1041 | after stamping, while the manifest is left alone, load runs the entry file if and only if the manifest enables the plugin, its permissions validate, and the entry file is importable and there with the stamped bytes |
| PluginInstall.InstalledLoads | packages/opencontext_core/opencontext_core/plugin_system.py:986-1041 | load runs the entry file of a plugin installed without a fault if and only if its manifest reads, enables it, has permissions that validate and names an importable entry file that is there; it then has the requested version |
| PluginInstall.SelfEntryRefused | packages/opencontext_core/opencontext_core/plugin_system.py:1281-1304 | a manifest that names itself as the entry passes its own stamp only if stamping left the tree unchanged |
| PluginInstall.LoadsUnstamped | packages/opencontext_core/opencontext_core/plugin_system.py:1001-1041 | without a declared checksum the bytes of the entry file do not matter |
| Versions.IsNewer | packages/opencontext_core/opencontext_core/plugin_system.py:923-928 | the zip loop with its length tie-break decides the strict lexicographic order |
| Versions.AboveTransitive | packages/opencontext_core/opencontext_core/plugin_system.py:923-928 | the order is transitive |
| Versions.AboveTotal | packages/opencontext_core/opencontext_core/plugin_system.py:923-928 | of two different versions one is above the other |
| Versions.AboveIrreflexive | packages/opencontext_core/opencontext_core/plugin_system.py:923-928 | no version is above itself |
| Versions.PartsRead | packages/opencontext_core/opencontext_core/plugin_system.py:920-921 | a list of parts reads exactly if every part does, and then as their numbers in their order |
| Versions.VersionSpelled | packages/opencontext_core/opencontext_core/plugin_system.py:920-921 | a text reads as a version exactly if, with every v dropped, it is the version's numbers with dots between |
| Versions.PlainVersion | packages/opencontext_core/opencontext_core/plugin_system.py:920-921 | numbers joined by dots read as these numbers, with or without a v in front |
| Versions.DropsCharacter | packages/opencontext_core/opencontext_core/plugin_system.py:920-921 | dropping a character joins what stood around it |
| Versions.NewerByNumbers | packages/opencontext_core/opencontext_core/plugin_system.py:916-928 | of two texts that spell versions the later is newer if and only if it has the greater number in the first place where they differ, or goes on where the other ends |
| Updates.Decide | packages/opencontext_core/opencontext_core/plugin_system.py:838-908 | own registry entry first, then those with the same source: the first that is newer and has a download, or none; versions that cannot be read raise |
| Updates.ChosenIsNewer | packages/opencontext_core/opencontext_core/plugin_system.py:838-908 | whatever a check settles on is strictly newer than what is installed, both readable |
| Updates.FirstTaken | packages/opencontext_core/opencontext_core/plugin_system.py:876-908 | among the entries with the plugin's source exactly the first is taken that is newer and has a download, provided every one before it can be compared |
| Updates.OwnDecides | packages/opencontext_core/opencontext_core/plugin_system.py:838-875 | the own entry, told from the two version texts |
| Updates.CheckSingle | packages/opencontext_core/opencontext_core/plugin_system.py:821-914 | a check installs exactly what it settled on and reports whether that went through; the plugin's own entry, if its text has the greater number in the first place where it differs from the installed one's, or goes on where that ends, is taken if it has a download and settles the check if not; what is left in the plugin's directory and beside it is stated for every fault, and without one it is the offer's files over the old ones with the manifest brought up to date |
| Updates.FinishedVersion | packages/opencontext_core/opencontext_core/plugin_system.py:632-682 | after an installation reported as done the manifest shows the version asked for, or none at all; never another, unless garbage was written over it |
| Updates.RoundRises | packages/opencontext_core/opencontext_core/plugin_system.py:838-914 | without a leftover copy, and if garbage is no manifest and what a failed copy leaves shows the plugin's version or none, a check does not lower the version shown and leaves no copy |
| Updates.LowersExactly | packages/opencontext_core/opencontext_core/plugin_system.py:687-694 | a check lowers the version if and only if it tries an installation and a failed download brings back a leftover copy with a lower one, a failed copy or removal leaves a tree with one, or garbage over the manifest reads as one |
| Updates.LeftoverComesBack | packages/opencontext_core/opencontext_core/plugin_system.py:687-694 | with a leftover copy of an older version, a failed download brings that version back and the next check goes up again to the one there was |
| Updates.FollowUpdates | packages/opencontext_core/opencontext_core/plugin_system.py:821-914 | over any number of checks, under the conditions above, no version is below an earlier one, and none comes back that was given up |

## Left out

- ConfigLeaves.SetDotted: the source mutates nested dicts through an alias that walks down; the model walks the same way over values and hangs the changed dicts back up, so aliasing between trees is not captured here; SharedDicts captures it.
- Sync.ConfigFile.SetYamlKey: takes the mapping to be a tree, as it is unless YAML aliases share the dict the path ends in (SharedDicts.DocumentWrite); aliases inside lists and recursive aliases are not modelled, nor is the translation of CRLF on reading, by which a reverted file comes back with LF; and the revert itself is taken to succeed, where a second failing write would raise and leave the garbage.
- Sync.ConfigFile.SyncPrefs: takes the mapping to be a tree in every round, under the same condition.
- Explain.MaskTree: it is applied to the merged tree of any layers; the dump of the validated model that the source masks is not part of this model.
- Backups.BackupManager.CreateBackup: sizes and file lists of an entry are omitted, timestamps are numbers (the source's fixed-width digits compare alike), and the index file is taken to be readable.
- ConfigBackups.ConfigBackupManager.Cleanup: the sorted directory listing is given; a directory whose files cannot be listed, and a removal that fails half-way, are not modelled.
- SymbolTools.Workspace.RenameSymbol: two target paths naming the same file, and a file that is not valid text, are not modelled; whether a line is an import is a parameter.
- SymbolTools.Workspace.WriteLines: the translation of CRLF on reading, by which an edited file comes back with LF, is not modelled.
- SymbolTools.Workspace.ReplaceSymbolBody: whether approval is missing, where the graph resolves the symbol to, and whether a text parses are parameters.
- SymbolTools.Workspace.InsertBesideSymbol: the same.
- Rename.ReplaceIsTokenMap: for old names of ASCII word characters, the only ones whose boundaries the pattern looks at.
- PluginInstall.PluginDirs.InstallFromUrl: the archive is given as the files it puts below the plugin directory, so the choice of the top-level directory is not modelled, and a file in it that clashes with a directory is taken to be an extraction fault; empty directories and entry points written in another than the plain form, or leading out of the plugin, are not modelled; nor is the entry made in the state store afterwards, whose failure is swallowed.
- PluginInstall.PluginDirs.Rollback: faults during the rollback itself are not modelled.
- Updates.CheckSingle: a plugin from GitHub follows another rule, without comparing versions.
- Framing.LineReader.NextLine: works on characters; the source decodes each chunk by itself, so a character cut by a chunk boundary is replaced, which no statement about characters can see.
- McpServer.Server.CallTool: the result envelope, redaction and JSON encoding of results are not modelled: what a handler returns is taken to be encodable, and text to be free of lone surrogates; an answer records its kind and status.
- McpServer.Server.RequestSampling: the prompt and the model hint are not modelled.
- Schemas, defaults, legacy-key normalisation and deprecated-key reports: data or members one reading settles; a file's tree is taken after normalisation.
- YAML, JSON, hashing, archives, clocks and select: parameters, as described above.
- The plugin registry's enable, disable, remove and permission look-ups; hooks and commands: easy members.
- Graph queries, memory, quality evaluation, the runtime and the harness behind the tools; the command line, the text interface, installers and release scripts.
