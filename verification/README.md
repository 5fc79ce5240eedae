# codex app-server and apply-patch: a verified model

This project models the logic of four parts of the codex repository whose correctness rests on more than one function, and
proves what they promise.

- **Schema export** (`export.rs`, `schema_fixtures.rs`). JSON schemas are trees whose `$ref` strings form a graph. `Json`
  has the trees, the rewriting of refs and their resolution (section 4 of RFC 6901, section 8.3 of
  draft-handrews-json-schema-01); `Reachability` the least closed set of names that both worklists compute;
  `SchemaBundle`, `SchemaStrip` and `SchemaFlatten` the three transformations; `TsScan` (over `Text`) the bracket- and
  string-aware splitting of generated TypeScript and `TsFields` the braces around it; `Canonical` (over `CompactJson`,
  `PrettyJson` and `Sorting`) the normal form in which fixtures are compared.
- **In-process transport** (`in_process.rs`, `app-server-client`). `EventPipeline` has two bounded queues in series with
  their rules for waiting, dropping and refusing; `ClientRequests` the matching of replies to requests.
- **Server requests and turns** (`outgoing_message.rs`, `bespoke_event_handling.rs`, `thread_status.rs`,
  `thread_state.rs`). `ServerRequests` (over `JsonRpc` and `ApprovalHandlers`) has the table of callbacks raced by replies,
  cancellations and turn boundaries; `TurnSummary` what is remembered of a turn; `ThreadStatus` the status of threads and
  the guards behind it; `Subscriptions` the two-way index of connections and threads.
- **Two loops.** `CommandExec` has the capping of process output; `SeekSequence` the search for a patch's context lines.

Code that changes state is a class or a method with loops here, proved against a specification function or relation;
what is promised is then proved of the specification, for all inputs or over all runs. In the concurrent parts a step
is one lock region, one queue operation or one manager call, and runs are arbitrary sequences of steps.

Where code and comment disagree the model follows the code. The comment above `seek_sequence` promises a second search from
`start` when `eof` is set; the code has none (`SeekSequence.NoSecondSearch`), and keeps the promise exactly under the
condition of `SeekSequence.PromiseKept`.
Some things one might expect are false, and are stated as such, with what holds instead: a ref under a nested `$defs` key
can dangle after stripping (`SchemaStrip.NestedDefsCanDangle`, `SchemaStrip.RefFate`); a thread does not stay NotLoaded
after its shutdown (`ThreadStatus.LateReleaseReloads`, `ThreadStatus.StaysNotLoaded`); flattening gives a ref a new meaning
when it names the loser of a clash of names (`SchemaFlatten.ClashChangesMeaning`, `SchemaFlatten.RefKeepsMeaning`); the
field filter can lose the braces of a type (`TsFields.BracesCanBeLost`), and finds them again exactly under the condition of
`TsFields.FieldsAreFoundAgain`.

## Model

| member | source | states |
|---|---|---|
| SchemaFlatten.FlatteningPreservesMeaning | codex-rs/app-server-protocol/src/export.rs:1038-1228 | Main result. If refs occur in definitions only and lead into definitions, those of v2 into v2, then, whatever their number of segments: the flat build succeeds exactly when every kept ref leads into a kept definition; its definitions are then the v2 ones and the root ones that stay, rewritten; every ref that leads into the winner of its name leads to the rewritten image of where it led before, or nowhere if it led nowhere; and there are no other refs |
| SchemaFlatten.RefKeepsMeaning | codex-rs/app-server-protocol/src/export.rs:1066-1080 | Exactly which refs keep their meaning when a v2 and a root definition have one name: those that lead into the winner (shared over v2, v2 over pulled in), and those for which both definitions have the same at that place |
| SchemaFlatten.WholeRefsKeepMeaning | codex-rs/app-server-protocol/src/export.rs:1038-1228 | If every kept ref names a whole definition, the build succeeds, and if moreover no v2 name is that of a root definition that stays, every ref resolves and keeps its meaning |
| SchemaFlatten.BuiltIffComplete | codex-rs/app-server-protocol/src/export.rs:1157-1228 | The build succeeds exactly when every kept ref begins with the name of a v2 definition, a shared one or one pulled in, and does not lead into a second v2 |
| SchemaFlatten.ClashChangesMeaning | codex-rs/app-server-protocol/src/export.rs:1066-1080 | A bundle that meets every other condition, is built without error, and in which a ref of ClientRequest names another schema than before, because v2 has a definition of the same name |
| SchemaFlatten.OkBundleIsComplete | codex-rs/app-server-protocol/src/export.rs:1157-1228 | For every input: a bundle that is returned has no `#/definitions/v2/` ref left and holds the definition that each local ref begins with |
| SchemaFlatten.BuildFlatV2Schema | codex-rs/app-server-protocol/src/export.rs:1038-1086 | The imperative build returns what its specification says, on every input, with each of the five error cases |
| SchemaFlatten.CollectNonV2RefsInner | codex-rs/app-server-protocol/src/export.rs:1094-1114 | Adds exactly the names of the refs, at any depth, that lie under `#/definitions/` but not under its v2 |
| SchemaFlatten.CollectDefinitionDependencies | codex-rs/app-server-protocol/src/export.rs:1116-1136 | The worklist, which may queue a name twice, ends and returns the least closed set of names |
| SchemaFlatten.CollectShared | codex-rs/app-server-protocol/src/export.rs:1055-1067 | Takes exactly the shared definitions there are, with the names they refer to outside v2 |
| SchemaFlatten.PullIn | codex-rs/app-server-protocol/src/export.rs:1069-1076 | Adds the definitions pulled in, but never v2 itself and never over a v2 definition |
| SchemaFlatten.PulledIn | codex-rs/app-server-protocol/src/export.rs:1047-1076 | A root definition that a kept one refers to as a whole is kept as well |
| SchemaFlatten.KeptByChains | codex-rs/app-server-protocol/src/export.rs:1055-1076 | The flat bundle holds the v2 definitions and every root definition but v2 that a chain of refs ends in: the chain begins at ClientRequest, EventMsg or ServerNotification, and each link is the whole text behind `#/definitions/` of a ref outside v2. These and no others |
| SchemaFlatten.MissingParts | codex-rs/app-server-protocol/src/export.rs:1038-1053 | Which inputs fail for want of an object, of definitions or of the v2 namespace, and that no other input does |
| SchemaFlatten.FlatKeepsTheRest | codex-rs/app-server-protocol/src/export.rs:1078-1081 | The title of the flat bundle says V2 behind the old one or the default, and every other field is as it was, rewritten |
| SchemaFlatten.EveryPrefixGoes | codex-rs/app-server-protocol/src/export.rs:1138-1143 | In a reference every occurrence of the v2 prefix is replaced, wherever it stands, and nothing else is |
| Reachability.ClosureIsLeast | codex-rs/app-server-protocol/src/export.rs:1116-1136 | The closure both worklists compute is contained in every set that holds the roots and is closed under references |
| Reachability.ClosureIsReachable | codex-rs/app-server-protocol/src/export.rs:1380-1395 | A name is in the closure exactly when a chain of references leads to it from a root |
| Json.RefSurvives | codex-rs/app-server-protocol/src/export.rs:1138-1155 | Rewriting refs loses none: each ref of the value appears rewritten in the result |
| Json.RefOrigin | codex-rs/app-server-protocol/src/export.rs:1138-1155 | Rewriting refs invents none: each ref of the result is the rewriting of one that was there |
| Json.MapRefsSame | codex-rs/app-server-protocol/src/export.rs:1505-1527 | A rewriting depends only on what it does to the refs that occur |
| Json.ResolveDef | codex-rs/app-server-protocol/src/export.rs:1202-1228 | A `#/definitions/` ref is looked up in `definitions`, segment by segment |
| Json.RefsArePlaces | codex-rs/app-server-protocol/src/export.rs:1444-1464 | The refs of a value are the `$ref` strings found along some path into it, through however many objects and arrays |
| Json.MapRefsPlaces | codex-rs/app-server-protocol/src/export.rs:1138-1155 | Rewriting changes the `$ref` strings wherever they stand, and nothing else: at every path the result holds what the value held there, rewritten |
| Json.PointersLeadToPlaces | codex-rs/app-server-protocol/src/export.rs:1202-1228 | A pointer leads where its tokens say, to a field of that name or an item of that decimal index, one after the other |
| SchemaStrip.StripKeepsTheReachable | codex-rs/app-server-protocol/src/export.rs:1344-1395 | After stripping, the definitions are exactly the existing ones in the least set reachable from the surviving root |
| SchemaStrip.StripKeepsRefs | codex-rs/app-server-protocol/src/export.rs:1344-1464 | Every local ref left in the root outside `definitions` and `$defs` keys, or in a kept definition outside such keys, resolves to exactly what it did before |
| SchemaStrip.RefFate | codex-rs/app-server-protocol/src/export.rs:1344-1362 | For any local ref at all: it resolves as before, except that it no longer resolves when it begins with a dropped name |
| SchemaStrip.NestedDefsCanDangle | codex-rs/app-server-protocol/src/export.rs:1397-1420 | A schema whose ref under a nested `$defs` key resolves before stripping and not after: the root walk skips such keys |
| SchemaStrip.RetainedVariants | codex-rs/app-server-protocol/src/export.rs:1344-1378 | The root keeps exactly the variants whose method literal is not among the removed ones |
| SchemaStrip.RetainedInOrder | codex-rs/app-server-protocol/src/export.rs:1344-1362 | They stay in order, each at the place that the number of kept ones before it gives |
| SchemaStrip.MethodVariants | codex-rs/app-server-protocol/src/export.rs:1364-1378 | A variant is one of a removed method exactly when the schema at its `properties`, `method` is a literal among them |
| SchemaStrip.StringLiteralIs | codex-rs/app-server-protocol/src/export.rs:1648-1656 | The literal of a schema is its string `const`, or else the first item of its `enum` if that is a string |
| SchemaStrip.StripKeepsTheRest | codex-rs/app-server-protocol/src/export.rs:1344-1362 | A schema without variants is left alone; in others the variants shrink whether or not there are definitions, and every other field stays |
| SchemaStrip.StripKeepsChains | codex-rs/app-server-protocol/src/export.rs:1344-1464 | A definition is kept, unchanged, exactly when a chain of local refs ends in it that begins in the surviving root outside definition maps |
| SchemaStrip.OuterRefsArePlaces | codex-rs/app-server-protocol/src/export.rs:1397-1420 | What the root walk sees are the refs found along the paths that pass no `definitions` or `$defs` key |
| SchemaStrip.StripMethodVariants | codex-rs/app-server-protocol/src/export.rs:1344-1362 | The imperative strip computes its specification on every value, including those it leaves alone |
| SchemaStrip.ReachableLocalDefinitions | codex-rs/app-server-protocol/src/export.rs:1380-1395 | Starts from the names the root mentions outside definition maps and returns their closure |
| SchemaStrip.RunWorklist | codex-rs/app-server-protocol/src/export.rs:1380-1395 | The worklist that queues each name once ends, by unreached names plus queue length, at the least closed set |
| SchemaStrip.CollectLocalDefinitionRefs | codex-rs/app-server-protocol/src/export.rs:1422-1464 | Offers every name mentioned at any depth; the new ones join the set and are queued once each |
| SchemaStrip.CollectLocalDefinitionRefsExcludingMaps | codex-rs/app-server-protocol/src/export.rs:1397-1420 | The same for the root walk, which passes over `definitions` and `$defs` keys at any depth |
| SchemaStrip.RefIsNamed | codex-rs/app-server-protocol/src/export.rs:1444-1464 | The first segment of every local ref is among the collected names |
| SchemaStrip.NamesAreFirstSegments | codex-rs/app-server-protocol/src/export.rs:1422-1464 | The names collected are exactly the first segments of the local refs, at any depth |
| SchemaStrip.OuterRefIsNamed | codex-rs/app-server-protocol/src/export.rs:1397-1420 | The same for the refs that the root walk sees |
| SchemaStrip.OuterNamesAreFirstSegments | codex-rs/app-server-protocol/src/export.rs:1397-1420 | What the root walk collects are exactly the first segments of the local refs outside definition maps |
| SchemaBundle.BuildSchemaBundle | codex-rs/app-server-protocol/src/export.rs:943-1021 | On every input the schemas are taken one by one; the build fails with the first that does not go in, and its error names a namespace that is no object, or a name with two different contents; otherwise it bundles what they make. If moreover no root definition has the name of a namespace, it fails exactly when two schemas give one namespaced name different contents, and otherwise holds under each namespace the union of what was contributed, and at the root the root schemas and the definitions no namespace owns, of two with one name the later |
| SchemaBundle.OrderDoesNotMatter | codex-rs/app-server-protocol/src/export.rs:943-1021 | For namespaced inputs success and result do not depend on the order of the schemas, nor on repetitions |
| SchemaBundle.LocalRefsPointInto | codex-rs/app-server-protocol/src/export.rs:1505-1527 | Inside a namespace every `#/definitions/` ref points into that namespace |
| SchemaBundle.LocalRefsResolve | codex-rs/app-server-protocol/src/export.rs:956-1000 | A ref, of any number of segments, that led into a definition of its own schema leads in the bundle to the same place in that definition, annotated and rewritten |
| SchemaBundle.PrefixedRefsAreLeftAlone | codex-rs/app-server-protocol/src/export.rs:1505-1516 | A ref that begins with its namespace already is left alone: it led below a definition of that very name, and leads in the bundle into what was contributed to the namespace under its next segment, or nowhere |
| SchemaBundle.SchemaIsFound | codex-rs/app-server-protocol/src/export.rs:957-1006 | A namespaced schema itself is found in the bundle under its namespace and name, without its definitions and with its refs rewritten |
| SchemaBundle.RootRefsResolve | codex-rs/app-server-protocol/src/export.rs:1539-1564 | A ref of a root schema whose name a namespace owns is among the refs of the schema as it goes in, with the namespace put before its name, and leads in the bundle to the same place in what was contributed to the namespace under that name |
| SchemaBundle.UnownedRefsStay | codex-rs/app-server-protocol/src/export.rs:957-1008 | A ref of a root schema that names a definition nobody owns is left as it is, and leads in the bundle to the same place in that definition, annotated and rewritten |
| SchemaBundle.OwnedRefsLead | codex-rs/app-server-protocol/src/export.rs:1858-1883 | Rewriting by several owned names, in any order, takes each ref under one of them into the namespace of its owner and leaves the others, as long as no owner is itself among the names |
| SchemaBundle.RefsOfTheSchemaLead | codex-rs/app-server-protocol/src/export.rs:968-1002 | So in the schema as it is added each ref under an owned definition leads into the owner's namespace and any other where it led, in whatever order the names are taken |
| SchemaBundle.EveryDefinitionGoesOneWay | codex-rs/app-server-protocol/src/export.rs:968-998 | Every definition of a root schema that is merged goes one of two ways: to the root, or, if it has an owner and is not of the first version, to the owner |
| SchemaBundle.V1StaysAtTheRoot | codex-rs/app-server-protocol/src/export.rs:975-982 | A schema of the first version puts all its definitions at the root, owned or not |
| SchemaBundle.OwnerIs | codex-rs/app-server-protocol/src/export.rs:1588-1600 | A name belongs to the namespace it is registered for or, unregistered, to that of the name it numbers |
| SchemaBundle.FirstMentionOwns | codex-rs/app-server-protocol/src/export.rs:1566-1586 | A name is registered for the namespace of the first namespaced schema that is or defines something of that name, and for none if there is no such schema |
| SchemaBundle.LastRootWins | codex-rs/app-server-protocol/src/export.rs:995-1008 | At the root a name holds what the last schema to put something there puts there |
| SchemaBundle.NotMerged | codex-rs/app-server-protocol/src/export.rs:970-976 | Just the six names of the two lists are never taken over from a schema's definitions |
| SchemaBundle.BundleDeclares | codex-rs/app-server-protocol/src/export.rs:1011-1021 | What the bundle declares of itself, besides its definitions |
| SchemaBundle.SlashedNamespacesAreMissed | codex-rs/app-server-protocol/src/export.rs:1505-1516 | Where a namespace has a slash in its name, its rewritten refs lead nowhere, unless something else is called like the part before the slash |
| SchemaBundle.HoldsIsUnique | codex-rs/app-server-protocol/src/export.rs:943-1009 | At most one definitions map holds given root entries and given namespaced contributions |
| SchemaBundle.InsertItem | codex-rs/app-server-protocol/src/export.rs:1230-1273 | Inserting a definition succeeds exactly when it agrees with those already in its namespace, and then adds it and nothing else |
| SchemaBundle.AddNamespaced | codex-rs/app-server-protocol/src/export.rs:957-1006 | One namespaced schema adds its definitions and itself to its namespace, whatever is there, or fails exactly if that is no object or disagrees, with an error that says which |
| SchemaBundle.InsertAllHolds | codex-rs/app-server-protocol/src/export.rs:1230-1273 | Several definitions go into a namespace exactly when they all agree with what is there, in whatever order |
| SchemaBundle.AddRoot | codex-rs/app-server-protocol/src/export.rs:957-1008 | One root schema adds the definitions no namespace owns, annotated, and itself with its refs pointing into the namespaces, replacing what had these names, and leaves all else alone |
| SchemaBundle.ForcedRefsAreDone | codex-rs/app-server-protocol/src/export.rs:1539-1564 | The later rewriting of refs to definitions that a namespace owns finds nothing to do, as long as no namespace is itself a typed name |
| SchemaBundle.RewriteForced | codex-rs/app-server-protocol/src/export.rs:1000-1002 | Rewrites the refs to the names a namespace owns, one name after the other, each once |
| SchemaBundle.NothingForced | codex-rs/app-server-protocol/src/export.rs:966-1002 | In schemas with plain names that rewriting changes nothing, in whatever order |
| TsScan.SurvivingArmsAreKept | codex-rs/app-server-protocol/src/export.rs:305-328 | Main result. For every body, balanced or not: splitting what was filtered and joined gives back exactly the surviving parts, same text and order |
| TsScan.FilteringComposes | codex-rs/app-server-protocol/src/export.rs:370-395 | Two filters in a row are one filter by both conditions, so filtering twice is filtering once |
| TsScan.FilteringUnionTwice | codex-rs/app-server-protocol/src/export.rs:305-328 | For a whole type alias: filtering twice is filtering once, and the second pass sees the survivors of the first |
| TsScan.SplitIsStable | codex-rs/app-server-protocol/src/export.rs:758-777 | Each split part is trimmed, non-empty, without a top-level delimiter, and only the last can leave a bracket or string open |
| TsScan.SplitOfJoin | codex-rs/app-server-protocol/src/export.rs:758-777 | Splitting undoes joining on every such list of parts |
| TsScan.SplittingCovers | codex-rs/app-server-protocol/src/export.rs:758-777 | The pieces between top-level delimiters, with the delimiters put back, are the text: nothing is lost |
| TsScan.SplitTopLevelMulti | codex-rs/app-server-protocol/src/export.rs:758-777 | The loop with its byte positions computes the split |
| TsScan.ScanState.Observe | codex-rs/app-server-protocol/src/export.rs:887-922 | One character updates the bracket depths and the string and escape state as the scanner specification does |
| TsScan.ScanState.AtTopLevel | codex-rs/app-server-protocol/src/export.rs:924-941 | True exactly outside strings and with every depth at zero |
| TsScan.DepthsFit | codex-rs/app-server-protocol/src/export.rs:929-935 | No depth exceeds the length of the text, so 32-bit depths do not overflow on text shorter than 2^31 |
| TsScan.DepthIsSurplus | codex-rs/app-server-protocol/src/export.rs:887-922 | Outside strings the depth of each kind of bracket is the largest surplus of opening over closing ones at the end of what was read |
| TsScan.LiteralsAreSkipped | codex-rs/app-server-protocol/src/export.rs:887-922 | A string literal leaves the scan as it was, whatever brackets, delimiters and escaped quotes are in it |
| TsScan.SourceSeparators | codex-rs/app-server-protocol/src/export.rs:305-395 | The delimiters and separators used for unions and field lists meet the requirements of the results above |
| TsScan.FilterClientRequestContents | codex-rs/app-server-protocol/src/export.rs:305-328 | The union filter rebuilds the alias around the surviving arms and leaves any other content alone |
| TsScan.SplitOfNewBody | codex-rs/app-server-protocol/src/export.rs:706-716 | An alias whose body is replaced splits again into the same head, the new body and the same tail |
| TsFields.FieldsAreFoundAgain | codex-rs/app-server-protocol/src/export.rs:718-752 | Main result. For every type file and every selection of fields: the scan of the filtered file finds the same braces, around the fields that are left, exactly when there are no fields, or the last one closes all it opens, or is left out, or some field that is kept has a '}' that closes nothing of its own |
| TsFields.FilteringFieldsTwice | codex-rs/app-server-protocol/src/export.rs:370-395 | Under that condition filtering a whole type file twice is filtering it once, and the second pass sees exactly the fields the first one kept |
| TsFields.EvenBodiesKeepBraces | codex-rs/app-server-protocol/src/export.rs:370-395 | The condition holds for every selection if no '}' between the braces closes nothing of its own |
| TsFields.BracesCanBeLost | codex-rs/app-server-protocol/src/export.rs:735-752 | A type with two properties, in which without the first the second pass finds no braces at all |
| TsFields.FilteredIsShut | codex-rs/app-server-protocol/src/export.rs:370-395 | The fields kept are ended by the same brace exactly under that condition |
| TsFields.FindTopLevelBraceSpan | codex-rs/app-server-protocol/src/export.rs:735-752 | The loop finds the first brace that brings the scan back to the top level, with the last that left it |
| TsFields.FilterTypeFieldsContents | codex-rs/app-server-protocol/src/export.rs:370-395 | The field filter rebuilds the file around the fields that are left, and leaves a file without braces alone |
| TsFields.PrintedAlias | codex-rs/app-server-protocol/src/export.rs:718-752 | A printed type alias with a balanced body falls into what stands up to its brace, its fields, and the rest |
| TsFields.PrintedInterface | codex-rs/app-server-protocol/src/export.rs:718-752 | So does a printed interface, in a file without an equals sign |
| Text.TrimSplits | codex-rs/app-server-protocol/src/export.rs:758-777 | Trimming removes whitespace from both ends, only that, and all of it |
| Text.TrimIsUnique | codex-rs/app-server-protocol/src/export.rs:758-777 | Only one string can result from removing all outer whitespace |
| Canonical.NormalForm | codex-rs/app-server-protocol/src/schema_fixtures.rs:150-225 | Main result. Two values have the same canonical form exactly when one turns into the other by reordering object keys, and items of arrays whose every item has a sort key, at any depth |
| Canonical.FixturesMatchExactlyWhenEquivalent | codex-rs/app-server-protocol/src/schema_fixtures.rs:122-133 | Fixtures are compared as the indented text of their canonical forms; these texts are equal exactly when the values are equivalent |
| Canonical.CanonIsIdempotent | codex-rs/app-server-protocol/src/schema_fixtures.rs:150-206 | Canonicalising twice is canonicalising once |
| Canonical.ArraysKeepTheirItems | codex-rs/app-server-protocol/src/schema_fixtures.rs:150-200 | An array keeps its items up to canonical form and with their multiplicity; in order if one has no sort key, else sorted |
| Canonical.SortedArrays | codex-rs/app-server-protocol/src/schema_fixtures.rs:172-225 | For well-formed items: an array is sorted exactly when none of them is an array and each object among them has a string under `$ref` or `title`; two such arrays with the same items, in any order, have one canonical form |
| Canonical.SortedByKind | codex-rs/app-server-protocol/src/schema_fixtures.rs:186-225 | In a sorted array booleans come first, then numbers, null, objects by `$ref`, strings and objects by `title`, each kind in the order of its text, and equal ones in that of their compact text |
| Canonical.KeyedItems | codex-rs/app-server-protocol/src/schema_fixtures.rs:208-225 | An item has a sort key unless it is an array, or an object without a string under both names |
| Canonical.KeysAreSorted | codex-rs/app-server-protocol/src/schema_fixtures.rs:200-206 | The entries of a canonical object come in the order of their keys |
| Canonical.SortKeySurvives | codex-rs/app-server-protocol/src/schema_fixtures.rs:208-225 | Canonicalising does not change an item's sort key, so the test for sortability is stable |
| Canonical.CanonicalizeJson | codex-rs/app-server-protocol/src/schema_fixtures.rs:150-206 | The recursion with its early return computes the canonical form |
| Canonical.HaveSortKeys | codex-rs/app-server-protocol/src/schema_fixtures.rs:172-188 | The early-return loop answers whether every item has a sort key |
| Canonical.ItemOrderIsTotal | codex-rs/app-server-protocol/src/schema_fixtures.rs:186-196 | Sort key, then compact text, orders well-formed items totally |
| CompactJson.CompactTextIsInjective | codex-rs/app-server-protocol/src/schema_fixtures.rs:186-196 | Two well-formed values with the same compact text are the same value, so ties in the item order are equal items |
| CompactJson.StringsReadBack | codex-rs/app-server-protocol/src/schema_fixtures.rs:186-196 | A quoted string, with its escapes, reads back as the string, whatever follows it |
| PrettyJson.SqueezedIsCompact | codex-rs/app-server-protocol/src/schema_fixtures.rs:122-133 | Without the whitespace between its tokens the indented text is the compact text |
| PrettyJson.PrettyTextIsInjective | codex-rs/app-server-protocol/src/schema_fixtures.rs:122-133 | Two well-formed values with the same indented text are the same value |
| Sorting.SortSorts | codex-rs/app-server-protocol/src/schema_fixtures.rs:186-206 | Sorting by a total order sorts |
| Sorting.SortForgetsOrder | codex-rs/app-server-protocol/src/schema_fixtures.rs:186-206 | Sorted lists are equal exactly when the lists have the same elements |
| EventPipeline.PositionsAreExact | codex-rs/app-server-client/src/lib.rs:309-394 | Main result. On every run, adding up the lag markers before a delivered event gives its true index in the stream the worker took from the runtime |
| EventPipeline.LagIsAccounted | codex-rs/app-server-client/src/lib.rs:309-394 | On every run: markers plus the uncounted tail account for exactly the dropped events; none of them requires delivery; and the server requests among them are those rejected, in order, one attempt each; up to the event lost when the consumer is found gone |
| EventPipeline.SkippedIsBounded | codex-rs/app-server-client/src/lib.rs:337-340 | The lag counter never exceeds the number of events taken, so saturation is out of reach before as many events as the largest `usize` |
| EventPipeline.TerminalEventsArrive | codex-rs/app-server/src/in_process.rs:592-673 | On every run, while no sender has found a receiver gone: the terminal events seen by the consumer, then those on their way, are the terminal messages read from `writer_rx`, in order |
| EventPipeline.OrderIsKept | codex-rs/app-server/src/in_process.rs:592-673 | On every run, whoever goes away: the consumer sees events in the order their messages were read |
| EventPipeline.RequestsAreConserved | codex-rs/app-server/src/in_process.rs:592-640 | While no sender has found a receiver gone, every server request read is delivered or on its way, or refused by the runtime, or rejected by the worker, exactly one of these |
| EventPipeline.IntactWhileOpen | codex-rs/app-server-client/src/lib.rs:309-394 | No sender finds a receiver gone unless the consumer closes or the worker shuts down |
| EventPipeline.RunsCanBeCompleted | codex-rs/app-server-client/src/lib.rs:309-394 | From any point of any run at which nobody is gone, the loops can go on until nothing is on its way; the consumer has then seen, in order, everything that was, and nothing more is dropped, refused or rejected |
| EventPipeline.NothingIsLost | codex-rs/app-server/src/in_process.rs:592-673 | On every run shorter than both queues are long, on which nobody goes away, every message read is seen or on its way, in order, and nothing is counted, refused or rejected |
| EventPipeline.DroppedOnlyWhenStuck | codex-rs/app-server-client/src/lib.rs:333-393 | An event is dropped, refused or rejected only in a step that finds its queue full or its receiver gone |
| EventPipeline.KeptUnlessStuck | codex-rs/app-server-client/src/lib.rs:309-394 | Any other step keeps all that is on its way, in order, and adds just what comes in |
| EventPipeline.GoneIsNoticed | codex-rs/app-server/src/in_process.rs:592-673 | Neither loop stops for a full queue; both notice a receiver that is gone at the next send, except that the runtime refuses a request and goes on |
| EventPipeline.GoneForGood | codex-rs/app-server-client/src/lib.rs:309-394 | Who has gone stays gone: a closed consumer sees nothing more, a worker shut down takes nothing more, a stopped runtime reads nothing more |
| EventPipeline.WhoGoes | codex-rs/app-server-client/src/lib.rs:309-394 | The ends close just when they are closed, between events, and that loses nothing on its way |
| EventPipeline.EventsTellMessages | codex-rs/app-server/src/in_process.rs:592-673 | No two messages become the same event, and none the lag marker |
| EventPipeline.RulesAgree | codex-rs/app-server-client/src/lib.rs:60-77 | The runtime's and the worker's rules for what must be delivered agree on every message: completed turns and, with or without their prefix, the three legacy names |
| EventPipeline.Runtime.Forward | codex-rs/app-server/src/in_process.rs:592-673 | One message: wait for room, or push, refuse or drop, as the runtime specification says |
| EventPipeline.Runtime.Resume | codex-rs/app-server/src/in_process.rs:641-645 | A waiting send goes through, ends the loop if the receiver is gone, or waits on |
| EventPipeline.Worker.HandleEvent | codex-rs/app-server-client/src/lib.rs:309-364 | One event up to its first send: wait, send it or its marker, drop and count, or disable, as the worker specification says; behind a marker the event stays in hand |
| EventPipeline.Worker.Resume | codex-rs/app-server-client/src/lib.rs:320-390 | The event in hand, one send per step: a terminal one waits, its marker first; any other is offered once |
| EventPipeline.Worker.Offer | codex-rs/app-server-client/src/lib.rs:373-393 | The last `try_send` of a droppable event: sent, dropped and counted, or disabled |
| EventPipeline.Channel.TrySend | codex-rs/app-server-client/src/lib.rs:333-358 | A bounded channel reports Closed before Full, and takes the item otherwise |
| ClientRequests.Serve | codex-rs/app-server/src/in_process.rs:486-591 | Main result. Whatever comes in: every request read has its channel answered by the end of teardown, with the first reply for its id read after it, or shutdown if there was none, unless it was refused at once; a request is refused as a duplicate exactly when one of its id is in flight; and the loop reads up to its first ending input |
| ClientRequests.Record | codex-rs/app-server/src/in_process.rs:490-541 | A new request is registered, or refused at once, without disturbing any other channel |
| ClientRequests.NewOccupied | codex-rs/app-server/src/in_process.rs:493-506 | An id is registered exactly when an earlier request of that id has had no answer yet |
| ClientRequests.Reply | codex-rs/app-server/src/in_process.rs:572-591 | A reply answers the one channel registered for its id and no other |
| ClientRequests.Close | codex-rs/app-server/src/in_process.rs:691-697 | Teardown answers a channel that still waits |
| ClientRequests.Handle | codex-rs/app-server/src/in_process.rs:486-591 | One turn of the loop keeps the account of every channel |
| ClientRequests.HandleReply | codex-rs/app-server/src/in_process.rs:572-591 | A response or error for a registered id settles its channel, and one for any other id is dropped |
| ClientRequests.WhatEnds | codex-rs/app-server/src/in_process.rs:486-697 | Which inputs end the loop: shutdown, and a client, writer, event consumer or processor that is gone; a duplicate request does not, as the processor never sees it |
| ServerRequests.TurnBoundarySettles | codex-rs/app-server/src/outgoing_message.rs:147-159 | Main result. A request of the thread that is pending at a turn boundary gets the turn-transition error, whatever happens later, and its handler submits nothing, or exactly one Cancel for an elicitation |
| ServerRequests.TurnBoundary | codex-rs/app-server/src/outgoing_message.rs:396-427 | A turn boundary ends exactly the pending requests of its thread; other threads', unscoped and ended ones stay as they are |
| ServerRequests.IdsPartition | codex-rs/app-server/src/outgoing_message.rs:233-260 | On every interleaving each id below the counter is in exactly one place, taken, pending or ended, and the next id has never been used |
| ServerRequests.CounterCounts | codex-rs/app-server/src/outgoing_message.rs:233-235 | The counter never exceeds the number of steps, so a 64-bit one cannot wrap before 2^63 of them |
| ServerRequests.EndedOnce | codex-rs/app-server/src/outgoing_message.rs:319-379 | Once a request has ended, its outcome and what its handler did never change |
| ServerRequests.TooLate | codex-rs/app-server/src/outgoing_message.rs:319-352 | A reply, error or cancellation for a request that has ended does nothing |
| ServerRequests.PendingEnds | codex-rs/app-server/src/outgoing_message.rs:319-427 | A pending request ends in the step that ends it, with the client's very reply, its error, the error of the cancellation, or dropped, and in no other step |
| ServerRequests.OutcomeReachesHandler | codex-rs/app-server/src/outgoing_message.rs:319-427 | That outcome stays, whatever happens later, a handler that runs afterwards does what it calls for, and one can run |
| ServerRequests.OutcomeHistory | codex-rs/app-server/src/outgoing_message.rs:233-427 | On every run an ended request has the outcome of the first action after its registration to settle it, and a pending one has met none |
| ServerRequests.NothingWithoutConsent | codex-rs/app-server/src/bespoke_event_handling.rs:1981-2295 | On every run an operation that lets something happen was submitted only if a client's own reply to that very request consented |
| ServerRequests.RepliesComeFromClients | codex-rs/app-server/src/outgoing_message.rs:319-332 | Every result a callback got was sent for it by a client |
| ServerRequests.OutgoingMessageSender.PendingRequestsForThread | codex-rs/app-server/src/outgoing_message.rs:381-394 | Replay lists exactly the thread's pending requests, each once, in issue order |
| ServerRequests.OutgoingMessageSender.CancelRequestsForThread | codex-rs/app-server/src/outgoing_message.rs:396-427 | Collects, removes and resolves the thread's requests, as one step of the specification |
| ServerRequests.OutgoingMessageSender.CancelAllRequests | codex-rs/app-server/src/outgoing_message.rs:354-371 | Leaves nothing pending, and ends all that was, with the error or dropped |
| ServerRequests.OutgoingMessageSender.NotifyClientResponse | codex-rs/app-server/src/outgoing_message.rs:319-332 | Ends the request if it is pending, and is ignored otherwise |
| ServerRequests.OutgoingMessageSender.NotifyClientError | codex-rs/app-server/src/outgoing_message.rs:334-348 | The same for an error reply |
| ServerRequests.OutgoingMessageSender.CancelRequest | codex-rs/app-server/src/outgoing_message.rs:350-352 | Drops the callback and says whether there was one |
| ServerRequests.OutgoingMessageSender.TakeRequestCallback | codex-rs/app-server/src/outgoing_message.rs:373-379 | Takes one callback out of the table, if it is there |
| ServerRequests.OutgoingMessageSender.Resolve | codex-rs/app-server/src/outgoing_message.rs:405-427 | Sends the error to the callbacks taken out, or drops them without one |
| ServerRequests.OutgoingMessageSender.NextRequestId | codex-rs/app-server/src/outgoing_message.rs:233-235 | Hands out the counter and moves it on |
| ServerRequests.OutgoingMessageSender.RegisterCallback | codex-rs/app-server/src/outgoing_message.rs:243-258 | Registers the callback under a number taken before |
| ServerRequests.OutgoingMessageSender.AbortPendingServerRequests | codex-rs/app-server/src/outgoing_message.rs:147-159 | Is the turn-boundary step of the specification |
| JsonRpc.IdOrderIsTotal | codex-rs/app-server-protocol/src/jsonrpc_lite.rs:12-20 | The derived order of request ids is total, names before numbers |
| ApprovalHandlers.SettledOutcomes | codex-rs/app-server/src/bespoke_event_handling.rs:1981-2522 | Exactly which outcomes make a handler stay silent (or cancel an elicitation): the turn-transition error; any error or drop for the v1 exec approval; a client that cancels the elicitation itself |
| ApprovalHandlers.OnlyConsentPermits | codex-rs/app-server/src/bespoke_event_handling.rs:1981-2522 | For every request and outcome: the handler permits exactly when the client's decodable reply consents, never grants a permission not asked for, and completes the item early exactly when it denies, unless the command was not shown or its parent command has started |
| ApprovalHandlers.RepliesArePassedOn | codex-rs/app-server/src/bespoke_event_handling.rs:1981-2522 | A decodable reply is passed on as it is: the decision, the answers, the granted part of what was asked for, the action or the result; any other reads as a refusal |
| ApprovalHandlers.OperationsAddressTheirRequest | codex-rs/app-server/src/bespoke_event_handling.rs:1981-2522 | An operation answers the very call, turn, item, approval or elicitation that its request was made for |
| ApprovalHandlers.FailuresRefuse | codex-rs/app-server/src/bespoke_event_handling.rs:1981-2522 | Any error but the turn's end, and a dropped callback, read as a refusal, or for the v1 exec approval as nothing |
| ApprovalHandlers.DecisionsComplete | codex-rs/app-server/src/bespoke_event_handling.rs:2319-2465 | Which decisions complete the item early, as declined |
| ApprovalHandlers.CommandDecisionsRoundTrip | codex-rs/app-server-protocol/src/protocol/v2.rs:903-925 | The handler's reading of a command decision undoes the conversion from the core's, and the other way round |
| TurnSummary.TurnOutcome | codex-rs/app-server/src/bespoke_event_handling.rs:1888-1920 | Main result. Each turn end sends one TurnCompleted: Interrupted for an abort, else Failed with the latest error since the previous turn end that affects the turn, else Completed; no other input sends one |
| TurnSummary.ErrorRemembered | codex-rs/app-server/src/bespoke_event_handling.rs:1201-1244 | The remembered error is the latest that affects the turn since the last turn end; rollback failures do not count |
| TurnSummary.StartAnnounced | codex-rs/app-server/src/bespoke_event_handling.rs:380-401 | A file-change start is announced exactly when no earlier start of that change is still open |
| TurnSummary.StartsAreSeparated | codex-rs/app-server/src/bespoke_event_handling.rs:1391-1437 | Between two announced starts of one file change it is completed or the turn ends |
| TurnSummary.InterruptsConserved | codex-rs/app-server/src/bespoke_event_handling.rs:1588-1609 | Interrupt requests are answered once each and in order; the others still wait; after an abort has taken them none does |
| TurnSummary.RollbackReplies | codex-rs/app-server/src/bespoke_event_handling.rs:1617-1640 | A rollback's outcome goes to the one request that waits for it; one that finds another waiting is refused at once, and only such a one; one whose submission fails is told so itself |
| TurnSummary.RollbackRemembered | codex-rs/app-server/src/bespoke_event_handling.rs:1922-1942 | The pending rollback is the first one requested since the last outcome or failed submission |
| TurnSummary.NoticesSentFor | codex-rs/app-server/src/bespoke_event_handling.rs:200-1824 | Just the errors that affect the turn are shown, just the completed changes are announced, and pending server requests are aborted first, at every start and end of a turn |
| TurnSummary.RepliesByVersion | codex-rs/app-server/src/bespoke_event_handling.rs:1588-1609 | An interrupt asked for in the first version of the protocol is told the reason of the abort, one of the second is not |
| TurnSummary.WhatAffects | codex-rs/app-server/src/bespoke_event_handling.rs:1201-1244 | Every error affects the turn but that of a failed rollback |
| TurnSummary.ThreadState.HandleTurnComplete | codex-rs/app-server/src/bespoke_event_handling.rs:1888-1902 | Takes the summary and reports the outcome, as the specification says |
| TurnSummary.ThreadState.AnswerInterrupts | codex-rs/app-server/src/bespoke_event_handling.rs:1588-1609 | The first lock region of an abort: answers the waiting interrupts, by version, and leaves none |
| TurnSummary.ThreadState.HandleTurnInterrupted | codex-rs/app-server/src/bespoke_event_handling.rs:1904-1920 | The second: takes the summary and reports Interrupted |
| TurnSummary.ThreadState.HandleError | codex-rs/app-server/src/bespoke_event_handling.rs:1201-1244 | A rollback failure settles the rollback only; any other error is remembered and shown |
| TurnSummary.ThreadState.StartFileChange | codex-rs/app-server/src/bespoke_event_handling.rs:1391-1419 | Announces the start only if the change was not started already |
| TurnSummary.ThreadState.CompleteFileChangeItem | codex-rs/app-server/src/bespoke_event_handling.rs:1798-1824 | Forgets the start and announces the completion |
| TurnSummary.ThreadState.RequestRollback | codex-rs/app-server/src/codex_message_processor.rs:2834-2853 | Refuses a rollback while one is pending |
| TurnSummary.ThreadState.FailRollback | codex-rs/app-server/src/codex_message_processor.rs:2855-2870 | Forgets the pending rollback and answers the request whose submission failed |
| TurnSummary.ThreadState.HandleRolledBack | codex-rs/app-server/src/bespoke_event_handling.rs:1617-1640 | Answers the waiting rollback with success or failure, and forgets it |
| TurnSummary.ThreadState.RequestInterrupt | codex-rs/app-server/src/codex_message_processor.rs:6446-6452 | Queues the interrupt behind those that wait |
| ThreadStatus.CountersAreBounded | codex-rs/app-server/src/thread_status.rs:159-272 | Main result. On every run, since the last clear: fresh guards held, less stale ones released, <= counter <= fresh guards held, as long as fewer than 2^32 guards are taken; exact when no stale guard comes back |
| ThreadStatus.NoFlagWithoutGuard | codex-rs/app-server/src/thread_status.rs:381-403 | A thread without fresh guards shows no waiting flag |
| ThreadStatus.ObserverIsRight | codex-rs/app-server/src/thread_status.rs:218-241 | A client that starts from NotLoaded and follows the notices is right about every thread not upserted silently since the last notice about it, and the published running count is right after every call |
| ThreadStatus.StaysNotLoaded | codex-rs/app-server/src/thread_status.rs:328-344 | A thread that is not loaded stays so exactly under calls for other threads, its removal and its shutdown; the late release of a guard loads it again |
| ThreadStatus.LateReleaseReloads | codex-rs/app-server/src/thread_status.rs:328-344 | A legal run, guard taken, thread shut down, guard released, after which the thread is Idle |
| ThreadStatus.NoticeTells | codex-rs/app-server/src/thread_status.rs:296-370 | A call sends at most one notice, it tells the new status, and exactly the calls that change a status, or make a thread known, send one, unless upserting silently |
| ThreadStatus.CounterAfter | codex-rs/app-server/src/thread_status.rs:159-272 | What each call does to each counter, with saturation at both ends |
| ThreadStatus.StatusMeans | codex-rs/app-server/src/thread_status.rs:381-403 | What each status says of a thread, for every combination of facts |
| ThreadStatus.RunningHistory | codex-rs/app-server/src/thread_status.rs:142-177 | A thread is running exactly when the last start of a turn came after its last end, error, shutdown and removal |
| ThreadStatus.ErrorHistory | codex-rs/app-server/src/thread_status.rs:142-177 | It is in error exactly when an error was noted after the last start of a turn and the last removal |
| ThreadStatus.LoadedHistory | codex-rs/app-server/src/thread_status.rs:159-167 | It is loaded exactly when the last call for it was neither its shutdown nor its removal |
| ThreadStatus.GuardsShow | codex-rs/app-server/src/thread_status.rs:381-403 | On every run a thread with more fresh guards held than stale ones released is shown Active with the flag of that kind |
| ThreadStatus.ThreadWatchManager.Publish | codex-rs/app-server/src/thread_status.rs:218-241 | Counts the running threads and publishes the count, then the notice |
| ThreadStatus.ThreadWatchManager.UpdateRuntime | codex-rs/app-server/src/thread_status.rs:328-344 | Sets the thread loaded, applies the update, and notifies exactly on a change of status |
| ThreadStatus.ThreadWatchManager.RemoveThread | codex-rs/app-server/src/thread_status.rs:315-326 | Forgets the thread, and notifies NotLoaded if it was known and loaded |
| ThreadStatus.ThreadWatchManager.NoteThreadShutdown | codex-rs/app-server/src/thread_status.rs:159-167 | Clears the activity and unloads the thread |
| ThreadStatus.ThreadWatchManager.NoteActiveGuardReleased | codex-rs/app-server/src/thread_status.rs:243-253 | A released guard lowers its counter, not below zero |
| ThreadStatus.ThreadWatchManager.UpsertThread | codex-rs/app-server/src/thread_status.rs:93-96 | Loads the thread and notifies on a change |
| ThreadStatus.ThreadWatchManager.UpsertThreadSilently | codex-rs/app-server/src/thread_status.rs:98-101 | Loads the thread without a notice |
| ThreadStatus.ThreadWatchManager.NoteTurnStarted | codex-rs/app-server/src/thread_status.rs:142-149 | Sets the thread running and clears a system error |
| ThreadStatus.ThreadWatchManager.NoteTurnCompleted | codex-rs/app-server/src/thread_status.rs:151-153 | Clears the activity of the thread, failed or not |
| ThreadStatus.ThreadWatchManager.NoteTurnInterrupted | codex-rs/app-server/src/thread_status.rs:155-157 | Clears the activity of the thread |
| ThreadStatus.ThreadWatchManager.NoteSystemError | codex-rs/app-server/src/thread_status.rs:169-177 | Clears the activity and records the error |
| ThreadStatus.ThreadWatchManager.NotePendingRequest | codex-rs/app-server/src/thread_status.rs:204-216 | Loads the thread and raises the counter, up to the largest 32-bit number |
| Subscriptions.AlwaysValid | codex-rs/app-server/src/thread_state.rs:150-322 | After every sequence of calls the two maps are converses, no stored set of threads is empty, and only live connections follow anything |
| Subscriptions.FollowHistory | codex-rs/app-server/src/thread_state.rs:150-322 | Main result. After every sequence of calls a connection follows a thread exactly when it subscribed to it while live, and since then has neither unsubscribed nor gone, and the thread has not been removed |
| Subscriptions.LiveHistory | codex-rs/app-server/src/thread_state.rs:150-156 | A connection is live exactly when it was initialized and has not gone since |
| Subscriptions.NextSteps | codex-rs/app-server/src/thread_state.rs:150-322 | What each call does to the three maps, seen as a relation of connections and threads |
| Subscriptions.GoneFollowsNothing | codex-rs/app-server/src/thread_state.rs:241-322 | After every sequence of calls a removed connection follows nothing, unless initialized again |
| Subscriptions.StepsOnce | codex-rs/app-server/src/thread_state.rs:150-322 | The relation and the invariant leave one possible result for each action |
| Subscriptions.ThreadStateManager.RemoveThreadState | codex-rs/app-server/src/thread_state.rs:172-197 | Removes the thread from every connection's set and drops the sets that become empty |
| Subscriptions.ThreadStateManager.UnsubscribeConnectionFromThread | codex-rs/app-server/src/thread_state.rs:199-230 | Removes the one pair, and says whether it was there |
| Subscriptions.ThreadStateManager.TryAddConnectionToThread | codex-rs/app-server/src/thread_state.rs:270-291 | Adds the one pair exactly when the connection is live |
| Subscriptions.ThreadStateManager.RemoveConnection | codex-rs/app-server/src/thread_state.rs:293-322 | Removes the connection from every thread, and lists the threads it leaves without followers |
| Subscriptions.ThreadStateManager.ConnectionInitialized | codex-rs/app-server/src/thread_state.rs:150-156 | Makes the connection live and changes nothing else |
| Subscriptions.ThreadStateManager.EnsureThread | codex-rs/app-server/src/thread_state.rs:167-170 | Makes an entry for the thread if there is none |
| CommandExec.SpawnProcessOutput | codex-rs/app-server/src/command_exec.rs:574-616 | For any chunking the first min(cap, n) bytes and no others are passed on, each once, in the deltas or in the buffer; only the last delta says that the cap is reached, exactly when it is |
| CommandExec.StreamsHaveIds | codex-rs/app-server/src/command_exec.rs:158-162 | The checks of `start` let nothing stream without a process id, so no output is lost |
| CommandExec.StartedWith | codex-rs/app-server/src/command_exec.rs:158-250 | Exactly which requests are started, and what they stream, under which id and cap |
| CommandExec.RefusedBecause | codex-rs/app-server/src/command_exec.rs:158-250 | Which error each of the others gets: that of the first check it fails |
| SeekSequence.SeekSequence | codex-rs/apply-patch/src/seek_sequence.rs:18-109 | Finds the first match of the strictest level that matches anywhere in the window |
| SeekSequence.FindsOnce | codex-rs/apply-patch/src/seek_sequence.rs:18-109 | That determines the answer; None exactly when nothing in the window matches even normalised; and a match lies inside the file |
| SeekSequence.EofLooksOnlyAtTheEnd | codex-rs/apply-patch/src/seek_sequence.rs:29-33 | With `eof`, the result is the end position exactly when the pattern matches there after normalising, and None otherwise |
| SeekSequence.PromiseKept | codex-rs/apply-patch/src/seek_sequence.rs:1-33 | Exactly when the search keeps what its comment promises of `eof`: the pattern matches at the end, or nowhere from `start` on, or is empty, or is longer than the file |
| SeekSequence.NoSecondSearch | codex-rs/apply-patch/src/seek_sequence.rs:1-11 | An input where the promise is broken: a second search from `start` would find a match, and nothing is found |
| SeekSequence.LevelsNest | codex-rs/apply-patch/src/seek_sequence.rs:34-108 | Lines that are the same at one level are the same at every more lenient one |
| SeekSequence.SameButForTheEnd | codex-rs/apply-patch/src/seek_sequence.rs:41-52 | Lines are the same at the second level exactly when they differ in whitespace behind them only |
| SeekSequence.SameButForTheEnds | codex-rs/apply-patch/src/seek_sequence.rs:54-65 | Lines are the same at the third level exactly when they differ in whitespace around them only |
| SeekSequence.AsciiReads | codex-rs/apply-patch/src/seek_sequence.rs:77-94 | Which characters read as a hyphen, an apostrophe, a quotation mark or a space; every other reads as itself |

## Left out

- SchemaFlatten.FlatteningPreservesMeaning: refs outside definitions, refs whose first segment names no definition, and refs in which taking out v2 changes more than the prefix are not covered, nor is the meaning of a pointer that passes a key `$ref`; for all of them `OkBundleIsComplete` is what holds.
- SchemaBundle.BuildSchemaBundle: of several disagreements in one schema the error names one, which depends on the order of iteration; so does, where names hold a slash or a namespace is itself the name of a type, the order in which the refs to several owned names are rewritten.
- SchemaBundle.LocalRefsResolve: namespaces with a slash in their names, and refs that begin with the namespace already, have results of their own (`SlashedNamespacesAreMissed`, `PrefixedRefsAreLeftAlone`).
- SchemaStrip.StripKeepsRefs: says nothing about refs under nested `definitions` and `$defs` keys; `RefFate` says what becomes of those.
- TsScan.FilterClientRequestContents: `keep` stands for the test on an arm's method (`extract_method_from_arm`), and the pruning of unused imports that follows is not modelled.
- TsFields.FilterTypeFieldsContents: `keep` stands for the test on a field's name (`strip_leading_block_comments`, `parse_property_name`), and the pruning of unused imports that follows is not modelled.
- TsFields.FilteringFieldsTwice: without the condition of `FieldsAreFoundAgain` the second pass works on other text, or none, and nothing is stated of it.
- TsScan.ScanState.Observe: the depths are unbounded, where the source has 32-bit ones; `DepthsFit` says when that cannot matter.
- EventPipeline.LagIsAccounted: the counter is unbounded, where the source saturates at the largest `usize` (`SkippedIsBounded`); accounting ends with the event that finds the consumer gone; and what the runtime layer drops before the worker is not counted, as in the source.
- EventPipeline.RequestsAreConserved: counts the worker's attempts to reject; `fail_server_request` is itself a `try_send` whose error is ignored, so an attempt need not arrive.
- ClientRequests.Serve: what `try_send` on the processor's queue reports is part of the input, and the processor behind it is not part of this model; nor is a runtime task that is aborted from outside.
- ServerRequests.IdsPartition: ids are unbounded, where the source has 64-bit ones that wrap (`CounterCounts`).
- ServerRequests.TurnBoundarySettles: a client error that itself carries the reason `turnTransition` is treated like the server's own, as in the source.
- ApprovalHandlers.OnlyConsentPermits: permission profiles are sets, and their intersection stands for `intersect_permission_profiles`, which is not part of this model.
- TurnSummary.TurnOutcome: the flag that TurnComplete reads beforehand, under a lock of its own, is left out, as nothing uses it.
- TurnSummary.StartsAreSeparated: is about the order of the lock regions; notices are sent after the lock is released.
- ThreadStatus.ObserverIsRight: each manager call is one step; in the source the count and the notice are sent after the lock is released.
- CommandExec.SpawnProcessOutput: the chunks are those received before the channel closes or the deadline passes; base64 and the decoding of the buffer to text are left out.
- Json.ResolveDef: pointer segments are taken as they are, without the escapes of RFC 6901 or percent-decoding.
- JSON trees are rewritten in place in the source and as values here; the objects of `export.rs` are maps, as `serde_json` compares them without regard to order, and those of `schema_fixtures.rs` keep their order.
- `annotate_schema`, titles and naming policy: an arbitrary function of schema and name.
- `prune_experimental_methods_inner`, experimental field and type removal, index generation, headers, Prettier and all file handling.
- The delivery of a server request to its connections, of which only the failure shows, as a step that removes the callback.
- `route_outgoing_envelope`, request contexts, traces and the message processor behind the queues.
- Real time, timeouts and abort handles, except as steps that may happen at any point.
- Event payload conversion, realtime, collaboration and MCP items, and the start and end of command items.
- `resolve_thread_status`, the listener's generation and cancellation, and the raw-events switch, each settled by one branch.
- Sandboxes, PTYs, stdin, network proxies and the session map of `command/exec` beyond its duplicate check.
