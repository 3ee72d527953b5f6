# Verified core of the Luxo schema compiler

Luxo compiles schemas into Go services. This project models, in Dafny, the parts of the compiler and of
the code it emits whose correctness does not follow from reading one function, and proves what they
guarantee. Code that works step by step is modelled by methods and classes with the source's own loops
and fields; each is proved against a specification function, and the properties are theorems about
those functions, over all inputs, all runs and all iteration orders of Go's maps.

- **Records** (`Wire`, `SelectionMask`, `CanonicalMask`, `RecordCodec`, `RecordRoundTrip`,
  `RequestedFields`, `GeneratedCode`): the self-terminating, nested, mask-driven binary records that generated models write
  and read, from the request to the bytes of the wire primitives.
- **Lock** (`LockModel`, `LockHistory`, `LockCompat`, `LockGuarantees`, `LockAcceptance`,
  `LockEndpoints`, `LockSilence`, `LockReload`, `LockFileObject`): the stable IDs of `luxo.lock` as a state machine of updates and
  reloads, the wire-compatibility check, and when a schema is compatible with its own update.
- **Migrations** (`SchemaDiff`, `MigrationProofs`, `MigrationResults`, `SchemaMigrations`,
  `MigrationEmptiness`, `RenameDetection`, `MigrationDiff`): the diff of two schema states and what
  executing it does.
- **Grouped loads** (`GroupedLoad`, `GroupedTransport`, `RemoteLoad`): batch queries over composite keys,
  local and across modules.
- **Await fusion** (`AwaitFusion`, `FusionQueries`, `FusionMeaning`, `FusionCompiler`): merging aggregate queries.
- **Lexer** (`LexerModel`, `LexerObject`, `LexerProperties`, `LexerMunch`, `TokenPrinter`): nested
  string interpolation, longest spellings, positions, and the formatter's printing of strings.
- **Selections and pages** (`SelectionTrie`, `Pagination`), **inferred queries** (`InferredOr`,
  `InferredNames`, `InferredSql`), **chart names** (`ChartName`). `Wrappers` holds the option type.

Where a promise does not hold of the code, the code is kept as it is and the exact condition is proved:

- The record writer has no size limits, the reader has (a million list elements, 64 MiB of arena). A
  written record is decodable exactly when it respects them (`DecodableIffFits`).
- Empty field types are not saved, so an event locked without parameters is no longer guarded against
  additions after a reload (`ReloadKeepsVerdictIff`, `PayloadGrowsUnnoticed`).
- A schema is compatible with the lock just updated to it exactly when no type or event is declared again
  without a field of an earlier declaration (`UpdateIsSelfCompatibleIff`, `SplitEventNeverSettles`), and
  repeating the update changes nothing exactly when, besides, endpoints of one name agree on their parameters
  (`UpdateIsIdempotentIff`). With CRUD models `User` and `Users` they do not: `deleteUsers` takes `ids` for
  one and `id` for the other, and every update gives out a new parameter ID (`UserAndUsersNeverSettle`).
- The README of the repository lists rename detection, but the migration command builds both ID maps
  from locks in which an ID never denotes two names, so no rename is ever detected and a renamed field's
  column is dropped (`CommandMigrates`, `RenamedFieldLosesColumn`). Renames from elsewhere migrate under
  every map order exactly when they are clean (`DiffMigratesIffClean`).
- A generated handler declares one Go variable for every parameter of an inferred query, in one scope. The
  names are distinct exactly when no two clauses clash (`HandlerCompilesIff`); a lower and an upper bound on
  one field, or two "containing" clauses, do (`TwoBoundsDoNotCompile`), and the handler does not compile.
- The OR form of an inferred query with an empty list argument is not valid SQL, while the AND form
  renders a constant (`OrFormValidIff`, `EmptyListIsInvalid`).

Conventions. Partial Go operations that would panic are modelled as failures. `Some`/`None` and
`Got`/`Bad` stand for error returns. A map that Go ranges over has an explicit order parameter in the
specification, and the methods take keys in any order. A `World` parameter holds what the compiler cannot
know: rows, argument values, the meaning of an SQL fragment.

## Model

| member | source | states |
|---|---|---|
| Wire.AppendVarint | pkg/lux/codec/wire.go:31-38 | the loop appends exactly the base-128 groups of the value, least significant first |
| Wire.VarintRoundTrip | pkg/lux/codec/wire.go:31-57 | every uint64 is read back from its varint at any offset and whatever follows, and exactly its bytes are consumed; the reader drops overflowing bits and rejects more than 64 |
| Wire.ReadVarintBounded | pkg/lux/codec/wire.go:40-57 | whatever the bytes, what is read is a uint64 |
| Wire.BytesRoundTrip | pkg/lux/codec/wire.go:96-122 | a length-prefixed byte string is self-delimiting |
| Wire.LittleEndianRoundTrip | pkg/lux/codec/wire.go:78-90 | a 64-bit pattern survives its eight little-endian bytes |
| SelectionMask.FieldMaskSetExact | pkg/lux/codec/fieldmask.go:10-36 | setting an ID in a bitmap adds that ID to the selected IDs and changes no other; the empty bitmap, which selects everything, is the stated exception |
| SelectionMask.SelectionNodeRoundTrip | pkg/lux/codec/selectionmask.go:13-104 | a node written with increasing child IDs is accepted as canonical, gives back its own bitmap, and each relation finds exactly its own child mask |
| CanonicalMask.AcceptedIff | pkg/lux/codec/selectionmask.go:34-73 | a mask is accepted, and taken apart into these two, if and only if it is a length, a bitmap of that length that does not end in a zero byte, and children that fill the rest, with increasing IDs and non-empty accepted masks |
| CanonicalMask.LookupFinds | pkg/lux/codec/selectionmask.go:84-104 | in accepted children the lookup finds exactly the child with the ID, and never reads past them |
| CanonicalMask.NestedAccepted | pkg/lux/codec/selectionmask.go:84-104 | the mask found for a relation of an accepted mask is accepted and not empty |
| CanonicalMask.EmptyChildDropped | pkg/lux/codec/selectionmask.go:13-31 | a child without an ID or without a mask leaves no trace in the node |
| RequestedFields.SelectToFieldMask | pkg/lux/schema/schema.go:403-450 | the loop over the fields of a request sets their IDs in the bitmap and collects the masks of what is asked of relations, which are sorted by ID |
| RequestedFields.BitmapExact | pkg/lux/codec/fieldmask.go:10-36 | the bitmap of a request has exactly the IDs that are named, and does not end in a zero byte |
| RequestedFields.MaskRoundTrip | pkg/lux/codec/selectionmask.go:13-104 | for requests nested to any depth: the mask is accepted as canonical, and each relation finds in it the mask of what is asked of it, or none if nothing is |
| RequestedFields.MaskMeans | pkg/codegen/writejson.go:314-402 | what the writer makes of the mask is what the request asks for: the fields written, the relations that must be loaded, the reader's limits and the projection |
| RequestedFields.OneAnswer | pkg/codegen/writejson.go:314-402 | a request has only one answer for a record |
| RequestedFields.RequestRoundTrip | pkg/codegen/writejson.go:314-402 | the record written for a request, wherever it sits in a buffer, is read back to its last byte if and only if the answer is within the limits, and then is the answer: every encodable field whose ID is named has its value, a relation the answer to what is asked of it, every other field is zero |
| RequestedFields.MalformedAsksForAll | pkg/lux/codec/selectionmask.go:75-104 | a malformed mask selects every encodable field, relations with all their default fields |
| RequestedFields.ConformsIff | pkg/codegen/writejson.go:431-505 | the values of a field are the Go values of its type: every int64, every float pattern, nil for pointers, slices of any length |
| RequestedFields.NameAndTitles | pkg/codegen/writejson.go:314-402 | an example of all that is assumed: of a user with posts, a request for the name and the titles of the posts is met with these and zero values |
| RecordRoundTrip.RoundTrip | pkg/codegen/writejson.go:314-402 | for every declaration, value nested to any depth and mask: reading what was written, anywhere in a buffer, gives the masked projection, an arena filled to exactly the declared size, and consumes exactly the written bytes if the record respects the reader's limits; otherwise the reader fails |
| RecordRoundTrip.FieldRoundTrip | pkg/codegen/writejson.go:431-505 | the same for one field of any kind: nullable, list, scalar, relation |
| RecordRoundTrip.RowsRoundTrip | pkg/codegen/writejson.go:706-721 | a list of nested records is read back element by element, each with its child mask and its own arena |
| RecordRoundTrip.ArenaWithinRecord | pkg/codegen/writejson.go:239-304 | the arena size put in front never exceeds the bytes that follow it |
| RecordRoundTrip.ArenaLenIsPrefixLength | pkg/codegen/writejson.go:239-304 | the length the writer accumulates over the selected string and enum fields is the length of the strings the reader will copy |
| RecordRoundTrip.DecodableIffFits | pkg/codegen/writejson.go:655-704 | a written record on its own is decodable if and only if its lists have at most a million elements and its arenas at most 64 MiB, at every depth |
| RecordRoundTrip.ArenaNeverOverfull | pkg/codegen/writejson.go:655-704 | whatever the bytes: a decoded record has all its fields, and its arena is filled to at most the declared size, which is at most 64 MiB where strings are copied |
| RecordRoundTrip.OversizedListIsUnreadable | pkg/lux/codec/decoder.go:233-245 | the writer has no limit and the reader has: there is a record that is written and cannot be read |
| RecordRoundTrip.DefaultProjectionIsIdentity | pkg/codegen/writejson.go:512-532 | without a mask a record of encodable scalars comes back unchanged |
| GeneratedCode.ArenaLength | pkg/codegen/writejson.go:239-304 | the accumulating loop computes the specified arena length |
| GeneratedCode.WriteLuxo | pkg/codegen/writejson.go:314-384 | the emitted writer, with its fast path for an empty mask and its masked path, appends exactly the specified record to the buffer |
| GeneratedCode.AppendField | pkg/codegen/writejson.go:386-505 | the emitted code of one field appends its ID and its value, nested records through their own writer and the child mask |
| GeneratedCode.AppendScalars | pkg/codegen/writejson.go:594-626 | the list loop appends the elements in order |
| GeneratedCode.AppendRows | pkg/codegen/writejson.go:394-396 | the loop over nested records appends every one by its own writer and the child mask |
| GeneratedCode.ReadLuxo | pkg/codegen/writejson.go:655-704 | the emitted decoding loop over field IDs terminates and is the specified reader, on every input |
| GeneratedCode.ReadFieldCase | pkg/codegen/writejson.go:741-850 | one case of the emitted switch is the specified field reader, on every input |
| LockHistory.UpdateKeeps | pkg/lockfile/lockfile.go:141-148 | an update to an arbitrary schema keeps the partition of given-out IDs into live and reserved ones, per entity, for APIs and for parameters, and gives no ID to another name |
| LockHistory.ReloadKeeps | pkg/lockfile/lockfile.go:107-138 | saving and loading changes no ID, and the two counters that are not in the file are recomputed to the values lost |
| LockHistory.ReachableInv | pkg/lockfile/lockfile.go:322-368 | conservation: in every lock reachable by any sequence of updates and reloads [1, NextID) is the disjoint union of live and reserved IDs, and likewise for API and parameter IDs |
| LockHistory.FieldIdsNeverReused | pkg/lockfile/lockfile.go:277-368 | over every history, an ID once given to a field of a model, type or event never denotes another field, removal and re-adding included |
| LockHistory.ApiIdsNeverReused | pkg/lockfile/lockfile.go:628-692 | over every history, an API ID never denotes another API and an (API ID, parameter ID) pair never another parameter |
| LockHistory.EnsureKeeps | pkg/lockfile/lockfile.go:628-677 | registering one endpoint, new or known, keeps the conservation of API and parameter IDs |
| LockCompat.MergeOrder | pkg/lockfile/compatibility.go:54-98 | the contract merged file by file declares for every model the same fields as the update, which takes all models before all extends |
| LockGuarantees.ActiveAreRegistered | pkg/lockfile/compatibility.go:193-201 | the endpoint names that a scratch lock calls active are exactly those the schema registers |
| LockGuarantees.AcceptedKeepsIds | pkg/lockfile/compatibility.go:122-201 | if the check of a schema reports nothing, updating to it keeps every model, type and event field ID and every API ID, and reserves none |
| LockGuarantees.AcceptedKeepsParams | pkg/lockfile/compatibility.go:156-191 | and an API with a recorded contract that this schema declares, all endpoints of its name having the same parameters, keeps all its parameter IDs |
| LockGuarantees.AcceptedChainKeepsIds | pkg/lockfile/compatibility.go:31-40 | the same along any chain of accepted schemas, saved and loaded in between or not |
| LockGuarantees.AcceptedChainKeepsParams | pkg/lockfile/compatibility.go:156-191 | and for the parameters of an API that every schema of the chain declares under the same condition |
| LockCompat.UniqueDeclareAll | pkg/lockfile/compatibility.go:98-117 | if names are unique, the last declaration of each has every field declared under it |
| LockAcceptance.UpdateIsSelfCompatibleIff | pkg/lockfile/compatibility.go:31-40 | accepting a schema makes it self-compatible: right after the update the check of the same schema finds nothing, if and only if no type and no event is declared again without a field of an earlier declaration |
| LockAcceptance.UpdateIsIdempotentIff | pkg/lockfile/lockfile.go:141-148 | a second update with the same schema changes nothing at all if and only if, besides, the endpoints registered under one name have the same parameters |
| LockAcceptance.UserAndUsersNeverSettle | pkg/lockfile/lockfile.go:434-451 | two CRUD models whose endpoints share a name: from every lock the update is self-compatible, and the next one changes the lock again |
| LockAcceptance.SplitEventNeverSettles | pkg/lockfile/lockfile.go:227-275 | an event declared twice, first with a parameter and then without: from every lock, what the update records is reported as removed and changed by the next update |
| LockReload.ReloadKeepsVerdictIff | pkg/lockfile/compatibility.go:122-147 | for every lock, what the check says about every schema survives a reload if and only if no locked event has an empty map of types |
| LockReload.PayloadGrowsUnnoticed | pkg/lockfile/compatibility.go:134-145 | a lock whose check reports an added event parameter before saving and nothing after loading |
| LockFileObject.LockFile.constructor | pkg/lockfile/lockfile.go:95-104 | a new lock is the empty lock |
| LockFileObject.ReserveRemoved | pkg/lockfile/lockfile.go:355-368 | the loop that deletes while it iterates appends exactly the IDs of the removed names to the reserved slice, none twice, and changes nothing before them |
| LockFileObject.AssignFields | pkg/lockfile/lockfile.go:322-339 | new names get consecutive IDs from the counter, known names keep theirs |
| LockFileObject.SyncParams | pkg/lockfile/lockfile.go:628-677 | the parameters of a known endpoint: the counter is first raised over all IDs in use, new names get IDs, removed ones are reserved |
| LockFileObject.LockFile.UpdateModels | pkg/lockfile/lockfile.go:277-320 | the object's models end up as the specification of the update says, nothing else changes |
| LockFileObject.LockFile.UpdateTypes | pkg/lockfile/lockfile.go:152-201 | the same for types |
| LockFileObject.LockFile.UpdateExtends | pkg/lockfile/lockfile.go:203-225 | the same for extended models |
| LockFileObject.LockFile.UpdateEvents | pkg/lockfile/lockfile.go:227-275 | the same for events |
| LockFileObject.LockFile.EnsureApiId | pkg/lockfile/lockfile.go:628-677 | an endpoint gets or keeps its ID, and its parameters are brought in step |
| LockFileObject.LockFile.ReserveRemovedApis | pkg/lockfile/lockfile.go:679-692 | endpoints that are no longer active are deleted and their IDs reserved |
| LockFileObject.LockFile.UpdateApis | pkg/lockfile/lockfile.go:371-432 | all endpoints of a schema are registered in the order of the source, deferring ones only where no API of that name is declared |
| LockEndpoints.UpdateRegisters | pkg/lockfile/lockfile.go:371-432 | an update registers the schema's own lists in order: of the CRUD endpoints exactly those that do not defer or whose name no file declares, then federation, named loads, declared APIs and services |
| LockEndpoints.UpdatedNames | pkg/lockfile/lockfile.go:371-432 | the endpoints of an updated lock are exactly the names the schema offers |
| LockEndpoints.OverridingApiSettles | pkg/lockfile/lockfile.go:394-401 | a declared API whose derived namesakes all defer has exactly its declared parameters after an update, and the next update keeps its ID and all its parameter IDs |
| LockFileObject.LockFile.UpdateContractMetadata | pkg/lockfile/compatibility.go:203-233 | the recorded types are those of the contract, for fields that are in the lock |
| LockFileObject.LockFile.Update | pkg/lockfile/lockfile.go:141-148 | the object after Update is the specified function of the object before |
| LockFileObject.LockFile.ComputeNextApi | pkg/lockfile/lockfile.go:705-718 | the API counter is the largest ID in use or reserved |
| LockFileObject.LockFile.SaveAndLoad | pkg/lockfile/lockfile.go:107-138 | what is left of the object after Save and Load: counters recomputed, empty field types forgotten |
| LockFileObject.LockFile.CheckCompatibility | pkg/lockfile/compatibility.go:31-40 | the check changes nothing and returns exactly the changes in which the lock and the declarations differ |
| LockSilence.ReportedIff | pkg/lockfile/compatibility.go:122-191 | a change is reported, with the types before and after, if and only if the lock and the declarations of the schema differ in it: a field or parameter removed, retyped, or added where additions break, an endpoint removed, a return type changed |
| LockSilence.SilentIff | pkg/lockfile/compatibility.go:31-40 | the check is silent if and only if every locked field is declared with the type on record, events with types on record gain no field, every locked endpoint is offered, and every contract on record is the declared one but for new optional parameters |
| LockSilence.AcceptedKeepsDeclared | pkg/lockfile/compatibility.go:156-191 | an accepted schema that declares an API, all derived endpoints of its name deferring, keeps the API's ID and the IDs of all parameters on record |
| LockFileObject.CompareEntries | pkg/lockfile/compatibility.go:122-147 | the comparison of one kind of entity returns the specified changes |
| MigrationProofs.TableMigrates | pkg/codegen/migrate_state.go:315-382 | with clean renames every operation of a table's diff executes, in order, and the table then has the desired columns, keys and sequences of existing columns kept, and the desired index names, same-named indexes kept |
| MigrationProofs.RenamePhase | pkg/codegen/migrate_state.go:337-347 | the rename operations move the columns to their new names, in any order of the map |
| MigrationProofs.AddPhase | pkg/codegen/migrate_state.go:349-358 | the additions add exactly the desired columns that neither exist nor are renamed targets |
| MigrationProofs.DropPhase | pkg/codegen/migrate_state.go:360-369 | the drops remove exactly the columns that are neither desired nor renamed away |
| MigrationProofs.ChangePhase | pkg/codegen/migrate_state.go:371-383 | the changes touch exactly the kept columns that differ, renamed ones excepted |
| MigrationResults.MigratesIffClean | pkg/codegen/migrate_state.go:315-325 | a table migrates under every iteration order if and only if the renames have distinct targets that are new names, and sources that are no longer desired |
| SchemaMigrations.CleanDiffMigrates | pkg/codegen/migrate_state.go:283-312 | for whole schemas: executing the diff succeeds under every iteration order and yields every desired table and no other |
| SchemaMigrations.DiffMigratesIffClean | pkg/codegen/migrate_state.go:283-312 | and it does so for all orders if and only if the detected renames of every table that stays are clean |
| SchemaMigrations.DiffExecutes | pkg/codegen/migrate_state.go:283-312 | executing the whole diff is creating, dropping and executing every table's own diff: operations on one table affect no other |
| MigrationEmptiness.TableUnchangedIff | pkg/codegen/migrate_state.go:315-438 | the diff of a table is empty if and only if nothing was renamed and columns, their issued attributes and index names agree |
| MigrationEmptiness.EmptyIffAgree | pkg/codegen/migrate_state.go:283-312 | with clean renames the diff of two schemas is empty if and only if they agree in that sense |
| MigrationEmptiness.MigratedAgrees | pkg/codegen/migrate_state.go:283-312 | a schema state that describes the migrated database agrees with the desired one |
| MigrationEmptiness.SecondDiffEmpty | pkg/codegen/migrate_state.go:283-312 | so diffing the migrated database with the desired schema, without field IDs and in any order, gives no operation |
| RenameDetection.DetectsIff | pkg/codegen/migrate_state.go:391-411 | detection finds a rename if and only if some ID has an existing column in the old map and another, desired one in the new map |
| RenameDetection.NoRenamesInOneHistory | pkg/codegen/migrate_state.go:391-411 | field ID maps built from any two locks of one history detect no rename, because an ID never denotes two names |
| RenameDetection.CommandMigrates | cmd/luxo/migrate.go:364-401 | so the maps that the migration command builds detect none: its diff always migrates, drops every column of a table that stays and is not desired, and adds every desired column it lacks |
| RenameDetection.RenamedFieldLosesColumn | cmd/luxo/migrate.go:364-401 | a field renamed between two updates of one lock: whatever the order of the loops, its column is dropped and one with the new name is added |
| MigrationDiff.Detect | pkg/codegen/migrate_state.go:391-411 | the loop over the old IDs computes the specified renames for some order of the IDs |
| MigrationDiff.RenamesSets | pkg/codegen/migrate_state.go:327-335 | the sources and the targets of the renames |
| MigrationDiff.DiffRenamedColumns | pkg/codegen/migrate_state.go:337-347 | the loop appends the specified operations for some order of the map |
| MigrationDiff.DiffAddedColumns | pkg/codegen/migrate_state.go:349-358 | the same for additions |
| MigrationDiff.DiffDroppedColumns | pkg/codegen/migrate_state.go:360-369 | the same for drops |
| MigrationDiff.DiffChangedColumns | pkg/codegen/migrate_state.go:371-383 | the same for changes |
| MigrationDiff.DiffIndexes | pkg/codegen/migrate_state.go:414-438 | the same for indexes, found by name, the last of a name winning |
| MigrationDiff.DiffTable | pkg/codegen/migrate_state.go:315-325 | columns and then indexes of one table, with the renames detected on the way |
| MigrationDiff.DiffSchemas | pkg/codegen/migrate_state.go:283-312 | the three loops over models give the specified diff for some order of all the maps |
| GroupedLoad.ConditionsSelectKeys | pkg/codegen/dataloader.go:696-717 | the condition over all keys, an IN or an OR of ANDs, with the soft-delete condition, selects exactly the live rows whose key was asked for; an empty key list selects none |
| GroupedLoad.BatchHoldsEveryKey | pkg/codegen/dataloader.go:630-694 | grouping the rows of the batch query by key gives each key the rows of a query for that key alone, in table order, and other keys none |
| GroupedLoad.KeyConditionOf | pkg/codegen/dataloader.go:696-717 | the emitted loop builds that condition |
| GroupedLoad.Group | pkg/codegen/dataloader.go:679-691 | the emitted loop groups every row under its key and makes no empty group |
| GroupedLoad.LoadLocal | pkg/codegen/dataloader.go:630-694 | the local batch function: every key with rows has exactly its rows, every other key is missing |
| GroupedTransport.KeysSurvive | pkg/codegen/dataloader.go:835-845 | keys taken apart into parallel arrays are rebuilt as they were, duplicates and order included |
| GroupedTransport.ItemsRoundTrip | pkg/codegen/handler.go:1679-1685 | the length-prefixed records of one group are read back as their masked projections if all respect the reader's limits, else the decoding fails |
| GroupedTransport.GroupsRoundTrip | pkg/codegen/handler.go:1675-1687 | the same for all groups |
| GroupedTransport.ResponseRoundTrip | pkg/codegen/dataloader.go:857-878 | the response is decoded, to the last byte, to the projected groups if and only if all rows respect the limits |
| RemoteLoad.ParallelCondition | pkg/codegen/dataloader.go:696-717 | the handler's condition over parallel arrays is the condition over the rebuilt keys |
| RemoteLoad.HandleLoad | pkg/codegen/handler.go:1623-1691 | the handler rejects arrays of unequal lengths and otherwise appends one group per key, in the order of the keys |
| RemoteLoad.AppendGroup | pkg/codegen/handler.go:1679-1686 | the row count and the length-prefixed records, written through a scratch buffer |
| RemoteLoad.DecodeGrouped | pkg/codegen/dataloader.go:857-879 | the caller's decoding of any response: wrong counts, truncated items, undecodable records and trailing bytes are errors, and equal keys share their last group |
| RemoteLoad.LoadRemote | pkg/codegen/dataloader.go:823-881 | for every table, flag and key list: fails if and only if a selected row exceeds the reader's limits; otherwise the result has exactly the keys asked for, each with the masked projection of the rows the key selects |
| RemoteLoad.LoadInBothModes | pkg/codegen/dataloader.go:721-769 | the remote load refines the local one: the same rows per key in the same order, missing counting as empty |
| AwaitFusion.SharedIsGreatest | pkg/codegen/compile.go:3216-3235 | no multiset of conditions larger than the shared one is contained in all tasks of a group |
| AwaitFusion.FactoringExact | pkg/codegen/compile.go:3216-3256 | the common conditions are the multiset intersection over all tasks; with its residual each task has its own conditions back, and the sizes add up |
| AwaitFusion.EachTaskOnce | pkg/codegen/compile.go:3029-3054 | every task is assigned by exactly one goroutine, alone or in one group |
| FusionQueries.AggregateIff | pkg/codegen/compile.go:3108-3180 | a task is taken for an aggregate if and only if it is a local chain of where() calls with stable conditions ended by count() or by sum, avg, min or max of a field; then model, function and field are its own and the conditions are those of all its where() calls |
| FusionMeaning.ConditionsSQL | pkg/lux/pg/query.go:161-178 | the loop numbers the placeholders of consecutive conditions consecutively |
| FusionMeaning.BuildBatch | pkg/lux/pg/query.go:108-134 | the statement of a batch, shared conditions and arguments first, or the error for an empty batch or an unsupported aggregate |
| FusionMeaning.BatchRefusedIff | pkg/lux/pg/query.go:108-160 | a batch is refused if and only if it is empty or has an aggregate other than a count without a column or a sum, avg, min or max with one |
| FusionMeaning.RenderedMeans | pkg/lux/pg/query.go:161-178 | rendered conditions mean the conditions: placeholders find the arguments of their own condition wherever the block starts |
| FusionMeaning.BatchMeans | pkg/codegen/compile.go:3269-3296 | the batch of a fused group executes, and its slot k holds the value task k asks for: its own function and field on the rows of its model that pass every condition of every where() of its chain |
| FusionMeaning.AloneMeans | pkg/codegen/compile.go:3299-3312 | so does the query of a task that is run on its own |
| FusionMeaning.FusionPreservesMeaning | pkg/codegen/compile.go:3029-3054 | for every table, every list of tasks and every aggregate that is a function of the selected rows, each task's variable gets the value its chain asks for |
| FusionMeaning.FusionsWellGrouped | pkg/codegen/compile.go:3071-3106 | fused groups are non-empty, in task order, and share no task |
| FusionCompiler.ConditionCounts | pkg/codegen/compile.go:3237-3243 | the count map is the multiset of the conditions |
| FusionCompiler.CommonConditions | pkg/codegen/compile.go:3216-3235 | minimums over all tasks, then the first occurrences up to them, in the order of the first task |
| FusionCompiler.SubtractConditions | pkg/codegen/compile.go:3245-3256 | decrementing the counts leaves exactly the residual, and the reserved capacity is its length, hence never negative |
| FusionCompiler.CollectGroups | pkg/codegen/compile.go:3071-3091 | one group for every model with aggregates, holding all of them in order |
| FusionCompiler.FinalizeGroups | pkg/codegen/compile.go:3093-3106 | filtering the groups within their own array keeps exactly those of at least two tasks, factored |
| FusionCompiler.GroupAt | pkg/codegen/compile.go:3258-3267 | the group of a task and whether the task is its first |
| FusionCompiler.AggregateGroups | pkg/codegen/compile.go:3071-3106 | every aggregate that shares its model with another one ends up in a fused group |
| FusionCompiler.EmitTasks | pkg/codegen/compile.go:3029-3054 | the goroutines emitted, in task order; none is a batch under an API-level scope |
| FusionCompiler.EmittedMeans | pkg/codegen/compile.go:3029-3054 | the goroutines emitted assign every variable the value its task asks for, with or without a scope |
| FusionCompiler.SameModelFused | pkg/codegen/compile.go:3071-3106 | without a scope, any two aggregates on one model are answered by one query |
| LexerObject.Lexer.Advance | pkg/lexer/lexer.go:501-513 | the cursor's line and column are those of a scan of the prefix |
| LexerObject.Lexer.ReadStringBody | pkg/lexer/lexer.go:402-430 | the text up to a quote or "${" with escapes skipped in pairs, the interpolation entered or not, or the error |
| LexerObject.Lexer.ReadBlockComment | pkg/lexer/lexer.go:455-480 | nested block comments end where the depth returns to zero |
| LexerObject.Lexer.ReadNumber | pkg/lexer/lexer.go:352-386 | integers, floats and durations; two dots are a range, not a fraction |
| LexerObject.Lexer.ReadPlain | pkg/lexer/lexer.go:134-349 | operators, comments, numbers and words are the tokens the model says |
| LexerObject.Lexer.NextToken | pkg/lexer/lexer.go:64-111 | one step of the object is one step of the model, and the interpolation stack stays strictly increasing and bounded by the brace depth |
| LexerObject.Lexer.Tokenize | pkg/lexer/lexer.go:46-62 | terminates on every source with the tokens and errors of the model, each at the line and column a scan of the prefix gives |
| LexerProperties.LexTiles | pkg/lexer/lexer.go:46-111 | on every source the tokens are non-empty, in order, separated by white space only, up to one end-of-file token at the end or at a rune 0 |
| LexerProperties.TokensCoverSource | pkg/lexer/lexer.go:46-111 | on a source without the rune 0 every rune is white space or in exactly one token, and the last token is at the end |
| LexerMunch.NumberLongest | pkg/lexer/lexer.go:352-386 | a number is the longest reading as digits, digits with a fraction, or digits with a unit, where a dot before another dot is no fraction |
| LexerMunch.LexMunches | pkg/lexer/lexer.go:134-349 | in every source: a token is a symbol if and only if a spelling of the language stands at its start and no comment does, and it is the longest spelling there; digits start the longest number; letters and underscores start a word that ends where no word rune follows |
| LexerProperties.NextKeepsNested | pkg/lexer/lexer.go:114-131 | every step keeps the interpolation stack strictly increasing and bounded by the brace depth |
| LexerProperties.LexRuns | pkg/lexer/lexer.go:64-111 | every token sequence is a run of the nesting machine: a string resumes exactly at the depth where its interpolation began |
| LexerProperties.InterpolationsBalanced | pkg/lexer/lexer.go:64-81 | between a piece of a string that opens an interpolation and the piece that closes it the braces are balanced, in every source |
| TokenPrinter.EscapeStringVal | pkg/formatter/formatter.go:188-206 | the escaping loop, with its early exit, is the specified rewriting |
| TokenPrinter.EscapeIdempotent | pkg/formatter/formatter.go:188-206 | escaping twice is escaping once |
| TokenPrinter.EscapeKeepsMeaningIff | pkg/formatter/formatter.go:188-206 | escaping keeps the text that the string stands for if and only if no backslash is directly followed by a raw control character |
| TokenPrinter.EscapedBody | pkg/formatter/formatter.go:188-206 | escaping keeps escape pairs aligned, also where a backslash precedes a raw control character: the text still ends where its terminator is |
| TokenPrinter.PrintedReadsBack | pkg/formatter/formatter.go:147-156 | every string or interpolation token the lexer can produce is printed to a text that reads back, in a matching interpolation state, as one token of the same kind with the escaped value |
| TokenPrinter.PrintingStable | pkg/formatter/formatter.go:147-156 | and printing that token gives the same text |
| SelectionTrie.Covered | pkg/codegen/compile.go:2185-2202 | the nested loops decide whether a selected path starts with the path |
| SelectionTrie.SortPaths | pkg/codegen/compile.go:2170-2175 | the list has the same paths as often as before, longer ones first and equally long ones by their joined text |
| SelectionTrie.OneOrder | pkg/codegen/compile.go:2170-2175 | the sorted list is one and the same for every order of the paths, for names without the separating rune |
| SelectionTrie.Prune | pkg/codegen/compile.go:2169-2183 | for every list, an antichain drawn from it that covers every one of its paths |
| SelectionTrie.NodesArePrefixes | pkg/codegen/compile.go:2217-2226 | the nodes of the tree are exactly the prefixes of its paths |
| SelectionTrie.TreeOfCoveringPaths | pkg/codegen/compile.go:2209-2226 | path lists that cover each other have the same tree |
| SelectionTrie.Render | pkg/codegen/compile.go:2228-2244 | the rendered entries of a node, sorted by name whatever the order of the map, with those of its children |
| SelectionTrie.RenderingUnique | pkg/codegen/compile.go:2228-2244 | a tree has only one rendering |
| SelectionTrie.LessIff | pkg/codegen/compile.go:2228-2244 | the order of the names is the lexicographic one |
| SelectionTrie.LiteralOfSet | pkg/codegen/compile.go:2209-2244 | the literal does not depend on the order of the paths or on repetitions |
| SelectionTrie.CompileSelection | pkg/codegen/compile.go:2169-2244 | for every list of paths, the literal compiled after sorting and pruning is the literal of the tree of all paths |
| Pagination.InMemoryPage | pkg/codegen/compile.go:597-615 | in 64-bit integers no intermediate value overflows, the slice is in bounds and is the mathematical page for every page number; the total is the length |
| Pagination.AllPagesAreList | pkg/codegen/compile.go:597-615 | concatenating enough pages gives the list |
| InferredOr.BuildParams | pkg/codegen/infer.go:694-735 | the parameters of all clauses, group by group, none, one or two for each |
| InferredOr.ParamsByOperator | pkg/codegen/infer.go:694-755 | operator by operator, the names of the parameters, whether they are lists, and whether they have the field's type or are strings |
| InferredOr.WriteAnd | pkg/codegen/infer.go:340-374 | the AND writer gives every clause its own parameters, in order, and uses them all |
| InferredOr.WriteOr | pkg/codegen/infer.go:308-337 | so does the OR writer, across groups |
| InferredNames.HandlerCompilesIff | pkg/codegen/infer.go:277-294 | the handler declares each parameter name once, as Go demands, if and only if no two clauses clash: both take the keyword, both form their names alike from one field, or the plain field of one is a name of the other |
| InferredNames.TwoBoundsDoNotCompile | pkg/codegen/infer.go:694-755 | a query with a lower and an upper bound on one field declares that field twice, and one with two texts to be contained declares the keyword twice |
| InferredSql.RunSet | pkg/codegen/infer.go:586-621 | the two loops of a list clause: as many placeholders from the index on as elements appended, and the index moves by their number |
| InferredSql.RunLike | pkg/codegen/infer.go:580-606 | the operators that match a pattern: one placeholder, and the wildcards on the sides the operator says |
| InferredSql.TypedIff | pkg/codegen/infer.go:694-755 | the request has the declared types if and only if, operator by operator, list parameters are lists and all others single values |
| InferredSql.RunClause | pkg/codegen/infer.go:519-621 | the statements of each kind of operator, with their own placeholders, arguments and step of argIdx, agree: argIdx stays one more than the number of arguments, the arguments grow by the clause's values, and those get the next placeholders |
| InferredSql.RunOr | pkg/codegen/infer.go:312-325 | the whole emitted OR code |
| InferredSql.PlaceholdersExact | pkg/codegen/infer.go:519-621 | the placeholders of the OR form are exactly $1 to $n in the order of the text, n arguments, for all list lengths |
| InferredSql.OwnArguments | pkg/codegen/infer.go:519-621 | the placeholders of a clause are bound to exactly the values of its own expressions, in order, for every program; what the expressions are is settled by HandlerCompilesIff |
| InferredSql.OrFormMeans | pkg/codegen/infer.go:308-325 | the OR form selects a row if and only if the row passes all clauses of some group, each with the parameters its field and operator name |
| InferredSql.OrFormValidIff | pkg/codegen/infer.go:609-621 | the OR form is valid SQL if and only if no list argument is empty |
| InferredSql.EmptyListIsInvalid | pkg/codegen/infer.go:609-621 | a query with a list clause in one of two groups, a handler that compiles, and an empty list: the SQL is invalid |
| InferredSql.InferOr | pkg/codegen/infer.go:265-325 | there is a handler if and only if no two clauses clash; then, parameters built, consumed and run together, its placeholders are exactly $1 to $n and its condition selects the rows that the query selects |
| ChartName.OnePassShortens | pkg/codegen/deploy_helm.go:19-21 | collapsing hyphens shortens a name with a doubled one and leaves any other alone |
| ChartName.AsciiLowers | pkg/codegen/deploy_helm.go:14-17 | lowercasing ASCII letters is a lowering in the sense assumed |
| ChartName.Normalize | pkg/codegen/deploy_helm.go:14-32 | terminates with a non-empty label of section 2.1 of RFC 1123 of at most 53 characters without doubled hyphens, leaves such a label as it is, and keeps the letters and digits of the lowercased name in order, all of them below the limit |
| ChartName.NormalizeTwice | pkg/codegen/deploy_helm.go:14-32 | normalizing is idempotent |

## Left out

- Records: nullable or list Bytes and JSON, Decimal, DateTime, columnar encoding, and the directives
  that mask, transform or hide a field on output; nil and empty slices are one value; floats are bit patterns.
- RequestedFields.SelectToFieldMask: the IDs of a request are resolved; names that are unknown, named twice or nested
  in a field that is no relation, and requests deeper than 32, are rejected before a mask is sent.
- Records: declarations whose encodable field IDs are not distinct, or not below 2^63.
- Lock: deriving the CRUD, federation and named-load endpoints from declarations (they are lists in a
  file), the JSON text of the file, and sorting of reserved IDs and of reported changes (reported
  changes are sets). The nested loops that collect contracts are folds.
- LockGuarantees.AcceptedKeepsParams: endpoints registered under the API's name are assumed to have the same
  parameters, for otherwise every update renumbers some of them; `AcceptedKeepsDeclared` discharges this for APIs
  whose derived namesakes defer. APIs generated from CRUD models record no
  contract, so nothing is claimed about their parameters.
- LockGuarantees.AcceptedChainKeepsParams: the same assumption, for every schema of the chain.
- Migrations: computing states from models, rendering SQL, table names, safety warnings, down migrations,
  and index or constraint effects of a column statement beyond the column itself. The database rejects
  adding what exists and dropping or renaming what does not.
- Grouped loads: narrowing of selected columns, resolution of computed fields and relations (rows are
  taken as resolved), the transport of the request, and primary-key loads. Both queries see one table order.
- RemoteLoad.DecodeGrouped: a response whose item count is too large to allocate makes Go panic; here the
  decoding fails at the first missing item.
- GroupedTransport.ItemsRoundTrip: a record followed by other bytes within its length prefix is accepted by
  the caller; the theorem is about what the handler writes.
- Await fusion: the text of the emitted Go, the concurrent execution of the goroutines (they assign
  distinct variables), and SQL's treatment of NULL inside a condition, which is part of the condition's meaning.
- Lexer: decoding UTF-8 (a source is a sequence of runes, offsets count runes), the keyword table (keywords
  and identifiers are words), and the printing of comments and of whole files.
- Selections: the sort is an insertion sort for Go's library sort, by the same order; nodes are values
  where the source mutates them through pointers; the literal is a tree of entries, not Go text.
- Pagination.InMemoryPage: pages below 1 are not modelled; requests are validated before this code.
- InferredSql.RunClause: a request's values are assumed to have the Go types the handler declares.
- InferredNames.HandlerCompilesIff: a field named like a Go keyword or like one of the handler's own variables
  (`err`, `req`) is not considered; the model is about the parameters among themselves.
- Inferred queries: parsing of API names, the query after the condition, the rewriting of `$n` inside a raw
  condition, and user-declared parameters that differ from the built ones.
- Chart names: lowercasing is any map of runes that leaves lowercase letters, digits and hyphens alone.
- The language server, the command line, the parser, deployment templates, editor extension and TypeScript
  packages are plumbing around this core.
