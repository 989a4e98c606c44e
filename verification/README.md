# Lance conversion: models and proofs

This project models the parts of the Lance conversion extension in which a mistake would lose, repeat
or reorder data, and proves what they promise. Concurrent parts are step machines: a state, a deterministic step
function over events, and theorems about every sequence of events. Parts that change state step by step are
also classes and methods, proved against the same step functions. Transformations are functions with a
decoder that undoes them.

- **Writing and committing.** `WriteProtocol` is one fragment writer: its four states, its one-slot channel and its
  worker. `DatasetProtocol` puts any number of writers beside one commit. `FragmentWriter` has the classes of the
  code, run call by call with only the writer's own worker beside it; a log of each object must be a run of the
  machine. `LanceCopy` is a machine of the COPY callbacks in which the calls of different threads interleave,
  `CopyModes` the execution modes, `CopySink` the callbacks as classes over `FragmentWriter`, with a log that must
  be a run of that machine, and `CopyRuns` shows that its schedules can succeed.
- **Reading ahead.** `ReadAhead` is the ordered window of row-group tasks, `UnorderedReadAhead` the merge without a
  promised order, `RowGroupTask` the budget and one task as code, `ColumnProjections` the projection.
- **Storing columns.** `Arrow` has schemas and arrays as recursive datatypes. `ColumnStorage`, `ColumnEncodings`
  and `StoredTypes` rewrite the schema, `StoredForms` says which form each position is stored in and
  `StoredCompression` with which compression, `StoredArrays` rewrites the arrays, with a decoder, and `StoredCopy` composes this with the COPY above. `Resolver` and `ColumnSettings`
  are the option parser on the DuckDB side, `SourceMetadata` the marker bridge through DuckDB types.
- **Scheduling and batching WARC files.** `WorkUnits` coalesces index entries, `WarcBatches` splits the record stream,
  and `IndexedWarc` puts both through the ordered window of `ReadAhead`.
- **Reporting metrics.** `DeltaReport` is the compare-and-swap loop under any interleaving.

## What was found

- A writer is committed if its finish succeeded before the commit drained the list, and then with exactly the
  batches it accepted. The reported row count may still include rows of writers that did not finish; `RowAccounting`
  says by how much.
- The array rewrite fails in exactly two cases: an encoding changes a field inside a list or struct that is already a
  blob (`BlobPathFails` is the smallest example), or a URI column has more bytes than the 32-bit offsets of
  `Utf8` can reach (`LongUriFails`). In every other case it loses nothing.
- Greedy WARC batching is not optimal when an empty body comes right after records that hold exactly the body limit.
  `OptimalThroughout` proves that this is the exact condition, `EmptyBodyCostsABatch` shows the cost.
- A request with an empty last part ("a.b.") can be resolved to a nested field and then mark a column of the same
  dotted name. `CanonicalResolves` says exactly when this happens.
- The storage policy of a field is not always answered after the round trip through DuckDB as on the original field:
  `PolicyRoundTrip` gives the exact condition and `InheritedAtifDiffers` and `EmptyPolicyDiffers` an input for each
  of its two cases. Fields inside a column without a source lose their markers (`UntaggedLoses`,
  `UntaggedParentDiffers`).
- After a panic the ordered read goes on with the next row group; only the rest of the panicking one is missing,
  and its report stands in that place (`PanicsStayLocal`).
- The u64 overflow error of the index can occur only for an index that overlaps and is rejected anyway
  (`OverflowOverlaps`).

## Model

| member | source | states |
|---|---|---|
| WriteProtocol.TransactionIsAccepted | rust/src/sink/lance/fragment.rs:22-131 | In every run of a writer a transaction exists only if the Finish message was sent, so a channel that merely closes never yields one, and it holds exactly the accepted batches in order. |
| WriteProtocol.OneQueued | rust/src/sink/lance/fragment.rs:48-62 | While the worker drains, it has taken all accepted batches in order but at most one queued one, in every run. |
| WriteProtocol.ClosedForever | rust/src/sink/lance/fragment.rs:73-107 | Finish returns Ok at most once, and after a writer has left Open no later push is accepted and a final state is final. |
| WriteProtocol.FinishHandsOver | rust/src/sink/lance/fragment.rs:94-107 | A successful finish hands over exactly the batches accepted, and for the first time. |
| WriteProtocol.JoinNeverStuck | rust/src/sink/lance/fragment.rs:116-131 | While a call joins the worker, either the worker has ended and the join returns, or a worker step is possible. |
| WriteProtocol.SendNeverStuck | rust/src/sink/lance/fragment.rs:73-107 | A suspended push or finish is answered or its worker can take a step. |
| WriteProtocol.JoinIsBounded | rust/src/sink/lance/fragment.rs:109-131 | However the worker is scheduled, a join waits for a bounded number of its steps. |
| WriteProtocol.AbortReturns | rust/src/sink/lance/fragment.rs:109-131 | From every reachable state, also one left in Closing by a cancelled call, abort returns with the worker joined and the writer Finished or Failed. |
| WriteProtocol.CanFinish | rust/src/sink/lance/fragment.rs:73-107 | Any sequence of batches can be pushed and finished into one transaction that holds them, so the safety theorems are not empty. |
| DatasetProtocol.ExactlyOnceCommit | rust/src/sink/lance/dataset.rs:99-193 | In every interleaving at most one version is published, it is the concatenation in order of the successful finishes before the drain of all batches those writers accepted, no writer counts twice, and a successful commit has published one. |
| DatasetProtocol.PublishedOperation | rust/src/sink/lance/dataset.rs:133-193 | In every interleaving the published version is of the kind of the first transaction handed over, or of the kind of an empty write when there was none, and its fragments are the drained ones; an overwrite is never published as an append. |
| DatasetProtocol.MergeConcatenates | rust/src/sink/lance/dataset.rs:171-193 | Merging succeeds exactly for transactions of one append or overwrite kind (or a single one) and concatenates their fragments. |
| DatasetProtocol.RowAccounting | rust/src/sink/lance/dataset.rs:104-166 | The reported count is, modulo 2^64, the published rows plus those drained by writers that did not finish in time; it lies between published and pushed rows and equals both when every writer finished before the drain. |
| DatasetProtocol.CommitCanPublish | rust/src/sink/lance/dataset.rs:133-166 | From every reachable state before the commit, with open writers or with none at all, the commit can publish one version if the finished transactions are compatible. |
| FragmentWriter.MergeTransactions | rust/src/sink/lance/dataset.rs:171-193 | The loop computes the merge of the protocol. |
| FragmentWriter.DatasetWrite.AddTransaction | rust/src/sink/lance/dataset.rs:126-131 | Appends to the shared list. |
| FragmentWriter.DatasetWrite.Commit | rust/src/sink/lance/dataset.rs:133-166 | Empties the list whatever happens, publishes exactly when Lance accepts and the transactions merge, and then one version of the transactions' own kind, or that of an empty write, with exactly the drained fragments; reports the counter only if the indexes are built too. |
| FragmentWriter.LanceConversionDataset.WriterOpen | rust/src/ffi.rs:512-533 | Gives a fresh open writer on this dataset unless it has finished. |
| FragmentWriter.LanceConversionDataset.Finish | rust/src/ffi.rs:580-595 | Only the first call commits, even if it fails; it succeeds exactly if the version is published and indexed; a later call changes nothing. |
| FragmentWriter.LanceFragmentWriter.WorkerStep | rust/src/sink/lance/fragment.rs:17-35 | Each step of the worker on the fields is a step of the machine, and counts the rows it takes. |
| FragmentWriter.LanceFragmentWriter.CloseInput | rust/src/sink/lance/fragment.rs:116-122 | Only an open writer becomes Closing. |
| FragmentWriter.LanceFragmentWriter.JoinWorker | rust/src/sink/lance/fragment.rs:124-131 | Waits for the worker, leaves the writer Failed, and returns the worker's result. |
| FragmentWriter.LanceFragmentWriter.WriteBatch | rust/src/sink/lance/fragment.rs:73-91 | Ok exactly extends the accepted batches; it fails on an open writer only for a wrong schema or a worker that is gone, and leaves it Failed with its worker joined; a closed writer is left alone. |
| FragmentWriter.LanceFragmentWriter.FinishWriter | rust/src/sink/lance/fragment.rs:94-107 | Ok exactly once, and then one transaction with every accepted batch joins the shared list; it fails on an open writer only if the worker is gone or failed, and then the list is unchanged and the writer Failed. |
| FragmentWriter.LanceFragmentWriter.Abort | rust/src/sink/lance/fragment.rs:109-114 | Ends in Finished or Failed with the worker joined and hands nothing over. |
| FragmentWriter.LanceWriter.WriteBatch | rust/src/sink/lance.rs:84-86 | Passes the batch to the only fragment writer. |
| FragmentWriter.LanceWriter.Finish | rust/src/sink/lance.rs:88-95 | Publishes exactly the written batches under the transaction's own kind, at most once, and must do so if the worker finishes and Lance publishes; a failed finish cannot be repeated. |
| LanceCopy.CopyHolds | src/lance_copy.cpp:574-611 | However the calls of different callbacks interleave, each owner has a writer of its own, what was pushed to it and what its callback still has to push are the owner's chunks in order, and writers are finished in the order of the combines. |
| LanceCopy.CopyPublishes | src/lance_copy.cpp:574-624 | For all interleavings of the callbacks' calls and of the workers below, at most one version is published, made of each finished owner's chunks in order; a successful commit publishes one even with no writers. |
| CopyModes.CopyRefinesSource | src/lance_copy.cpp:574-634 | For every schedule of the mode DuckDB asks for, with sinks of different threads overlapping call by call, a successful COPY publishes one version whose batches are the source in order when insertion order is preserved, with or without batch indexes, and otherwise a permutation of it that keeps each thread's order. |
| CopyModes.AllEnded | src/lance_copy.cpp:584-624 | In every schedule exactly the owners that sank have their writer finished before the commit. |
| CopyRuns.LegalRuns | rust/src/ffi.rs:512-566 | Every sequence of calls that uses writers only between their open and their finish can happen. |
| CopyRuns.TidySchedulesSucceed | src/lance_copy.cpp:574-624 | Every schedule in which a thread is combined once, after all it sinks, has a successful run, so the refinement is never empty. |
| CopyRuns.OverlappingSinksSucceed | src/lance_copy.cpp:574-582 | Two threads that both open their writer before either pushes are such a schedule of the parallel mode. |
| CopySink.LanceGlobalState.OpenLanceWriter | src/lance_copy.cpp:148-152 | Gives a fresh writer of the dataset, recorded as the owner's, exactly while the dataset is open; otherwise nothing changes. |
| CopySink.LanceGlobalState.PushLanceChunk | src/lance_copy.cpp:154-158 | Ok means the owner's writer accepted the chunk; an error leaves the callback in progress. |
| CopySink.LanceGlobalState.LanceFlushBatch | src/lance_copy.cpp:600-611 | Opens the ordered writer once; Ok means it has accepted exactly all chunks flushed so far, in order, and no other owner is touched. |
| CopySink.LanceGlobalState.LanceFinalize | src/lance_copy.cpp:613-624 | Success publishes one version of the transactions handed over before and then every flushed chunk in order, of their own kind; it fails only if the ordered writer cannot finish, the dataset is finished already, or the commit or the indexes fail. |
| CopySink.LanceLocalState.LanceSinkChunk | src/lance_copy.cpp:574-582 | Opens the thread's own writer once; Ok means it has accepted exactly all chunks the thread sank, in order, and no other owner is touched. |
| CopySink.LanceLocalState.LanceCombine | src/lance_copy.cpp:584-590 | Ok hands over exactly one transaction with the thread's chunks, or none if it sank nothing; an error hands over nothing. |
| ReadAhead.Capacity | rust/src/source/parquet.rs:27-33 | A budget has at least one permit, at most what u32 holds, and exactly its bytes in between. |
| ReadAhead.Permits | rust/src/source/parquet.rs:36-43 | A batch takes between one permit and the whole budget, and never fewer than its bytes unless it takes everything. |
| ReadAhead.OrderedReadAhead | rust/src/source/parquet.rs:53-85 | Under every task interleaving the output up to the first panic report is a prefix of reading the row groups one by one, and an end of stream without a report means all of it: a panic is never a truncation. |
| ReadAhead.PanicsStayLocal | rust/src/source/parquet.rs:53-85 | Under every interleaving the output is, row group by row group in order, all of the content or some of it and then the panic report; so a panic costs nothing but the rest of its own row group. |
| ReadAhead.CleanEndIsComplete | rust/src/source/parquet.rs:231-242 | An end of stream without any error means every batch of every row group arrived, in order. |
| ReadAhead.MemoryBound | rust/src/source/parquet.rs:26-76 | Free and held permits always make up the capacity, a row group queues at most the larger of the budget and its largest batch in true bytes, and at most `parallelism` groups do so. |
| ReadAhead.ReadsAhead | rust/src/source/parquet.rs:231-238 | In every run, from the first row group on, exactly as many row groups as the parallelism allows have been started, and each with nothing queued can run until it has ended, whatever the consumer does. |
| ReadAhead.Progress | rust/src/source/parquet.rs:27-73 | Before the end the consumer or the task it is draining can take a step that is not a panic, even if every batch exceeds the budget and all later tasks are blocked. |
| ReadAhead.Terminates | rust/src/source/parquet.rs:60-84 | Every step uses up work, so every run is finite. |
| UnorderedReadAhead.UnorderedDelivers | rust/src/source/parquet.rs:231-242 | Without a promised order each row group's outputs are still a prefix of its own content up to a panic report, and all of it at an end of stream without one. |
| UnorderedReadAhead.UnorderedReadsAhead | rust/src/source/parquet.rs:231-242 | In every run the next row group can be started unless `parallelism` are being drained, and each of those with nothing queued can run until it has ended. |
| UnorderedReadAhead.UnorderedProgress | rust/src/source/parquet.rs:231-242 | Until the end some step that is not a panic is possible. |
| UnorderedReadAhead.UnorderedTerminates | rust/src/source/parquet.rs:231-242 | Every step uses up work, so every run without a promised order is finite too. |
| RowGroupTask.ReadAheadBudget.PollReserve | rust/src/source/parquet.rs:36-43 | A reservation is granted exactly when its clamped size fits, and always when nothing is held. |
| RowGroupTask.ReadAheadBudget.Release | rust/src/source/parquet.rs:74-76 | Dropping a permit returns exactly its bytes. |
| RowGroupTask.RowGroup.ReadToEnd | rust/src/source/parquet.rs:53-85 | Whatever the schedule of the task and its consumer, all items arrive in order, or some first items and then an error. |
| ColumnProjections.NewProjection | rust/src/source/parquet.rs:103-115 | The roots are the requested columns ascending and without repeats, and the order points back at each requested one. |
| ColumnProjections.ProjectionsCompose | rust/src/source/parquet.rs:87-99 | Reading the roots and reordering gives the requested columns of any file, repeats included. |
| ColumnEncodings.EncodeMarked | rust/src/sink/lance/column_encoding.rs:60-91 | Applying one more name to a type with marks is one more mark at its address, or the same refusal as without the marks. |
| ColumnEncodings.ResolveInjective | rust/src/sink/lance/column_encoding.rs:103-112 | Two different names never mean the same field. |
| ColumnEncodings.ConfigureColumnEncoding | rust/src/sink/lance/column_encoding.rs:95-124 | For every order of the names the result is the same schema with every setting in place; it fails exactly when some name is refused, with the first refusal. |
| ColumnEncodings.EncodedAt | rust/src/sink/lance/column_encoding.rs:58-124 | The field at an address gets exactly the settings of the name that means it over its own metadata, at every depth. |
| ColumnEncodings.GivenSettings | rust/src/sink/lance/column_encoding.rs:103-118 | Those settings are the named encoding's, and nothing for a field that no name means. |
| ColumnEncodings.EncodedFrame | rust/src/sink/lance/column_encoding.rs:60-124 | Apart from the three encoding keys nothing changes at any depth. |
| ColumnEncodings.MetadataKeys | rust/src/sink/lance/column_encoding.rs:39-56 | Each setting that is given is under its own key, structural encodings by their Lance names, and no other key is there. |
| ColumnEncodings.DecimalReads | rust/src/sink/lance/column_encoding.rs:46 | The text of a level is a decimal numeral without leading zeros, with a minus exactly for negative levels, and reads back as the level. |
| ColumnEncodings.StoredLevel | rust/src/sink/lance/column_encoding.rs:93-124 | The level stored for the field that a name means reads back as the level given for that name. |
| ColumnEncodings.AcceptedExactlyWhen | rust/src/sink/lance/column_encoding.rs:58-124 | All names are accepted if and only if each is a column's whole name, or its first part is one and the rest leads to a field and no structural encoding is asked of it. |
| ColumnStorage.BlobSchema | rust/src/sink/lance/column_storage.rs:127-173 | The loop accepts exactly distinct string columns, rewrites the schema as specified, and names the first misfit otherwise. |
| StoredForms.StoredInForm | rust/src/sink/lance/column_storage.rs:127-173 | For all accepted options every position of every column, at every depth, is stored in exactly the form its own type and metadata and the options ask for: a blob struct with the given thresholds, large binary for ATIF text, or the type it had; name, nullability and all other metadata stay. |
| StoredForms.BinaryColumnForm | rust/src/sink/lance/column_storage.rs:155-162 | A binary column becomes a blob if and only if a threshold or a blob column is given and it is not ATIF text. |
| StoredForms.FormsExactlyWhen | rust/src/sink/lance/column_storage/atif.rs:13-72 | Options and schema are accepted if and only if the dedicated threshold is not zero, the blob columns are distinct string columns, and no field whose policy counts has an unknown one. |
| StoredCompression.CompressionEverywhere | rust/src/sink/lance/column_storage/atif.rs:31-72 | At every position of every column, list items and later namesakes included, an explicit compression of the name that means it, if any does, beats the field's own metadata, which beats the lz4 default of ATIF text; nothing else sets one. |
| StoredCompression.CompressionOfName | rust/src/sink/lance/column_encoding.rs:93-124 | The field a given name means, in the input, gets that name's compression, and without one its own or the default. |
| StoredTypes.ExplicitCompression | rust/src/sink/lance/column_encoding.rs:93-124 | The explicit compression at an address is that of the name that means it. |
| StoredTypes.ConfigureSchema | rust/src/sink/lance/column_storage.rs:24-26 | Blob rewriting followed by the encodings gives the stored schema, or the first error of the one or the other. |
| StoredTypes.StoredRewrites | rust/src/sink/lance/column_storage/atif.rs:42-72 | Defaults followed by marks keep every field's name and nullability and its type up to the known storage forms, at every depth. |
| StoredTypes.SchemaRewrites | rust/src/sink/lance/column_storage.rs:127-173 | Every stored column is one of the forms the array rewrite knows for its input type. |
| StoredTypes.DisturbedExactlyWhen | rust/src/sink/lance/column_encoding.rs:58-124 | A list or struct that is already a blob gets another type exactly when a given name enters it and changes something there. |
| StoredArrays.BlobStores | rust/src/sink/lance/column_storage.rs:72-92 | A blob struct keeps every value and null of a binary or URI column, in its data or its URI child with the other all null; only a URI column past 32-bit offsets fails. |
| StoredArrays.StoresAll | rust/src/sink/lance/column_storage.rs:65-125 | Unless a blob was disturbed the rewrite of any array succeeds with the target type, the same values, rows, nulls and offsets at every depth, and the decoder gives the array back. |
| StoredArrays.DisturbedFails | rust/src/sink/lance/column_storage.rs:72-92 | A disturbed blob makes the rewrite fail, whatever the rows. |
| StoredArrays.StorageAgrees | rust/src/sink/lance/column_storage.rs:20-42 | For all accepted options and all batches: the stored batch has the stored schema and decodes to the input, if and only if no name alters a blob's inside and the URI columns fit 32-bit offsets; otherwise it is an error. |
| StoredArrays.BlobPathFails | rust/src/sink/lance/column_storage.rs:72-92 | Compressing the data of a column that is already a blob is accepted and then fails every batch. |
| StoredArrays.LongUriFails | rust/src/sink/lance/column_storage.rs:81-86 | A URI column with one byte more than 32-bit offsets reach is accepted and then its batch fails. |
| StoredCopy.CopyStoresSource | rust/src/sink/lance/dataset.rs:99-166 | The stored batches that a successful COPY published have the stored schema, and decoded they are the source's batches, in order when insertion order is preserved and as a permutation otherwise. |
| Resolver.ResolveEncodingColumn | src/lance_copy.cpp:315-352 | The loop computes the canonical name of the resolution, or fails when there is none. |
| Resolver.ResolutionAnswers | src/lance_copy.cpp:317-352 | A request that is a column name up to case is answered by the first such column; any other resolves if and only if its parts are, up to case, the names leading to some field at any depth, across lists and arrays, and then to the true dotted name of that field. |
| Resolver.WalkLocates | src/lance_copy.cpp:333-350 | The true names found lead to the same struct positions in the Arrow type, across lists and arrays. |
| Resolver.CanonicalResolves | src/lance_copy.cpp:317-352 | The stored schema reads a canonical name as the resolved field unless it is nested and a column has that very name, and only then. |
| Resolver.ResolverAgreement | src/lance_copy.cpp:317-352 | With no empty part, the canonical path splits back to the requested parts, and the rewritten schema accepts it as the same field, refusing only a structural encoding on a nested field, which the option parser refuses too. |
| Resolver.TrailingDotMisleads | src/lance_copy.cpp:324-326 | The proviso is needed: an example where the name marks another column. |
| LogicalTypes.SameExactly | src/lance_copy.cpp:317-352 | Names are equal up to case exactly if they agree character by character but for the case of ASCII letters. |
| ColumnSettings.FindOrAddColumnEncoding | src/lance_copy.cpp:304-313 | Finds the column up to case or appends it, keeping the columns distinct. |
| ColumnSettings.ParseColumnSettings | src/lance_copy.cpp:356-379 | Each entry sets its one thing on its own column and no other changes; the columns stay distinct and canonically spelled; otherwise the first misfit is reported. |
| ColumnSettings.AfterFit | src/lance_copy.cpp:356-379 | If an entry names a column, its one setting is given to it and the other two are as they were; a column that no entry names is as it was. |
| ColumnSettings.AllFitExactlyWhen | src/lance_copy.cpp:356-379 | A list is accepted if and only if each entry resolves, has a value, names a whole column if it is structural, and no two name one column. |
| SourceMetadata.ImportSourceMetadata | src/source_metadata.cpp:84-89 | Every column type is tagged from its field with the schema's source inherited. |
| SourceMetadata.ExportSourceMetadata | src/source_metadata.cpp:91-105 | Every field is tagged, and the schema exactly when all columns share one non-empty source. |
| SourceMetadata.ExportFrame | src/source_metadata.cpp:58-80 | Exporting changes nothing but the two markers at any depth: names, types, nullability and all other metadata stay. |
| SourceMetadata.ImportFrame | src/source_metadata.cpp:13-42 | Importing changes no property of a column type but the two markers, at any depth. |
| SourceMetadata.ArrayItemsLose | src/source_metadata.cpp:22-34 | Tagging stops at arrays: nothing inside one comes back with markers, and its policy is answered differently exactly where there was an answer. |
| SourceMetadata.MarkersReturn | src/source_metadata.cpp:13-80 | Every field reached through structs and lists comes back with the nearest source above it and its own policy. |
| SourceMetadata.SelectedMarkers | src/source_metadata.cpp:84-105 | The same for columns selected in any order. |
| SourceMetadata.PolicyRoundTrip | rust/src/sink/lance/column_storage/atif.rs:13-29 | After import, selection and export the storage policy is answered at every depth as on the original field, except if and only if the original has a policy but takes its ATIF source from further out, or is ATIF with an empty policy. |
| SourceMetadata.InheritedAtifDiffers | src/source_metadata.cpp:13-42 | An input for the first exception. |
| SourceMetadata.EmptyPolicyDiffers | src/source_metadata.cpp:36-40 | An input for the second exception. |
| SourceMetadata.UntaggedLoses | src/source_metadata.cpp:13-21 | A column without a source, own or inherited, comes back without markers at every depth, whatever markers the fields inside it had; the storage policy is answered differently exactly where the original field answered anything but none. |
| SourceMetadata.UntaggedParentDiffers | src/source_metadata.cpp:19-21 | An input that loses ATIF text this way. |
| WorkUnits.ParseWarcIndex | rust/src/source/warc_index.rs:32-81 | Accepts exactly the indexes whose matching lines are non-empty u64 ranges, at least one, and gives their ranges in line order; otherwise the first bad line is reported with its reason, or that there is no entry. |
| WorkUnits.EntriesAreLines | rust/src/source/warc_index.rs:63-73 | The entries are, one for each accepted line and in their order, the ranges that start at the line's offset and are as long as it says. |
| WorkUnits.BuildIndexWorkUnits | rust/src/source/warc_index.rs:97-124 | Succeeds exactly for disjoint entries, with the spans of the greedy groups of the sorted entries; the overflow error implies an overlap. |
| WorkUnits.UnitsCoverEntries | rust/src/source/warc_index.rs:109-123 | The units are the entries in archive order, whole, each unit an unbroken piece of the archive. |
| WorkUnits.UnitBounds | rust/src/source/warc_index.rs:100-123 | At most parallelism + runs - 1 units, in order and disjoint, none above target - 1 plus the longest entry, and none below the target that touches the next. |
| WorkUnits.UnitShares | rust/src/source/warc_index.rs:106-123 | Every unit, less the longest entry, is shorter than one of `parallelism` equal shares of the total, and a unit that touches the next is at least such a share. |
| WorkUnits.OverflowOverlaps | rust/src/source/warc_index.rs:101-105 | A total past u64 is possible only when entries overlap. |
| WorkUnits.OutcomeIsUnique | rust/src/source/warc_index.rs:97-124 | Permuting the index changes nothing, whatever the unstable sort does. |
| WorkUnits.UnitsDecodeAlike | rust/src/source/warc_index.rs:83-124 | Any decoder that respects entry boundaries yields the same record sequence from the units as entry by entry. |
| IndexedWarc.ParserStreams | rust/src/source/warc.rs:287-308 | A task that runs the parser loop, as that loop's contract describes it, sends the greedy batches of its records, or some records from the start and then the error. |
| IndexedWarc.IndexedReadDelivers | rust/src/source/warc_index.rs:165-193 | Under every interleaving of the workloads' parser loops and the consumer, until an error is reported the rows are the archive's records from the start in archive order, and an end of stream without an error means all of them. |
| WarcBatches.WarcBatchBuilder.WouldExceedBodyLimit | rust/src/source/warc.rs:433-436 | Tells whether the counted bodies plus the next one pass the limit, if the body is projected. |
| WarcBatches.WarcBatchBuilder.TakeEmpty | rust/src/source/warc.rs:438-442 | Swaps an empty builder in and gives the old rows. |
| WarcBatches.WarcBatchBuilder.Append | rust/src/source/warc.rs:486-502 | Adds one row and its counted bytes. |
| WarcBatches.StreamRecords | rust/src/source/warc.rs:310-359 | Sends exactly the greedy batches of the readable records, the last partial one only at a clean end or when an unreadable record had made room first; it fails exactly if some item cannot be read, and a consumer that leaves after `accepts` batches has received exactly the first ones. |
| WarcBatches.GreedyIsSound | rust/src/source/warc.rs:310-359 | The batches concatenate to the records and each has 1 to batch_size rows and, beyond one row, bodies within the limit by the declared length of its last row. |
| WarcBatches.OneMoreRecord | rust/src/source/warc.rs:320-356 | One more record starts a batch exactly if there is none, the last one is full in rows or counted bytes, or the record's declared length would push it over the limit; otherwise it joins the last one. |
| WarcBatches.GreedyIsValid | rust/src/source/warc.rs:433-442 | If every body has its declared length, each batch has 1 to batch_size rows and at most 16 MiB of counted body, or a single row. |
| WarcBatches.NewBatchOnlyWhenNeeded | rust/src/source/warc.rs:433-442 | A record that would still fit is given a new batch exactly when it has an empty body after a batch of exactly the limit. |
| WarcBatches.GreedyIsOptimal | rust/src/source/warc.rs:310-359 | No contiguous split within the limits uses fewer batches if the body is not projected, or no body is empty, or no empty body follows records of exactly the limit. |
| WarcBatches.OptimalExactlyWhen | rust/src/source/warc.rs:310-359 | The early flush wastes no record if and only if the greedy split is optimal however far the stream is read. |
| WarcBatches.OptimalThroughout | rust/src/source/warc.rs:310-359 | The greedy split of every part of a stream is optimal if and only if no empty body comes right after records that hold exactly the limit with rows to spare. |
| WarcBatches.EmptyBodyCostsABatch | rust/src/source/warc.rs:347-356 | The proviso is needed, for every batch size above one. |
| DeltaReport.EachByteOnce | src/arrow_source_scan.cpp:45-58 | In every interleaving, with spurious failures and stale loads, returned and pending deltas add up to the counter and each byte up to it was taken by exactly one call. |
| DeltaReport.CompleteRunsReportMaximum | src/arrow_source_scan.cpp:45-58 | When all calls have returned, the deltas add up to the largest snapshot. |
| DeltaReport.AloneItFinishes | src/arrow_source_scan.cpp:46-49 | A call that has not returned can go on in every reachable state, and alone returns within four steps. |
| DeltaReport.TakeDelta | src/arrow_source_scan.cpp:45-51 | The loop leaves the counter at its old value plus what the others added plus the delta, at or above the snapshot, and at the snapshot if it took anything. |

## Left out

- FragmentWriter.LanceFragmentWriter.WriteBatch: the class lets only its own worker run during a call; other writers, the commit and cancelled calls interleave in the step machines `WriteProtocol` and `DatasetProtocol`.
- FragmentWriter.LanceFragmentWriter.FinishWriter: the same; a call cancelled in its middle is an event of the step machine only.
- FragmentWriter.DatasetWrite.Commit: bytes read and written, storage versions and sessions are not modelled, and index building is a yes-or-no answer.
- CopyModes.CopyRefinesSource: which callbacks DuckDB makes in which order in each mode is DuckDB's contract, taken as the definition of a schedule; failing callbacks abort the COPY and are not part of a successful one.
- CopySink.LanceLocalState.LanceSinkChunk: as code a callback runs to its end before the next begins; callbacks of different threads overlap in the step machine of `LanceCopy`.
- CopySink.LanceGlobalState.LanceFlushBatch: the same; the metrics read at the end of a COPY are not modelled.
- ColumnProjections.NewProjection: `sort_unstable` and `dedup` work in place in the source and on sequences here; the result is the same.
- WorkUnits.BuildIndexWorkUnits: the unstable sort is an insertion sort on a sequence; the uniqueness theorem covers every other sort.
- WorkUnits.ParseWarcIndex: reading and trimming lines, JSON, CDXJ, gzip and file-name matching are inputs of the model, not computed; every line that is not usable JSON is one kind of bad line.
- WarcBatches.StreamRecords: gzip and WARC header parsing are abstract items; a body the channel loses when its consumer is dropped is not counted.
- IndexedWarc.IndexedReadDelivers: an error item takes no slot of the one-batch channel, and the range reads are part of the task of a workload.
- UnorderedReadAhead.UnorderedDelivers: which row group is polled next is left open, so fairness is not part of it.
- ReadAhead.OrderedReadAhead: a stream whose budget is zero bytes reads while polled and has no tasks; that mode is not modelled, nor is dropping the stream.
- StoredArrays.StorageAgrees: arrays are logical, so sliced buffers and bytes behind null slots are not counted in the URI bound, and a cast that would panic counts as a failure.
- StoredArrays.BlobStores: the blob type has the two children that Lance's `blob_field_with_options` gives; Lance is not part of this model, and the names of its threshold keys are stand-ins.
- StoredCopy.CopyStoresSource: a batch of the protocol stands for an Arrow batch through a naming that is a parameter, and that the worker takes a batch only when its rewrite succeeds is a hypothesis about the events.
- Resolver.TrailingDotMisleads: that DuckDB's `StringUtil::Split` drops an empty last part is taken from DuckDB, which is not part of this model; with no empty part the two ways to split are the same.
- ColumnSettings.ParseColumnSettings: parsing of the values themselves (codec names, integers, encodings) is left out; a value is given or NULL.
- SourceMetadata.MarkersReturn: type aliases and other extension properties are not modelled, and exported fields start without markers.
- DeltaReport.TakeDelta: interference is a finite list of other threads' advances; the unbounded interleavings are in the step machine. Counters are naturals, below 2^64.
- DatasetProtocol.RowAccounting: the bounds between published and pushed rows are stated for fewer than 2^64 pushed rows; the equation holds modulo 2^64.
- Storage access, retries, S3, HTTP and Hugging Face sources, Parquet and ATIF decoding, Lance's files and manifests, index building, DuckDB binding, secrets and settings: external code or plumbing.
- Type allow-lists, segment path matching, size estimates, generated columns, C ABI pointers and null checks: they would only add easy members.
