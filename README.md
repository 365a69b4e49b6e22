# archive-to-parquet, modelled in Dafny

archive-to-parquet walks archives (tar, gzip-compressed tar, zip), also when one is
nested inside another. It turns every regular member into one row and writes the rows
to a Parquet file. A row holds the member's source archive, its path inside that
archive, its size, its SHA-256 digest and its contents. The tool can skip members
outside a size window and keep only UTF-8 text. It can also drop rows whose content
digest was already seen, first within a batch and then against everything the output
has written so far.

This project models that pipeline and proves what it promises:

- **Sniffing.** The 280-byte read, the tar → zip → tar.gz priority, the refusal of
  empty and too-small inputs, and the any-format reader's codec detection
  (`Formats`, `Magic`, `AnyReader`, `AnyReaderCrate`).
- **Input registration.** `InputContents`: one entry per path, directories walked,
  and inputs sorted by path before extraction (`Input`).
- **Archive extraction.** The recursive member loop with its depth budget, size
  check and text filter. It is written once as a pure *plan* (the rows a format
  yields, and its counts) and once as imperative methods over a shared row buffer,
  and the methods are proved to run the plan (`ArchiveExtract`).
- **Buffering and de-duplication.** The row buffer flushes at capacity and hashes
  its rows. The Parquet writer drops digests it has already written and counts the
  rows written and the rows de-duplicated (`Items`, `Output`, `Records`).
- **The extractor.** `do_extract` over the sorted inputs, summing the per-input
  counts. For a fresh writer whose every input succeeds, `read == written +
  deduplicated` (`Extraction`).
- **The walker crate.** Entry details and their display form, `FileEntry`, the
  tar, zip and file walkers, and the two archive stacks (`Entry`, `Walkers`,
  `WalkerUtils`, `WalkerCrateUtils`, `Paths`).
- **The earlier record builder.** `src/items.rs` (`LegacyItems`).

Foreign code is passed in as function values:

- gzip decoding, the tar and zip parsers (as the member lists they yield), SHA-256,
  the any-format classifier, and the visitor's `walk`;
- the file system, as a map from path to contents;
- a directory walk, as the sequence of items it yields.

Strings are `seq<char>`. Bytes and `u64` sizes are bounded integer newtypes.

## Model

| member | source | states |
|---|---|---|
| Options.ExtractionOptions.CheckFileSize | src/lib.rs:75-86 | accepted exactly when the size is non-zero, at least the minimum, and at most the maximum when there is one |
| Options.CheckFileSizeRefusals | src/lib.rs:75-86 | an empty member, one below the minimum and one above the maximum are each refused |
| Options.ExtractionOptions.DecrementMaxDepth | src/lib.rs:63-70 | the depth budget falls by exactly one and no other option changes |
| Options.DecrementMaxDepthCases | src/lib.rs:63-70 | a depth above one becomes one less; a depth of one becomes "no further recursion" |
| AnyReader.PeekUpto | src/anyreader/mod.rs:10-14 | the first min(N, buffered) bytes of what is buffered, which are also the first bytes of the stream |
| AnyReader.PeekUptoCases | src/anyreader/mod.rs:10-14 | a buffer no longer than N is returned whole; otherwise exactly N bytes are returned |
| AnyReaderCrate.PeekUpto | crates/anyreader/src/lib.rs:14-18 | never fails; the first min(N, buffered) bytes of the buffer and of the stream |
| AnyReaderCrate.PeekUptoAgrees | crates/anyreader/src/lib.rs:14-18 | the crate's peek and the in-tree peek return the same bytes |
| AnyReaderCrate.CodecOf | crates/anyreader/src/lib.rs:37-55 | a codec is reported only for input that starts with that codec's magic |
| AnyReaderCrate.CodecOfMagic | crates/anyreader/src/lib.rs:37-55 | input that starts with a codec's magic is reported as that codec |
| AnyReaderCrate.ReferenceNotUnknown | crates/anyreader/src/lib.rs:113-158 | the reference classifier reports Unknown exactly for input that carries no codec magic and is neither tar nor zip; without a codec its stream is the given bytes, with one it is their decompression |
| AnyReaderCrate.ReferenceMeetsTests | crates/anyreader/src/lib.rs:115-159 | a reference classifier over lawful codecs meets every test, so the test suite can be satisfied |
| Magic.PrefixDecides | src/formats/mod.rs:13-14 | any prefix of at least 262 bytes decides tar, zip, gzip, zstd, bzip2 and xz as the whole input does |
| Magic.MagicsExclusive | crates/anyreader/src/lib.rs:37-59 | the codec and zip magics exclude one another |
| Formats.Name | src/formats/mod.rs:26-34 | the display names are "tar", "tar.gz" and "zip"; the tar.gz name begins with the tar name, and only the two tar names begin with "t" |
| Formats.NamesDistinct | src/formats/mod.rs:26-34 | two formats have the same display name exactly when they are the same format |
| Formats.ReadCount | src/formats/mod.rs:92-97 | one read fills min(280, length) bytes of the buffer |
| Formats.ReadSliceAsWritten | src/formats/mod.rs:92-104 | Empty exactly for an empty input; UnsupportedFormat exactly when the bytes read are fewer than the minimum; otherwise the bytes read |
| Formats.ReadSliceAsWrittenRefusesLargeInputs | src/formats/mod.rs:97-103 | with a minimum above 280, every input at least that long is refused |
| Formats.ReadSlice | src/formats/mod.rs:92-104 | the corrected read: Ok gives the first min(280, length) bytes; Empty exactly for an empty input; UnsupportedFormat only for an input shorter than the minimum; never Io |
| Formats.ReadSliceRefusesShortInputs | src/formats/mod.rs:100-101 | an input shorter than both the buffer and the minimum is UnsupportedFormat |
| Formats.ReadSliceAgreesWithSource | src/formats/mod.rs:92-104 | for any minimum up to 280, the corrected read equals the read as written |
| Formats.WindowDecides | src/formats/mod.rs:58-61 | the 280-byte window decides tar, zip and gzip as the whole input does |
| Formats.IsTarGz | src/formats/mod.rs:82-90 | false without gzip magic; true exactly for gzip whose decompressed prefix reads and is a tar; an error exactly when that second read fails |
| Formats.DetectType | src/formats/mod.rs:58-72 | a format is reported only after the first read succeeds, and tar.gz only when that read starts with gzip magic |
| Formats.DetectTypeAsWritten | src/formats/mod.rs:58-104 | detection over the read as written reports a format only after that read succeeds |
| Formats.DetectTypeAgreesWithSource | src/formats/mod.rs:58-104 | for any minimum up to 280, detection over the corrected read is detection as written, on every input |
| Formats.DetectTypeAsWrittenRefusesAll | src/formats/mod.rs:97-103 | with a minimum above 280, detection as written refuses every non-empty input as UnsupportedFormat |
| Formats.DetectTypeReadFails | src/formats/mod.rs:58-60 | a failed first read is the detection's error; an empty input is Empty |
| Formats.DetectTypePriority | src/formats/mod.rs:58-72 | after a successful read: Tar iff tar; Zip iff zip and not tar; TarGz iff neither and gzip-of-tar; UnsupportedFormat iff none |
| Formats.TarGzNeedsGzipOfTar | src/formats/mod.rs:61-70 | TarGz means gzip magic, not tar, not zip, and a tar after decompression |
| Formats.TryFromPath | src/formats/mod.rs:107-110 | Io exactly when the file cannot be opened; otherwise the detection over its contents |
| Formats.DetectTypeNeverIo | src/formats/mod.rs:58-72 | detection itself never reports Io |
| Utf8.AsciiIsUtf8 | src/formats/common.rs:25-27 | ASCII bytes are valid UTF-8 |
| Utf8.BrokenSequences | src/formats/common.rs:25-27 | a lone continuation byte or a lone lead byte is not valid UTF-8 |
| Records.Counts.Skip | src/formats/tar.rs:20-23 | counting a skip adds exactly one to skipped |
| Records.PlusAssociative | src/extraction/extractor.rs:147 | adding counts is associative |
| Records.PlusZero | src/extraction/extractor.rs:147 | no counts is the identity of adding counts |
| Records.SumAppend | src/extraction/extractor.rs:147 | the sum of two runs of counts is the sum of their sums |
| Records.SelectCount | src/extraction/items.rs:179-190 | a mask keeps as many elements as it has set entries, never more than the input |
| Records.FirstsAreFirstSeen | src/extraction/output.rs:134-153 | the first-occurrence mask is set at a row exactly when its digest is neither already seen nor earlier in the batch |
| Records.FirstsSelection | src/extraction/output.rs:134-155 | the kept digests are distinct and new, and together with the seen set they cover every digest |
| Records.DedupTwiceIsOnce | src/extraction/items.rs:179-189 | de-duplicating within the batch first and then against the seen set keeps exactly the rows that de-duplicating once against the seen set keeps |
| Output.MakeSchema | src/extraction/output.rs:24-42 | five columns, none nullable |
| Output.SchemaShape | src/extraction/output.rs:24-42 | columns source, path, size, hash, content in that order; the hash is 32 bytes wide; content is text exactly when only text is kept; the schemas differ in content alone |
| Output.ScanMeaning | src/extraction/output.rs:134-153 | the loop completes exactly when every hash is present; it then yields the first-occurrence mask and records every digest; otherwise it stops at the first null, after recording the digests before it |
| Output.ScanStopsAtNull | src/extraction/output.rs:137-141 | rows after the first null hash never affect the loop |
| Output.UniqueWriteKeepsFirstOccurrences | src/extraction/output.rs:167-183 | a unique write records every digest of the batch and counts the rows whose digest is new as written and the rest as de-duplicated; it succeeds exactly when the encoder accepts those rows, and then appends them to the file in order |
| Output.FailedEncodeStillCounts | src/extraction/output.rs:176-183 | a write whose rows the encoder refuses fails with an encoder error after the counts and the seen digests were raised; the file is unchanged and the rows are counted as written but lost |
| Output.NullHashFailsWrite | src/extraction/output.rs:137-141 | a null hash fails the write at its row; the writer keeps the digests before it and writes nothing |
| Output.FinishedWriterRefuses | src/extraction/output.rs:169-199 | finish closes the writer whether or not the encoder closes the file, and returns the file or an encoder error; after it, every write and every further finish fails "closed" and changes nothing |
| Output.OutputWriter.constructor | src/extraction/output.rs:82-118 | an open writer with the schema for the options and the given encoder, no counts, no seen digests, an empty file and no lost rows |
| Output.OutputWriter.ExcludeDuplicates | src/extraction/output.rs:124-165 | the loop proved against the exclusion specification: kept rows, new seen set, and de-duplicated raised by the rows dropped |
| Output.OutputWriter.WriteItems | src/extraction/output.rs:167-183 | write_items proved against its specification, including the encoder's refusal after the counts were raised; the writer invariant is kept |
| Output.OutputWriter.UniqueAppendValid | src/extraction/output.rs:148-152 | rows kept by exclusion extend a file of distinct, recorded digests to another such file |
| Output.OutputWriter.ReportedCounts | src/extraction/output.rs:185-189 | the writer counts only written and de-duplicated rows, and written is the file's length plus the rows the encoder refused |
| Output.OutputWriter.Finish | src/extraction/output.rs:191-200 | takes the writer out first, then returns the file or the encoder's error; a closed writer refuses |
| Items.AcceptsOwnSchema | src/extraction/items.rs:150-177 | a writer's schema accepts a buffer's batches exactly when both agree on only-text |
| Items.HashSpec | src/extraction/items.rs:123-147 | one hash per content |
| Items.AddStaysBelowCapacity | src/extraction/items.rs:82-85 | after an add, the buffer is below capacity or has just been emptied |
| Items.FlushEmptyWritesNothing | src/extraction/items.rs:114-116 | flushing an empty buffer writes nothing and succeeds |
| Items.FlushHandsOneBatch | src/extraction/items.rs:113-120 | flushing a non-empty buffer empties it and hands the writer exactly one batch, or nothing when the batch cannot be built |
| Items.BatchKeepsAllRows | src/extraction/items.rs:162-178 | without unique, a batch is every buffered row in order, each with its content's digest |
| Items.BatchKeepsFirstOccurrences | src/extraction/items.rs:179-193 | with unique, a batch keeps the first row of each digest, in order; its digests are distinct; the dropped rows are added to de-duplicated |
| Items.FlushDeduplicatesAgainstFile | src/extraction/items.rs:113-120 | both stages together keep exactly the rows whose digest is new to the file and first in the batch, which reach the file exactly when the encoder accepts them; the two counts together cover the rest |
| Items.UniqueFlushWritesBatch | src/extraction/items.rs:113-120 | a unique flush hands the writer the first occurrence of each digest in the buffer, counts the rest as de-duplicated, and succeeds exactly when the writer's write does |
| Items.WriteAccountsForBatch | src/extraction/output.rs:174-183 | a write that succeeds, or fails only in the encoder, counts every row of its batch as written or de-duplicated |
| Items.FlushConserves | src/extraction/items.rs:113-120 | a successful flush loses no row |
| Items.AddConserves | src/extraction/items.rs:65-86 | a successful add accounts for exactly one more row |
| Items.AddAllConserves | src/extraction/items.rs:65-110 | a run of successful adds accounts for every row added |
| Items.AddAllAppend | src/extraction/items.rs:65-110 | adding two runs of rows is adding the first, then the second |
| Items.FlushKeepsShape | src/extraction/items.rs:113-120 | a flush changes only the buffer's de-duplicated count, which never falls, and leaves the writer open or closed as it was |
| Items.AddAllKeepsShape | src/extraction/items.rs:65-110 | the same holds for any run of adds |
| Items.Items.constructor | src/extraction/items.rs:45-62 | an empty buffer with no counts, over the given writer, capacity and options |
| Items.Items.AddRecord | src/extraction/items.rs:65-86 | add_record proved against the add specification |
| Items.Items.AddTextRecord | src/extraction/items.rs:89-110 | add_text_record proved against the add specification |
| Items.Items.Append | src/extraction/items.rs:78-85 | append the row, and flush once the buffer reaches capacity |
| Items.Items.Flush | src/extraction/items.rs:113-120 | flush proved against the flush specification |
| Items.Items.HashIterator | src/extraction/items.rs:123-147 | equals the hash specification: each content's digest, or a null for a digest repeated within the batch |
| Items.Items.HashStep | src/extraction/items.rs:129-145 | from the state after `idx` contents, one more content appends its digest (or a null when de-duplicating and its digest was already met) and adds its digest to the set of digests already met |
| Items.Items.CreateRecordBatchAndReset | src/extraction/items.rs:150-194 | proved against the batch specification; the buffer is left empty |
| Items.Items.ReportedCounts | src/extraction/items.rs:196-198 | the buffer counts only de-duplicated rows |
| ArchiveExtract.FoldAllOk | src/formats/tar.rs:18-40 | the member loop succeeds exactly when every member does; it then yields their rows in order and the sum of their counts |
| ArchiveExtract.FoldFirstError | src/formats/tar.rs:19-36 | the first failing member decides the loop's error, after the rows before it |
| ArchiveExtract.FoldStopped | src/formats/tar.rs:19-36 | once the loop has stopped, later members do not matter |
| ArchiveExtract.RunResult | src/formats/common.rs:29-67 | running a plan fails exactly when it stops, and otherwise adds every row of the plan |
| ArchiveExtract.ThenStopped | src/formats/tar.rs:36 | a stopped part ends the whole loop |
| ArchiveExtract.ThenRuns | src/formats/tar.rs:36 | a part that runs through hands its buffer state to the next part |
| ArchiveExtract.EntrySizeRefused | src/formats/common.rs:38-40 | a member refused by the size check adds no row and counts nothing |
| ArchiveExtract.SmallTarMemberCountsNothing | src/tests.rs:199-217 | with a minimum of 1000, a tar holding one 11-byte member yields no row and no counts, not the `read 1, skipped 1` the test expects |
| ArchiveExtract.EntryRecurses | src/formats/common.rs:42-48 | with depth left and a detected format, the member is extracted under "source/path" with one level less |
| ArchiveExtract.EntryLeaf | src/formats/common.rs:51-66 | otherwise the member is one row counted as read, or nothing when only text is kept and it is not UTF-8 |
| ArchiveExtract.TextOnlyLeaf | src/formats/common.rs:25-66 | with only text kept, an ASCII leaf member is its row, and a lone continuation or lead byte is dropped |
| ArchiveExtract.NoBudgetNoRecursion | src/formats/common.rs:42 | without depth left no member is entered: each is one row, nothing, or a failure |
| ArchiveExtract.EntryAccounted | src/formats/common.rs:29-67 | every row lies under the starting source; success counts one read per row and nothing written or de-duplicated |
| ArchiveExtract.FormatAccounted | src/formats/mod.rs:45-52 | the same holds for a whole format extraction |
| ArchiveExtract.TarAccounted | src/formats/tar.rs:9-40 | the same holds for a tar extraction |
| ArchiveExtract.ZipAccounted | src/formats/zip.rs:8-34 | the same holds for a zip extraction |
| ArchiveExtract.FoldAccounted | src/formats/tar.rs:18-39 | the member loop keeps that accounting |
| ArchiveExtract.TarMemberRules | src/formats/tar.rs:19-36 | an unreadable member or header size fails; a non-Regular member, or one without a UTF-8 path, is one skip; the rest go to add_archive_entry |
| ArchiveExtract.ZipMemberRules | src/formats/zip.rs:22-31 | a non-file is one skip; a file goes to add_archive_entry with its name and size |
| ArchiveExtract.FormatDispatch | src/formats/mod.rs:45-52 | Tar extracts as tar, TarGz as tar over the gunzipped bytes, Zip as zip |
| ArchiveExtract.TarMemberPlans | src/formats/tar.rs:18-37 | one plan per member |
| ArchiveExtract.ZipMemberPlans | src/formats/zip.rs:17-32 | one plan per entry |
| ArchiveExtract.Buffer.constructor | src/formats/tar.rs:16 | the shared buffer starts empty |
| ArchiveExtract.FillBuffer | src/formats/common.rs:9-23 | the buffer is cleared; a refused member leaves it empty; an unreadable member is an IO error; otherwise it holds the contents |
| ArchiveExtract.RunOneRow | src/formats/common.rs:55-63 | adding one leaf row runs as one buffer add |
| ArchiveExtract.AddArchiveEntry | src/formats/common.rs:29-67 | add_archive_entry proved against the entry plan |
| ArchiveExtract.Extract | src/formats/mod.rs:38-55 | extract proved against the format plan |
| ArchiveExtract.TarExtract | src/formats/tar.rs:9-40 | the tar loop proved against the tar plan |
| ArchiveExtract.ZipExtract | src/formats/zip.rs:8-34 | the zip loop proved against the zip plan |
| ArchiveExtract.StopAt | src/formats/tar.rs:19 | a member that fails to read stops the loop with an IO error |
| ArchiveExtract.StepSkip | src/formats/tar.rs:20-31 | a skipped member adds one skip and no row |
| ArchiveExtract.StepEntry | src/formats/tar.rs:36 | a member's result is added to the counts, or ends the loop |
| Input.HasPath | src/extraction/input.rs:45-47 | true exactly when some registered input has the path |
| Input.RegisterCases | src/extraction/input.rs:70-111 | a path already present is ignored; a detected format appends one input; an unsupported format is ignored when asked; any other error is reported with the path |
| Input.RegisterKeepsPathsDistinct | src/extraction/input.rs:70-111 | registration keeps paths distinct; afterwards the path is present exactly when it was before or detection succeeded |
| Input.DirectoryRegistersEveryFile | src/extraction/input.rs:49-68 | earlier inputs stay a prefix; every walked file whose format is detected ends up registered; every walk error is reported |
| Input.DirectoryStepKeeps | src/extraction/input.rs:53-66 | one walk item keeps earlier inputs and registers a detected file |
| Input.DirectoryStepFails | src/extraction/input.rs:53-66 | one walk item appends exactly its own failures to the errors: a walk error, or the error of a file whose registration failed |
| Input.DirectoryReportsEveryFailure | src/extraction/input.rs:49-68 | the returned errors are exactly the walk's failures, one per walk error or failed registration, in walk order |
| Input.FailedRegistrationReported | src/extraction/input.rs:60-63 | a walked file not yet registered whose detection fails (other than an ignored unsupported format) is reported with its path and error |
| Input.PathLe | src/extraction/input.rs:126-129 | paths with the same components (so `a//b`, `a/./b` and `a/b/` against `a/b`) are ordered both ways, as `Path::cmp` compares components |
| Input.PathLeTotal | src/extraction/input.rs:126-129 | the component order on paths is total |
| Input.PathLeTransitive | src/extraction/input.rs:126-129 | the component order on paths is transitive |
| Input.DirectoryBeforeDottedSibling | src/extraction/input.rs:126-129 | `root/d/x` sorts before `root/d.ext`, because component `d` is below `d.ext`, although character order puts it after |
| Input.PathLeTotalPreorder | src/extraction/input.rs:126-129 | the path order is a total preorder, which is what a comparator given to `sort_by` must be |
| Input.InsertPermutes | src/extraction/input.rs:126-129 | inserting adds exactly that input and keeps every other |
| Input.InsertSorted | src/extraction/input.rs:126-129 | under a total preorder, inserting into a sorted sequence keeps it sorted |
| Input.InsertFront | src/extraction/input.rs:126-129 | an input no greater than every other input may go first |
| Input.InsertBehind | src/extraction/input.rs:126-129 | an input not below the head is inserted behind it |
| Input.SortBySorts | src/extraction/input.rs:126-129 | sorting by a total preorder gives a sequence ordered by it |
| Input.SortByPermutes | src/extraction/input.rs:126-129 | sorting gives a permutation of its input |
| Input.SortByPathSorts | src/extraction/input.rs:126-129 | the sorted inputs are ordered by path components and are a permutation of the inputs |
| Input.InputContents.constructor | src/extraction/input.rs:27-31 | no inputs |
| Input.InputContents.IsEmpty | src/extraction/input.rs:41-43 | empty exactly when the length is zero |
| Input.InputContents.InputPathExists | src/extraction/input.rs:45-47 | true exactly when some input has the path |
| Input.InputContents.AddPath | src/extraction/input.rs:70-90 | the file's detected format (Io when it cannot be opened) registered under the registration rules, from the file's own bytes |
| Input.InputContents.AddBuffer | src/extraction/input.rs:92-111 | the buffer's detected format registered under the registration rules, with the buffer as the input |
| Input.InputContents.AddReader | src/extraction/input.rs:113-124 | the reader is appended unconditionally with the given format; the length grows by one |
| Input.InputContents.AddDirectory | src/extraction/input.rs:49-68 | the walk loop proved against the directory specification, gathering errors |
| Input.InputContents.ContentsSequential | src/extraction/input.rs:126-129 | the inputs are drained, sorted by path, and form a permutation of what was registered |
| Extraction.RunInputs | src/extraction/extractor.rs:136-145 | one result per input |
| Extraction.ContentKeepsOpen | src/extraction/input.rs:207-224 | extracting one input leaves the writer open or closed as it was |
| Extraction.RunInputsKeepsOpen | src/extraction/extractor.rs:136-145 | so does extracting every input |
| Extraction.ContentConserves | src/extraction/input.rs:207-224 | a successful input reports nothing written; its reads plus what the writer held before equal what the writer holds now plus the input's own de-duplicated rows |
| Extraction.ConservedStep | src/extraction/extractor.rs:136-145 | each successful input keeps the run's accounting |
| Extraction.RunInputsConserves | src/extraction/extractor.rs:136-147 | when every input succeeds, all reads are accounted for as written or de-duplicated by a buffer or by the writer |
| Extraction.FreshRunAccountsForEveryMember | src/extraction/extractor.rs:126-158 | from a fresh writer where every input succeeds, the reported read count equals written plus de-duplicated |
| Extraction.TwinTarsDeduplicate | src/tests.rs:283-307 | two tar inputs that each hold two regular members with the same content, extracted with unique, report 4 read, 0 skipped, 3 de-duplicated and 1 written, and the output file holds only the first member of the first tar |
| Extraction.TwinTarPlan | src/formats/tar.rs:9-40 | a tar of two regular members within the size limit yields their two rows in order and counts two reads |
| Extraction.TwinBatch | src/extraction/items.rs:179-193 | two rows with the same content both get its digest, and the first-occurrence selection keeps only the first |
| Extraction.TwinFlush | src/extraction/items.rs:113-120 | flushing those two rows into a writer writes the first row when its digest is new to the file, and de-duplicates it otherwise |
| Extraction.OkValuesAppend | src/extraction/extractor.rs:147 | flattening results distributes over concatenation |
| Extraction.FailedInputIgnored | src/extraction/extractor.rs:147 | a failed input contributes nothing to the summed counts |
| Extraction.AllOkSummed | src/extraction/extractor.rs:147 | when every input succeeds, every result is summed |
| Extraction.CombineFields | src/extraction/extractor.rs:150-155 | read and skipped come from the inputs; de-duplicated is the inputs' plus the writer's; written is the writer's |
| Extraction.RunInputsStep | src/extraction/extractor.rs:137-143 | one more input extends the run by that input's extraction |
| Extraction.ContentExtract | src/extraction/input.rs:207-224 | extracting one input, proved against its specification: a fresh buffer, the format's extraction, then a final flush |
| Extraction.ExtractInputs | src/extraction/extractor.rs:136-145 | the loop over the sorted inputs, proved against the run specification, with one callback record per input |
| Extraction.Extractor.constructor | src/extraction/extractor.rs:64-76 | the given writer and options, over new empty inputs |
| Extraction.Extractor.SetInputContents | src/extraction/extractor.rs:78-80 | the inputs are replaced |
| Extraction.Extractor.InputFileCount | src/extraction/extractor.rs:86-88 | the number of registered inputs |
| Extraction.Extractor.HasInputFiles | src/extraction/extractor.rs:90-92 | true exactly when some input is registered |
| Extraction.Extractor.DoExtract | src/extraction/extractor.rs:126-158 | the inputs are drained and extracted in path order; the writer ends as the run specification says; the result combines the summed successful counts with the writer's counts |
| Entry.PathsOf | src/anyreader_walker/entry.rs:13-16 | the entries' paths, in order |
| Entry.DecimalWellFormed | src/anyreader_walker/entry.rs:27-31 | a size renders as a non-empty digit string with no leading zero |
| Entry.ParseDecimalOfDecimal | src/anyreader_walker/entry.rs:27-31 | reading a rendered size back gives the size |
| Entry.DisplayRoundTrip | src/anyreader_walker/entry.rs:27-31 | "path (size bytes)" determines the details it was made from, whatever the path holds |
| Entry.NewEntry | src/anyreader_walker/entry.rs:66-71 | the entry has the given path, size and reader |
| Entry.Display | src/anyreader_walker/entry.rs:27-31 | the text starts with the path and ends with " bytes)", with room for the size in between |
| Entry.FromReader | src/anyreader_walker/entry.rs:73-83 | fails exactly when classifying the reader fails, with that error; otherwise the entry has the given path and size and the classified reader |
| Entry.FromBytes | src/anyreader_walker/entry.rs:50-62 | fails exactly when classifying the buffer fails, with that error; otherwise the size is the buffer's length |
| Entry.VisitWalker | src/anyreader_walker/entry.rs:101-124 | an entry is walked as tar exactly when it is tar, as zip exactly when it is zip, and as an archive exactly when it supports recursion |
| Walkers.ResultOf | src/anyreader_walker/walkers/tarfile.rs:21-33 | visit fails exactly when the walk failed |
| Walkers.TarItems | src/anyreader_walker/walkers/tarfile.rs:23-31 | one item per member |
| Walkers.ZipItems | src/anyreader_walker/walkers/zipfile.rs:22-31 | one item per entry |
| Walkers.StepsSticky | src/anyreader_walker/walkers/tarfile.rs:23 | once the walk has ended or failed, later members do not matter |
| Walkers.StepsVisitCandidates | src/anyreader_walker/walkers/tarfile.rs:23-31 | the walk visits candidates only, in order, and all of them while it goes on |
| Walkers.StepsClean | src/anyreader_walker/walkers/tarfile.rs:23-32 | with no unreadable member and a visitor that accepts everything, every candidate is visited and the walk succeeds |
| Walkers.StepsEndAtBroken | src/anyreader_walker/walkers/tarfile.rs:23 | a member that fails to read ends the walk silently |
| Walkers.StepsAbortOnRefusal | src/anyreader_walker/walkers/tarfile.rs:30 | a visitor failure ends the walk with that error, after that entry |
| Walkers.VisitsFromCandidates | src/anyreader_walker/walkers/tarfile.rs:27-30 | every visited entry is non-empty and carries its candidate's path and size |
| Walkers.TarItemRules | src/anyreader_walker/walkers/tarfile.rs:23-29 | only Regular, non-empty members with a path and a reader become candidates, with the header path and size |
| Walkers.ZipItemRules | src/anyreader_walker/walkers/zipfile.rs:22-28 | only non-empty files with a reader become candidates, with the entry's name and size |
| Walkers.Visitor.constructor | src/anyreader_walker/walkers/tarfile.rs:21 | a visitor that has seen nothing |
| Walkers.Visitor.Walk | src/anyreader_walker/walkers/tarfile.rs:30 | records the entry; fails exactly when the visitor refuses it |
| Walkers.TarVisit | src/anyreader_walker/walkers/tarfile.rs:21-33 | the tar loop proved against the tar walk |
| Walkers.ZipVisit | src/anyreader_walker/walkers/zipfile.rs:21-33 | the zip loop proved against the walk over the zip entries |
| Walkers.FileVisit | src/anyreader_walker/walkers/file.rs:19-21 | the entry itself is handed over; fails exactly when the visitor refuses it |
| Paths.Push | src/anyreader_walker/utils.rs:38-40 | an absolute path replaces the base; otherwise a separator is inserted only after a non-empty base that does not end in one |
| Paths.PushEmptyBase | src/anyreader_walker/utils.rs:38-40 | pushing onto the empty path gives the path pushed |
| Paths.PushAssociative | src/anyreader_walker/utils.rs:49-55 | push is associative |
| Paths.CollectSingle | src/anyreader_walker/utils.rs:38-40 | collecting one path gives that path |
| Paths.CollectAppend | src/anyreader_walker/utils.rs:38-40 | collecting one more path pushes it |
| Paths.CollectCons | src/anyreader_walker/utils.rs:49-55 | collecting a path followed by at least one more is the first joined with the collection of the rest |
| Paths.CollectPaths | crates/anyreader-walker/src/utils.rs:44 | the push loop equals from_iter |
| WalkerUtils.NestedPathsOf | src/anyreader_walker/utils.rs:53-55 | every path but the root |
| WalkerUtils.NestedPathEmptyUpToDepthOne | src/anyreader_walker/utils.rs:49-55 | at depth at most one the nested path is empty; otherwise it is the paths after the root |
| WalkerUtils.FullPathIsRootJoinNested | src/anyreader_walker/utils.rs:38-55 | from depth two the full path is the root joined with the nested path; at depth one it is the root; empty stacks give empty paths |
| WalkerUtils.ArchiveStack.constructor | src/anyreader_walker/utils.rs:14-16 | an empty stack |
| WalkerUtils.ArchiveStack.IsEmpty | src/anyreader_walker/utils.rs:34-36 | empty exactly at depth zero |
| WalkerUtils.ArchiveStack.LastEntry | src/anyreader_walker/utils.rs:18-20 | none exactly at depth zero; otherwise the top entry |
| WalkerUtils.ArchiveStack.PushDetails | src/anyreader_walker/utils.rs:22-24 | depth grows by one; the new top is the pushed entry; the root is kept; the full path gains the pushed path |
| WalkerUtils.ArchiveStack.PopDetails | src/anyreader_walker/utils.rs:26-28 | returns and removes the top entry; on an empty stack, none and no change |
| WalkerUtils.PushPopRestores | src/anyreader_walker/utils.rs:22-28 | a push followed by a pop returns the pushed entry and restores the stack |
| WalkerCrateUtils.ArchiveStack.constructor | crates/anyreader-walker/src/utils.rs:28-30 | an empty stack with the empty nested path |
| WalkerCrateUtils.ArchiveStack.IsEmpty | crates/anyreader-walker/src/utils.rs:52-54 | empty exactly at depth zero |
| WalkerCrateUtils.ArchiveStack.LastEntry | crates/anyreader-walker/src/utils.rs:32-34 | none exactly at depth zero; otherwise the top entry |
| WalkerCrateUtils.ArchiveStack.PushDetails | crates/anyreader-walker/src/utils.rs:36-40 | the entry is pushed, and the nested path gains its path and is returned |
| WalkerCrateUtils.ArchiveStack.PopDetails | crates/anyreader-walker/src/utils.rs:42-46 | the top entry is removed and returned; the nested path is rebuilt from what remains |
| WalkerCrateUtils.DocumentedExample | crates/anyreader-walker/src/utils.rs:13-19 | first.tar then second.tar give "first.tar/second.tar" at depth two; a pop gives "first.tar" |
| LegacyItems.RowHashes | src/items.rs:32-41 | one digest per content row |
| LegacyItems.HashDependsOnRowOnly | src/items.rs:32-41 | a row's digest depends on that row alone; a null row hashes no bytes |
| LegacyItems.ColumnLayout | src/items.rs:44-55 | five columns in order source, path, size, content, hash; the source repeated once per row; one digest per row |
| LegacyItems.BatchBuiltIffAligned | src/output.rs:14-23 | under `make_schema`, where no column is nullable, the batch that `Items::into_record_batch` builds (src/items.rs:29-56) is built exactly when paths and sizes have one value per content row and every content row is present |
| LegacyItems.Items.constructor | src/items.rs:20-28 | empty columns for one source |
| LegacyItems.Items.IntoRecordBatch | src/items.rs:29-56 | the hasher loop proved to give one digest per row; the result is the batch of those columns |

## Left out

- I/O and foreign crates: file system reads, `File::open` and metadata, `WalkDir`, gzip, zstd, bzip2 and xz decoding, the `tar` and `zip` parsers, Arrow builders, and SHA-256 are parameters or given data. The Parquet encoder is an `Encoder` parameter: a predicate that says whether it accepts a batch after the rows already in the file, and one that says whether it closes the file. The Parquet file is modelled as the sequence of rows written.
- Parallel extraction: `contents_parallel` and the rayon pool are left out. The model follows the sequential path, which `do_extract` takes under `cfg(test)`. Locking the writer's mutex is implicit.
- Writer properties: compression, bloom filters, statistics and dictionary settings (src/extraction/output.rs:89-103) do not change which rows are written, so they are left out.
- Input.PathLe: paths are split on `/` and compared component by component as Rust's `Path::cmp` does on Unix (a root, `.` at the start, `..`, then names in character order; empty and `.` components dropped). The Windows prefix component is not modelled.
- Input.InputContents.AddPath: after detection the source opens the file a second time (src/extraction/input.rs:85), and that open can fail with the path's IO error, registering nothing; the model reads one static file map, so an open that succeeded for detection cannot fail afterwards.
- Input.HasPath, Input.InputContents.InputPathExists: a path is compared with the registered ones by whole-string equality, while `Path`'s `==` compares components (src/extraction/input.rs:46). So `a//b`, `a/./b` and `a/b/` are not recognised as `a/b`. Comparing by components inside the registry's quantifiers costs more than the verifier's resource limit allows.
- Magic: the model's tar, zip and gzip predicates simplify `infer`'s. Tar is "ustar" at offset 257. Zip is PK 03 04 only, while `infer`'s `is_zip` also accepts PK 05 06 and PK 07 08. Gzip is 1F 8B only, while `infer`'s `is_gz` also requires the third byte 08.
- Formats.ReadCount: a single `read` over a file or a decoder may return fewer bytes than are available. The model always reads min(280, length) bytes.
- The Format module under src/formats/ is written against an earlier `Limits` type and a `usize` return value. The model reads `Limits` as `ExtractionOptions`, and a "max depth above zero" as a depth budget that is present. A member's 0 or 1 becomes no counts or one read, which is what the tar and zip loops add.
- ArchiveExtract.EntrySizeRefused: a member refused by the size check counts nothing, as `add_archive_entry` returns 0 (src/formats/common.rs:38-40). The `read 1, skipped 1` that src/tests.rs:206-217 expects for an 11-byte member under a minimum of 1000 is therefore not reproduced (ArchiveExtract.SmallTarMemberCountsNothing).
- Extraction.FreshRunAccountsForEveryMember: `read == written + deduplicated` holds for the counts as the code computes them; a size-refused member is counted neither as read nor as skipped, unlike src/tests.rs:215 expects.
- `ArchiveFormat` (input.rs) is modelled by `Formats.Format`.
- Formats.DetectType: follows the corrected `read_slice` (Formats.ReadSlice, see Findings). For every minimum of at most 280 bytes this is detection as written (Formats.DetectTypeAgreesWithSource); above 280 the source refuses every non-empty input as UnsupportedFormat (Formats.DetectTypeAsWrittenRefusesAll), which this member does not reproduce.
- Formats.IsTarGz: detects over the corrected `read_slice`, so for a minimum above 280 it does not reproduce the source's refusal of every input (see Formats.DetectType).
- Formats.TryFromPath: detects over the corrected `read_slice`, so for a minimum above 280 it does not reproduce the source's refusal of every input (see Formats.DetectType).
- Formats.DetectTypePriority: detects over the corrected `read_slice`, so for a minimum above 280 it does not reproduce the source's refusal of every input (see Formats.DetectType).
- ArchiveExtract.EntryPlan: detects over the corrected `read_slice`, so for a minimum above 280 it does not reproduce the source's refusal of every input (see Formats.DetectType).
- ArchiveExtract.EntryRecurses: detects over the corrected `read_slice`, so for a minimum above 280 it does not reproduce the source's refusal of every input (see Formats.DetectType).
- ArchiveExtract.EntryLeaf: detects over the corrected `read_slice`, so for a minimum above 280 it does not reproduce the source's refusal of every input (see Formats.DetectType).
- ArchiveExtract.AddArchiveEntry: detects over the corrected `read_slice`, so for a minimum above 280 it does not reproduce the source's refusal of every input (see Formats.DetectType).
- Input.InputContents.AddPath: detects over the corrected `read_slice`, so for a minimum above 280 it does not reproduce the source's refusal of every input (see Formats.DetectType).
- Input.InputContents.AddBuffer: detects over the corrected `read_slice`, so for a minimum above 280 it does not reproduce the source's refusal of every input (see Formats.DetectType).
- Formats.ReadSlice, Formats.IsTarGz: `read_slice` calls `.expect` on the result of `read`, so a read error (a corrupt gzip header behind the gzip magic, an unreadable file) panics. The model's reads and `gunzip` are total and never fail, so that panic is not modelled.
- ArchiveExtract.FillBuffer: when a read fails after part of a member was read, the model's buffer is empty, not partly filled. The error returned is the same.
- `add_record` and `add_text_record` assert the only-text mode. The model takes that as a precondition instead of a panic.
- `Output.OutputWriter.ReportedCounts` requires an open writer, because the source panics on a closed one.
- The five `Extractor::add_*` methods and `input_contents_mut` only delegate to `InputContents`, and `extract` and `extract_with_callback` only call `do_extract`. `finish` delegates to `OutputWriter.Finish`. None of them is modelled separately.
- `InputContents::from_contents` only wraps a given sequence and is not modelled.
- LegacyItems.Items: callers append to the path, size and data fields directly. The model has no methods for those appends.
- Tracing, logging and the `Display` of `Items` and `OutputWriter` are left out. `EntryDetails`' `Display` is modelled.
- Integer widths: counts are unbounded `nat`s. `usize` overflow of a count is not modelled.

## Findings

| source | as written | input that shows it | evidently intended | confidence | as-written member | corrected member |
|---|---|---|---|---|---|---|
| src/formats/mod.rs:97-103 | `read_slice` compares the bytes of one read, at most 280, against `min_file_size` | `min_file_size` 1000 and a 2048-byte tar archive: the read returns 280 bytes, and the archive is refused as UnsupportedFormat | refuse an input as too small only when the input itself is shorter than the minimum | not executed | Formats.ReadSliceAsWritten, Formats.ReadSliceAsWrittenRefusesLargeInputs, Formats.DetectTypeAsWritten, Formats.DetectTypeAsWrittenRefusesAll | Formats.ReadSlice, Formats.DetectType, Formats.DetectTypeAgreesWithSource |
