# Tangleaf: a verified model of its ink format, AI index, splitter, operation log and clocks

The project models five parts of Tangleaf in Dafny and proves what they are for.

* **The ink file format** (`crates/ink-format`). Deterministic CBOR with its budgeted pre-walk
  (`CborValue`, `CborPreflight`, `CborCodec`; byte by byte `CborWire`, `FloatWidths`, `Utf8Text`), the binary chunk
  container with its back-patched tables (`ChunkFormat`, `ChunkEncode`, `ChunkWriter`, `ChunkRoundTrip`, `ChunkAccount`,
  `ChunkFacts`; byte by byte `ChunkDecode`), the typed record bodies (`Fields`, `Lists`, `Records`, `Bodies`, `Profiles`,
  `Geometries`, `Documents`, `BodyLoops`, `TypedRecords`; field by field `RecordWire`) and the validator of whole
  snapshots (`SnapshotSpec`, `FirstPaths`, `SnapshotGraph`, `SnapshotTicks`, `Snapshots`, `LongChains`; from the stored
  records and bytes alone `SnapshotLaws`, `SampleRows`, `DepthLimit`).
* **The AI index** (`crates/notes-ai`). The transactions of one generation (`AiIndex`), every interleaving of
  them (`AiRuns`), the store whose methods perform them (`AiStore`), what the tables show of everything that happened
  (`AiHistory`), the cursor that skips full scans (`CursorSkip`), the entity graph (`ExtractionGraph`, `ExtractionStore`,
  `ExtractionLaws`) and one embedding tick (`EmbedTick`, `TickLaws`).
* **The text splitter** (`SplitText`, `Splitter`, `FenceDrift`; from the characters alone `SplitLaws`).
* **The server's operation log**: the log itself (`Oplog`), ingest, rollback and replay (`Ingest`), what the notes hold
  after any of them (`LogContent`), and what one connected client receives (`Delivery`).
* **Hybrid logical clocks**: the clock over unbounded distributed runs (`HybridClock`) and its text (`ClockText`).

Code that computes a value is a function; code that loops or updates fields is a method or a class whose
contract ties it to a function or a predicate, and the theorems are about those. For each main operation there is a
theorem that says what it does without naming those functions: from bytes, characters, rows or the history of a run.
SQL tables are maps and sets, and a transaction is one atomic method.

What the code outside the model does enters as a parameter, and every theorem holds for all of them:
`Platform` (the CRC-32, and PCO compression with the assumption, where it is needed, that opening undoes
compressing), `Arith` (binary64 comparison and the matrix test), `World.sha` (SHA-256), `Unicode` (trimming, lower
case and counting of entity names), `Naming` (UUID version 5, assumed free of collisions) and `Rules` (how a single
synchronised operation validates and changes the notes).

Nine things the proofs brought out about the code, each with the exact condition and an input on the failing side:

* A `Document` that maps a segment to the all-zero chunk identifier is written without complaint and cannot be
  read back (`model.rs` checks the identifier only in `from_value`). `Documents.DocumentReads` and
  `TypedRecords.BodyRoundTrip` say exactly when the round trip holds; `Documents.LostDocument` is such a document.
* The encoder accepts maps and arrays down to depth 32, one level more than a parser whose recursion limit admits 32
  nested containers. For such a parser `CborCodec.RoundTrip` gives both sides of the limit, and
  `CborCodec.DeepValueIsLost` is a value, 33 nested arrays, that encodes and does not decode.
* A clock whose counter has reached its maximum can issue a stamp that is not later than its cause.
  `HybridClock.ReceiveAfterRemote`, `ReceiveAfterLocal` and `SendAfterPrevious` give the exact condition;
  `SaturationBreaksOrder` is the concrete case.
* The clock parser accepts more texts than the printer writes; printing gives the text back exactly when it has
  the printed shape (`ClockText.ParsePrintsExactly`, `LooseTextsAccepted`).
* A client whose backlog is intact is left with a gap exactly when more than 1,000 operations after its cursor had been
  published when it subscribed and a live message has already reached it (`Delivery.NoGapExactly`, `GapHappens`).
* A client is sent only what the log holds and goes on holding, through every rollback, exactly when the page of its
  backlog ends before the batch in progress at the moment it is read (`Delivery.DeliveryIsTrueExactly`). Read inside a
  batch that fails, it gets two operations under one number (`RollBackBreaksDelivery`).
* A write that arrives after a reset makes the emptied index active exactly when it is well formed and its caller had
  counted no documents (`AiRuns.ResetActivatesExactly`, `ResetRace`).
* The fence state the splitter carries agrees with the fence lines of the body exactly after an even number of slips: a
  turn slips when it cuts a line and drops an odd number of fence lines, or when the line across its start is miscounted,
  but not when both (`FenceDrift.InStepExactly`; `Splitter.HardCutExactly` says from the text alone when a line is cut).
  Both kinds happen at the limits the code uses (`FenceDrift.LongFenceLineSlips`, `TailThatLooksLikeAFenceSlips`).
* The depth check of the snapshot validator bounds first paths, not all paths: `Snapshots.Validate` says exactly what is
  accepted, and `LongChains.AcceptChain` is an accepted snapshot with a dependency path of any length up to 2,000.

## Model

| member | source | states |
|---|---|---|
| CborPreflight.AcceptsExactly | crates/ink-format/src/cbor.rs:111-162 | The budgeted walk accepts exactly the byte strings that are one well-formed definite-length item (section 3 of RFC 8949, for the accepted major types) of depth at most 32 with at most 1,000,000 items and nothing after it; the early budget and length checks refuse nothing more. |
| CborPreflight.Preflight | crates/ink-format/src/cbor.rs:111-162 | The loop over a position and a shared budget reaches that verdict on every input, terminates and never reads outside the input. |
| CborPreflight.ItemStep | crates/ink-format/src/cbor.rs:112-158 | One recursive step advances the position by exactly one item and spends exactly that item's share of the budget, with the walk's error otherwise. |
| CborPreflight.WalkSound | crates/ink-format/src/cbor.rs:112-158 | A successful walk yields a well-formed item whose bytes are those consumed, whose size is the budget spent and whose depth fits. |
| CborPreflight.WalkComplete | crates/ink-format/src/cbor.rs:112-158 | Every well-formed item within depth and budget is walked, leaving exactly what followed it. |
| CborValue.ParseWrite | crates/ink-format/src/cbor.rs:62-76 | Reading what the shortest-form writer wrote, followed by any bytes, gives the value and those bytes, for every nesting within the parser's limit. |
| CborValue.PrefixFree | crates/ink-format/src/cbor.rs:62-64 | No encoding is a proper prefix of another: equal concatenations split the same way. |
| CborWire.WireExactly | crates/ink-format/src/cbor.rs:62-64 | The bytes of every kind of value, in the numbers of RFC 8949: integers from 0 under major type 0, negative ones under 1 with -1 - n, byte strings 2, texts 3, arrays 4, maps 5, the simple values and the three float widths, each argument in the shortest form, big-endian. |
| CborWire.AppendixA | crates/ink-format/src/cbor.rs:62-64 | Twelve examples of appendix A of RFC 8949, byte for byte. |
| Utf8Text.Utf8Exactly | crates/ink-format/src/cbor.rs:67-77 | A byte string is a text exactly when it is the UTF-8 encoding of some sequence of Unicode scalar values. |
| FloatWidths.NarrowSingleExactly | crates/ink-format/src/cbor.rs:62-64 | A binary32 number narrows to a binary16 one exactly when that is the finite number of the same sign and size, sizes being significands times powers of two. |
| FloatWidths.NarrowDoubleExactly | crates/ink-format/src/cbor.rs:62-64 | The same from binary64 to binary32. |
| FloatWidths.ShortestExactly | crates/ink-format/src/cbor.rs:67-77 | A float may stand in a width exactly when no number of the next shorter width has its sign and size. |
| CborCodec.SortSorts | crates/ink-format/src/cbor.rs:37-49 | Sorting map entries by encoded key gives an ascending permutation. |
| CborCodec.CanonicalExactly | crates/ink-format/src/cbor.rs:24-58 | The recursive canonicaliser returns `c` exactly when `c` is canonical (ordered, distinct keys, depth within 32, no tags) and `c` is the input with map entries reordered at every level. |
| CborCodec.CanonicalIdempotent | crates/ink-format/src/cbor.rs:24-58 | Canonicalising twice is canonicalising once. |
| CborCodec.EncodeSucceedsExactly | crates/ink-format/src/cbor.rs:23-65 | Encoding succeeds exactly when a canonical form exists, is at most 16 MiB long and has at most 1,000,000 items; the bytes are those of the canonical form. |
| CborCodec.DecodedIsCanonical | crates/ink-format/src/cbor.rs:67-77 | Whatever decodes is canonical and encodes to the very same bytes. |
| CborCodec.RoundTrip | crates/ink-format/src/cbor.rs:23-77 | A successful encoding decodes to the value with its maps sorted exactly when its nesting is within the parser's recursion limit, and to an error otherwise. |
| CborCodec.DeepValueIsLost | crates/ink-format/src/cbor.rs:23-77 | 33 nested arrays encode and do not decode. |
| CborCodec.DecodeAcceptsExactly | crates/ink-format/src/cbor.rs:67-77 | `decode(b)` is `v` exactly when `v` is canonical, within the nesting limit and `encode(v)` is `b`: unique decodability. |
| CborCodec.EncodesAlikeExactly | crates/ink-format/src/cbor.rs:23-65 | Two values encode alike exactly when their canonical forms are equal. |
| ChunkFormat.DecodeNumbers | crates/ink-format/src/codec.rs:113-140 | The loop over compressed pages returns exactly the requested count of numbers or an error, as the specification function over the pages does. |
| ChunkFormat.RunSegments | crates/ink-format/src/chunk.rs:207-224 | The segment loop with its running total and its set of identifiers returns what the specification of the table returns, on any bytes. |
| ChunkRoundTrip.SegmentsExactly | crates/ink-format/src/chunk.rs:207-224 | That is exactly the segments the table holds, provided their identifiers are distinct and not zero, their counts are not zero and add up to the header's count, and the reserved bytes are zero. |
| ChunkFormat.RunColumns | crates/ink-format/src/chunk.rs:225-357 | The column loop computes the specification scan: columns, declared ranges, decoded total and strictly rising semantics, or an error. |
| ChunkFormat.RunSweep | crates/ink-format/src/chunk.rs:364-371 | The sweep over sorted ranges accepts exactly when the specification sweep does: no overlap, and zeros between. |
| ChunkFormat.RunLayout | crates/ink-format/src/chunk.rs:168-381 | The whole reader, on any bytes, computes the specification layout (on the bytes: `ChunkDecode.LayoutExactly`, checksums included); every read stays inside the buffer. |
| ChunkFormat.ColumnsStayWithin | crates/ink-format/src/chunk.rs:225-357 | Every range an accepted scan declares lies inside the buffer. |
| ChunkDecode.DecodesExactly | crates/ink-format/src/chunk.rs:168-381 | `decode` accepts exactly the byte strings that hold a chunk, byte range by byte range (header fields, segment table, 64-byte column entries, bitmaps, payloads, padding, checksums), and returns that chunk. |
| ChunkDecode.LayoutExactly | crates/ink-format/src/chunk.rs:164-381 | The same of the reader that only measures: it accepts those bytes but for the values, and returns the total length their entries announce. |
| ChunkDecode.ChecksumsHold | crates/ink-format/src/chunk.rs:171-334 | In accepted bytes, decoded or measured, the word at 72 is the checksum of the 72 bytes before it, the word at 76 that of the directory, and the word at 48 of each column entry that of exactly the bytes its offset and length declare. |
| ChunkDecode.CorruptPayloadRefused | crates/ink-format/src/chunk.rs:329-334 | Of two files with the same tables whose checksum tells one of their payloads apart, at most one is accepted. |
| ChunkEncode.ColumnBlockReads | crates/ink-format/src/chunk.rs:34-36 | Twenty-odd back-patching writes into a zeroed 64-byte column entry leave exactly the entry that the reader gets back. |
| ChunkWriter.WriteColumns | crates/ink-format/src/chunk.rs:84-131 | The directory loop, patching the column table behind it, succeeds exactly when every column can be planned, and then the bytes are the planned layout. |
| ChunkWriter.WritePayloads | crates/ink-format/src/chunk.rs:132-143 | The payload loop appends every payload and patches its offset, length and checksum into the right table entry, leaving all else alone. |
| ChunkWriter.Build | crates/ink-format/src/chunk.rs:53-150 | The encoder up to its final check succeeds exactly within the limits and when every column can be planned, and lays the bytes out as specified. |
| ChunkRoundTrip.WrittenReads | crates/ink-format/src/chunk.rs:53-154 | Bytes laid out by the encoder are accepted by the reader exactly when the chunk obeys the reader's cross-field rules and is at most 64 MiB long, and then they read as exactly that chunk. |
| ChunkRoundTrip.Encode | crates/ink-format/src/chunk.rs:53-154 | Whenever `encode` succeeds `decode` gives back the very chunk (segments, validity, required flags, values), and it succeeds exactly under the stated conditions. |
| ChunkRoundTrip.CodecsStored | crates/ink-format/src/chunk.rs:84-131 | Of an encoded chunk every column entry names the data type and the encoding asked for. |
| ChunkRoundTrip.PlansExactly | crates/ink-format/src/chunk.rs:84-131 | The condition of `Encode` column by column: a column can be planned exactly when its validity has the right length, its values are as many as are valid and of its type, its bitmap and payload fit their fields, and compressing succeeds. |
| ChunkRoundTrip.RawEncodesExactly | crates/ink-format/src/chunk.rs:53-154 | For the uncompressed encoding those conditions are the shape of each column, the cross-field rules and a total size of at most 64 MiB; the 16 MiB directory limit never refuses a chunk. |
| ChunkRoundTrip.DirectoryFits | crates/ink-format/src/chunk.rs:180-203 | Tables, parameters and bitmaps together never exceed the 16 MiB directory limit. |
| ChunkAccount.EveryByteAccounted | crates/ink-format/src/chunk.rs:225-371 | In an accepted chunk each byte past the tables lies in exactly one declared range or is zero padding, and no range touches the tables. |
| ChunkAccount.MeasuredSizeIsDecodedSize | crates/ink-format/src/chunk.rs:164-166 | The size measured without decoding equals the total length of the values that decoding returns. |
| ChunkFacts.DecodedFits | crates/ink-format/src/chunk.rs:225-357 | A decoded chunk's columns have rising semantics, and those that must be full have one value for every sample. |
| Fields.BodyReads | crates/ink-format/src/model.rs:87-110 | A written body gives back every optional field and exactly its extension fields. |
| Fields.BodyRewrites | crates/ink-format/src/model.rs:87-110 | A body that was read, with the fields looked up in it and the extensions collected from it, writes the same map again. |
| Fields.NumberKeyOrder | crates/ink-format/src/cbor.rs:37-49 | Encoded numeric keys sort bytewise as the numbers do. |
| Fields.UnknownRefused | crates/ink-format/src/model.rs:87-99 | A field below 0x8000 that the schema does not know is refused wherever it stands. |
| BodyLoops.ReadExtras | crates/ink-format/src/model.rs:87-99 | The collecting loop returns the specified extensions or error. |
| BodyLoops.WriteBody | crates/ink-format/src/model.rs:100-110 | The merging loop returns the specified map, or an error for an extension key below 0x8000. |
| BodyLoops.CheckUnique | crates/ink-format/src/model.rs:127-133 | The set-building loop accepts exactly the lists without repetition. |
| BodyLoops.ReadFloats | crates/ink-format/src/model.rs:71-80 | The loop reads exactly `n` finite numbers or fails. |
| BodyLoops.CoverParts | crates/ink-format/src/model.rs:385-391 | The loop over parts accepts exactly a gapless cover starting at sample 0 and returns its end. |
| Geometries.CoveredOnce | crates/ink-format/src/model.rs:385-391 | Every sample of a covered geometry lies in exactly one part. |
| Records.RecordRoundTrip | crates/ink-format/src/record.rs:106-150 | An encoded record whose free-form values are canonical decodes to the same record. |
| Records.RecordDecodesCanonically | crates/ink-format/src/record.rs:106-150 | A decoded record encodes to the same bytes. |
| Bodies.PageReads | crates/ink-format/src/model.rs:225-279 | A page that writes reads back as itself. |
| Bodies.PageRewrites | crates/ink-format/src/model.rs:225-279 | A page body that reads writes back as itself. |
| Bodies.BackgroundReads | crates/ink-format/src/model.rs:156-201 | A background that writes reads back as itself. |
| Bodies.StrokeReads | crates/ink-format/src/model.rs:298-348 | A stroke that writes reads back as itself. |
| Geometries.GeometryReads | crates/ink-format/src/model.rs:379-469 | A geometry that writes reads back as itself, parts, timing and provenance included. |
| Geometries.GeometryRewrites | crates/ink-format/src/model.rs:379-469 | A geometry body that reads writes back as itself. |
| Profiles.AxisReads | crates/ink-format/src/model.rs:481-512 | An axis that writes reads back as itself. |
| Profiles.ProfileReads | crates/ink-format/src/model.rs:523-580 | A source profile that writes reads back as itself, with its axes in key order. |
| Profiles.BrushReads | crates/ink-format/src/model.rs:591-615 | A brush that writes reads back as itself. |
| Profiles.SessionReads | crates/ink-format/src/model.rs:764-797 | A session that writes reads back as itself. |
| Documents.DocumentReads | crates/ink-format/src/model.rs:655-752 | A document that writes reads back as itself exactly when no segment names the all-zero chunk; otherwise reading fails. |
| Documents.LostDocument | crates/ink-format/src/model.rs:655-752 | A document with one segment in the all-zero chunk is written and cannot be read. |
| TypedRecords.SortedIdsExactly | crates/ink-format/src/model.rs:18-26 | The declared dependencies are the strictly sorted set of the body's references. |
| TypedRecords.BodyRoundTrip | crates/ink-format/src/model.rs:18-37 | For every record kind, body to value to record to bytes to record to body returns the same body exactly when its free-form values are in canonical order, the record nests within the parser's limit, and a document names a chunk for every segment; whatever comes back is the record with its map entries reordered. |
| TypedRecords.TidyIsFreeFormTidy | crates/ink-format/src/model.rs:87-110 | A body prints a value in canonical order only if its extension fields and free-form values are. |
| TypedRecords.ReadRewrites | crates/ink-format/src/model.rs:18-37 | Bytes that decode and read as a body write back to the same value and the same bytes, and the record declares the dependencies the body needs. |
| TypedRecords.UnknownFieldRefused | crates/ink-format/src/model.rs:87-99 | For every record kind an unknown field below 0x8000 makes the body unreadable. |
| RecordWire.BodyIs | crates/ink-format/src/model.rs:100-110 | A body is the map of its present fields, each under its own number, followed by its extension fields; it exists exactly when those are numbered from 0x8000. |
| RecordWire.StrokeWire | crates/ink-format/src/model.rs:298-328 | The exact map of a stroke and the exact condition for writing one. |
| RecordWire.BackgroundWire | crates/ink-format/src/model.rs:156-176 | The same for a background, its grid included. |
| RecordWire.PageWire | crates/ink-format/src/model.rs:225-259 | The same for a page. |
| RecordWire.GeometryWire | crates/ink-format/src/model.rs:379-428 | The same for a geometry with its parts, timing and provenance. |
| RecordWire.AxisWire | crates/ink-format/src/model.rs:481-500 | The same for an axis. |
| RecordWire.ProfileWire | crates/ink-format/src/model.rs:523-562 | The same for a source profile. |
| RecordWire.BrushWire | crates/ink-format/src/model.rs:591-605 | The same for a brush. |
| RecordWire.SessionWire | crates/ink-format/src/model.rs:764-786 | The same for a session. |
| RecordWire.DocumentWire | crates/ink-format/src/model.rs:655-707 | The same for a document. |
| RecordWire.CoveredIs | crates/ink-format/src/model.rs:385-391 | Parts cover `n` samples without a gap exactly when each begins where the one before it ended, the first at 0, and none is empty or leaves 32 bits. |
| RecordWire.PositiveExactly | crates/ink-format/src/model.rs:124-126 | A width counts as positive exactly when its bits are those of a finite number that is neither zero nor negative. |
| RecordWire.RecordIs | crates/ink-format/src/model.rs:18-26 | A body becomes a record of its kind, with feature 1, no extensions and no resources, that depends on exactly what the body refers to, in ascending order. |
| RecordWire.ReadExactly | crates/ink-format/src/model.rs:27-37 | A record reads as a body exactly when it is of that kind, its map is that body and its dependencies include what the body refers to. |
| RecordWire.RecordWires | crates/ink-format/src/record.rs:76-120 | A record is written exactly when its fields obey their limits, and as the map of its seven fields. |
| SnapshotGraph.CheckNode | crates/ink-format/src/snapshot.rs:174-217 | The checks on one record accept exactly when its resources are present, its body reads as its kind and its references resolve to records of the right kinds. |
| SnapshotGraph.Walk.Visit | crates/ink-format/src/snapshot.rs:164-224 | The depth-first visit keeps `visited` closed and topologically ordered and adds only what the record leads to; it meets each record along its first path, none of them longer than 64 steps; a cycle or depth error comes with a first path that repeats a record or is longer, any other refusal with a real path to a record that does not fit. |
| Snapshots.PathsWalked | crates/ink-format/src/snapshot.rs:161-250 | After the walk from the root's dependencies every record on any dependency path has been visited. |
| Snapshots.WalkedAll | crates/ink-format/src/snapshot.rs:229-235 | Comparing the number of visited records with the number stored proves the two sets equal and every record reachable; a difference proves a record unreachable. |
| Snapshots.CheckMetadata | crates/ink-format/src/snapshot.rs:161-250 | The metadata check accepts only exact metadata with a topological order, and refuses only for a real path that is too deep or for metadata that is not exact. |
| Snapshots.CatalogsAgree | crates/ink-format/src/snapshot.rs:31-57 | Equal sizes and one-way membership make the catalogs of records, chunks and resources exactly the stored sets. |
| Snapshots.CheckGeometries | crates/ink-format/src/snapshot.rs:59-147 | The geometry loops accept exactly when every geometry is sound, and collect exactly the segments in use. |
| Snapshots.CheckSegments | crates/ink-format/src/snapshot.rs:59-153 | The size comparisons accept exactly when the mapped segments are those used and the stored chunks are those holding them. |
| Snapshots.Validate | crates/ink-format/src/snapshot.rs:23-155 | Accepts exactly the exact snapshots in which no first path (the one no earlier alternative forestalls) repeats a record or is longer than 64 steps; they are all acyclic; the depth error comes with such a path, any other refusal means the snapshot is not exact. What exact means is spelled out by `SnapshotLaws.ExactMeans`. |
| SnapshotLaws.ExactMeans | crates/ink-format/src/snapshot.rs:23-155 | What an exact snapshot is, said from its records, files and bytes alone: root and catalogs, every record, reference, resource, hash, page, chunk, segment, channel and time stamp that the validator looks at, one condition each, if and only if. |
| SnapshotLaws.NodeMeans | crates/ink-format/src/snapshot.rs:174-217 | What each kind of record demands of the records it refers to. |
| SnapshotLaws.CatalogsMean | crates/ink-format/src/snapshot.rs:31-57 | What the three catalogs demand of the stored records, chunks and resources. |
| SnapshotLaws.TypeMeans | crates/ink-format/src/snapshot.rs:95-103 | The table of channels: which data type and which flag each semantic must have. |
| SnapshotLaws.FitsMeans | crates/ink-format/src/snapshot.rs:63-147 | A part fits exactly when it is a stored segment of its profile and length, the chunk has exactly the channels of the profile, and its time stamps, computed from the DT bytes of its own rows, begin at 0 elapsed and stay within 64 bits. |
| DepthLimit.DepthBounds | crates/ink-format/src/snapshot.rs:164-224 | The depth check lets an exact snapshot pass when no dependency path has more than 65 records, and stops one with a record that only longer paths lead to. |
| FirstPaths.EdgeIsFirst | crates/ink-format/src/snapshot.rs:171-174 | A record about to be visited for the first time is met on its first path. |
| FirstPaths.BoundedMore | crates/ink-format/src/snapshot.rs:218-220 | Once a choice has been walked, or was visited already, no first path through it is longer than the walk may go. |
| LongChains.ChainExact | crates/ink-format/src/snapshot.rs:23-155 | The chain meets every demand of the validator: encodings, hashes, catalogs, references and reachability. |
| Snapshots.AcceptedGraph | crates/ink-format/src/snapshot.rs:161-250 | In an accepted snapshot the catalogued records are exactly the reachable ones and no dependency path meets a record twice. |
| Snapshots.AcceptedChannels | crates/ink-format/src/snapshot.rs:88-103 | In an accepted snapshot each part's chunk has a column for every axis of its profile and no other. |
| Snapshots.AcceptedTicks | crates/ink-format/src/snapshot.rs:59-147 | In an accepted snapshot the reconstructed ticks of every timed geometry never fall, across all its parts, and start tick plus any of them fits in 64 bits. |
| SampleRows.PartsTileRows | crates/ink-format/src/snapshot.rs:104-117 | Parts in one chunk take its rows in the order of its segments: index 0 from row 0, each next one right behind the one before it, the last up to the chunk's last row. |
| SampleRows.AcceptedStamps | crates/ink-format/src/snapshot.rs:59-147 | On bytes: in an exact snapshot every sample of a timed geometry has exactly one time stamp, its part's first tick plus the little-endian DT values of its own segment's rows after the first, whose own value is 0; the stamps never fall across all parts and start tick plus any of them fits in 64 bits. |
| LongChains.AcceptChain | crates/ink-format/src/snapshot.rs:23-250 | A chain of any number of records up to 2,000, built with its document, catalogs and encodings, is an exact snapshot that the validator accepts, and a dependency path of that length. |
| SnapshotTicks.ChannelsAreAxes | crates/ink-format/src/snapshot.rs:88-94 | Equal counts and one-way membership give both directions between columns and axes. |
| SnapshotTicks.SlicesWithin | crates/ink-format/src/snapshot.rs:104-125 | Because decoding forced the time column to be full, every slice taken of it is in bounds. |
| SnapshotTicks.CheckTicks | crates/ink-format/src/snapshot.rs:118-142 | The loop over one slice, with its overflow checks on 64-bit ticks, accepts exactly when the first delta is zero, every tick and every session tick fits and the slice does not start before the previous tick; it returns the last tick. |
| SnapshotTicks.CheckParts | crates/ink-format/src/snapshot.rs:63-147 | The loop over the parts of a geometry accepts exactly when all of them fit and follow one another, and records the segments used. |
| SnapshotTicks.TicksNeverFall | crates/ink-format/src/snapshot.rs:118-142 | Reconstructed ticks never fall across all parts of a timed geometry. |
| SnapshotTicks.TicksInSession | crates/ink-format/src/snapshot.rs:135-141 | The start tick plus any sample's tick fits in 64 bits. |
| AiIndex.DeleteKeepsConsistent | crates/notes-ai/src/store.rs:1763-1792 | Deleting a document's vectors removes it from the index, touches no other document and keeps vectors and mapping rows one to one. |
| AiIndex.NextRowidIsFresh | crates/notes-ai/src/store.rs:1751-1761 | The next row identifier is used neither by a mapping row nor by a vector. |
| AiIndex.AddedChunks | crates/notes-ai/src/store.rs:943-969 | Inserting a document's chunks numbers them 0 to k-1 under one hash, keeps the index consistent and changes no other document. |
| AiIndex.ReconcileKeepsConsistent | crates/notes-ai/src/store.rs:397-533 | Reconciling keeps present documents' index entries, removes absent ones and keeps the index consistent. |
| AiHistory.WrittenRows | crates/notes-ai/src/store.rs:937-979 | After a write that is accepted for a job, row i of the document holds the text of chunk i, the hash and the sequence number of the job, and the vector under its row identifier is the embedding of chunk i; there are no other rows of the document, and rows and vectors of every other document are as they were. |
| AiRuns.StepKeeps | crates/notes-ai/src/store.rs:370-984 | Each transaction, with arguments as old as one likes, keeps the invariant. |
| AiRuns.RunsAreSound | crates/notes-ai/src/store.rs:370-984 | After every run of opens, reconciles, writes, failures and resets: vectors and mapping rows are the same duplicate-free set, chunks are numbered 0 to k-1, at most one generation is active, and each last-reconciled document is either indexed under its hash without a job or waits in a job with its hash. |
| AiHistory.RunsShowHistory | crates/notes-ai/src/store.rs:370-984 | In every run the tables show what happened and nothing else: every indexed document by the chunks, texts and vectors of the result that settled its last job, every job with its input and the failures recorded against exactly that input. |
| AiHistory.ReadyExactly | crates/notes-ai/src/store.rs:554-570 | When a job may be taken, from the failures since its input last changed: none, or fewer than eight, the last of them not final and followed by a wait of 10, 20, 40 up to 640 seconds. |
| AiHistory.TakesOldestFirst | crates/notes-ai/src/store.rs:554-586 | Jobs are handed out with their own input, oldest first, and a ready job is left behind only when the limit is used up by older ones. |
| AiRuns.ReconcileTracks | crates/notes-ai/src/store.rs:397-533 | Right after a reconcile every document is indexed under its current hash without a job, or waits in a job with its current hash, and nothing else is in either table. |
| AiRuns.ActivationIsExact | crates/notes-ai/src/store.rs:1126-1156 | A generation becomes active only when its index equals the last reconciled set of documents, hash by hash; after a reset that overtook the write, only when it is empty and the count passed is zero. |
| AiRuns.JobsAfterWrites | crates/notes-ai/src/store.rs:922-979 | A write settles exactly the jobs for which it brings a result at their current hash, and leaves the others as they were. |
| AiRuns.ActivatesExactly | crates/notes-ai/src/store.rs:1126-1156 | A generation that is not active becomes active exactly by a reconcile that finds every document indexed under its hash, or by a well-formed write that answers every job and whose count is that of the last reconcile (zero after a reset). |
| AiRuns.ResetActivatesExactly | crates/notes-ai/src/store.rs:980-1156 | After a reset a write activates the emptied generation exactly when it is well formed and carries the count zero. |
| AiRuns.ResetRace | crates/notes-ai/src/store.rs:370-395 | It happens in a run: open, reconcile any documents, reset, write with count zero. |
| AiRuns.StaleResultIgnored | crates/notes-ai/src/store.rs:922-936 | An embedding made for a superseded hash changes nothing. |
| AiRuns.ResetHolds | crates/notes-ai/src/store.rs:370-395 | After a reset the generation stays empty and inactive through every run of transactions without a new reconcile, unless a write arrives that carries a document count of zero. |
| AiStore.NextVectorRowid | crates/notes-ai/src/store.rs:1751-1761 | The maximum query computes the specified identifier. |
| AiStore.Activate | crates/notes-ai/src/store.rs:1126-1156 | When no jobs remain and the counts match, the other active generation retires and this one becomes active; otherwise nothing changes. |
| AiStore.CurrentHashes | crates/notes-ai/src/store.rs:423-434 | The grouping query maps exactly the indexed documents to the hash they are indexed under. |
| AiStore.EnqueueDocuments | crates/notes-ai/src/store.rs:435-478 | After the loop a present document has a job exactly when it is not indexed under its hash; retry state survives exactly when the hash is unchanged. |
| AiStore.DropStale | crates/notes-ai/src/store.rs:479-500 | The loop removes exactly the documents that are gone, with their vectors. |
| AiStore.SelectJobs | crates/notes-ai/src/store.rs:554-586 | The jobs taken are the earliest due ones in queue order, up to the limit. |
| AiStore.CheckChunks | crates/notes-ai/src/store.rs:899-921 | The validation loop accepts exactly the non-empty documents with contiguous chunk numbers and vectors of the store's dimension. |
| AiStore.WriteDocuments | crates/notes-ai/src/store.rs:899-979 | The write loop performs the specified writes, or none at all when some document is malformed. |
| AiStore.Store.ResetIndex | crates/notes-ai/src/store.rs:370-395 | Performs exactly the reset transaction and keeps the invariant. |
| AiStore.Store.Reconcile | crates/notes-ai/src/store.rs:417-533 | Performs exactly the reconcile transaction and keeps the invariant. |
| AiStore.Store.TakeJobs | crates/notes-ai/src/store.rs:554-586 | Returns the due jobs and changes nothing. |
| AiStore.Store.RecordFailure | crates/notes-ai/src/store.rs:863-886 | Performs exactly the failure transaction, with the first 2,000 characters of the message: only jobs still at the taken hash are touched. |
| AiStore.Store.WriteEmbeddings | crates/notes-ai/src/store.rs:888-984 | Performs exactly the write transaction (row by row: `AiHistory.WrittenRows`); a malformed batch leaves every table as it was. |
| CursorSkip.NextIsFaithful | crates/notes-ai/src/store.rs:397-526 | Every event (an edit, any stage of any number of overlapping reconciles, any other transaction) keeps the recorded token and the recorded documents in order. |
| CursorSkip.TracesAreFaithful | crates/notes-ai/src/store.rs:397-526 | That holds at every point of every trace. |
| CursorSkip.SkipIsFresh | crates/notes-ai/src/store.rs:397-417 | When a reconcile skips, the index agrees with a version of the notes no older than the one whose token was read; with no edit since, it agrees with the current notes, as a full scan would. |
| CursorSkip.SkipCounts | crates/notes-ai/src/store.rs:403-413 | The count a skip returns is the number of documents a full scan of that version would find. |
| CursorSkip.ScanRecords | crates/notes-ai/src/store.rs:417-526 | A scan from start to end records the token and the documents the notes had. |
| CursorSkip.SkipsExactly | crates/notes-ai/src/store.rs:397-417 | After that the next reconcile skips exactly when nothing has been edited since. |
| ExtractionGraph.CanonInjective | crates/notes-ai/src/store.rs:1056-1091 | Different names never share an identifier, adopted or derived. |
| ExtractionGraph.RemapInjective | crates/notes-ai/src/store.rs:1056-1091 | Remapping to stored identifiers never merges two endpoints. |
| ExtractionGraph.MovedDistinct | crates/notes-ai/src/store.rs:813-844 | Distinct edges stay distinct after remapping, so no insert can meet its own batch. |
| ExtractionGraph.UpsertPlaced | crates/notes-ai/src/store.rs:820-837 | Upserting an adopted entity meets no other entity of the same name. |
| ExtractionGraph.SweptHasNoOrphans | crates/notes-ai/src/store.rs:1110-1124 | Sweeping only the candidates is enough: no entity is left without an edge. |
| ExtractionGraph.FinishKeeps | crates/notes-ai/src/store.rs:786-861 | Finishing an extraction keeps every entity an endpoint of some edge, every edge endpoint its source or a stored entity, and names unique. |
| ExtractionGraph.ForgetKeeps | crates/notes-ai/src/store.rs:703-724 | So does forgetting a source. |
| ExtractionLaws.FinishedExactly | crates/notes-ai/src/store.rs:786-861 | What finishing leaves: every edge of other sources as it was, this source's edges exactly the extracted ones after renaming, as entities exactly the endpoints that are not notes, each with the stored or extracted name and description, the job done and gone. |
| ExtractionLaws.ForgottenExactly | crates/notes-ai/src/store.rs:703-724 | What forgetting leaves: every edge of other sources, their endpoints as they were, and nothing else. |
| ExtractionLaws.QueuedExactly | crates/notes-ai/src/store.rs:606-693 | Which documents are queued and which sources are reported gone. |
| ExtractionLaws.DesiredExactly | crates/notes-ai/src/extract.rs:171-230 | The edges an extraction asks for: a mention of each named entity, and each relation with a usable kind between two named entities, under the prefix `ai:`. |
| ExtractionStore.Adopt | crates/notes-ai/src/store.rs:1056-1091 | The loop rewrites each record to the stored identifier of its name and returns exactly that renaming. |
| ExtractionStore.SweepOrphans | crates/notes-ai/src/store.rs:1110-1124 | The loop deletes exactly the candidates that are endpoints of no edge. |
| ExtractionStore.Dedup | crates/notes-ai/src/extract.rs:219-226 | On sorted edges, removing adjacent repeats leaves each edge once. |
| ExtractionStore.Prepare | crates/notes-ai/src/extract.rs:171-230 | The records are the named entities and the edges are exactly the mentions and the usable relations, each once. |
| ExtractionStore.ExtractionStore.Reconcile | crates/notes-ai/src/store.rs:606-693 | Past its cursor check: a job for exactly the documents not extracted at their hash, the graph untouched, and exactly the sources that are gone reported for forgetting. |
| ExtractionStore.ExtractionStore.FinishExtraction | crates/notes-ai/src/store.rs:786-861 | Replaces the source's edges, upserts the entities and sweeps orphans as specified, keeping the graph's invariant. |
| ExtractionStore.ExtractionStore.Forget | crates/notes-ai/src/store.rs:703-724 | Removes exactly the source's edges and the entities they alone held. |
| ExtractionStore.ExtractionStore.Apply | crates/notes-ai/src/extract.rs:171-230 | From a raw extraction to the stored graph: the edges stored for the content are those the extraction asks for. |
| EmbedTick.Prepare | crates/notes-ai/src/embed.rs:704-716 | The jobs' texts, split as the splitter splits them, lie in one list in order, each chunk tagged with its job. |
| EmbedTick.CollectedCarries | crates/notes-ai/src/embed.rs:852-878 | Filtering that list by job gives back exactly the job's chunks in order, each with the vector at its own place. |
| EmbedTick.AssembledFits | crates/notes-ai/src/embed.rs:852-878 | An assembled document carries all its chunks and always passes the store's non-empty, numbering and dimension checks. |
| EmbedTick.Assemble | crates/notes-ai/src/embed.rs:852-878 | The documents are those of the jobs that did not fail, once each and in order. |
| EmbedTick.AskEach | crates/notes-ai/src/embed.rs:791-850 | A job fails exactly as its first chunk without a usable answer says (a malformed answer is final, a refusal as it was given); every chunk of the other jobs gets its own answer's vector. |
| EmbedTick.FailingExactly | crates/notes-ai/src/embed.rs:717-850 | Reading failures off the flat list of chunks gives exactly the jobs with an unusable answer among their own chunks, with the finality of the first. |
| EmbedTick.DocumentIs | crates/notes-ai/src/embed.rs:852-878 | What is assembled for a job that does not fail is the document of all its chunks with their own vectors, fit for the store. |
| EmbedTick.Embed | crates/notes-ai/src/embed.rs:698-758 | Every taken job ends in exactly one of an assembled document or a recorded failure; it fails exactly when the batch must wait or, after an unusable batch, one of its chunks has no usable answer, and as finally as that answer says; its document has all chunks of its text in order, each with the vector answered for it, and passes the store's checks. |
| TickLaws.BatchTick | crates/notes-ai/src/embed.rs:717-758 | When the provider answers for the whole batch nothing fails and every job becomes its document, in order, with the vectors at its own places of the answer. |
| TickLaws.DeferredTick | crates/notes-ai/src/embed.rs:730-758 | When the whole batch is refused for now every job is recorded as failed, not for good, and nothing is assembled. |
| TickLaws.EachTick | crates/notes-ai/src/embed.rs:765-850 | When each chunk is sent alone a job whose every call came back well formed becomes its document; any other fails, for good unless the first call that did not come back was refused for now. |
| SplitText.TrimSplits | crates/notes-ai/src/chunking.rs:94-98 | Trimming removes only blank text at both ends. |
| SplitText.FencesAppend | crates/notes-ai/src/chunking.rs:148-180 | Cut at a line end, the fence lines of a text are those of its two parts. |
| SplitText.ByteIndexIsChar | crates/notes-ai/src/chunking.rs:186-191 | The byte index of a character position is a character boundary, at that very position, capped at the end. |
| Splitter.NaturalBoundaries | crates/notes-ai/src/chunking.rs:148-180 | The line loop with its byte, character and fence counters computes the specified boundaries. |
| Splitter.BoundariesMark | crates/notes-ai/src/chunking.rs:148-180 | Every boundary is a line end within the limit, its byte index matches its character index, and its fence flag is the parity of the fence lines before it. |
| Splitter.EveryLineEnd | crates/notes-ai/src/chunking.rs:148-180 | Every line end within the limit is a boundary. |
| Splitter.SelectIs | crates/notes-ai/src/chunking.rs:101-130 | The chosen boundary is of the best kind available in the window and nearest the target, or else the furthest fallback; none is chosen only when none fits. |
| SplitLaws.KindExactly | crates/notes-ai/src/chunking.rs:160-170 | From the characters of a line: blank exactly when it is all white space and no fence is open, structured exactly when a fence is open or the line is a fence line or holds bars at two different places, plain otherwise. |
| SplitLaws.BoundariesExactly | crates/notes-ai/src/chunking.rs:148-180 | The boundaries are exactly the ends of lines within the limit, each with the kind its line and the fence lines before it give it. |
| SplitLaws.CutExactly | crates/notes-ai/src/chunking.rs:101-140 | A turn cuts behind a blank line outside a fence if one ends between the minimum and the limit, else behind a structured line, else behind any; of its kind the one nearest the target; else at the last line end that leaves no fragment, else at the limit. |
| Splitter.Cut | crates/notes-ai/src/chunking.rs:101-140 | One turn cuts within the limit, at a line end unless it is a hard cut, and carries the fence flag over that line end. |
| Splitter.FlagAfter | crates/notes-ai/src/chunking.rs:131-140 | The carried state takes up the fence lines of a turn that cuts at a line end, and of no other. |
| Splitter.HardCutExactly | crates/notes-ai/src/chunking.rs:101-140 | A turn cuts a line exactly when no line of the remaining text ends where a cut is acceptable, and then at the limit; otherwise it cuts at such a place. |
| FenceDrift.FencesJoin | crates/notes-ai/src/chunking.rs:148-180 | Wherever a text is split, the fence lines of the parts add up to those of the whole except for the line across the split, which counts once, as it is. |
| FenceDrift.TurnKeepsStep | crates/notes-ai/src/chunking.rs:131-140 | A turn, blanks skipped behind it included, changes whether the carried state is the parity of the fence lines consumed exactly when it slips. |
| FenceDrift.InStepExactly | crates/notes-ai/src/chunking.rs:87-146 | For every body, limits and turn: the carried state is the parity of the fence lines consumed exactly when the turns before it slipped an even number of times. |
| FenceDrift.SlipAtLineStart | crates/notes-ai/src/chunking.rs:131-140 | A turn that starts a line slips exactly when it cuts a line and drops an odd number of fence lines. |
| FenceDrift.FirstHardCut | crates/notes-ai/src/chunking.rs:87-146 | Up to and including the first hard cut of a body a turn slips exactly when it is that cut and takes an odd number of fence lines. |
| FenceDrift.SeamInsideLine | crates/notes-ai/src/chunking.rs:131-140 | Inside a line of which three visible characters have been seen, the seam is miscounted exactly when the rest of the line looks like a fence of its own. |
| FenceDrift.LongFenceLineSlips | crates/notes-ai/src/chunking.rs:8-21 | At the limits in use: an opening fence on a line of 3,203 characters is dropped, and the next turn starts as if no fence were open. |
| FenceDrift.TailThatLooksLikeAFenceSlips | crates/notes-ai/src/chunking.rs:8-21 | At the limits in use: a body whose first line is cut before its closing backticks leaves the third turn as if a fence were open, with no fence line so far. |
| Splitter.SplitBody | crates/notes-ai/src/chunking.rs:87-146 | With a positive limit the loop ends; the chunks are trimmed, non-empty, within the limit, in order and disjoint, with only blanks between them; with the shipped minimum there are at most length/64 + 1; until the first hard cut the carried flag is the parity of the fence lines consumed. Where each turn cuts is `SplitLaws.CutExactly`. |
| Splitter.CapProviderInput | crates/notes-ai/src/chunking.rs:58-70 | The capped input is the text itself when it is short enough, and otherwise the first characters that leave room for the marker, less the blanks at their end, and the marker; never longer than the limit. |
| Splitter.PackPieces | crates/notes-ai/src/chunking.rs:36-56 | Each piece is put under the header, capped and numbered in order. |
| Splitter.SplitForEmbedding | crates/notes-ai/src/chunking.rs:23-56 | Computes the split the embedding tick relies on: at least one chunk, within the provider limit, numbered in order; a short text whole; a long one the pieces of its body under its header, or a single empty piece for a blank body. |
| SplitLaws.ChunksUnderHeader | crates/notes-ai/src/chunking.rs:23-56 | A long text under its header becomes the pieces of the text below the header, each numbered and sent under the header again. |
| SplitLaws.ChunksWithoutHeader | crates/notes-ai/src/chunking.rs:23-56 | A long text that does not begin with the header becomes its own pieces, under the header if there is one. |
| HybridClock.ReceiveAfterRemote | crates/notes-core/src/hlc.rs:54-72 | The stamp of a receipt is later than the message's exactly when the message's saturated counter does not decide it. |
| HybridClock.ReceiveAfterLocal | crates/notes-core/src/hlc.rs:54-72 | The same for the device's own previous stamp. |
| HybridClock.SendAfterPrevious | crates/notes-core/src/hlc.rs:41-50 | A send is later than the device's previous stamp exactly when that stamp is not both saturated and ahead of the physical clock. |
| HybridClock.SaturationBreaksOrder | crates/notes-core/src/hlc.rs:41-72 | A concrete saturated clock for which both order claims fail. |
| HybridClock.StampStep | crates/notes-core/src/hlc.rs:41-72 | A stamp passes all its causes, takes its wall from its own reading or a cause, and its counter continues a cause. |
| HybridClock.BeforeIsLess | crates/notes-core/src/hlc.rs:41-72 | In any run of any devices with any readings, happens-before implies a strictly smaller stamp, already by wall and counter. |
| HybridClock.DeviceOrder | crates/notes-core/src/hlc.rs:41-72 | The events of one device are ordered by happens-before. |
| HybridClock.StampsAreUnique | crates/notes-core/src/hlc.rs:41-72 | No two events of a run share a stamp. |
| HybridClock.WallIsLatestReading | crates/notes-core/src/hlc.rs:41-72 | The wall part is the largest physical reading in the event's causal past, and some event there read it; in every run, used-up counters included. |
| HybridClock.ChainsAreShort | crates/notes-core/src/hlc.rs:41-72 | No causal chain at one wall value is longer than the counter says. |
| HybridClock.LongestChain | crates/notes-core/src/hlc.rs:41-72 | A chain of exactly that length exists. |
| ClockText.PrintParses | crates/notes-core/src/hlc.rs:75-103 | Parsing a printed clock returns it. |
| ClockText.PrintKeepsOrder | crates/notes-core/src/hlc.rs:75-85 | One printed clock sorts before another exactly when its wall, counter and device do. |
| ClockText.ParsePrintsExactly | crates/notes-core/src/hlc.rs:75-103 | A text that parses prints back to itself exactly when it has the fixed-width lower-case shape. |
| ClockText.LooseTextsAccepted | crates/notes-core/src/hlc.rs:88-103 | A concrete accepted text that no clock prints. |
| ClockText.ParseExactly | crates/notes-core/src/hlc.rs:88-103 | Exactly which texts are read as which clock: three parts without dashes in the first two, hexadecimal digits of either case, the first two after an optional plus sign and within 64 and 32 bits, the last of exactly 32 digits, each digit at its power of 16. |
| Oplog.NoGap | server/src/oplog.rs:150-165 | A set of numbers from 1 to m of size m has no gap: what comparing count and maximum proves. |
| Oplog.ExtendAllKeeps | server/src/oplog.rs:39-89 | Appending a batch keeps identifiers distinct, only adds at the end, and leaves the log holding the batch and nothing else new. |
| Oplog.KnownChangeNothing | server/src/oplog.rs:39-60 | A batch of operations already in the log changes nothing. |
| Oplog.Oplog.LatestSeq | server/src/oplog.rs:113-123 | Returns the largest number, which is the length of the log. |
| Oplog.Oplog.AssertGapless | server/src/oplog.rs:150-165 | Succeeds exactly when the numbers are 1 to n without a gap. |
| Oplog.Oplog.Append | server/src/oplog.rs:39-89 | Adds a new operation under the next number, reports a known one under its old number, and refuses a known identifier with another payload without touching the log. |
| Oplog.Oplog.RemoveTail | server/src/oplog.rs:91-111 | Succeeds exactly when the number given is the last one, and then removes that entry if it is the operation named; nothing else changes. |
| Oplog.Oplog.OpsSince | server/src/oplog.rs:125-148 | Returns the page of the log after a cursor, in order and numbered. |
| Ingest.FollowsAll | crates/notes-core/src/operation.rs:640-739 | Applying any entries of the log, repeated or not, keeps the replica a record of a prefix of the log; entries at or below its cursor change nothing. |
| Ingest.BatchAppend | crates/notes-core/src/operation.rs:640-739 | Applying two batches in turn is applying their concatenation. |
| Ingest.TakenKeeps | server/src/state.rs:448-492 | An accepted batch leaves the log with distinct identifiers, extended at its end by the batch only, and the replica in step with it. |
| Ingest.TakenAgain | server/src/state.rs:448-492 | Ingesting an accepted batch again is accepted and changes nothing. |
| Ingest.RunsKeep | server/src/state.rs:448-492 | Over every run of batches the log stays numbered 1 to n with distinct identifiers, the replica stays in step, and no operation ever changes its number. |
| Ingest.NumberedLonger | server/src/state.rs:481-491 | The positions returned for a batch stay right however the log grows. |
| Ingest.Server.AppendAll | server/src/state.rs:459-470 | The append loop takes operations up to the first that cannot be appended. |
| Ingest.Server.RollBack | server/src/state.rs:463-480 | Removing the newly appended entries backwards restores the log exactly, duplicates within the batch included. |
| Ingest.Server.Publish | server/src/state.rs:481-490 | Exactly the new entries are published, in order. |
| Ingest.Server.IngestOperations | server/src/state.rs:448-492 | A batch is taken whole, each operation returned with its one position, or it leaves log, replica and channel exactly as before; which of the two, and what the notes then hold, is `LogContent.TakenExactly`. |
| Ingest.Replay | server/src/state.rs:342-360 | Paged replay from any cursor reaches the state of one fold over the rest of the log, and fails exactly when that fold fails. |
| Ingest.ReplayFromAnywhere | server/src/state.rs:342-360 | Resuming from any point reached earlier ends in the same state as replaying from the start. |
| LogContent.TakenExactly | server/src/state.rs:448-492 | A batch is accepted exactly when it has at most 256 operations, reuses no identifier for another operation, each operation is valid, and the effects of the operations it adds to the log can be made one after the other on the notes; the notes then are what those effects made of them. |
| LogContent.ExtendExactly | server/src/oplog.rs:39-89 | What a batch adds to the log: its operations that the log does not have, each once, in order; refused exactly when one identifier would stand for two operations. |
| LogContent.RunContent | server/src/state.rs:448-492 | After every run of batches the notes are what the effects of the log gained made of them, in log order, save operations the replica had made on its own before. |
| LogContent.RunFromNothing | server/src/state.rs:448-492 | From an empty replica on the notes are the effects of the whole log, in every run. |
| LogContent.ReplayExactly | server/src/state.rs:342-360 | A replay succeeds exactly when the operations behind the cursor are valid and the effects of those not made yet can be made in log order; the notes then are what those effects made of them. |
| LogContent.NumbersHold | crates/notes-core/src/operation.rs:640-739 | Whatever entries arrive, an accepted batch leaves no gap, gives no number to two operations and no operation a second number. |
| Delivery.NextInOrder | server/src/api.rs:607-688 | Every event, a rollback included if the backlog does not reach into the batch in progress, keeps backlog and live messages what the log holds at their numbers. |
| Delivery.TracesInOrder | server/src/api.rs:607-688 | That holds at every point of every interleaving with ingest in which each rollback leaves the backlog alone. |
| Delivery.StaysTruthfulExactly | server/src/state.rs:459-491 | What a client has been sent stays what the log holds at its numbers, in every continuation, exactly when no entry of its backlog belongs to a batch that is not yet applied. |
| Delivery.DeliveryIsTrueExactly | server/src/api.rs:607-688 | Before the read: a backlog read now stays true in every continuation exactly when no batch is in progress, or the page is full before it begins, or there is nothing after the cursor. |
| Delivery.SafeReadsStayInOrder | server/src/api.rs:607-688 | In every run whose backlog is read at such a moment, with rollbacks anywhere, the session stays in order. |
| Delivery.NoGapExactly | server/src/api.rs:607-688 | Whatever has been rolled back, what a session in order has received has no gap exactly when nothing live has reached it or at most 1,000 operations after its cursor had been published at subscription. |
| Delivery.GapHappens | server/src/api.rs:607-688 | From an empty log, after 1,001 operations ingested one by one, a client that connects from zero and receives the next one misses an operation. |
| Delivery.ShortBacklogIsEnough | server/src/api.rs:607-688 | A backlog of fewer than 1,000 leaves no gap, and once the stream is drained the client holds every operation after its cursor. |
| Delivery.DrainsExactly | server/src/api.rs:607-688 | A client that goes on receiving gets everything published exactly when it is no more than 1,024 messages behind. |
| Delivery.RollBackBreaksDelivery | server/src/state.rs:475-480 | From an empty log, a client that reads its backlog inside a batch that fails ends up with two operations under one number, one of them in no log. |

## Left out

- CborCodec.RoundTrip: the ciborium reader and writer are modelled from RFC 8949 (sections 3 and 4.2.1), with a recursion limit read as 32 nested containers; where exactly the library's own limit bites is not part of this model.
- CborPreflight.Preflight: positions are unbounded integers bounded by the input's length, so `usize` overflow on a 32-bit machine is not modelled.
- ChunkRoundTrip.Encode: the compressed encoding is a parameter assumed to be lossless; the PCO page format is not modelled. The chunk is a sequence that is patched, not a shared buffer.
- Snapshots.Validate: the verdict is accepted, too deep, or refused; which of several reasons is reported, and its text, are not modelled.
- AiStore.Store.Reconcile: the documents arrive as an argument; composing them from the notes (`index_documents`) is not modelled, nor are SQL integer ranges.
- AiStore.Store.TakeJobs: times are unbounded integers.
- EmbedTick.Prepare: requires each text to be short enough for its chunk numbers to fit in 32 bits (about 274 billion characters); beyond that the numbers wrap.
- AiStore.CheckChunks: compares chunk numbers without the 32-bit truncation of the expected number, so documents of more than 2^32 chunks, which the code lets pass this check, are refused in the model.
- EmbedTick.Embed: the embedder's answers are arguments; the re-check between the answer and the write is the hash check of `AiStore.WriteDocuments`.
- ExtractionGraph.FinishKeeps: assumes derived identifiers do not collide with each other or with content identifiers.
- HybridClock.BeforeIsLess: runs whose counters reach the 32-bit maximum are excluded; the single-step lemmas give the exact condition there.
- Ingest.Replay: one operation's effect on the notes is the parameter `Rules`; the deferred graph effects, the outbox and the clock observation inside `apply_sequenced_batch` are folded into it.
- Delivery.DeliveryIsTrueExactly: a batch whose publishing is cut short by a failed snapshot write after it was applied is not modelled.
- Reading and writing snapshot files, bootstrap, the outbox publisher and websocket framing.
- `take_extraction_jobs`, `record_extraction_failure` and the cursor check of `reconcile_extractions`: the same shapes as for the embedding jobs; an extraction job keeps only its hash and sequence number.
- Search, reranking, index inspection and status queries.
- Database migrations, WAL and sqlite-vec.
- The last-writer-wins engine, sync client, blob quota, HTTP, OAuth, MCP, providers, Tauri commands and the user interface.
