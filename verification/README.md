# Verified models of Adaptive Pi

This project models five parts of the repository and proves what they are for:

* **Logging** (`platform/ara-log`). Values go into a 4096-byte stream. A flush hands the pending
  record to the logger, which filters it, samples metadata, and renders one escaped record into a
  16384-byte buffer. The sink gets that record, whole, or nothing. The main results: a log decodes
  to exactly the entries logged, whatever bytes they hold; moving streams about is invisible; the
  record capacity is exact; modelled messages survive both layers of escaping.
* **The logger registry** (`platform/ara-log`), once as an object with a heap that can run out, and
  once as any interleaving of any number of threads.
* **`Result` storage** (`platform/ara-core`): two slots, the strong exception guarantee, and
  arguments that refer to the payload being replaced.
* **The proof gate** (`cmake`): the cached gate reports what the uncached one would, over any
  history; and the two serialisers that feed it.
* **The coverage report** (`tools/esbmc-report`): conservation of goals, and the exact meaning of a
  green line.

Code that changes things in place is written with classes, arrays and loops, each method proved
against a function on values; the theorems are then about those functions, over all inputs and all
runs.

| file | contents |
|---|---|
| `RecordBuffer`, `ConsoleRecordFormatter` | the bounded buffer and the record renderer |
| `Calendar`, `Timestamps` | `gmtime_r` and the timestamp text, both ways |
| `LogDecoder`, `RecordCapacity` | reading a log back; which records fit |
| `MetadataProvider` | the clock's conversion, and its composition with the formatter |
| `StreamSpec`, `Insertions`, `Logging` | streams as values; what insertions write; the classes |
| `ModelledPayload`, `Pipeline` | modelled messages; the pipeline end to end |
| `LoggerRegistry`, `RegistryInterleaving` | the registry, sequential and concurrent |
| `ResultStorage` | slots, payload lifetimes, `Result` |
| `Fingerprints`, `ProofGate`, `GateHistory` | the fingerprint, the gate with its result cache, and the gate over time |
| `BracketQuoting`, `JsonManifest`, `JsonReader` | the serialisers, and readers for what they write |
| `CoverageReport` | property evidence, line levels, totals |
| `Wrappers`, `Text`, `Decimal`, `LogLevels` | shared vocabulary |

## Modelling choices

* A byte is a Dafny `char`. The theorems quantify over all strings of them, which includes all byte
  strings. 64-bit integers are the newtype `int64`, so every step of their arithmetic is shown not
  to overflow; C++ division and remainder are written out as truncating.
* `gmtime_r`, `snprintf` and `std::to_chars` are foreign to the repository. They are explicit
  functions here: the proleptic Gregorian breakdown, zero-padded fields, decimal digits. The
  calendar follows "Seconds Since the Epoch", section 4.16 of the POSIX.1-2017 Base Definitions,
  extended before 1970; that the breakdown inverts that formula is proved.
* The mutex, the allocator, the sink's device, the clock and the metadata provider may fail at any
  call. In `RegistryInterleaving` one step is one allocation, lock operation or pointer access.
* The bytes of a stream whose record has failed are never observable again, and so are not part of
  its abstract state.
* The digest is a parameter. It yields 64 hexadecimal digits, and freedom from collisions is asked
  only of the finite set of texts that a history digests; asked of all texts it would contradict the
  fixed length. The checker is a function of the fingerprinted task: that is what the cache assumes.
  No file changes while one gate run is in progress. A history may also lose cache entries, and
  damage them into texts that do not read as results.
* The file system is given as CMake sees it: lists of paths after list expansion. A path with a
  semicolon has been split by then. The shared inputs include those that the gate adds itself, the
  executable and the tool's headers.

## Where the code falls short of its promise

Each has an input that shows it and the exact condition.

* **The fingerprint** separates command, timeout and directory by semicolons, and a directory may
  contain one. `AmbiguousDirectory` gives two different settings with one text, and `FingerprintExact`
  says exactly which tasks share a fingerprint. Proofs as they are registered are never among them:
  the directory would put a number among the paths of the inputs, and these are absolute. For them
  the cached gate is right over any history (`RegisteredGateAgrees`). For other manifests `CacheExact`
  says exactly when it is, and `StaleReuse` is a history in which it misses a failure.
* **Bracket quoting** loses a value that starts with a newline, ends in all of the chosen closing
  bracket but its last character, or holds a carriage return with a newline, which CMake converts
  as it reads the file. `SettingRoundTrip` is an equivalence; `LostValue` and `LostLineEnd` are inputs.
  `BracketRoundTrip` is the equivalence for the bracket rule alone.
* **JSON quoting** leaves control characters other than newline, carriage return and tab as they
  are, which JSON does not allow. `StringRoundTrip` says what reads back, and that the rest does not;
  `UnescapedControl` is an input.
* **A modelled payload** does not say which attributes it has. It determines its message exactly when
  there are no attributes and the text does not end in what would be one (`PayloadAloneDetermines`):
  every payload with attributes has a second reading in which they are text, and
  `UnknownKindsAreAmbiguous` is such a pair. With the attribute kinds of the message type known, it
  always decodes.
* **The metadata provider** refuses a clock value if multiplying by 1000 overflows, even where adding
  the milliseconds would bring it back into range. `RefusedInstants` says that this is exactly one
  second; `RefusedInstant` is in it.
* **The report's totals** take for granted that no coverage goal is marked as a property.
  `GoalsConserved` shows that they add up exactly then; `MarkedGoal` is an input.

## Model

| member | source | states |
|---|---|---|
| `RecordBuffers.RecordBuffer.Append` | platform/ara-log/src/record_buffer.cpp:8-22 | a value is appended whole when it fits in what is left of 16384 bytes, and otherwise not at all |
| `ConsoleRecordFormatter.AppendEscaped` | platform/ara-log/src/console_record_formatter.cpp:16-52 | the buffer gains the escaped value, or, exactly when that does not fit, the append fails with at most a prefix of it written |
| `ConsoleRecordFormatter.Int64TextLength` | platform/ara-log/src/console_record_formatter.cpp:78-94 | `digits10 + 2` characters hold every 64-bit integer, so decimal printing never fails |
| `ConsoleRecordFormatter.AppendDecimal` | platform/ara-log/src/console_record_formatter.cpp:78-94 | the decimal text is appended exactly when it fits |
| `ConsoleRecordFormatter.FloorBySteps` | platform/ara-log/src/console_record_formatter.cpp:110-124 | truncating division with the fix-up of a negative remainder is flooring division, for every 64-bit value, without overflow |
| `ConsoleRecordFormatter.AppendTimestamp` | platform/ara-log/src/console_record_formatter.cpp:97-156 | the timestamp text is appended exactly when the year has four digits and there is room; otherwise the failure shows |
| `ConsoleRecordFormatter.AppendIds` | platform/ara-log/src/console_record_formatter.cpp:171-177 | the process and thread part of the chain stops at the first append that fails, and otherwise adds all of its text |
| `ConsoleRecordFormatter.AppendLabels` | platform/ara-log/src/console_record_formatter.cpp:171-177 | the same for the level and the context |
| `ConsoleRecordFormatter.AppendFields` | platform/ara-log/src/console_record_formatter.cpp:172-176 | the same for everything after the timestamp, up to the newline |
| `ConsoleRecordFormatter.AppendRecord` | platform/ara-log/src/console_record_formatter.cpp:171-177 | the whole chain on an empty buffer: the complete record exactly when it fits, and a prefix of it otherwise |
| `ConsoleRecordFormatter.RenderConsoleRecord` | platform/ara-log/src/console_record_formatter.cpp:161-177 | succeeds exactly when the buffer is empty, the level is defined, both ids are positive, the year has four digits and the record fits; then the buffer holds exactly the record |
| `Calendar.BreakdownInverts` | platform/ara-log/src/console_record_formatter.cpp:126-136 | the broken-down time of any second, before or after 1970, is a valid date and time whose "Seconds Since the Epoch" is that second |
| `Calendar.DateOrder` | platform/ara-log/src/console_record_formatter.cpp:126-148 | a later valid date and time, compared field by field, has more seconds since the epoch |
| `Calendar.YearRange` | platform/ara-log/src/console_record_formatter.cpp:105-142 | the year gate admits exactly the seconds from the first year's first to the last year's last |
| `Timestamps.TimestampRange` | platform/ara-log/src/console_record_formatter.cpp:97-156 | a timestamp exists exactly for milliseconds from -62167219200000 to 253402300799999, and always has 24 characters |
| `Timestamps.TimestampRoundTrip` | platform/ara-log/src/console_record_formatter.cpp:97-156 | a printed timestamp reads back as its millisecond |
| `Timestamps.TimestampOrder` | platform/ara-log/src/console_record_formatter.cpp:97-156 | the lexicographic order of timestamps is the order of time, in both directions, so different instants have different texts |
| `LogDecoder.EscapeRoundTrip` | platform/ara-log/src/console_record_formatter.cpp:16-52 | undoing the escaping recovers every byte string, and escaped text has no line break |
| `LogDecoder.UnescapeExact` | platform/ara-log/src/console_record_formatter.cpp:16-52 | only texts that the escaping produces are accepted, so the two determine each other |
| `LogDecoder.EscapedContextEnds` | platform/ara-log/src/console_record_formatter.cpp:16-52 | the first unescaped closing bracket after a context is the one the renderer wrote |
| `LogDecoder.RecordReads` | platform/ara-log/src/console_record_formatter.cpp:161-177 | a record is one line, and decodes to its metadata, level, context and message |
| `LogDecoder.LogRoundTrip` | platform/ara-log/src/console_record_formatter.cpp:16-177 | the concatenation of any list of records decodes to exactly the entries, in order, whatever bytes contexts and messages hold |
| `RecordCapacity.EscapedLength` | platform/ara-log/src/console_record_formatter.cpp:16-52 | escaping adds one character for each character it escapes, and so at most doubles a text |
| `RecordCapacity.CapacityExact` | platform/ara-log/src/console_record_formatter.cpp:161-177 | with positive ids, a defined level and a four-digit year a record renders exactly when 36 and the lengths of its fields do not exceed 16384 |
| `RecordCapacity.StreamMessagesRender` | platform/ara-log/include/ara/log/log_stream.h:107 | every message a stream can hold renders when the context has at most 4055 bytes |
| `RecordCapacity.SafeContextExact` | platform/ara-log/src/console_record_formatter.cpp:161-177 | every stream message renders under a context if and only if the escaped context has at most 8111 characters |
| `RecordCapacity.ContextBoundIsTight` | platform/ara-log/src/record_buffer.cpp:8-22 | 4055 is the best bound that looks at the length alone: there is a context of 4056 bytes under which a stream message is lost |
| `MetadataProviders.Read` | platform/ara-log/src/linux_metadata_provider.cpp:13-45 | succeeds exactly when the clock answers, the ids are positive and neither step of the conversion leaves 64 bits; the result is then the clock's milliseconds, and otherwise the caller's metadata are untouched |
| `MetadataProviders.RefusedInstants` | platform/ara-log/src/linux_metadata_provider.cpp:30-34 | of the instants whose milliseconds fit 64 bits exactly those of one second are refused |
| `MetadataProviders.RefusedInstant` | platform/ara-log/src/linux_metadata_provider.cpp:30-34 | one of them |
| `MetadataProviders.ClockToText` | platform/ara-log/src/linux_metadata_provider.cpp:24-41 | what the provider computes, the formatter takes apart into the clock's own seconds and whole milliseconds, before and after 1970, and what it prints reads back as that instant |
| `StreamSpec.InsertedAllGathers` | platform/ara-log/src/log_stream.cpp:38-90 | after any insertions a live stream holds their whole concatenation, or a latched failure exactly when one failed or the total exceeds 4096 |
| `StreamSpec.InsertedInParts` | platform/ara-log/src/log_stream.cpp:38-56 | splitting an insertion into parts cannot be observed |
| `StreamSpec.WholeRecordOrNothing` | platform/ara-log/src/log_stream.cpp:38-210 | over any life of a stream each flush submits exactly the concatenation of the insertions since the last one, when enabled, free of failures and 1 to 4096 long, and otherwise nothing; no failure survives a flush |
| `StreamSpec.MovedFromIsInert` | platform/ara-log/src/log_stream.cpp:180-210 | inserting into, flushing or moving a moved-from stream has no effect |
| `StreamSpec.MovesInvisible` | platform/ara-log/src/log_stream.cpp:180-217 | from any state in which handles agree with streams, a program submits the same records in the same order as the program with its moves erased |
| `StreamSpec.ProgramMovesInvisible` | platform/ara-log/src/log_stream.cpp:180-217 | the same for whole programs over any number of handles: open, insert, flush, move, destroy |
| `Insertions.IntegerTextFits` | platform/ara-log/include/ara/log/log_stream.h:56-82 | for every width and sign the `digits10 + 2` buffer is large enough: no integer insertion fails to format |
| `Logging.Logger.Submit` | platform/ara-log/src/logger.cpp:66-109 | an empty or filtered message touches neither the provider nor the sink; any other asks the provider once, and the sink gets the one record its answer makes, if it makes one |
| `Logging.Logger.LogWith` | platform/ara-log/include/ara/log/logger.h:67-126 | submits exactly the payload when the message is routed to the logger, enabled, renders and fits 4096 bytes, and otherwise nothing; the trace gets its artifact exactly when routed there, whatever became of the log |
| `Logging.Logger.Assemble` | platform/ara-log/include/ara/log/logger.h:103-116 | the piecewise assembly leaves exactly the payload pending, or a failure exactly when a piece failed or the total is too long |
| `Logging.Logger.AppendAttributeValue` | platform/ara-log/src/logger.cpp:154-173 | appending character by character, with its early exit, is inserting the escaped value at once |
| `Logging.Logger.AppendAttribute` | platform/ara-log/src/logger.cpp:176-196 | the pieces of a location or a tag amount to one insertion of its whole text |
| `Logging.Logger.AppendAttributes` | platform/ara-log/include/ara/log/logger.h:111-116 | the attributes are written in tuple order |
| `Logging.LogStream.constructor` | platform/ara-log/src/log_stream.cpp:32-35 | a new stream is empty, and enabled as its logger's filter says |
| `Logging.LogStream.MoveFrom` | platform/ara-log/src/log_stream.cpp:180-192 | the new stream has the whole old state, latched failure included, and the old one becomes inert |
| `Logging.LogStream.Append` | platform/ara-log/src/log_stream.cpp:38-56 | a live stream takes the whole value or latches a failure with its bytes untouched; a disabled, failed or moved-from one ignores it |
| `Logging.LogStream.InsertCString` | platform/ara-log/src/log_stream.cpp:73-90 | a null pointer fails the record of a live stream and is not looked at otherwise |
| `Logging.LogStream.InsertInteger` | platform/ara-log/include/ara/log/log_stream.h:56-82 | an integer of any width writes its rendering |
| `Logging.LogStream.InsertFloating` | platform/ara-log/src/log_stream.cpp:107-177 | NaN and the infinities write their names; a formatting failure fails the record |
| `Logging.LogStream.Insert` | platform/ara-log/include/ara/log/log_stream.h:43-82 | every insertion operator changes the stream as its rendering says |
| `Logging.LogStream.Flush` | platform/ara-log/src/log_stream.cpp:196-217 | the one pending record is submitted if there is one to submit, to this stream's logger at its level; afterwards the stream is empty and not failed |
| `Logging.MessageWriter.Insert` | platform/ara-log/include/ara/log/message_writer.h:24-61 | empty text inserts nothing, and the first text that is not empty is preceded by one separator |
| `Logging.MessageWriter.Render` | platform/ara-log/include/ara/log/message_writer.h:24-61 | a whole rendering, however split, changes the stream as its writer pieces say |
| `ModelledPayload.WriterSeparates` | platform/ara-log/include/ara/log/message_writer.h:24-61 | however a rendering is split, empty pieces included, it contributes its text with one space before it, or nothing when the text is empty; it fails exactly when some piece fails |
| `ModelledPayload.AssembledPayload` | platform/ara-log/include/ara/log/logger.h:99-118 | the assembly in pieces is the insertion of the payload `id=ID`, separated text and attributes, or a failure exactly when a piece failed or the total exceeds 4096 |
| `ModelledPayload.AttributeReads` | platform/ara-log/src/logger.cpp:154-196 | the last attribute of a payload is recovered, with the quotes, backslashes and colons of its value |
| `ModelledPayload.PayloadRoundTrip` | platform/ara-log/src/logger.cpp:154-196 | with its attribute kinds known a payload determines the id, the text and every attribute |
| `ModelledPayload.PayloadAloneDetermines` | platform/ara-log/src/logger.cpp:154-196 | without its attribute kinds a payload has one reading if and only if it has no attributes and its text does not end in what would be one |
| `ModelledPayload.EndsInAttributeMeans` | platform/ara-log/src/logger.cpp:154-196 | the test on the text is right: it holds exactly when some attribute, printed after some text, gives this text |
| `ModelledPayload.UnknownKindsAreAmbiguous` | platform/ara-log/src/logger.cpp:154-196 | an input for which it has two readings |
| `Pipeline.ModelledLogRoundTrip` | platform/ara-log/src/logger.cpp:66-196 | both layers undone: from the records of any list of modelled messages every message comes back with its metadata, context, id, text, tags, files and lines |
| `Pipeline.LogOne` | platform/ara-log/include/ara/log/logger.h:67-126 | logging one modelled message asks the provider once exactly when it is submitted, and what the bytes at the sink decode to gains exactly the entry that the answer makes, which reports the message |
| `Pipeline.LogAll` | platform/ara-log/include/ara/log/logger.h:67-126 | for any program of modelled messages through any loggers sharing a sink, the bytes at the sink decode to what was there before, followed by exactly one entry for each message that is submitted and whose answer makes a record, in order, each reporting its message |
| `Pipeline.DeliveryExact` | platform/ara-log/src/logger.cpp:66-109 | with a context of at most 4055 bytes a stream's record reaches the sink exactly when the provider answers with positive ids and a four-digit year |
| `Pipeline.FilterMatchesRenderer` | platform/ara-log/src/logger.cpp:51-61 | the filter passes exactly the severities that the renderer names, up to the threshold |
| `LoggerRegistries.NewestIsFirst` | platform/ara-log/src/logger_registry.cpp:99-108 | the logger a lookup means is the first with the id: no newer one has it |
| `LoggerRegistries.Heap.Allocate` | platform/ara-log/src/logger_registry.cpp:33-63 | a fresh block, or nothing and no change |
| `LoggerRegistries.Heap.Delete` | platform/ara-log/src/logger_registry.cpp:150 | freeing a logger frees its three blocks, each of which must be allocated |
| `LoggerRegistries.SeparateRest` | platform/ara-log/src/logger_registry.cpp:142-151 | taking the newest logger off leaves a well-formed rest that shares no block with it |
| `LoggerRegistries.LoggerRegistry.Register` | platform/ara-log/src/logger_registry.cpp:20-86 | at whatever point it fails the list and the live blocks are as before; otherwise exactly one fresh logger, with the three new blocks it owns and the data asked for, heads the old list; an undefined threshold ends the process |
| `LoggerRegistries.LoggerRegistry.Find` | platform/ara-log/src/logger_registry.cpp:92-127 | returns the newest logger with the id when its description and threshold are those asked for, and otherwise ends the process |
| `LoggerRegistries.LoggerRegistry.Destroy` | platform/ara-log/src/logger_registry.cpp:142-157 | the loop ends, and every block of every published logger has been freed exactly once |
| `LoggerRegistries.LoggerRegistry.DestroyHead` | platform/ara-log/src/logger_registry.cpp:146-151 | one turn frees the newest logger, after its link was saved, and nothing of the others |
| `RegistryInterleaving.StepKeepsInv` | platform/ara-log/src/logger_registry.cpp:20-127 | every step of every thread keeps mutual exclusion, the list, the ownership of memory, the history, and what each thread relies on |
| `RegistryInterleaving.ListStep` | platform/ara-log/src/logger_registry.cpp:70-86 | the list changes only where a thread publishes its logger; each operation enters the history at one step of its own |
| `RegistryInterleaving.ListIsPublished` | platform/ara-log/src/logger_registry.cpp:76-78 | in every interleaving the links from the head visit exactly the published loggers, newest first, each once, and end |
| `RegistryInterleaving.PublishedForever` | platform/ara-log/src/logger_registry.cpp:59-86 | once published, a logger keeps its address, its contents and its place behind all newer ones |
| `RegistryInterleaving.FindIsAtomic` | platform/ara-log/src/logger_registry.cpp:92-127 | a logger returned by a lookup has exactly the data asked for, and is what an atomic lookup of the newest entry would have found at one point of the history, which lies between the call and the return |
| `RegistryInterleaving.FindDecides` | platform/ara-log/src/logger_registry.cpp:110-126 | a lookup ends the process exactly when that atomic lookup, made since the call, found nothing or other data |
| `RegistryInterleaving.RegisterPublishes` | platform/ara-log/src/logger_registry.cpp:59-85 | a successful registration returns a logger with exactly the id, description and threshold asked for, published at one point of the history between the call and the return |
| `RegistryInterleaving.CallKeepsInfo` | platform/ara-log/src/logger_registry.cpp:20-127 | the id, description and threshold an operation works with are those of its call, whatever steps are taken in between |
| `RegistryInterleaving.RunKeepsSince` | platform/ara-log/src/logger_registry.cpp:70-117 | in any run from a state in which a thread is not past the effect of an operation, whatever effect it is past later came after that state |
| `RegistryInterleaving.RegisteredIsFound` | platform/ara-log/src/logger_registry.cpp:92-127 | a published logger that is the only one with its id is found by every lookup with its data that takes effect later, and the lookup does not end the process |
| `RegistryInterleaving.CreatedIsRetrieved` | docs/requirements/release-3-ara-log.md:103-107 | after a successful creation, with ids unique, no later lookup by any thread with the same inputs ends the process while the mutex works, and the logger it returns is the one created |
| `RegistryInterleaving.ScanEnds` | platform/ara-log/src/logger_registry.cpp:101-108 | every scan ends: it takes at most one step for each published logger and one more, however other threads move in between |
| `RegistryInterleaving.NoDeadlock` | platform/ara-log/src/logger_registry.cpp:70-117 | a thread inside an operation can move, or waits for the mutex while its holder can move |
| `RegistryInterleaving.EveryBlockAccounted` | platform/ara-log/src/logger_registry.cpp:33-86 | in every interleaving each block ever allocated is freed, or held by one thread in flight, or part of one published logger, and only one of these |
| `ResultStorages.AttemptKeepsOneLive` | platform/ara-core/include/ara/core/result.h:38-49 | a throwing emplacement leaves the same payload object in place; any other ends the old payload, and the new one is built from what the argument held before |
| `ResultStorages.RunsKeepOneLive` | platform/ara-core/include/ara/core/result.h:38-49 | after any emplacements, any of which may throw, one slot is engaged and active and one payload is alive, the one built by the last that did not throw; dead payloads stay as they are |
| `ResultStorages.ResultStorage.constructor` | platform/ara-core/include/ara/core/result.h:32-36 | the first slot is engaged and active, with the one payload |
| `ResultStorages.ResultStorage.Emplace` | platform/ara-core/include/ara/core/result.h:38-49 | building in the other slot first and dropping the old payload second is the emplacement of the value model; a payload is read only while it is alive, which the build would violate in the other order |
| `ResultStorages.ResultStorage.Index` | platform/ara-core/include/ara/core/result.h:52-63 | the alternative held, never an empty slot |
| `ResultStorages.ResultStorage.Get` | platform/ara-core/include/ara/core/result.h:65-118 | the live payload object exactly when the alternative asked for is the one held |
| `ResultStorages.Result.EmplaceValue` | platform/ara-core/include/ara/core/result.h:185-189 | a value made from the argument, which may refer to what is held; a throw keeps the payload object |
| `ResultStorages.Result.EmplaceError` | platform/ara-core/include/ara/core/result.h:191-195 | the same for an error |
| `ResultStorages.Result.HasValue` | platform/ara-core/include/ara/core/result.h:197-201 | true exactly when a value is held |
| `ResultStorages.Result.ValueOf` | platform/ara-core/include/ara/core/result.h:209-222 | the value held; the process ends exactly when an error is held |
| `ResultStorages.Result.ErrorOf` | platform/ara-core/include/ara/core/result.h:224-235 | the error held; the process ends exactly when a value is held |
| `Fingerprints.AppendInput` | cmake/RunESBMCProofs.cmake:20-33 | the loop over an input's files appends its header and one line for each file, present or missing |
| `Fingerprints.HashInputs` | cmake/RunESBMCProofs.cmake:17-37 | the digest is that of the pre-image of the inputs as they are at the scan |
| `Fingerprints.PreImageInjective` | cmake/RunESBMCProofs.cmake:17-37 | with absolute paths free of newlines and no collision among the contents, one pre-image means the same inputs, the same files under each, and the same contents and missing files |
| `Fingerprints.FingerprintInjective` | cmake/RunESBMCProofs.cmake:69-70 | one fingerprint means the same inputs, and the same command, timeout and directory if and only if the directories have equally many semicolons |
| `Fingerprints.SettingsDetermined` | cmake/RunESBMCProofs.cmake:70 | the settings text decides the settings exactly when the directories have equally many semicolons |
| `Fingerprints.FingerprintExact` | cmake/RunESBMCProofs.cmake:17-70 | two tasks share a fingerprint if and only if they are one task, or agree in their inputs and settings text while their directories have different numbers of semicolons |
| `Fingerprints.AmbiguousDirectory` | cmake/RunESBMCProofs.cmake:70 | two different settings with one fingerprint text |
| `ProofGate.SortUnique` | cmake/RunESBMCProofs.cmake:58-68 | the local headers end up strictly ascending, with the same members |
| `ProofGate.RunGate` | cmake/RunESBMCProofs.cmake:7-107 | the loop reports what the fold of the single-proof step says, and succeeds exactly when there are proofs and none failed |
| `ProofGate.ReuseOrRun` | cmake/RunESBMCProofs.cmake:45-102 | one turn of the loop is the single-proof step: reuse when the cached log passes its three tests, and otherwise a run |
| `ProofGate.RunProof` | cmake/RunESBMCProofs.cmake:84-101 | log, verdict, failure list and cache entry of an executed proof |
| `ProofGate.FingerprintOf` | cmake/RunESBMCProofs.cmake:69-70 | the text assembled from the two digests and the settings is that of the task's fingerprint |
| `ProofGate.PassingLogIsReusable` | cmake/RunESBMCProofs.cmake:74-98 | the log of a passing run passes the three tests for reuse, whatever it prints |
| `GateHistories.UncachedReportsFailing` | cmake/RunESBMCProofs.cmake:84-101 | without a cache the failures are exactly the proofs whose checks do not pass, in order |
| `GateHistories.CachedReportsFailing` | cmake/RunESBMCProofs.cmake:45-102 | with any sound cache the same, provided no two tasks of one name are confusable |
| `GateHistories.CachedProofAgrees` | cmake/RunESBMCProofs.cmake:71-100 | for one proof, a failure is reported exactly when its check does not pass, reused or not |
| `GateHistories.CacheAgrees` | cmake/RunESBMCProofs.cmake:45-107 | over any history of edits, gate runs, losses and damage in which no two tasks of one name are confusable, every run of the cached gate reports the failures and the verdict of the uncached one |
| `GateHistories.CachedGateAgrees` | cmake/RunESBMCProofs.cmake:45-107 | the same from an empty cache |
| `GateHistories.RegisteredNotConfusable` | cmake/ESBMC.cmake:57-71 | tasks of registered proofs with absolute input paths are never confusable: in two settings with one text the longer directory would list the other timeout as an input |
| `GateHistories.RegisteredGateAgrees` | cmake/ESBMC.cmake:57-131 | for proofs as they are registered the cached gate agrees with the uncached one over any history, whatever their directories are called |
| `GateHistories.CacheExact` | cmake/RunESBMCProofs.cmake:45-107 | for any history of edits and runs the cached gate agrees with the uncached one for every checker if and only if no two tasks run under one name are confusable |
| `GateHistories.HistoryMisses` | cmake/RunESBMCProofs.cmake:70-98 | where a task passes and a later one with its name and fingerprint does not, the cached gate misses the failure, whatever happens in between |
| `GateHistories.StaleReuse` | cmake/RunESBMCProofs.cmake:70-80 | two manifests, with any inputs and any shared inputs, between which the fingerprint cannot tell: the cached gate misses the failure that the edit brings |
| `GateHistories.EntriesComeFromPasses` | cmake/RunESBMCProofs.cmake:71-99 | over any history each entry fit for reuse comes from a passing run, under its name, of a task with its fingerprint; of the digest only its form is asked |
| `ProofGate.ResultStaysAll` | cmake/RunESBMCProofs.cmake:71-99 | no run takes away a result that is fit for reuse |
| `ProofGate.GateStores` | cmake/RunESBMCProofs.cmake:94-99 | after a run every passing proof has an entry fit for reuse |
| `ProofGate.RerunReuses` | cmake/RunESBMCProofs.cmake:72-81 | a second run without an edit reuses every passing proof and leaves the cache as it is |
| `BracketQuoting.WriteSetting` | cmake/ESBMC.cmake:201-209 | the loop ends, with the shortest delimiter whose closing bracket is not in the value |
| `BracketQuoting.BracketRoundTrip` | cmake/ESBMC.cmake:201-209 | CMake's bracket rule, taken alone, reads the line back as the value if and only if the value does not start with a newline or end in the closing bracket less its last character |
| `BracketQuoting.SettingRoundTrip` | cmake/ESBMC.cmake:201-209 | read from the file, with line ends converted, the setting is the value if and only if the value survives the bracket rule and has no carriage return with a newline |
| `BracketQuoting.LostValue` | cmake/ESBMC.cmake:201-209 | a value that the bracket rule does not keep |
| `BracketQuoting.LostLineEnd` | cmake/ESBMC.cmake:201-209 | a value that the bracket rule keeps and reading the file changes |
| `JsonManifest.JsonString` | cmake/ESBMC.cmake:212-219 | the five replacements in turn produce the one-pass escape, quoted |
| `JsonManifest.FivePassesAreOne` | cmake/ESBMC.cmake:213-217 | no replacement disturbs what an earlier one wrote |
| `JsonManifest.StringRoundTrip` | cmake/ESBMC.cmake:212-219 | section 7 of RFC 8259 reads the string back exactly when it has no control character but newline, carriage return and tab; otherwise the text is not JSON |
| `JsonManifest.UnescapedControl` | cmake/ESBMC.cmake:212-219 | a string whose quoted form is not JSON |
| `JsonManifest.AppendProof` | cmake/ESBMC.cmake:226-240 | the text of one proof, its arguments separated by commas, follows what is there |
| `JsonManifest.CoverageManifest` | cmake/ESBMC.cmake:221-242 | the separator-driven loops write the document of the manifest |
| `JsonManifest.ManifestIsJson` | cmake/ESBMC.cmake:221-242 | the document is one JSON value by the grammar of RFC 8259, namely that of the manifest |
| `JsonManifest.ManifestRoundTrip` | cmake/ESBMC.cmake:221-242 | a reader of JSON finds in that document, by its keys, the same settings, proofs and argument vectors, in order |
| `CoverageReport.ParseProperties` | tools/esbmc-report/esbmc_cov_to_html.py:50-66 | each result line yields one property at the file named by the last location line before it; result lines before any location yield none |
| `CoverageReport.PropertyEvidence` | tools/esbmc-report/esbmc_cov_to_html.py:69-83 | passed properties stay passed exactly when the run passed and the first summary agrees with the inventory in every count |
| `CoverageReport.CompleteHasNoUnknown` | tools/esbmc-report/esbmc_cov_to_html.py:77-79 | an inventory whose counts agree has no unknown entry |
| `CoverageReport.LevelMeaning` | tools/esbmc-report/esbmc_cov_to_html.py:86-96 | green exactly when there is something and all of it is covered; red whenever a safety property failed |
| `CoverageReport.CollectGoals` | tools/esbmc-report/esbmc_cov_to_html.py:199-224 | the totals are the sums over the runs' production goals, and with the excluded ones equal all located goals |
| `CoverageReport.CollectEvidence` | tools/esbmc-report/esbmc_cov_to_html.py:225-230 | the evidence of all runs is placed after what is there |
| `CoverageReport.GroupComponents` | tools/esbmc-report/esbmc_cov_to_html.py:287-290 | the claims of all files, grouped by component |
| `CoverageReport.PropertiesIn` | tools/esbmc-report/esbmc_cov_to_html.py:242-244 | the header's counts of safety checks and passed ones |
| `CoverageReport.Render` | tools/esbmc-report/esbmc_cov_to_html.py:199-299 | totals, source map, check counts and components of a report |
| `CoverageReport.GoalsConserved` | tools/esbmc-report/esbmc_cov_to_html.py:199-299 | branch goals, and reached ones, summed over the files, over the components and over the runs agree; they equal the reported total, and covered total, exactly when no goal, and no reached goal, is marked as a property |
| `CoverageReport.MarkedGoal` | tools/esbmc-report/esbmc_cov_to_html.py:237-299 | at any line of any production source a marked goal is counted by the header and by no row |
| `CoverageReport.ChecksConserved` | tools/esbmc-report/esbmc_cov_to_html.py:225-299 | safety checks summed over the files and over the components are the located production checks of all runs, with marked goals; passed ones are those of trusted runs only |
| `CoverageReport.ComponentRows` | tools/esbmc-report/esbmc_cov_to_html.py:287-290 | a component's row has exactly the claims of the files that belong to it, in file order |
| `CoverageReport.SourceMapExact` | tools/esbmc-report/esbmc_cov_to_html.py:219-230 | a line has exactly the goals located there, then the checks located there, in the order of the runs |
| `CoverageReport.EvidenceContents` | tools/esbmc-report/esbmc_cov_to_html.py:225-230 | the checks of a line are those that some run located there |
| `CoverageReport.HighExactly` | tools/esbmc-report/esbmc_cov_to_html.py:69-230 | a line is green if and only if something is recorded for it, every goal there was reached, and every check there passed in a trusted run |
| `CoverageReport.HighLinesAreSafe` | tools/esbmc-report/esbmc_cov_to_html.py:69-230 | on a green line no check failed, and every run with a check there passed, with an inventory free of unknown entries |

## Left out

- InsertFloating: does not model which digits a finite number prints as, because they rest on
  `std::to_chars`. The insertion writes some text that is not empty, or fails.
- Real I/O and system calls: the sink's `fwrite`, the clock, process and thread ids, pthread internals.
- Templates and overload selection. The alphabet of message ids and at most one attribute of each kind
  are preconditions, as the static assertions make them.
- Exceptions as control flow: a provider that throws is one of its answers; a construction that throws
  is an attempt that fails. A `Result` whose first construction throws does not exist.
- Copying and moving a `Result`, `ValueOrThrow` and the error-code types.
- Data races and memory order below the mutex: `RegistryInterleaving` is sequentially consistent. The
  registry's destructor is in the sequential model only, since it requires all users to have stopped.
- Copying the id and description bytes into their buffers: a logger holds them as strings.
- SHA-256, regular expressions and solver execution. The checker's outcome and the digest are parameters;
  proof logs come as lines already matched against the report's patterns.
- The gate's summary and command listing, and `cmake_parse_arguments`: text that nothing reads back.
- RegisteredGateAgrees: does not cover directories with square brackets, between which CMake does not
  split a list, because the list elements of this model are what stands between semicolons.
- HTML, uninstrumented production files in the report (they add no claims), and the resolution of paths:
  `locate` and `component` are parameters.
- JSON escapes for surrogates: the writer never emits any, and the reader refuses them.
- Release publishing, installers, QEMU, Yocto and the sample applications.
