# Numerator: a verified model

Numerator is a persistent dictionary between strings and 64-bit ids. A durable store
(id to string) is the truth; an in-memory index (string to id) speeds up lookups and must
agree with it; a counter hands out fresh ids; a switch drops and reloads the index.

The project models this logic and proves what the program relies on. The imperative
source files are classes and loops proved against specification functions on values; the
theorems about whole runs are about those functions.

| file | what it holds |
|---|---|
| `Bytes`, `Store`, `Service`, `Batches` | bytes and C strings; the store as a value, its batches and its iteration order; one request as a function on the process state; what its batch writes |
| `MemoryStorage`, `DiskStorage`, `Numerator` | the classes of memory_storage.cpp, disk_storage.cpp and numerator.cpp |
| `Runs`, `Switch`, `Refinement`, `DisabledStart` | runs of serialised operations with crashes and reboots; when requests are rejected; what the runs refine; what goes wrong after a `-S` boot |
| `Interleaving`, `Soundness`, `Linearise`, `Alone` | threads with program counters, a mutex for queries, none for disable and enable |
| `Permanence`, `Exclusive`, `Schedules` | exactly when answers are permanent; a schedule that makes them so; runs in which they are not |
| `Lookups`, `Numbering` | lookup replies and the ids in use, under every interleaving |
| `Streams`, `BinaryFormat`, `TextFormat`, `RoundTrip` | C++ input streams, the two dump formats, export followed by import |
| `Thrift`, `QueryCodec`, `Client` | the binary protocol on bytes, both `Query` codecs, both clients |

Conventions. Strings are byte sequences. The index is keyed by the bytes before the first
NUL ("C prefix"), because Judy is given `s.c_str()`; the store keeps the full string.
LevelDB is a map with atomic batches whose iterator follows the bytewise order of the eight
little-endian key bytes (so not the numeric order). A crash keeps completed batches. Where
the source's `int64` counter would overflow (undefined behaviour), the model demands
`cnt + |strings| <= 2^63 - 1`, and likewise at most 2^31 - 1 ids in a lookup.

## Findings

- A process booted with `-S` leaves the counter at 0, and enabling it later does not set it.
  Its STR2ID requests then may hand out ids that are stored. Answers are permanent in every
  serialised run whose events hand out fresh ids only (`AcknowledgedForever`), which a caller
  can check before each request; every other run takes a stored id its string (`FreshIff`,
  `StaleIdIsUndone`, and `DashSUndoesAnAnswer` as a run from an empty store). Runs in which
  no such process serves strings always hand out fresh ids (`CounterAboveIds`).
- `disable_s2i` and `enable_s2i` take no lock. A disable between two finds of a query empties
  the index under it; two enables overlapping a disable leave the process enabled with an
  empty index. Either way a known string gets a second id (`OverlapsForkAnswers`, on every
  store). No id is ever rebound and every answered id stays valid
  (`SoundUnderEveryInterleaving`), but a string's answer changes, and `PermanentIff` says
  exactly when: if a find misses, or finds otherwise, a string answered before. Schedules in
  which disables and enables overlap neither a mutex holder nor one another are runs of
  serialised operations, whose answers are permanent (`ExclusiveAnswersPermanent`).
- The binary reader always runs one turn past the last record. That turn repeats the last
  record, which is harmless unless there is none: the dump of an empty store restores one
  empty string under an uninitialised key (`CopyBinary`).
- The C++ client's batching counter starts uninitialised. The output is still right, except
  that a one-line file is not sent at all if the counter starts at the largest value
  (`RunStringsCpp`, `RunIdsCpp`).

## Model

| member | source | states |
|---|---|---|
| Bytes.CStr | memory_storage.cpp:14-22 | the index key of a string: the longest prefix without a NUL |
| Bytes.IdRoundTrip | disk_storage.cpp:35-58 | every id survives being copied to its 8 key bytes and back, negative ones included |
| Bytes.IdBytesAt | disk_storage.cpp:35 | byte i of a key is digit i of the id to base 256 in two's complement, the least significant first |
| Store.PutMeaning | disk_storage.cpp:31-39 | after a batch, the last record of a key wins and keys without a record keep their value |
| Store.PutConcat | disk_storage.cpp:31-39 | two batches in turn are their concatenation in one |
| Store.IterationInOrder | disk_storage.cpp:54-56 | the iterator visits exactly the stored keys, in strictly increasing key-byte order |
| Store.RankIsKeyOrder | disk_storage.cpp:54-56 | that order is the one of the 8 key bytes, the first difference deciding |
| Store.SnapshotInKeyOrder | disk_storage.cpp:54-59 | a fresh iterator yields every record once, by increasing key bytes |
| Store.RebuildIsIndex | disk_storage.cpp:56-64 | loading binds the C prefix of every stored string to the last visited key storing it, and binds nothing else |
| Store.RebuildByKeyOrder | disk_storage.cpp:56-64 | of several keys storing one string, the index holds the one whose bytes come last |
| Store.OrderDecides | disk_storage.cpp:54-59 | on a store binding one string to 1 and 256 the index answers 1, and records come out with 256 before 1 |
| Store.IndexUnique | disk_storage.cpp:56-64 | a store has at most one such index |
| MemoryStorage.MemoryStorage.Find | memory_storage.cpp:5-32 | a known C prefix is answered from the index, which stays; an unknown one is bound to the counter, which advances by one |
| MemoryStorage.MemoryStorage.Insert | memory_storage.cpp:34-53 | inserts or overwrites the binding of one C prefix |
| MemoryStorage.MemoryStorage.Unload | memory_storage.hpp:32-37 | leaves the index empty |
| DiskStorage.DiskStorage.Write | disk_storage.cpp:28-41 | the store becomes the old one overridden by the batch |
| DiskStorage.DiskStorage.LoadInMemory | disk_storage.cpp:43-69 | overrides the index by the index of the store and returns the largest id, or 0 |
| DiskStorage.DiskStorage.Lookup | disk_storage.cpp:71-101 | values aligned with the ids, empty where missing; failures as in `Missing` |
| DiskStorage.DiskStorage.Dump | disk_storage.cpp:103-129 | writes the whole store, in iteration order, in the format asked for |
| DiskStorage.DiskStorage.ReadRecord | disk_storage.cpp:169-174 | one reader turn: eof is set iff no whole record is left; a whole record is read exactly; of anything less each field keeps the old bytes the stream no longer provides |
| DiskStorage.DiskStorage.Queue | disk_storage.cpp:152-156 | store plus pending records gain exactly one record, whether or not the batch is flushed |
| DiskStorage.DiskStorage.RestoreBinary | disk_storage.cpp:158-187 | rejected unwritten iff the first word is not the magic number; any other stream overrides the store by its whole leading records in order and one more record, made by the last turn of the bytes behind them, for every batch size; the loop takes one turn more than there are whole records, so at most (n-4)/12+1 |
| BinaryFormat.LeadingOfDump | disk_storage.cpp:113-174 | whatever follows a dump, the reader finds exactly its records first, values cut to 32-bit sizes; in the dump alone it finds nothing else |
| BinaryFormat.LastTurnOfDump | disk_storage.cpp:169-176 | the extra turn behind a dump repeats its last record, or yields an empty string if it has none |
| DiskStorage.DiskStorage.RestoreText | disk_storage.cpp:141-157 | succeeds iff every line starts with a 64-bit integer and then overrides the store by all lines, for every batch size; else exactly the full batches before the bad line stay |
| Streams.InStream.Read | disk_storage.cpp:170-173 | `istream::read` of ISO C++11, 27.7.2.3: nothing is stored once not good; a short read sets eof and fail |
| Streams.InStream.GetLine | disk_storage.cpp:145 | `std::getline`: drops the newline, accepts a last line without one, fails at the end |
| Batches.FindAllServes | numerator.cpp:116-132 | if the index fits the store and none of the ids to hand out is stored: after a STR2ID loop and its batch write the index fits the store again, no id is rebound, no indexed string changes its id, and each answer is its string's id in the new index |
| Service.FindAllConcat | numerator.cpp:116-132 | the loop over xs + ys is the loop over xs and then over ys, batches and ids appended |
| Service.ServeConcat | numerator.cpp:116-135 | STR2ID of xs + ys gives the ids, store, index and counter of xs followed by ys |
| Service.Missing | disk_storage.cpp:80-99 | failures are strictly increasing and are exactly the positions without a stored value |
| Service.BootCounter | numerator.cpp:281-284 | booting without `-S` sets the counter to 1 + max(0, all stored ids), for any visiting order, with an index that fits the store |
| Numerator.NumeratorHandler.constructor | numerator.cpp:279-297 | reaches the specified boot state: with `-S` disabled, without index and the counter at 0; without it enabled |
| Numerator.NumeratorHandler.DisableS2i | numerator.cpp:78-84 | the process state becomes `Disable` of the old one; nothing if already disabled |
| Numerator.NumeratorHandler.EnableS2i | numerator.cpp:86-92 | the process state becomes `Enable` of the old one; the counter stays |
| Numerator.NumeratorHandler.FindIds | numerator.cpp:116-130 | index, counter, ids and batch after the STR2ID loop are those of `FindAll` |
| Numerator.NumeratorHandler.QueryImpl | numerator.cpp:101-136 | new process state and reply are those of `Serve`, for every operation code and for the rejection |
| Runs.RunKeeps | numerator.cpp:78-136 | over every run of boots with and without `-S`, requests, disables, enables and crashes (also inside the loop and after the write) that hands out fresh ids: no id is rebound, no string a reload would index changes its id, the index is the reloaded one (empty while disabled) |
| Runs.DisableEnableIsIdentity | numerator.cpp:78-92 | in every enabled state such a run reaches, disable followed by enable restores the very same state, even on imported data binding one string to several ids |
| Runs.CounterAboveIds | numerator.cpp:281-284 | where no process booted with `-S` serves strings, every event hands out fresh ids, and in every reachable state the counter of a process booted without `-S` exceeds every stored id, disabled or not |
| Runs.AcknowledgedForever | numerator.cpp:116-132 | in every run of fresh ids, whatever its processes were booted with: once STR2ID answered an id for a string, after any further events every STR2ID of it that is not rejected answers that id, and every ID2STR of the id succeeds with the one string bound to it |
| Switch.RejectedIffOff | numerator.cpp:78-114 | in every serialised run STR2ID is rejected, changing nothing, exactly while the last boot option, disable or enable left the switch off; ID2STR is always answered from the store |
| Switch.DashSOnlyLooksUp | numerator.cpp:279-297 | a process booted with `-S`, through any requests and disables, keeps the store, an empty index and the counter 0, and rejects every STR2ID |
| Refinement.DedupMeaning | numerator.cpp:116-129 | the specification's list of names holds every requested C prefix exactly once, and only requested strings: the first one with each prefix, in the order of these first requests |
| Refinement.StoreIsDedup | numerator.cpp:123-132 | from an empty store, after any run with crashes, the store is exactly the order-preserving deduplication of the strings whose batch was written, numbered 1, 2, 3, ... without gaps |
| Refinement.RepliesRefine | numerator.cpp:101-136 | and every reply is the one that list specifies: positions for STR2ID, names and missing positions for ID2STR, the rejection while disabled |
| DisabledStart.RebindsIff | numerator.cpp:116-132 | in every serialised run, also with processes booted with `-S` serving: an event takes from the stored ids exactly those among the next n counter values their string, n being the number of new C prefixes it commits, and so rebinds nothing iff no stored id lies in that range |
| DisabledStart.FreshIff | numerator.cpp:116-132 | a serialised run, whatever its processes were booted with, takes no stored id its string iff every event hands out fresh ids |
| DisabledStart.StaleIdIsUndone | numerator.cpp:116-132 | an event handing out a stored id anew changes what looking that id up answers |
| DisabledStart.DashSOverwritesIdOne | numerator.cpp:281-284 | on any non-empty store of dense ids, a `-S` boot, enable and two new strings answer 0 and 1 and overwrite the string of id 1 |
| DisabledStart.DashSUndoesAnAnswer | numerator.cpp:281-284 | a serialised run from an empty store in which id 1, answered for one string, is answered for another by a process booted with `-S` and enabled, and loses the first |
| Soundness.SoundUnderEveryInterleaving | numerator.cpp:78-136 | any number of query, disable and enable threads, the latter unlocked, with crashes and reboots: the store only grows, every id answered so far stays bound to one string with the requested C prefix, the counter exceeds every stored and pending id |
| Soundness.HolderIsNeverStuck | numerator.cpp:101-136 | whatever the unlocked threads do, the mutex holder's next step neither blocks nor overflows |
| Lookups.LookupsAreAtomic | disk_storage.cpp:71-101 | under every interleaving, every ID2STR reply is the one the atomic specification gives on the store at its time |
| Lookups.AnsweredIdsAreFound | numerator.cpp:105-135 | under every interleaving with crashes, every lookup of an id answered for a string, now or later, by any process, succeeds with the one string bound to it, which has the asked C prefix |
| Numbering.IdsAreDense | memory_storage.cpp:18-29 | from an empty store, under every interleaving with crashes: the stored ids are 1, 2, ... without gaps, and with the pending ones exactly those below the counter |
| Linearise.QueriesLinearise | numerator.cpp:101-136 | while only queries run, every interleaving gives each thread the reply of the atomic specification in lock order, and the same store, index and counter whenever the mutex is free |
| Alone.DisableAlone | numerator.cpp:78-84 | the steps of an undisturbed disable thread are the atomic `Disable` |
| Alone.EnableAlone | numerator.cpp:86-92 | the steps of an undisturbed enable thread, one per record, are the atomic `Enable` |
| Alone.FlagChangesLast | numerator.cpp:80-90 | one step before its end a disable has emptied the index of a process still enabled, and an enable has filled the index of one still disabled |
| Permanence.FindForksIff | memory_storage.cpp:5-32 | in every reachable state a find gives an already bound string one more id iff the string is bound, stored or pending, and missing in the index; otherwise it answers a bound id |
| Permanence.PermanentIff | numerator.cpp:78-136 | over every interleaving with crashes: the replies so far give one id per C prefix iff, at every find whose answer reaches its client, the index binds the string to the id it was answered with before, if it was |
| Permanence.SingleIff | numerator.cpp:78-136 | from a store binding every string once: it stays so, pending records included, iff no find misses a bound string in the index, and then every answer is permanent |
| Exclusive.ExclusiveRunsSerialise | numerator.cpp:78-136 | if disables and enables overlap neither a mutex holder nor one another, every interleaving, with crashes anywhere, is a run of serialised operations: the running process sent exactly its replies, lookups and rejections included, in lock order, the clients of all processes got its answers, and the state is the same whenever no thread is busy |
| Exclusive.ExclusiveAnswersPermanent | numerator.cpp:78-136 | under such a schedule no find misses a bound string, an idle enabled process has the index a reload would build, and every answer is permanent and is what the index gives again |
| Schedules.UnlockedDisableForksAnId | numerator.cpp:78-84 | whenever an enabled process is about to find a bound string, an unlocked disable can make it give the string one more id |
| Schedules.OverlappingEnablesLoseTheIndex | numerator.cpp:78-92 | two enables and a disable can leave a process with no thread running, enabled, and its index empty |
| Schedules.OverlapsForkAnswers | numerator.cpp:78-92 | from a boot on any store with room for two ids, for any string, a run with a disable overlapping a query and one with enables overlapping each other each end with two different answers for the string |
| BinaryFormat.RecordAt | disk_storage.cpp:117-124 | the i-th record of a binary dump lies directly behind those before it |
| BinaryFormat.DumpInBytes | disk_storage.cpp:113-124 | the file in literal bytes: ce fa ad de, then per record the 8 bytes of the key and the 4 bytes of the value size, least significant first, and the value |
| BinaryFormat.LeadingIsDump | disk_storage.cpp:159-174 | the whole records the reader finds in any stream are those whose dump the stream begins with |
| BinaryFormat.MagicMatches | disk_storage.cpp:159-164 | the first word read into zeroed memory matches iff the file starts with the four magic bytes; a shorter file never does |
| TextFormat.ParseIntText | disk_storage.cpp:126-148 | every 64-bit integer survives decimal printing and parsing |
| TextFormat.IntTextIsCanonical | disk_storage.cpp:126 | a printed id is a minus sign iff it is negative, then the decimal digits of its magnitude without leading zeros |
| TextFormat.ParseIntAccepts | disk_storage.cpp:148 | parsing yields an id iff the item is a fitting optional sign, leading zeros and the id's digits |
| TextFormat.SplitMeans | disk_storage.cpp:146 | the items of a line hold no tab, and joining them with tabs gives the line back |
| TextFormat.LinesMean | disk_storage.cpp:145 | the lines of a file hold no newline, and ending each with a newline gives the file back, with one at its end |
| TextFormat.LineValue | disk_storage.cpp:146-152 | the value of a line is what lies between its first tab and the next one, if any |
| TextFormat.LineRoundTrip | disk_storage.cpp:126-152 | a printed record parses to its key and its value up to the first tab |
| TextFormat.DumpLines | disk_storage.cpp:126-145 | the lines read from a text dump are the printed records, if no value holds a newline |
| RoundTrip.BinaryRecordsRebuild | disk_storage.cpp:113-186 | in any visiting order, the dumped records with the last one repeated rebuild every key with its value cut to its length mod 2^32 |
| RoundTrip.CopyBinary | disk_storage.cpp:103-187 | binary dump into an empty store: the cut copy of a non-empty store, one empty string from an empty one; an identical store iff it is non-empty and all values are shorter than 2^32 |
| RoundTrip.TextLinesRebuild | disk_storage.cpp:117-157 | in any visiting order, the dumped lines rebuild every key with its value cut at its first tab |
| RoundTrip.CopyText | disk_storage.cpp:103-187 | text dump into an empty store, for newline-free values: never rejected, the copy cut at tabs, identical iff no value holds a tab |
| RoundTrip.ImportText | disk_storage.cpp:141-157 | importing any lines with tabs: all of them iff each starts with a 64-bit integer, else the batches of 10000 lines full before the first that does not |
| Thrift.SkipEncoded | gen-cpp/numerator_types.cpp:147-149 | skipping consumes exactly one well-formed value of the announced type, however nested |
| Thrift.EncodingInBytes | numerator.cpp:303 | type codes and layouts of the Apache Thrift Binary protocol encoding in literal bytes: integers and lengths most significant byte first, containers after their element types |
| QueryCodec.FieldsMean | gen-cpp/numerator_types.cpp:69-154 | on any well-formed field sequence the reader keeps for each field its last correctly typed occurrence and stops exactly behind the struct |
| QueryCodec.FieldsThenMore | gen-cpp/numerator_types.cpp:69-154 | however the input goes on behind whole fields, failure included, the reader has given each field its last correctly typed occurrence |
| QueryCodec.OperationMissing | gen-cpp/numerator_types.cpp:156-157 | the operation counts as missing iff no I32 field 1 occurs |
| QueryCodec.CppQuery.Read | gen-cpp/numerator_types.cpp:55-159 | the C++ read loop leaves cursor and object as the reader function says, and fails with INVALID_DATA iff the operation is missing; on malformed input the object holds what the whole fields gave, but for the list the input breaks off in |
| QueryCodec.WireFormat | gen-cpp/numerator_types.cpp:164-207 | the encoding of a Query in literal bytes: 8 0 1 and the operation, 15 0 2 11, 15 0 3 10 and 15 0 4 8 each before a length and its elements, and a zero byte |
| QueryCodec.CppQuery.Write | gen-cpp/numerator_types.cpp:161-209 | writes the bytes `WireFormat` gives for all four fields, always |
| QueryCodec.PyQuery.Read | gen-py/numerator/ttypes.py:68-115 | the Python read loop does the same over the fields the object had, and never demands the operation |
| QueryCodec.PyQuery.Write | gen-py/numerator/ttypes.py:117-148 | writes the bytes `WireFormat` gives for the fields that are not None |
| QueryCodec.CppReads | gen-cpp/numerator_types.cpp:55-159 | on the bytes of any well-formed field sequence with anything behind it, Query::read sets each field to its last correctly typed occurrence, stops exactly behind the struct, and fails with INVALID_DATA iff no I32 field 1 occurs |
| QueryCodec.PyReads | gen-py/numerator/ttypes.py:68-115 | on the same bytes Query.read does the same and refuses nothing |
| QueryCodec.ReadersInvertWriters | gen-cpp/numerator_types.cpp:55-209 | each reader gets back what each writer wrote and stops where it stopped; fields Python omits are empty lists in C++ |
| QueryCodec.PyToCpp | gen-py/numerator/ttypes.py:117-148 | Python to C++: same values, None as default, refused iff the operation was None |
| QueryCodec.CppToPy | gen-cpp/numerator_types.cpp:161-209 | C++ to Python: the same object, nothing None |
| QueryCodec.CppToCpp | gen-cpp/numerator_types.cpp:55-209 | C++ to C++: the same object |
| Client.DecodePy | client.py:58-64 | line i is the not-found mark iff i is a failure index, else the i-th string |
| Client.DecodeCpp | numeratorcli.cpp:183-193 | the same with a 32-bit running index |
| Client.QueryIdsPy | client.py:55-68 | the decoded reply is the pointwise optional lookup of the ids in the store, an empty string told apart from a missing id, and the server is unchanged |
| Client.QueryIdsCpp | numeratorcli.cpp:167-195 | the same for the C++ client |
| Client.QueryStrings | client.py:46-54 | fails iff the server is disabled, without changing it; else the ids of one STR2ID request |
| Client.Exchange | client.py:45-57 | over the bytes on the wire both ways, the server serves the request with omitted fields empty and the client receives exactly the response |
| Client.RunIdsPy | client.py:89-107 | for every integer batch size, the output is the pointwise lookup of all lines |
| Client.RunStringsPy | client.py:89-107 | for every integer batch size, the printed ids and the server's final state are those of one single request for all lines; a disabled server answers nothing and stays as it is |
| Client.RunStringsCpp | numeratorcli.cpp:217-237 | the same for every initial value of the uninitialised counter, iff it is not the largest one with a one-line file; a disabled server raises unless nothing is sent |
| Client.RunIdsCpp | numeratorcli.cpp:217-237 | the output is the pointwise lookup of all lines, under the same condition |

## Left out

- Thrift transports, servers, processors, argument and result structs, and the concurrent client: call plumbing. A client's call is a call of the handler, and `Exchange` sends the two `Query` structs as bytes.
- The protocol library is one model for both languages: negative sizes are refused, an unknown type code is skipped without bytes, nesting is not limited. `xfer` counts, the `__isset` flags (set but never read in this repository) and the accelerated C codec of Python are not modelled.
- QueryCodec.CppQuery.Read: what the list that malformed input breaks off in holds depends on the library and is left open.
- QueryCodec.PyQuery.Read: the same.
- LevelDB and Judy internals, Bloom filter and caches; power-loss durability (writes are not synced); library, allocation and I/O errors other than as a crash of the process.
- Memory-level races inside Judy, including its shared `value` field: each storage call is one atomic step of a thread.
- Soundness.SoundUnderEveryInterleaving: processes booted without `-S` only, here and in the other results on threads; `Runs` and `DisabledStart` cover the others for serialised operations.
- Runs.AcknowledgedForever: serialised operations only; interleavings are covered by `Permanence` and `Exclusive`, and `OverlapsForkAnswers` shows that the limit cannot be dropped.
- DiskStorage.DiskStorage.RestoreBinary: a truncated value ends in uninitialised memory, and a restore of no whole record uses an uninitialised key; the model leaves these bytes arbitrary.
- DiskStorage.DiskStorage.RestoreText: text lines without a tab are outside the format (the source reads past its item list), as are newlines in values for the round trip. The two formats of `restore` are two methods.
- Service.ServeConcat: stated while the counter cannot overflow; a lookup takes at most 2^31 - 1 ids, the range of its 32-bit failure index.
- The global counter and the options flag are fields of the handler. Its pending batch is lost with the process; nothing else survives a crash but the store.
- Reading lines, stripping and converting them to integers are parameters of the client loops, and so is the text of the not-found mark, which a stored string may happen to equal.
- Command line, logging, signals, `exc.hpp`, `make-random-strings.py`, CMake, and the mains of numexport and numimport beyond their two calls.
