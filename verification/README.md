# A verified model of modeld

modeld keeps machine-learning models in a content-addressed store and serves them to local clients:
a daemon with a Varlink socket and a descriptor-handoff socket, and a client, `modelctl`, that pulls
and imports files into the same directory tree. This project models the parts of it that carry state
or parse untrusted bytes, and proves what they promise. `dafny verify dfyconfig.toml` checks it all.

SHA-256, the JSON library, UTF-8 decoding and floating-point formatting are parameters of the model
(`Hash`, `Service`, `Text`). Every result holds whatever they do, except where a hypothesis names what
is needed of them: an injective hash for one clause of the handoff result, NUL-free JSON (RFC 8259,
section 7) for the client results.

## The parts

* **The store as a step machine** (`Filesystem`, `StageNames`, `StoreMachine`, `StoreSafety`,
  `StoreSchedules`, `StoreFallback`, `StorePins`, `StorePinSchedules`, `CasStore`, `StoreAlone`,
  `StoreProcedures`, `StorePrune`). The tree is a map
  from paths to inodes and from inodes to bytes. Imports, downloads, prunes and handoffs are tasks of
  any number of processes; a step is one system call of one task, in any interleaving, and processes may
  crash. The theorems are about every schedule. `commit_artifact` has one call that can break content
  addressing: the opening of the destination of the `fs::copy` it falls back to when its hard link
  fails. `StepExact` says that this is the only such step and exactly when it does harm,
  `RefillRestoresIff` exactly when the copy that follows mends it; `FallbackReachable` is a schedule in
  which it does not.
  Pins protect from the moment no prune is past its test of the digest; `RemovedIff` says exactly what
  removes a file, `HandoffFailsIff` exactly when a reader of a pinned digest still fails, and
  `StorePinSchedules` has a schedule for each limit. The class `CasStore.Store` has the procedures as
  one process runs them, against the same tree operations. `StoreAlone`, `StoreProcedures` and `StorePrune`
  say what each kind of task comes to when its steps are the only ones: the handoff sends its reply, the
  import and the download leave their files, and the prune is one run of prune on the disk below.
* **Eviction and accounting** (`CasNames`, `Sums`, `Sorting`, `Lexicographic`, `Listings`, `Prune`,
  `PruneProperties`, `PruneComposition`, `Eviction`, `Accounting`, `StoreAccounting`). The two-directory
  scan, the stable sort and the greedy loop are proved equal to a function on disks; conservation,
  quota, least-recently-used order, minimality and composition are proved about that function for any
  order within each of the two directories, with the exact condition under which the outcome does not
  depend on those orders. The standard directory is always listed first, and the sort is stable, so a
  standard file goes before a flat-only one of the same age; only ties within a directory matter. The
  statistics, which count inodes, are related to the total prune counts, which counts digests, in every
  state the step machine reaches.
* **The GGUF header parser** (`Bytes`, `Numerals`, `Gguf`, `GgufPrefix`, `GgufEncode`, `GgufMetadata`,
  `GgufGrammar`, `GgufFormat`, `GgufWork`, `GgufReader`). The class `GgufReader.Reader` reads a seekable stream and agrees with the
  function `Gguf.ReadHeader`. About that function: an encoder is inverted, with exact consumption;
  the streams that are accepted are exactly those that start with an encoding, unread payload excepted;
  extension never changes a result; a truncated header is an error or the whole metadata, with the exact
  condition; the seek over a fixed-width array refines the element-by-element skip; the number of value
  reads of a whole parse is bounded by the input. `GgufFormat` writes the format out in bytes, every type number, width, limit and
  field name as a literal, and holds the reader to it. A position past the end of the stream is not an error
  until something is read there, so the state of the parser records how far the bytes were really looked
  at (`touched`).
* **Framing** (`Frames`, `VarlinkServer`, `VarlinkClient`, `FdFraming`). The server's reassembly loop
  over any reads is compared with cutting the whole stream on NUL; the margin within which the two agree
  is exact. The client reads byte by byte under its own limit, and the two ends run in lockstep until
  the first reply that is too long.
* **Selecting a file** (`Strings`, `Select`, `SelectChoice`), **tags** (`Digests`, `Tags`, `TagProperties`),
  **registration** (`Register`) and the **SafeTensors parameter count** (`SafeTensors`).

## Where the code and its comments differ

The model follows the code.

* The server's comment says a connection is aborted when the buffer passes the limit without a NUL
  (crates/modeld-daemon/src/varlink/server.rs:60-63). The limit is checked before complete frames are
  taken out, so a read that completes a frame within the limit is dropped too when the bytes behind it
  push the buffer over. `EverySplitClean` has the exact condition.
* `read_framed_request` is documented to dispatch each request (crates/modeld-daemon/src/fd_server.rs:55-60);
  a connection serves one, and what follows it is discarded with the connection.
* The BF16 guard is meant to keep F16 from matching BF16 (crates/modelctl/src/cmd/pull/resolve/select.rs:55-66).
  It also rejects a file in which F16 is set off by `_` or `.`. `GuardHidesF16` has such a file.
* Prune is documented to bring the total below the quota (crates/modeld-core/src/cas/eviction.rs:72); it
  stops at or below it, and ends above it exactly when the pinned blobs alone exceed it
  (`PruneMeetsQuota`).

## Model

| member | source | states |
|---|---|---|
| StageNames.NamesApart | crates/modeld-core/src/cas/store.rs:145-151 | two staging names are equal only if they come from the same kind of writer, process and counter value, whatever dashes and digits the model name and tag contain |
| StageNames.DownloadNamesApart | crates/modelctl/src/cmd/pull/stream.rs:96-113 | the same for two downloads, whose names embed user-chosen text |
| StageNames.ImportNameIs | crates/modeld-core/src/cas/store.rs:101-151 | the staging name of an import: its process and counter in hexadecimal |
| StageNames.DownloadNameIs | crates/modelctl/src/cmd/pull/stream.rs:96-113 | that of a download: process, model, tag, counter and time, the numbers in decimal |
| StoreSafety.StepKeeps | crates/modeld-core/src/cas/store.rs:96-142 | every step of every task keeps the invariant, except the copy fallback's opening of its destination: addressed locations, private staging inodes, distinct live staging names, and each task's own claim about its staged bytes or the file it has open |
| StoreSafety.CreateKeeps | crates/modeld-core/src/cas/store.rs:101-102 | creating a staging file, over an abandoned one or not, leaves the file of no other task and no location changed |
| StoreSafety.WriteKeeps | crates/modeld-core/src/cas/store.rs:107-115 | after every chunk the staged file holds exactly the bytes hashed so far |
| StoreSafety.FinishKeeps | crates/modeld-core/src/cas/store.rs:119-132 | the write loop ends with the digest of what was written: what goes on to the rename has it, a refused import is gone with its staging file, and the invariant holds |
| StoreProcedures.FinishIff | crates/modeld-core/src/cas/store.rs:119-130 | an import goes on to its rename iff it expected nothing or the computed digest, in letters of either case and with white space around it or not; otherwise its staging file and the task are gone and nothing else changes |
| StoreProcedures.ImportAlone | crates/modeld-core/src/cas/store.rs:96-142 | left alone, an import of any stream in any reads, in any state of the store, ends with its content where a reader looks, or with no file changed when another digest was expected |
| StoreSafety.RenameKeeps | crates/modelctl/src/cmd/pull/commit_artifact.rs:27-40 | renaming a staged file to a location of its digest keeps every location addressed and every other task's claim |
| StoreSafety.LinkKeeps | crates/modelctl/src/cmd/pull/commit_artifact.rs:42-50 | a hard link between two locations of one digest keeps the invariant |
| StoreSafety.PruneKeeps | crates/modeld-core/src/cas/eviction.rs:128-145 | the removals of a prune interleaved with anything keep the invariant |
| StoreSafety.CrashKeeps | crates/modeld-core/src/cas/store.rs:18-21 | a process that dies leaves stale staging files that bind nobody, even if its process id is used again |
| StoreSafety.RunKeeps | crates/modeld-core/src/cas/store.rs:89-142 | the invariant holds after any schedule without a firing fallback |
| StoreSafety.ContentAddressing | crates/modeld-core/src/cas/store.rs:133-139 | after any interleaving of imports, downloads, prunes, pins, handoffs and crashes from the empty store, every file at any of the three locations of a digest hashes to it |
| StoreSafety.HandoffDelivers | crates/modeld-daemon/src/fd_server.rs:146-170 | the bytes sealed behind every descriptor sent hash to the digest its reply names; with an injective hash the announced size is their number, although size and content are looked up separately |
| StoreAlone.HandoffReplies | crates/modeld-daemon/src/fd_server.rs:155-196 | from any state whose files have their inodes, a handoff of a digest that is present, left alone, ends with exactly one more reply: the digest, the length of the first location present, and its content |
| StoreAlone.HandoffRefuses | crates/modeld-daemon/src/fd_server.rs:155-155 | one of a digest at none of its locations, left alone, ends without a reply |
| StoreAlone.HandoffEnds | crates/modeld-daemon/src/fd_server.rs:155-196 | whatever else runs, a step other than a crash that ends a handoff either sends exactly one reply with its digest and the whole of the opened file, or was about to use a path that is gone |
| StoreAlone.SentIff | crates/modeld-daemon/src/fd_server.rs:164-185 | nothing but the end of a copy sends anything, and never more than one reply |
| StoreAlone.LinkFails | crates/modelctl/src/cmd/pull/commit_artifact.rs:45-49 | a commit whose link cannot be made opens the flat file and goes on to the destination of its copy, or to its tag when that file is gone |
| StoreAlone.AbandonIs | crates/modeld-core/src/cas/store.rs:121-124 | a staging task given up is gone, its staging file with it iff it was created and is cleaned up, and nothing else changes |
| StoreSafety.FallbackBreaks | crates/modelctl/src/cmd/pull/commit_artifact.rs:47-49 | when the copy fallback opens its destination, truncated or newly created, that leaves the store addressed iff the empty file has that digest |
| StoreSafety.RefillRestoresIff | crates/modelctl/src/cmd/pull/commit_artifact.rs:47-49 | the copy that follows, undisturbed, mends the store iff the destination was not a name of the inode being copied, or truncation could not hurt |
| StoreSafety.StepExact | crates/modelctl/src/cmd/pull/commit_artifact.rs:42-50 | from any sound state one system call leaves the store addressed iff it is not the opening of a copy's destination, or is one for the digest of the empty file |
| StoreFallback.FallbackReachable | crates/modelctl/src/cmd/pull/commit_artifact.rs:45-49 | two concurrent downloads of the same bytes reach a state in which one of them has failed to link and opened its source, its next step truncates that very file, and the copy after it does not mend the store |
| StorePins.RemovedIff | crates/modeld-core/src/cas/eviction.rs:137-140 | a step removes the flat GGUF file of a digest iff it is a prune's removal of that digest, the standard one iff it is that or the unlink of a commit of it; nothing removes the other flat file |
| StorePrune.PruneAlone | crates/modeld-core/src/cas/eviction.rs:128-147 | left alone, a prune of the machine removes the standard and the flat GGUF file of exactly the blobs the eviction loop takes from its list, passing over those pinned and those without a file, and has counted their sizes |
| StorePrune.PruneOfDisk | crates/modeld-core/src/cas/eviction.rs:75-148 | left alone, a prune of the machine that starts from a sorted scan is one run of prune on the disk the tree amounts to, so the theorems on disks below hold of the tree it leaves and of the bytes it has counted |
| StorePins.ProtectionKept | crates/modeld-core/src/cas/eviction.rs:128-141 | no step removes a flat file of a pinned digest that no prune has tested before, and only a commit of that digest removes the standard one |
| StorePins.PinnedFilesStay | crates/modeld-core/src/cas/eviction.rs:132-141 | over any schedule a digest pinned throughout, with no prune already past its pin test, keeps its flat files, and its standard file unless a commit relinks it |
| StorePins.PinnedStaysAvailable | crates/modeld-core/src/cas/store.rs:50-66 | in every state of any schedule one of the three locations of a digest pinned throughout exists, even while commits of that very digest relink it |
| StorePins.LookupsHit | crates/modeld-core/src/cas/store.rs:50-66 | a lookup of such a digest, whose three tests happen at different moments, always ends at a location that is there when it is tested |
| StorePins.FoundPathGoneIff | crates/modelctl/src/cmd/pull/commit_artifact.rs:45-47 | a path found for such a digest is gone later iff it is the standard one and a commit of the digest has unlinked it without its link being in place yet |
| StorePins.HandoffFailsIff | crates/modeld-daemon/src/fd_server.rs:155-160 | between finding a path and using it a handoff of such a digest fails iff exactly that has happened |
| StorePinSchedules.HandoffMisses | crates/modeld-daemon/src/fd_server.rs:155-160 | a schedule in which it does, the digest pinned and available all the while |
| StorePinSchedules.LatePinLosesFiles | crates/modeld-core/src/cas/eviction.rs:133-140 | a schedule in which a digest pinned just after a prune's test of it loses both its files |
| CasStore.Store.BlobSize | crates/modeld-core/src/cas/store.rs:82-87 | the size of the content at the location a reader would open, an error iff there is none |
| CasStore.Store.WriteAll | crates/modeld-core/src/cas/store.rs:107-117 | the write loop stages exactly the stream up to the first empty read, hashing the same bytes |
| CasStore.Store.StoreBlob | crates/modeld-core/src/cas/store.rs:96-142 | an import succeeds iff nothing is expected or the computed digest is, in any spelling; then exactly the stream is at its digest's location and no other file changed, on a mismatch none at all; either way the staging file is gone |
| CasStore.Store.CommitArtifact | crates/modelctl/src/cmd/pull/commit_artifact.rs:18-66 | an undisturbed commit leaves the flat and the standard location as two names of one inode with the staged bytes, the staging file gone, every other file as it was, and the tag naming the digest |
| StoreProcedures.DownloadAlone | crates/modelctl/src/cmd/pull/commit_artifact.rs:18-75 | left alone, a download of any stream in the machine ends with its content at the flat location of its format and at the standard one, two names of one inode, its tag naming the digest, and no other file or tag changed |
| Digests.SpelledIff | crates/modeld-core/src/cas/store.rs:122-123 | comparing trimmed and without regard to case accepts exactly the digest in letters of either case with white space around it |
| Digests.DigestIs | crates/modeld-core/src/cas/digest_format.rs:11-19 | a digest is 64 characters of 0123456789abcdef |
| CasStore.ImportOutcome | crates/modeld-core/src/cas/store.rs:132-141 | after staging and renaming the target holds the content and every other file what it held |
| CasStore.CommitOutcome | crates/modelctl/src/cmd/pull/commit_artifact.rs:27-50 | the same for a commit, with both names on one inode |
| CasNames.ParsePrint | crates/modeld-core/src/cas/eviction.rs:101-103 | flat file names of different digests or formats are different, and each is read back as it was written |
| CasNames.PrintIs | crates/modelctl/src/cmd/pull/commit_artifact.rs:27-28 | the two forms of a flat name, written out |
| CasNames.AffixesDoNotOverlap | crates/modeld-daemon/src/varlink/model1.rs:185-188 | the statistics, which test both ends of a name separately, see the same files as the prefix-then-suffix reading of prune |
| Sorting.SortStable | crates/modeld-core/src/cas/eviction.rs:125-126 | sorting by age keeps the listing order of blobs of equal age, which is what decides between tied blobs below |
| Eviction.EvictionManager.Pin | crates/modeld-core/src/cas/eviction.rs:26-32 | pins exactly the trimmed digest, and nothing unless it has digest form |
| Eviction.EvictionManager.Unpin | crates/modeld-core/src/cas/eviction.rs:34-44 | unpins exactly the trimmed digest and says whether it was pinned |
| Eviction.EvictionManager.ListPinned | crates/modeld-core/src/cas/eviction.rs:56-70 | every pinned digest once, ascending, whatever order the directory is listed in |
| Digests.PinnedIff | crates/modeld-core/src/cas/eviction.rs:47-54 | a name is pinned iff it is a pinned digest with white space around it or not |
| Lexicographic.LeIs | crates/modeld-core/src/cas/eviction.rs:68-68 | the order of the list: at the first difference the smaller character, or a proper prefix |
| Eviction.EvictionManager.ScanStandard | crates/modeld-core/src/cas/eviction.rs:82-94 | lists every standard file once, with the sum of the sizes |
| Eviction.EvictionManager.ScanFlat | crates/modeld-core/src/cas/eviction.rs:96-119 | adds every flat GGUF file whose digest is not listed, behind the standard files, so that each digest is counted once, by its standard file when there is one |
| Eviction.EvictionManager.EvictAll | crates/modeld-core/src/cas/eviction.rs:128-145 | removes both files of exactly the blobs the greedy function takes, and returns the sum of their sizes |
| Eviction.EvictionManager.Prune | crates/modeld-core/src/cas/eviction.rs:75-148 | the whole call is one run of prune in the sense of the theorems below: some order within each directory, the standard one first |
| PruneProperties.PruneConserves | crates/modeld-core/src/cas/eviction.rs:141-147 | a fresh scan finds exactly the returned bytes missing, so the saturating subtraction never saturates, and what stays counted is unchanged |
| PruneProperties.PruneMeetsQuota | crates/modeld-core/src/cas/eviction.rs:121-135 | afterwards the total is within the quota or every counted blob is pinned; it is within the quota iff the pinned blobs alone are |
| PruneProperties.PruneSparesPinned | crates/modeld-core/src/cas/eviction.rs:133-135 | a pinned digest keeps both its files |
| PruneProperties.PruneTakesBoth | crates/modeld-core/src/cas/eviction.rs:137-140 | both files of a digest go or neither, unchanged if they stay; no other file of the two directories is touched |
| PruneProperties.PruneIsLru | crates/modeld-core/src/cas/eviction.rs:125-135 | no removed blob is newer than an unpinned one that stays |
| PruneComposition.RemovedByRank | crates/modeld-core/src/cas/eviction.rs:82-135 | nor is it a flat-only one of the same age as an unpinned standard one that stays: the standard directory is listed first and the sort keeps that |
| PruneProperties.PruneIsMinimal | crates/modeld-core/src/cas/eviction.rs:129-132 | a prune that removed something removed last a newest one of them, without which the total would still exceed the quota |
| PruneComposition.PruneComposes | crates/modeld-core/src/cas/eviction.rs:82-147 | when different unpinned blobs of equal age are empty unless just one of the two has a standard file, a loose prune then a tight one leaves the disk the tight one alone leaves, and the returned bytes add up |
| PruneComposition.ComposesIff | crates/modeld-core/src/cas/eviction.rs:82-147 | prunes of a disk compose for all quotas and all orders within the directories iff different unpinned blobs of equal age are empty unless just one of the two has a standard file |
| PruneProperties.PruneIsIdempotent | crates/modeld-core/src/cas/eviction.rs:121-147 | a second prune to the same quota removes nothing and returns zero, whatever the times |
| PruneComposition.TiesDoNotCompose | crates/modeld-core/src/cas/eviction.rs:82-135 | for any two unpinned blobs of equal age, one of them not empty, both with a standard file or both without, a quota and listing orders at which two prunes leave another disk than the direct one |
| PruneComposition.TighterRemovesMore | crates/modeld-core/src/cas/eviction.rs:121-147 | under the same condition a smaller quota removes at least as much |
| PruneComposition.MonotoneIff | crates/modeld-core/src/cas/eviction.rs:125-147 | and only under it |
| PruneComposition.EvictComposes | crates/modeld-core/src/cas/eviction.rs:128-145 | the loop to a tight quota is the loop to a loose one, continued on what that left |
| PruneComposition.EvictIff | crates/modeld-core/src/cas/eviction.rs:129-145 | the loop removes a blob iff it is unpinned and the unpinned ones before it do not suffice |
| Accounting.StorageStats | crates/modeld-daemon/src/varlink/model1.rs:156-203 | the statistics count every inode that some stored name leads to exactly once |
| Accounting.StoredExactly | crates/modeld-daemon/src/varlink/model1.rs:156-203 | those are the inodes of the standard files and of the flat files of both formats, and no others |
| Accounting.StatsExceedPrune | crates/modeld-core/src/cas/eviction.rs:79-119 | in an addressed store the statistics exceed the total of prune by exactly the inodes that stand for no counted file |
| Accounting.AccountingsAgree | crates/modeld-daemon/src/varlink/model1.rs:156-203 | the two totals agree iff every such inode is empty |
| Accounting.HardLinksAgree | crates/modelctl/src/cmd/pull/commit_artifact.rs:42-50 | they agree when every flat file shares its inode with the standard one, as a commit leaves it |
| StoreAccounting.DiskIs | crates/modeld-core/src/cas/eviction.rs:82-119 | the disk a tree amounts to has every located file under its digest and format, with its inode and length, and nothing else |
| StoreAccounting.ReachableAccounting | crates/modeld-daemon/src/varlink/model1.rs:156-203 | both statements hold of the disk in every state of every schedule without a firing fallback |
| StoreAccounting.CommitHardLinks | crates/modelctl/src/cmd/pull/commit_artifact.rs:42-50 | a commit keeps a store in which every flat file shares the standard inode that way iff the digest has no flat file of the other format |
| Gguf.ReadValue | crates/modeld-core/src/format/gguf.rs:132-186 | a successful read ends in a sound position after touching at least one byte of its own, whatever type and count are declared |
| Gguf.TakeString | crates/modeld-core/src/format/gguf.rs:100-116 | a successful string read touches every byte it consumes |
| GgufReader.Reader.ReadString | crates/modeld-core/src/format/gguf.rs:100-116 | agrees with the string function: result, error and position |
| GgufReader.Reader.ShowRead | crates/modeld-core/src/format/gguf.rs:133-141 | each scalar is read in its width and shown as its type demands |
| GgufReader.Reader.SkipOrReadValue | crates/modeld-core/src/format/gguf.rs:132-186 | agrees with the value function, which `GgufFormat` ties to the bytes of each of the thirteen types, and counts one read for every value read successfully |
| GgufReader.Reader.SkipArray | crates/modeld-core/src/format/gguf.rs:143-180 | agrees with the value function on arrays, nested ones included |
| GgufReader.Reader.SeekItems | crates/modeld-core/src/format/gguf.rs:152-178 | the checked multiplication, the checked addition and the seek, with their three errors |
| GgufReader.Reader.SkipVariable | crates/modeld-core/src/format/gguf.rs:156-172 | the bounded loop over strings or nested arrays, with its cap |
| GgufReader.Reader.ParseHeader | crates/modeld-core/src/format/gguf.rs:28-86 | the stateful parser agrees with the function the theorems are about, and reads no more values, array items included, than the stream has bytes |
| GgufFormat.HeaderIs | crates/modeld-core/src/format/gguf.rs:28-54 | in literal bytes and numbers: the magic, versions 2 and 3, the tensor count, at most 4096 pairs, with the error of each failure |
| GgufFormat.PairIs | crates/modeld-core/src/format/gguf.rs:63-66 | a key, four bytes of type number least byte first, a value of that type |
| GgufFormat.ScalarValue | crates/modeld-core/src/format/gguf.rs:132-141 | for each of the eleven type numbers of fixed width, its width, and its text from its bytes |
| GgufFormat.StringValue | crates/modeld-core/src/format/gguf.rs:100-116 | type 8: eight bytes of length, at most 1024 bytes, which must be UTF-8 |
| GgufFormat.FixedArray | crates/modeld-core/src/format/gguf.rs:143-180 | type 9: four bytes of item type, eight of count, and a seek over count times width, with the three ways it fails |
| GgufFormat.VariableArray | crates/modeld-core/src/format/gguf.rs:156-172 | items of other types are read one by one, at most 65536 of them |
| GgufFormat.NoValue | crates/modeld-core/src/format/gguf.rs:184-184 | no type number above 12 has a value |
| GgufFormat.StringAttribute | crates/modeld-core/src/format/gguf.rs:28-86 | a whole stream in bytes with one string of at most 1024 bytes of UTF-8 under any key, whatever follows, parses to that attribute and, under the three named keys, to that field |
| GgufFormat.ScalarAttribute | crates/modeld-core/src/format/gguf.rs:28-86 | the same for each of the eleven types of fixed width |
| GgufFormat.ArrayAttribute | crates/modeld-core/src/format/gguf.rs:28-86 | the same for an array of items of fixed width, of which the stream need not hold any |
| GgufEncode.ValueRoundTrip | crates/modeld-core/src/format/gguf.rs:132-186 | any value of the 13 types, arrays nested to any depth, is shown from its encoding and the reader is left just after it |
| GgufEncode.ShowDecodes | crates/modeld-core/src/format/gguf.rs:133-141 | decoding the little-endian, two's-complement bytes of a scalar shows that scalar |
| GgufEncode.PairRoundTrip | crates/modeld-core/src/format/gguf.rs:63-66 | the same for a key with its value |
| GgufEncode.HeaderRoundTrip | crates/modeld-core/src/format/gguf.rs:28-86 | parsing an encoded header, followed by anything, yields its version, tensor count and folded attributes, and ends exactly at the end of the encoding |
| GgufEncode.TruncatedHeader | crates/modeld-core/src/format/gguf.rs:60-76 | a prefix of an encoded header is accepted iff only bytes of the fixed-width array payload that ends it are missing, and then with the complete metadata |
| GgufGrammar.ValueDecodes | crates/modeld-core/src/format/gguf.rs:132-186 | whatever is accepted as a value is the encoding of one that fits, as far as the stream goes, and the reader ends where that ends |
| GgufGrammar.HeaderDecodes | crates/modeld-core/src/format/gguf.rs:28-86 | every accepted stream starts with the encoding of a header that fits; at most unread payload at the end of it is missing |
| GgufGrammar.CarriedIsRead | crates/modeld-core/src/format/gguf.rs:28-86 | every stream that does parses to that header's metadata and ends at its last byte |
| GgufGrammar.AcceptedIff | crates/modeld-core/src/format/gguf.rs:28-86 | so the accepted streams are exactly those that start with such an encoding |
| GgufPrefix.HeaderLocal | crates/modeld-core/src/format/gguf.rs:28-86 | the result depends only on the touched bytes |
| GgufPrefix.ExtensionStable | crates/modeld-core/src/format/gguf.rs:60-76 | for any accepted bytes, appending others changes nothing |
| GgufPrefix.TruncationExact | crates/modeld-core/src/format/gguf.rs:152-179 | for any accepted bytes, a prefix is accepted iff it holds every touched byte, and then with the same metadata |
| GgufMetadata.AttributesLastWin | crates/modeld-core/src/format/gguf.rs:75 | every attribute has the text of the last pair with its key, and there are no others |
| GgufMetadata.FieldsLastWin | crates/modeld-core/src/format/gguf.rs:68-74 | architecture, context length and file type come from the last pair that names them, parsed within their widths |
| GgufMetadata.ContextLengthRoundTrip | crates/modeld-core/src/format/gguf.rs:70-71 | an encoded unsigned context length comes back as that number through its decimal text |
| Numerals.RenderRoundTrip | crates/modeld-core/src/format/gguf.rs:134-139 | reading a rendered number in the same base gives it back |
| Numerals.ParseDecimal | crates/modeld-core/src/format/gguf.rs:70-74 | parsing a decimal within a width succeeds iff the number fits |
| Numerals.ParseUnsignedIff | crates/modeld-core/src/format/gguf.rs:70-74 | what parses is exactly a number within the limit in decimal digits, with any zeros before it and a plus sign or none |
| Numerals.DecimalIs | crates/modeld-core/src/format/gguf.rs:134-139 | decimal text, digit by digit |
| Bytes.LittleEndianRoundTrip | crates/modeld-core/src/format/gguf.rs:88-98 | little-endian decoding inverts encoding at every width |
| GgufWork.ValueReadsBounded | crates/modeld-core/src/format/gguf.rs:132-186 | the successful value reads of one value, at all nesting levels, are at most the bytes of input it used up |
| GgufWork.PairsReads | crates/modeld-core/src/format/gguf.rs:63-76 | those of the whole key/value loop are at most the bytes left, whatever counts are declared |
| GgufWork.SlowSkip | crates/modeld-core/src/format/gguf.rs:156-171 | skipping fixed-width elements one by one succeeds iff they lie inside the stream, and ends behind them |
| GgufWork.SeekReach | crates/modeld-core/src/format/gguf.rs:152-178 | the checked arithmetic fails exactly when the mathematical end exceeds 64 bits, the seek exactly when it exceeds the stream's limit |
| GgufWork.FastSkipRefinesSlowSkip | crates/modeld-core/src/format/gguf.rs:118-179 | whenever the element-by-element skip succeeds the seek does, at the same position; the skip succeeds iff the payload is inside the stream |
| Frames.CutJoins | crates/modeld-daemon/src/varlink/server.rs:113-116 | cutting a stream on NUL loses and adds nothing |
| Frames.JoinCuts | crates/modeld-daemon/src/varlink/protocol.rs:54-61 | payloads without a NUL, each followed by one, are cut back into the same payloads whatever follows |
| Frames.CutAppend | crates/modeld-daemon/src/varlink/server.rs:93-116 | bytes that arrive later continue the pending tail and change no frame already complete |
| VarlinkServer.HandleClient | crates/modeld-daemon/src/varlink/server.rs:67-139 | the connection loop: state, bytes sent and how it ended, for any reads; between reads the buffer has no NUL and at most MAX_MSG_BYTES bytes, and never more than one read above that |
| VarlinkServer.DrainBuffer | crates/modeld-daemon/src/varlink/server.rs:113-133 | the inner loop answers every complete frame once, in order, and leaves the tail |
| VarlinkServer.MalformedFrameSkipped | crates/modeld-daemon/src/varlink/server.rs:118-128 | a frame that does not parse gets its one error reply and changes neither the state nor any other reply |
| VarlinkServer.CleanReadsServe | crates/modeld-daemon/src/varlink/server.rs:84-134 | reads that never overflow the buffer are answered like the stream they make up |
| VarlinkServer.OverflowAborts | crates/modeld-daemon/src/varlink/server.rs:95-111 | the first read that overflows ends the connection: earlier frames were answered, none of that read is, the protocol error is the last reply |
| VarlinkServer.EveryConnection | crates/modeld-daemon/src/varlink/server.rs:76-136 | state, bytes sent and end of every connection, with the end of the stream or before it: the frames complete before the first overflowing read are answered in order; if there is such a read the protocol error follows and it is aborted, otherwise the end of the stream closes it without a word |
| VarlinkServer.EachAnswered | crates/modeld-daemon/src/varlink/server.rs:114-133 | the i-th frame gets the reply of its call in the state the frames before it left, or the reply to a frame that does not parse; on the wire that is its text, or an empty object, and a NUL |
| VarlinkServer.EndOfStream | crates/modeld-daemon/src/varlink/server.rs:89-91 | the empty read closes an open connection, writes nothing, and nothing behind it is looked at |
| VarlinkServer.LongFramesNeverServed | crates/modeld-daemon/src/varlink/server.rs:95-111 | no frame a connection answers has MAX_MSG_BYTES or more, whatever it receives |
| VarlinkServer.EverySplitClean | crates/modeld-daemon/src/varlink/server.rs:84-97 | every way of cutting a stream into reads is answered in full iff the longest possible read, of 1024 bytes, fits behind what is pending at every position into 1048576 bytes |
| VarlinkServer.ChunkingIndependent | crates/modeld-daemon/src/varlink/server.rs:72-138 | a stream whose frames stay READ_BYTES below the limit gets the same replies and state however it arrives |
| FdFraming.ReadFramedRequest | crates/modeld-daemon/src/fd_server.rs:61-85 | the read loop returns the first frame of the stream; it gives up iff too much came without a NUL, and ends empty iff the stream has none |
| FdFraming.EverySplitAccepts | crates/modeld-daemon/src/fd_server.rs:72-83 | a request gets through however it is cut up iff it has at most 65536 bytes |
| FdFraming.SomeSplitAccepts | crates/modeld-daemon/src/fd_server.rs:65-83 | a request can get through at all iff it is shorter than 65536 bytes plus one read of 4096 |
| VarlinkClient.VarlinkClient.Send | crates/modelctl/src/client.rs:36-39 | whoever cuts the written bytes on NUL finds exactly one frame more than before, the request, and nothing pending |
| VarlinkClient.Exchange | crates/modelctl/src/client.rs:30-56 | writing, the server's reads and reading the reply together are one call of the conversation the lemmas below are about |
| VarlinkClient.VarlinkClient.ReadReply | crates/modelctl/src/client.rs:41-56 | the byte loop: the result and exactly how much was consumed |
| VarlinkClient.AcceptedIff | crates/modelctl/src/client.rs:44-56 | a reply is accepted iff its payload has at most 1048576 bytes, and nothing behind it is touched |
| VarlinkClient.NoReply | crates/modelctl/src/client.rs:42-56 | bytes without a NUL are the end of the stream, or too long a reply as soon as they are longer than that |
| VarlinkClient.CallInStep | crates/modelctl/src/client.rs:30-56 | a call made in step returns the reply to its own request; the ends stay in step iff the client accepts it |
| VarlinkClient.Lockstep | crates/modeld-daemon/src/varlink/server.rs:114-133 | over any run of calls, in any reads, the i-th result is the reply to the i-th request up to the first reply too long to accept |
| VarlinkClient.LateReply | crates/modelctl/src/client.rs:52-54 | after a reply that was too long the next call returns the rest of it |
| Select.MatchesDelimited | crates/modelctl/src/cmd/pull/resolve/select.rs:109-136 | true iff the guard does not fire and some occurrence, overlapping ones included, has a delimiter or an end on both sides; the slice is out of range iff the quantization is empty and no place is so bounded |
| Select.SelectFile | crates/modelctl/src/cmd/pull/resolve/select.rs:34-98 | the first file of the best tier that has one, for each format and with or without a quantization, and the three errors |
| SelectChoice.PreferredChoice | crates/modelctl/src/cmd/pull/resolve/select.rs:79-98 | with no quantization and a format other than safetensors: the first file that ends in Q4_K_M behind a delimiter, else in Q4_0, Q8_0, F16; else the first that sets one of them off, in that order; else the first file |
| SelectChoice.EndingGoesFirst | crates/modelctl/src/cmd/pull/resolve/select.rs:79-96 | a file that ends in a later preferred name goes before one that only sets off an earlier one |
| SelectChoice.AskedChoice | crates/modelctl/src/cmd/pull/resolve/select.rs:46-77 | with a quantization in letters of either case: the first file that ends in it, else the first that sets it off and is not hidden, else the first that has it and is not hidden; and exactly when there is none, or the search runs out of range |
| SelectChoice.SafetensorsChoice | crates/modelctl/src/cmd/pull/resolve/select.rs:39-44 | model.safetensors iff it is listed, else the first file |
| Select.FirstIs | crates/modelctl/src/cmd/pull/resolve/select.rs:49-54 | the first match has no match before it; none iff nothing matches |
| Select.BestIs | crates/modelctl/src/cmd/pull/resolve/select.rs:46-96 | no tier before the one chosen from has a file |
| Select.StrictIsDelimited | crates/modelctl/src/cmd/pull/resolve/select.rs:100-107 | a strict match is a delimited one iff the guard does not fire |
| Select.DelimitedIsLoose | crates/modelctl/src/cmd/pull/resolve/select.rs:62-69 | a delimited match is a substring match |
| Select.FailsIff | crates/modelctl/src/cmd/pull/resolve/select.rs:72-76 | no file is chosen iff none ends in the quantization and the guard hides every one that contains it |
| Select.F16IsNotBf16 | crates/modelctl/src/cmd/pull/resolve/select.rs:55-69 | asking for F16 yields a file with an F16 that is not the end of BF16 |
| Select.GuardHidesF16 | crates/modelctl/src/cmd/pull/resolve/select.rs:110-112 | a file with a delimited F16 that the guard hides, so that the selection fails |
| Tags.ValidateSegment | crates/modeld-core/src/cas/tags.rs:29-58 | accepts exactly the non-empty names of portable characters other than the two reserved ones, unchanged |
| Tags.SegmentIs | crates/modeld-core/src/cas/tags.rs:29-58 | the safe segments character by character: letters, digits and four marks |
| Tags.SegmentErrors | crates/modeld-core/src/cas/tags.rs:29-58 | which segments are refused as empty, as reserved and for a forbidden character |
| Tags.TagRegistry.SetTag | crates/modeld-core/src/cas/tags.rs:75-93 | writes the trimmed digest under the tag iff both segments and the digest are valid, and changes nothing else |
| Tags.TagRegistry.GetTag | crates/modeld-core/src/cas/tags.rs:96-109 | what the tag file holds, trimmed; none if there is no file; an error for an unsafe segment |
| Tags.TagRegistry.RemoveTag | crates/modeld-core/src/cas/tags.rs:112-122 | removes exactly that tag and says whether it was there |
| Tags.TagRegistry.ListTags | crates/modeld-core/src/cas/tags.rs:125-153 | the sorted collection of what the nested listing finds, or the first error |
| Tags.TagRegistry.ResolveIdentifier | crates/modeld-core/src/cas/tags.rs:163-187 | the three readings of an identifier and their errors |
| Tags.PaddingIgnored | crates/modeld-core/src/cas/tags.rs:76-187 | white space around an identifier, around a stored digest and around a digest to be stored does not matter |
| TagProperties.RunRefines | crates/modeld-core/src/cas/tags.rs:75-122 | any run of set and remove on the directories is the same run on a map from name and tag to digest |
| TagProperties.RunKeepsValid | crates/modeld-core/src/cas/tags.rs:76-84 | over any run every stored name is a safe segment and every value a digest |
| TagProperties.ResolvesToLastSet | crates/modeld-core/src/cas/tags.rs:163-187 | after any run `name:tag` resolves to exactly the last digest set there and not removed since |
| TagProperties.ResolvedIsDigest | crates/modeld-core/src/cas/tags.rs:164-171 | whatever an identifier resolves to has digest form |
| TagProperties.ResolveBareName | crates/modeld-core/src/cas/tags.rs:168-178 | a bare name means its latest tag unless it could be a digest |
| TagProperties.ListedCompletely | crates/modeld-core/src/cas/tags.rs:125-153 | the list is refused iff a stored name is unsafe; otherwise it has every entry once, ascending by name and then by tag, whatever order the directories are read in |
| Register.IdentifyIff | crates/modeld-daemon/src/varlink/register.rs:17-39 | which name and tag are meant: a tag parameter decides the tag whatever tag the identifier carries, otherwise it is what follows the first colon, or the latest; white space is no identifier |
| Register.TagParameterRegisters | crates/modeld-daemon/src/varlink/register.rs:22-39 | any accepted spelling registers the canonical digest under a tag parameter, padded or not, whatever tag the identifier carries |
| Register.Canonical | crates/modeld-daemon/src/varlink/register.rs:74-85 | the reassignments that bring a digest to its canonical form |
| Register.HandleRegister | crates/modeld-daemon/src/varlink/register.rs:13-116 | a refused call changes nothing and says why; an accepted one sets exactly its tag, also when the reply is a security rejection |
| Register.DescribeIs | crates/modeld-daemon/src/varlink/register.rs:101-188 | the reply to an accepted call: what was registered, the size and pin the store reports, and the format and metadata of the blob, or GGUF and the digest when there is none; a refused blob gives its reason |
| Register.RefusalIs | crates/modeld-daemon/src/varlink/register.rs:17-92 | which of its errors a refused call gets |
| Register.SpellingsNormalise | crates/modeld-daemon/src/varlink/register.rs:74-85 | every prefix, suffix and case of a digest comes out as the one lowercase form |
| Register.AcceptedIffSpelled | crates/modeld-daemon/src/varlink/register.rs:74-92 | a digest parameter is accepted iff it is 64 hex digits in either case with at most one known prefix and suffix |
| Register.AnySpellingRegisters | crates/modeld-daemon/src/varlink/register.rs:27-99 | any accepted spelling, padded with white space or not, registers the canonical digest under `name:tag` |
| Register.RegisteredResolves | crates/modeld-daemon/src/varlink/register.rs:94-99 | after an accepted call its tag resolves to its digest |
| Register.ReRegistering | crates/modeld-daemon/src/varlink/register.rs:55-72 | registering a known tag without a digest leaves the registry as it was |
| SafeTensors.ShapeProduct | crates/modeld-core/src/format/safetensors.rs:86-91 | the saturating product is the exact one, capped, zeros after saturation included |
| SafeTensors.Count | crates/modeld-core/src/format/safetensors.rs:63-96 | the tensor count is exact; the parameter count is the exact sum of products, capped at 2^64-1 |
| SafeTensors.EntryCounts | crates/modeld-core/src/format/safetensors.rs:68-96 | the entry "__metadata__" counts for nothing, every other one is a tensor |
| SafeTensors.ShapeCounts | crates/modeld-core/src/format/safetensors.rs:80-96 | a tensor with a "shape" list adds the product of it |
| SafeTensors.DimensionCounts | crates/modeld-core/src/format/safetensors.rs:86-91 | a dimension that is an unsigned 64-bit number multiplies, anything else does not |
| SafeTensors.ProductPermutes | crates/modeld-core/src/format/safetensors.rs:86-91 | the order of the dimensions does not matter |
| SafeTensors.SumPermutes | crates/modeld-core/src/format/safetensors.rs:68-96 | the order in which the header object is walked does not matter |

## Left out

- What `fs::copy` writes after it has opened its destination is one step of the machine, where the source copies piece by piece; the theorems over whole runs are about schedules in which no copy gets that far.
- Steps 1 to 3 of a commit are in the machine; the format symlinks, the tokenizer companion and the router notification are not, and the tag file is written in one step.
- Permissions and system-call failures other than those named: directories exist, `remove_file` succeeds iff the file exists, a file lists with its metadata.
- The wrap-around of the staging counters after 2^64 files of one process.
- StorePins.PinnedFilesStay: assumes that no prune is already between its pin test and its removal of that digest when the pin is set, because such a prune does remove it (`LatePinLosesFiles`).
- In the step machine the list a prune works through is arbitrary, which covers every scan; that a scan counts each digest once is proved where no other writer interferes (`Eviction`).
- Eviction.EvictionManager.Prune: sizes are unbounded numbers, where the source adds 64-bit ones without a check.
- `.safetensors` flat files in prune, which neither counts nor removes them.
- SHA-256, JSON parsing and printing, UTF-8 decoding, float formatting, memfd sealing, SCM_RIGHTS, tokio and systemd: parameters, or not modelled.
- The depth of the parser's recursion on nested arrays, which the source does not bound; the model has no stack.
- GGUF strings of headers are bytes with an optional decoding; file names and identifiers are strings of characters, which for the non-ASCII file names the selector may meet is the same as its bytes because every delimiter and quantization is ASCII. Non-ASCII quantizations are not modelled.
- The dispatch of a parsed Varlink call to its method, shutdown signals and socket errors: a connection that ends early is one with fewer reads.
- The client's reading of an accepted reply as JSON, and its `error` field.
- Authorization of descriptor clients, and the reading of the one request as JSON.
- Parsing the GGUF or SafeTensors metadata inside registration: what inspecting a blob gives is a parameter.
- The header length check, the attributes and the architecture of a SafeTensors header; only the counting loops are modelled.
- `parse_tag_override`, the quality envelope, configuration, the command line, progress output and Hugging Face access: pure case reading or input and output.
