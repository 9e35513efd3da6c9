# Verification of Astra host tools

This project models the parts of the Astra repository whose correctness depends on more than
one line at a time, and proves what they promise, for all inputs, runs and interleavings.

| area | modules |
|---|---|
| journal and its checker | Journal |
| group-commit protocol | GroupCommit (program and invariant), GroupCommitSteps (every step keeps it), GroupCommitRuns (what runs guarantee) |
| pictures | PngFilter, ColorReduction |
| releases | ReleaseManifest, ReleaseStore, ShadowRelease, GuestTree |
| trace ring | TraceRing (kernel writer and decoder), TraceReader (polling reader) |
| bundles | BundleDeletion |
| system image | VolumeTree (changes and lists of them), Volume (requests), PublicationPlan, SystemImage and ImageContents (theorems), Publisher (the program and the image file) |
| host command ring | HostRing |
| input devices | Hotplug |
| shared | Prelude, Arithmetic, Paths |

How the parts are modelled:

- Threads are a state machine: one step runs one thread between two of its program points, the
  mutex is a field naming its holder, and a thread asleep on a condition is at a program point of
  its own. The linked lists are the real pointers; the sequences beside them are history.
- A crash is a process that changes nothing more. Every change to the release store first asks
  whether the process is still alive, so a method's postcondition covers a crash before any change.
- Loops of the programs are loops here, proved against functions; objects whose fields change are
  classes. `Discover`, `Verify`, `ReduceColors`, `Decode` and `InstallBuilt` are such methods.
- The digest is a parameter. Where two contents must not collide, the theorem says which contents.
- Machine widths are explicit: 32-bit positions and sequence numbers wrap, bytes are below 256, and
  sequence numbers skip zero.

Where the code does something other than its surroundings suggest:

- A gamepad that is still present does not always keep its slot: an alias that sorts before its
  path and has the same device number replaces it (`Hotplug.PresentPathCanLoseItsSlot`); when it
  does keep it is `Hotplug.SlotKeptExactlyWhen`.
- `create` refuses every name below `artifacts.sha256`, although the path check lets it through
  (`ReleaseManifest.BelowManifestRefused`), and names with a line separator or NUL. `Create`'s
  contract is the exact condition.
- The manifest's own executable bit is recorded nowhere: whatever it is, the tree verifies under the
  same identity (`ReleaseManifest.ManifestModeIsFree`).
- An install interrupted between the move into the store and the last change of mode leaves a
  directory that a second install of the same stage refuses until it is gone
  (`ReleaseStore.InterruptedInstallBlocks`; one file still writable is enough,
  `ReleaseStore.OneWritableFileBlocks`).
- `wait_ready` tells slots apart by two fields only: the payload of another event that has the right bytes
  there is taken for the event it waits for, and no other payload is (`TraceReader.PayloadMatches`).
- A dump whose oldest surviving slot is the payload of an overwritten event decodes to one record
  more than there are surviving events (`TraceRing.OrphanCounts`); any other dump decodes to exactly
  those events (`TraceRing.DecodeInvertsWrite`).
- `shadow_release` returns an identity whose directory already exists without looking into it. The
  identity names a release if and only if that directory is one
  (`ShadowRelease.Disk.ShadowRelease`). That is always so over development installs whose prunings are
  not interrupted (`ShadowRelease.Disk.Run`), and never once the directory has lost an entry, which
  goes unseen (`ShadowRelease.Disk.LossGoesUnseen`, `ShadowRelease.DamagedExample`).
- A stream of scanlines that ends in its last row is refused, but for an unfiltered row that lacks no
  more than one pixel: then the short row is passed on (`PngFilter.Unfilter`).

## Model

| member | source | states |
|---|---|---|
| Journal.RecordRoundTrip | emu/qemu/benchmark-hostfs-native.c:129-134 | The 64-bit number at the front of a filled record reads back as the number it was filled with. |
| Journal.RecordBytes | emu/qemu/benchmark-hostfs-native.c:129-134 | A record is 256 bytes: byte k of the first eight is the number divided by 256^k, modulo 256, and every other is its lowest byte. |
| Journal.FillRecord | emu/qemu/benchmark-hostfs-native.c:129-134 | A 256-byte buffer is overwritten, whatever it held, with the record of the number: pattern bytes, then the number in the first eight. |
| Journal.MarkOne | emu/qemu/benchmark-hostfs-native.c:170 | Setting one bit of the packed bitmap marks that number and no other. |
| Journal.TestBit | emu/qemu/benchmark-hostfs-native.c:159-160 | The bit read for a number is set exactly when an earlier record claimed it. |
| Journal.SetBit | emu/qemu/benchmark-hostfs-native.c:170 | Setting the bit keeps the bitmap tracking exactly the numbers claimed so far. |
| Journal.CheckRecord | emu/qemu/benchmark-hostfs-native.c:154-171 | One record is rejected for its number exactly when that is out of range or already claimed, accepted exactly when it is new and its bytes are those it should be filled with, and only then marked. |
| Journal.VerifyJournal | emu/qemu/benchmark-hostfs-native.c:136-174 | A file is accepted if and only if its records are a permutation of the filled records 0 to operations - 1; a rejection names the right fault of the first bad record. |
| Journal.Pigeonhole | emu/qemu/benchmark-hostfs-native.c:143-171 | As many distinct numbers below a bound as the bound itself are all of them: length, range and no-duplicate checks suffice. |
| Journal.CoveringIsPermutation | emu/qemu/benchmark-hostfs-native.c:436-449 | Distinct numbers that are exactly those below a bound are a permutation of them. |
| Journal.SoundIsComplete | emu/qemu/benchmark-hostfs-native.c:143-171 | For a file of the right size, every record passing its checks is equivalent to the whole being complete. |
| Journal.WriteAll | emu/qemu/benchmark-hostfs-native.c:39-55 | Partial writes and interruptions included, it fails exactly when a call fails; success appends exactly the buffer, failure a proper prefix of it. Nothing becomes durable. |
| Journal.BenchmarkJournal | emu/qemu/benchmark-hostfs-native.c:210-273 | Unless a call fails, every batch size leaves the prepared records in order, durable and accepted by the checker, with one barrier at the end of each batch; whatever happens, the file holds the first of the records and those up to the last barrier are durable. |
| GroupCommitSteps.InitialInv | emu/qemu/benchmark-hostfs-native.c:381-434 | The state before the barrier satisfies the protocol invariant, for every number of operations and threads; the quotas add up to the operations. |
| GroupCommitSteps.StepKeeps | emu/qemu/benchmark-hostfs-native.c:285-449 | Every step of every thread, spurious wakeups included, keeps all nine clauses of the invariant: threads, mutex, lists, membership, walks, numbers, commits, wakeups and totals. |
| GroupCommitSteps.ProducerKeeps | emu/qemu/benchmark-hostfs-native.c:343-379 | Every producer step keeps the invariant: taking a number, filling, locking, linking at the tail, signalling, checking, waiting and unlocking. |
| GroupCommitSteps.CommitterKeeps | emu/qemu/benchmark-hostfs-native.c:285-341 | Every committer step keeps it: waiting, detaching, copying unlocked, writing, synchronising, publishing, marking and broadcasting. |
| GroupCommitSteps.MainKeeps | emu/qemu/benchmark-hostfs-native.c:429-445 | Every step of the main thread keeps it: the barrier, the joins and the shutdown under the mutex. |
| GroupCommitSteps.PushLists | emu/qemu/benchmark-hostfs-native.c:359-364 | Appending a node at the tail leaves a NULL-terminated acyclic list with tail as its last node, and does not touch the detached one. |
| GroupCommitSteps.CollectWalk | emu/qemu/benchmark-hostfs-native.c:313-321 | The unlocked walk is always at the next detached node, its batch is the records of the nodes passed, and it never meets the overflow exit. |
| GroupCommitSteps.WriteNumbers | emu/qemu/benchmark-hostfs-native.c:322-323 | After the write every number handed out is in the journal exactly once or still held by the one producer it was given to. |
| GroupCommitSteps.MarkMembers | emu/qemu/benchmark-hostfs-native.c:333-335 | While requests are marked, exactly the nodes the walk has passed are committed, and a marked producer is off both lists when the walk ends. |
| GroupCommitRuns.RunInv | emu/qemu/benchmark-hostfs-native.c:285-449 | The invariant holds in every state of every interleaving of any number of producers with the committer and the main thread. |
| GroupCommitRuns.RunsNeverDangle | emu/qemu/benchmark-hostfs-native.c:306-364 | In every reachable state each pointer the next step may follow leads to a node whose producer has not returned: what head and tail lead to is submitted, and what the committer's detached list leads to belongs to a producer at or in its wait. |
| GroupCommitRuns.AnsweredRecord | emu/qemu/benchmark-hostfs-native.c:350-376 | From its filling until it has left its wait loop, a producer's node carries exactly the record of its number. |
| GroupCommitRuns.AnsweredIsDurable | emu/qemu/benchmark-hostfs-native.c:322-376 | A producer leaves its wait loop only when the bytes in its own node, those it filled in, are a whole record of the synchronised part of the journal. |
| GroupCommitRuns.MutualExclusion | emu/qemu/benchmark-hostfs-native.c:285-445 | No two threads are inside the mutex at once: producers, committer or main thread. |
| GroupCommitRuns.DetachedListIsPrivate | emu/qemu/benchmark-hostfs-native.c:313-321 | While the committer walks the detached list without the mutex, no step of another thread changes a link or a record it still reads. |
| GroupCommitRuns.BatchNeverOverflows | emu/qemu/benchmark-hostfs-native.c:313-317 | A batch never exceeds the thread count, so the overflow exit is never taken; nor is the exit for a wrong number of operations. |
| GroupCommitRuns.FinishedLog | emu/qemu/benchmark-hostfs-native.c:430-449 | Once every producer is done the journal holds each number below operations exactly once and the queue is empty. |
| GroupCommitRuns.FinishedJournal | emu/qemu/benchmark-hostfs-native.c:430-456 | A run that reaches the last join leaves a synchronised journal that the checker accepts; the batch sizes, one for each commit and none above the largest, add up to the operations, and ceil(operations / threads) <= commits <= operations. |
| GroupCommitRuns.HolderMoves | emu/qemu/benchmark-hostfs-native.c:285-449 | Whoever holds the mutex can step. |
| GroupCommitRuns.SomeThreadMoves | emu/qemu/benchmark-hostfs-native.c:294-445 | No deadlock and no lost wakeup: until the run is over some thread has a step that is not a spurious wakeup. |
| GroupCommitRuns.StepDescends | emu/qemu/benchmark-hostfs-native.c:285-449 | Every step other than a spurious wakeup lowers a well-founded measure. |
| GroupCommitRuns.RunReachesEnd | emu/qemu/benchmark-hostfs-native.c:285-449 | So a run without spurious wakeups, shutdown included, reaches its end. |
| PngFilter.NearestIsPaeth | tools/aicon.py:421-424 | Choosing by the smallest (distance, position) pair is the Paeth predictor of section 6.6 of RFC 2083 with its tie order, for all 256 cubed neighbours. |
| PngFilter.Predict | tools/aicon.py:408-426 | The value added to a byte is the predictor of its filter type; other types are refused. |
| PngFilter.UnfilterLine | tools/aicon.py:407-426 | The loop over a scanline, writing where it reads, leaves the scanline whose filtering gives the bytes it started from; an undefined filter and a line that is too short are each reported exactly when there is one. |
| PngFilter.UndoneByteReconstructs | tools/aicon.py:403-427 | Rows that filter back to a stream are, byte by byte, what the standard's decoder computes from it. |
| PngFilter.Unfilter | tools/aicon.py:403-427 | Every byte of every row is the stored byte plus, by its row's filter type, nothing, the byte `channels` to the left, the one above, their halved sum, or the first nearest of three, all modulo 256 and with zeros outside the picture; the rows filter back to the stream. A bad filter type or a truncated stream is reported exactly when there is one, and a last unfiltered row that ends in its last pixel is returned as it is. |
| PngFilter.FilteredInjective | tools/aicon.py:407-426 | A filtered scanline determines the scanline, given the one above. |
| PngFilter.StreamInjective | tools/aicon.py:403-427 | A filtered stream determines its rows and their filter types. |
| PngFilter.DecodeInvertsEncode | tools/aicon.py:403-427 | For every image and every choice of filter per scanline, the only rows that undo the encoded stream are the image itself. |
| ColorReduction.MeanIsBest | tools/aicon.py:543-545 | The rounded weighted mean is a best integer for a channel: no integer has a smaller weighted sum of squares. |
| ColorReduction.MeanServesBest | tools/aicon.py:543-546 | So the rounded mean colour serves a group at least as well as any other colour. |
| ColorReduction.MovedSettles | tools/aicon.py:543-546 | After a round each channel of a centre is its group's weighted mean rounded half to even, so no whole colour serves the group better; a centre nothing is nearest to stays. |
| ColorReduction.GroupHolds | tools/aicon.py:538-542 | Every colour is in the group of its nearest centre, the first of several, as often as it is listed, and in no other. |
| ColorReduction.RoundNeverWorsens | tools/aicon.py:537-547 | No round of k-means raises the use-weighted squared distance to the nearest centre, rounding and empty groups included. |
| ColorReduction.RoundsImprove | tools/aicon.py:537-547 | Nor does any number of rounds. |
| ColorReduction.RoundsRange | tools/aicon.py:537-547 | Every channel of every centre stays in the range of the picture. |
| ColorReduction.LessIsTupleOrder | tools/aicon.py:535 | Colours are ordered as tuples are, by the first channel in which they differ. |
| ColorReduction.RankSorts | tools/aicon.py:535 | The items are permuted into falling use, ties by colour. |
| ColorReduction.ListingUnique | tools/aicon.py:535 | There is one listing of the items by falling use and then colour. |
| ColorReduction.LeadingAreMostUsed | tools/aicon.py:535-536 | The seeds are colours of the picture, each ahead of those after it by use and then by colour, and all ahead of every colour left out; one is left out only when the limit is reached. |
| ColorReduction.SortedSet | tools/aicon.py:548 | The palette is strictly sorted and holds exactly the centres. |
| ColorReduction.ReduceColors | tools/aicon.py:531-548 | The palette is where sixteen rounds, each centre settling on the rounded mean of the colours nearest to it, bring the first `limit` colours of the listing by use; it has at most `limit` colours, strictly sorted and in the picture's range, and serves the picture no worse than those colours. It fails only for a picture and no colours allowed. |
| ColorReduction.PaletteQuality | tools/aicon.py:531-548 | After any number of rounds the palette has at most the allowed colours, strictly sorted and in range, and serves the picture no worse than its most used colours would. |
| Paths.PathTextMeans | tools/astra_release.py:21-27 | A path is accepted exactly when none of its parts between slashes is empty, `.` or `..`. |
| Paths.AboveMeans | tools/astra_release.py:87-92 | The directories above a path are what stands before one of its slashes. |
| ReleaseManifest.RelativePathMeans | tools/astra_release.py:21-27 | A name is accepted exactly when it is not the manifest's and no part between its slashes is empty, `.` or `..`; a single `.` passes too. |
| ReleaseManifest.BelowMeans | tools/astra_release.py:82 | Names are ordered as strings are: a proper prefix comes first, else the first differing character decides. |
| ReleaseManifest.IdentityMeans | tools/astra_release.py:70-75 | A digest field is 64 lower-case hexadecimal digits. |
| ReleaseManifest.LinesEnd | tools/astra_release.py:64 | Put together with their ends, each one separator or a carriage return with its line feed, the lines are the text again; no line has a separator in it, and only a last line may have no end. |
| ReleaseManifest.RecordMeans | tools/astra_release.py:131-134 | A record is the digest, x or -, and the name, two spaces apart. |
| ReleaseManifest.ParseRecord | tools/astra_release.py:70-136 | A manifest record reads back as the digest, mode and name it was written from, whatever spaces the name holds. |
| ReleaseManifest.RecordOfParsed | tools/astra_release.py:70-77 | A line that parses is the record of what it parses to. |
| ReleaseManifest.ParseText | tools/astra_release.py:64-137 | A manifest of one-line names splits and parses back to its entries. |
| ReleaseManifest.ReadEntries | tools/astra_release.py:62-77 | The loop over lines returns the entries, exactly when every byte is below 128 and every line is a record. |
| ReleaseManifest.ExpectedDirectories | tools/astra_release.py:87-92 | Climbing from every name collects exactly the directories above the names. |
| ReleaseManifest.CheckFiles | tools/astra_release.py:95-101 | The digest and mode checks pass exactly when every entry records its file. |
| ReleaseManifest.Verify | tools/astra_release.py:59-104 | A release is accepted if and only if its files, directories, bytes and executable bits are exactly those of its manifest (and nothing is writable, when installed); the identity is the manifest digest. |
| ReleaseManifest.IdentityNamesTree | tools/astra_release.py:59-104 | Two accepted trees of one identity have the same paths, directories and bytes and, but for the manifest itself, the same executable bits, or their contents exhibit a digest collision. |
| ReleaseManifest.ManifestModeIsFree | tools/astra_release.py:59-104 | The manifest's own executable bit is the exception: with either value the tree is accepted under the same identity. |
| ReleaseManifest.SortOrders | tools/astra_release.py:127 | The artifacts are put in strictly increasing name order. |
| ReleaseManifest.NameOrderUnique | tools/astra_release.py:127 | Only one order of the artifacts has increasing names, so in whatever order they are given the manifest is the same. |
| ReleaseManifest.DirectoriesMade | tools/astra_release.py:128-129 | Making the directories of a path succeeds exactly when no file is in the way, and adds exactly the missing ones. |
| ReleaseManifest.Create | tools/astra_release.py:107-144 | A release is created if and only if the names are valid, distinct, ASCII, on one line, without NUL, and neither a name nor the manifest is needed as a directory; it holds exactly the artifacts, its manifest is their records in name order, and it verifies. |
| ReleaseManifest.BelowManifestRefused | tools/astra_release.py:21-137 | Valid, unique and prefix-free names are not enough: every path below artifacts.sha256 passes the path check, and no list with one can be released. |
| ReleaseManifest.IdentityNamesArtifacts | tools/astra_release.py:59-144 | Releases of one identity were created from the same artifacts, or the digest collides on their contents. |
| ReleaseStore.ExactIgnoresModes | tools/astra_release.py:147-157 | Taking write permission away leaves a verified tree verified under the same identity. |
| ReleaseStore.RetainedMeans | tools/astra_release.py:217-232 | A release is retained exactly when current, previous or a link in by-boot names it. |
| ReleaseStore.AllSoundMeans | tools/astra_release.py:217-232 | The selectors are sound exactly when each of current, previous and the links in by-boot that is a link leads to an installed release. |
| ReleaseStore.Store.Harden | tools/astra_release.py:147-157 | One mode at a time, write permission goes from every file, directory and the root; a crash in between changes neither bytes nor executable bits. |
| ReleaseStore.Store.VerifyRelease | tools/astra_release.py:200-208 | A name passes exactly when it is an identity whose release is installed and verifies as it. |
| ReleaseStore.Store.Select | tools/astra_release.py:255-278 | A selector is replaced whole by a link to a verified release, or stays as it was with at most a temporary link left beside it; without a crash it succeeds exactly when the release is sound and nothing blocks the links. |
| ReleaseStore.Store.Deposit | tools/astra_release.py:160-180 | The staged tree is moved in and made read-only; no other entry changes; it succeeds exactly when the stage verifies and its name is free or already that release, and a refusal changes nothing. |
| ReleaseStore.Store.Activate | tools/astra_release.py:182-196 | The old current becomes previous before the new one becomes current: a crash leaves one of the three states in between, and a selector is never missing. |
| ReleaseStore.Store.Install | tools/astra_release.py:160-197 | Safety survives a crash at any step; a completed activation of B over A leaves current = B and previous = A, and without a crash an install succeeds exactly when its stage and the selectors allow it. |
| ReleaseStore.Store.SelectedIdentity | tools/astra_release.py:200-208 | A selector that is no link selects nothing; a link is accepted exactly when it names a sound release. |
| ReleaseStore.Store.PruneReleases | tools/astra_release.py:233-240 | Exactly the releases not retained are removed; an entry that is no release stops it; retained ones and all state are untouched throughout. |
| ReleaseStore.Store.PruneStates | tools/astra_release.py:241-251 | Exactly the unretained generations are removed; other names in state are untouched. |
| ReleaseStore.Store.Prune | tools/astra_release.py:217-252 | Never, even half way, is a selected release, its state or a name that is no identity removed; completed, exactly those are left, and the counts are right. |
| ReleaseStore.Store.Execute | tools/astra_release.py:160-278 | One command by its own process: one that cannot die installs, selects or prunes exactly what it should whenever nothing stands in its way, and otherwise changes nothing it should not. |
| ReleaseStore.InterruptedInstallBlocks | tools/astra_release.py:160-180 | With the stage moved into the store but not yet read-only throughout, the same stage is refused, exactly until everything is read-only, and accepted again once that directory is gone. |
| ReleaseStore.OneWritableFileBlocks | tools/astra_release.py:147-180 | One file still writable is enough, whichever it is and whichever files were made read-only before it. |
| ReleaseStore.Store.Run | tools/astra_release.py:160-278 | Over any sequence of installs, selections and prunes, each by a process of its own that may die before any change, every selector that is a link names an installed release that verifies as it, and no selector once set is ever missing; what dead processes leave behind never blocks another process, and a command whose process lives does what it is for. |
| ReleaseStore.ReadyActivates | tools/astra_release.py:182-196 | A process that nothing blocks can activate any release of a store whose selectors are sound. |
| ShadowRelease.RewrittenIsExact | emu/qemu/dev-install-de25.py:248-262 | A tree with some files replaced verifies under a manifest whose records of just those files are replaced. |
| ShadowRelease.Rewrite | emu/qemu/dev-install-de25.py:245-248 | The new manifest is the old lines with the new record of each replaced file. |
| ShadowRelease.Disk.InstallFile | emu/qemu/dev-install-de25.py:201-227 | The artifact becomes a new read-only inode renamed over the target; no inode that was there changes. |
| ShadowRelease.Disk.Overlay | emu/qemu/dev-install-de25.py:239-244 | After any list of replacements each name leads to its last artifact and every other name to the source release's own inode. |
| ShadowRelease.Disk.ShadowRelease | emu/qemu/dev-install-de25.py:230-265 | From a release that verifies, for an identity that was free: the result verifies as it and stays read-only, differs only in the listed files and the manifest, and no inode of the source changes, although it started as hard links. Under an identity that was taken nothing changes, and it names a release if and only if it did; then that is the same release as the shadow, or the digest collides. It fails exactly for an unlisted name or a wrong digest. |
| ShadowRelease.Disk.Install | emu/qemu/dev-install-de25.py:363-400 | One install returns the identity of the shadow its updates make, exactly if they can be made; the link follows exactly if the activation gets that far, and an uninterrupted pruning after it leaves the selected shadow alone. |
| ShadowRelease.Disk.Run | emu/qemu/dev-install-de25.py:230-400 | Over any sequence of development installs, wherever each stops and with prunings that may be interrupted at any entry, every identity returned is that of the shadow of its source at the time, the link leads to the last one activated, and the identity names, until a later pruning, the release that has it or what an interrupted pruning left of that; without an interruption always the release itself, and so is what the next shadow is made from; no inode changes. Only the activation of such remains ends the sequence early. |
| ShadowRelease.Disk.PruneShadows | emu/qemu/dev-install-de25.py:353-360 | Nothing goes while nothing is selected; else all shadows but the selected one, or, interrupted, some of them and some entries of others. |
| ShadowRelease.RemainsAreDamaged | tools/astra_release.py:83-94 | What an interrupted removal leaves of a release never verifies. |
| ShadowRelease.LossIsDamage | tools/astra_release.py:83-94 | A release without some of its entries does not verify. |
| ShadowRelease.Disk.LossGoesUnseen | emu/qemu/dev-install-de25.py:260-265 | On any disk, after any entry of a shadow just made is lost, the same updates return its identity all the same, and it names no release. |
| ShadowRelease.DamagedExample | emu/qemu/dev-install-de25.py:230-265 | Such a run exists, from a release of one file. |
| GuestTree.Volume.RemoveFile | emu/qemu/dev-install-de25.py:173-198 | The target goes, and with it exactly those directories above it, short of the first level, in which nothing else is left. |
| GuestTree.InstalledExactly | emu/qemu/dev-install-de25.py:151-227 | A file can be put in place exactly when every path above it that is taken is a directory and nothing but a file stands there; the missing directories are made and nothing else changes. |
| GuestTree.InstallThenRemove | emu/qemu/dev-install-de25.py:151-227 | A file put in place and taken away leaves the tree as it was if and only if its first directory was there and every deeper one that was there held something else. |
| TraceRing.KernelSlot | sw/kernel/trace.c:162-174 | The bytes of a kernel event's slot: number, time, event, flags and arguments, each big-endian at its offset. |
| TraceRing.UserSlot | sw/kernel/trace.h:179-190 | The bytes of a user event's slot: number, time, type 0xE000, flags, process, message, activity, thread and payload length. |
| TraceRing.PayloadSlot | sw/kernel/trace.h:192-196 | The bytes of a payload slot: number, 0xE001, zero, the payload, and zeros. |
| TraceRing.ClaimOf | tools/trace_decode.py:115-136 | Position finds a payload slot for exactly the surviving events that have one. |
| TraceRing.PairedIsClaimed | tools/trace_decode.py:150-152 | Every payload slot whose event survives is left out of the records. |
| TraceRing.ClaimedIsPaired | tools/trace_decode.py:150-154 | And nothing else is. |
| TraceRing.RecordsInOrder | tools/trace_decode.py:139-156 | The decoder lists exactly the standing records of the ring, in the order they were written. |
| TraceRing.ReadRecords | tools/trace_decode.py:139-156 | The loop over slots, the filter and the sort compute that list. |
| TraceRing.ReportTime | tools/trace_decode.py:159-178 | Whatever a slot holds, the report's number is its first four bytes, and its time has the next four above the 32-bit boundary and the four after them below. |
| TraceRing.UserReadsBack | tools/trace_decode.py:159-171 | A user event decodes to its own fields and payload. |
| TraceRing.KernelReadsBack | tools/trace_decode.py:174-178 | A kernel event decodes to its own fields and is not taken for a user event. |
| TraceRing.Decode | tools/trace_decode.py:233-241 | The decoding loop reports every record, with the number and the time in its slot's bytes. |
| TraceRing.DecodeInvertsWrite | tools/trace_decode.py:115-241 | Decoding gives exactly the surviving events in emission order, each with its own payload, if and only if the oldest surviving slot is not an orphaned payload. |
| TraceRing.DecodeTells | tools/trace_decode.py:115-241 | So the reports say, field by field and time included, what each event whose first slot is among the last `capacity` writes was, in order and nothing more, under the same condition. |
| TraceRing.TraceWriter.WriteSlot | sw/kernel/trace.c:158-182 | One slot is filled at the write index with the next number, and the index steps on round the ring; the ring then holds one more write. |
| TraceRing.TraceWriter.WriteKernel | sw/kernel/trace.c:136-184 | A kernel event is one write; event zero is refused. |
| TraceRing.TraceWriter.WriteUser | sw/kernel/trace.c:409-478 | A user event is one write, or two when it has a payload; an invalid one is refused and nothing is written. |
| TraceRing.DumpDecodes | tools/trace_decode.py:115-241 | So after any sequence of such writes a dump of the ring tells the surviving events, under the same condition. |
| TraceReader.SequenceIsCyclic | tools/measure-terminal-text.py:255-257 | The number of a write is the number of writes before it, counted round a cycle that skips zero. |
| TraceReader.SequenceTells | tools/measure-terminal-text.py:260-279 | Fewer than 2^32 - 1 writes apart, different writes have different numbers. |
| TraceReader.ReadTells | tools/measure-terminal-text.py:268-272 | A slot carries the expected number exactly when it still holds the expected write. |
| TraceReader.RefilledTells | sw/kernel/trace.c:165-179 | A slot that is being refilled never shows the number it had: a reader that still wants that write sees that it is lost. |
| TraceReader.MatchMeans | tools/measure-terminal-text.py:275-277 | A slot matches by its bytes 12 to 13 and 20 to 23, and its time is its bytes 4 to 7 above the 32-bit boundary and 8 to 11 below. |
| TraceReader.UserEventMatches | tools/measure-terminal-text.py:275-277 | The slot of a user event matches its own message and no other, and gives the event's time. |
| TraceReader.KernelEventMatches | tools/measure-terminal-text.py:275-277 | The slot of a kernel event matches exactly when it has a user event's type and the message as its second argument. |
| TraceReader.PayloadMatches | tools/measure-terminal-text.py:275-277 | A payload slot is taken for a user event exactly when the payload holds 0xE000 in bytes 4 and 5 and the message in bytes 12 to 15. |
| TraceReader.Scan | tools/measure-terminal-text.py:267-281 | One poll reports the first match it comes to, a loss, or no match up to the header's position, while the machine writes on between reads and may be in the middle of a slot. |
| TraceReader.WaitReady | tools/measure-terminal-text.py:260-283 | It returns the time of the first match at or after the prior position, or reports that a write it had still to read was overwritten or being overwritten, or times out after all its polls with no match up to the position the last header gave; it never skips one and never takes an earlier one. |
| BundleDeletion.AtLeastIsNotOlder | sw/userspace/system/src/bundle.c:46-52 | A version is at least another exactly when it is not less in the first of the three numbers that differs. |
| BundleDeletion.SatisfiesExactly | sw/userspace/system/src/bundle.c:54-61 | A library satisfies a requirement exactly when name and ABI are the same and it is not older. |
| BundleDeletion.SelectPrivate | sw/userspace/system/src/bundle.c:63-81 | The private provider selected is the newest of its name and ABI that the bundle ships. |
| BundleDeletion.ScanFinds | tools/bundle_tool.c:316-353 | A scan succeeds exactly when every root can be read, and then finds exactly the bundles some root lists. |
| BundleDeletion.ScanInOrder | tools/bundle_tool.c:316-353 | The bundles of a root come in its own order, each as often as it is listed, between those of the roots before and after it. |
| BundleDeletion.ScanRoots | tools/bundle_tool.c:316-353 | The loop over the roots computes the scan. |
| BundleDeletion.HasAlternative | tools/bundle_tool.c:386-401 | Another Kit supplies the requirement exactly when some scanned Kit that is not the target, under any alias, does. |
| BundleDeletion.ConsumerBlocks | tools/bundle_tool.c:368-411 | A bundle blocks the deletion exactly when it depends on the target and on nothing else for some requirement. |
| BundleDeletion.HasDependents | tools/bundle_tool.c:355-416 | For a Kit the answer is cannot exactly when a root cannot be read, and needed exactly when something some root lists, other than the target, requires a library that the target offers, ships none of that name and ABI itself, and finds it in no other listed Kit; else, and for an application, free. |
| BundleDeletion.FreeDeletionIsSafe | tools/bundle_tool.c:355-416 | From a set whose requirements are met, a permitted deletion leaves one whose requirements are met. |
| BundleDeletion.BlockedDeletionBreaks | tools/bundle_tool.c:355-416 | A refused one would have left a requirement unmet. |
| BundleDeletion.RefusedExactlyWhenBreaking | tools/bundle_tool.c:355-468 | So deletion is refused exactly when it would break a remaining bundle, even when roots alias the same bundle. |
| BundleDeletion.ScanAfterRemoval | tools/bundle_tool.c:316-469 | Scanning again after a deletion finds the same bundles without the target, under every alias. |
| BundleDeletion.DeletionOutcome | tools/bundle_tool.c:355-468 | From roots in which everything is met, what a removal leaves in them is all met exactly when nothing listed needs the target. |
| BundleDeletion.Installation.Delete | tools/bundle_tool.c:458-470 | The delete command refuses a Kit exactly when a root cannot be read or something listed needs it, and nothing else; else every root keeps its other bundles, and the target goes if its files go far enough. Where everything listed was met it stays so, and it is refused exactly when its going would leave a requirement unmet. |
| BundleDeletion.DeletionsStaySafe | tools/bundle_tool.c:458-470 | Over any sequence of deletions every requirement stays met and no bundle but the targets goes. |
| VolumeTree.RunIsPointwise | emu/qemu/astra_image.py:380-454 | A list of changes none of which is refused acts on every path by itself. |
| VolumeTree.AcceptedExactly | emu/qemu/astra_image.py:380-454 | A list of changes is accepted exactly when each fits what those before it leave at its own path and the directory above: kinds that agree, a place to put it, and names without slashes, line breaks or NUL. |
| VolumeTree.EffectTwice | emu/qemu/astra_image.py:948-1100 | What such a list does to a path, done twice, is what it does once. |
| VolumeTree.RunTwice | emu/qemu/astra_image.py:948-1100 | A tidy list that was accepted is accepted again on its own result and changes nothing. |
| Volume.MountedVolume.ClearDirectory | emu/qemu/astra_image.py:440-451 | The recursion removes exactly what lies below the directory, and is refused exactly when some entry there has an unsafe name. |
| Volume.MountedVolume.MakeDirectory | emu/qemu/astra_image.py:410-417 | A directory is made, or found, or refused when something else is there. |
| Volume.MountedVolume.Replace | emu/qemu/astra_image.py:699-961 | A file is written where nothing or a file was; what is a directory is refused. |
| Volume.MountedVolume.Seed | emu/qemu/astra_image.py:1066-1092 | A default is written only where nothing is. |
| PublicationPlan.PartsDisjoint | emu/qemu/astra_image.py:948-1100 | Each top-level tree is changed by its own part only, nothing written is cleared later, and files are only added where a clear went before. |
| PublicationPlan.OnlyOwnPart | emu/qemu/astra_image.py:948-1100 | What a publication does at or below a top-level name is what that name's part does. |
| SystemImage.DecidedIsOwned | emu/qemu/astra_image.py:948-1100 | Only the catalog, `commands`, `services`, `libs`, `apps`, `startup`, `fonts/system` and `media/startup.pcm` can be overwritten or cleared. |
| SystemImage.KeptByPublication | emu/qemu/astra_image.py:948-1100 | Everything that was there and is not the release's own is there afterwards, with its metadata. |
| SystemImage.UserKept | emu/qemu/astra_image.py:1053-1098 | Every node at or below `config`, `home`, `local` and `fonts/installed` is untouched. |
| SystemImage.EmptyVolumeAccepts | emu/qemu/astra_image.py:948-1100 | A publication without any optional product is accepted on an empty volume. |
| ImageContents.PartIntends | emu/qemu/astra_image.py:948-1100 | The requests made for each of the eleven top-level names are for exactly the files, defaults and directories that Published lists for it without any requests. |
| ImageContents.FilesPlaced | emu/qemu/astra_image.py:948-1051 | Every product file - catalog, command, service, font, sound, Kit, application, runtime tree, provider index, startup manifest - is at its path with its bytes, the last listed if several are, whatever was there before. |
| ImageContents.DirectoriesPlaced | emu/qemu/astra_image.py:958-1098 | Every directory the products, the configuration scopes, the defaults and the user's trees need is there. |
| ImageContents.NothingElseAppears | emu/qemu/astra_image.py:948-1100 | Whatever is there afterwards and was not before is a listed file, default or directory. |
| ImageContents.ClearedTreesExactly | emu/qemu/astra_image.py:958-1051 | Below commands, services, libs, apps and startup the files are exactly the listed files and the directories exactly the listed directories: nothing of an older release is left. |
| ImageContents.DefaultsSeeded | emu/qemu/astra_image.py:1059-1092 | Every default of config and home is there afterwards: as it was if something was there, else with the bytes of the default listed first, or as a directory another default needs; under config it is always a file. |
| SystemImage.PublishTwice | emu/qemu/astra_image.py:895-1101 | Publishing the same products again changes nothing. |
| Publisher.Installation.InstallBundle | emu/qemu/astra_image.py:699-716 | A bundle's directory is made, emptied and filled in walk order; a symbolic link refuses. |
| Publisher.Installation.SeedDefaults | emu/qemu/astra_image.py:1059-1092 | The directories of each default are made first, then the default is offered. |
| Publisher.Installation.InstallBuilt | emu/qemu/astra_image.py:948-1100 | The requests made one after another are exactly the plan, and are refused exactly where the plan is. |
| Publisher.Slice | emu/qemu/astra_image.py:350-359 | Block by block, exactly the partition's bytes, up to the end of the file, are read. |
| Publisher.Splice | emu/qemu/astra_image.py:362-369 | Block by block, exactly these bytes are written over the image from the offset on. |
| Publisher.ImageFile.Install | emu/qemu/astra_image.py:948-1101 | All or nothing: it succeeds exactly when the partition reads as a tree, the plan is accepted on it and what comes of it can be written there; then no byte outside the partition changes and its tree is what the plan makes of the old one, and otherwise the image stays byte for byte as it was. |
| HostRing.WindowTest | emu/qemu/benchmark-host-channel-raw.c:128-130 | In 32-bit arithmetic the one comparison rejects exactly the positions outside the outstanding window, from any starting position. |
| HostRing.PowerOfTwoTest | emu/qemu/benchmark-host-channel-raw.c:125-150 | A positive capacity has no bit in common with its predecessor if and only if it is a power of two. |
| HostRing.MaskIsRemainder | emu/qemu/benchmark-host-channel-raw.c:132-133 | Masking a position is its remainder by the capacity. |
| HostRing.SlotsDistinct | emu/qemu/benchmark-host-channel-raw.c:131-133 | Masked slots of positions less than the capacity apart are distinct, from any starting position. |
| HostRing.CheckStatuses | emu/qemu/benchmark-host-channel-raw.c:131-138 | Statuses are checked one by one in ring order, up to the first that is not as expected. |
| HostRing.Refill | emu/qemu/benchmark-host-channel-raw.c:139-149 | The producer fills the window to its capacity or the last iteration, never beyond. |
| HostRing.Run | emu/qemu/benchmark-host-channel-raw.c:121-150 | Whatever the host answers, at most capacity commands are outstanding; the statuses checked are those of commands 0, 1, 2 and so on, each at its number modulo the capacity, and on a pass there is one for each iteration; each failure is reported exactly when it happens. |
| Hotplug.Discover | emu/qemu/astra-input-hotplug.py:85-131 | The loops over patterns, slots and candidates compute the allocation. |
| Hotplug.FirstOfEach | emu/qemu/astra-input-hotplug.py:85-102 | The keyboard is the first device found among the keyboard paths and the pointer the first among the pointer paths, each if there is one. |
| Hotplug.SlotsHoldLeaders | emu/qemu/astra-input-hotplug.py:103-131 | Every slot holds a listed device that is the first with its number, and such a device is left out only when all four slots are taken. |
| Hotplug.NewcomersInOrder | emu/qemu/astra-input-hotplug.py:123-131 | A gamepad on a slot it was not attached to took the lowest free one: below it there is no gap, and every device found before it is on a slot of its own as before or on a lower one. |
| Hotplug.NumbersNotShared | emu/qemu/astra-input-hotplug.py:103-131 | No device number is in two gamepad slots. |
| Hotplug.DiscoverIsStable | emu/qemu/astra-input-hotplug.py:85-131 | Discovering again with what was discovered changes nothing. |
| Hotplug.SlotKeptExactlyWhen | emu/qemu/astra-input-hotplug.py:103-122 | A path keeps its slot if and only if no path listed before it has its device number. |
| Hotplug.PresentPathCanLoseItsSlot | emu/qemu/astra-input-hotplug.py:103-122 | A path that is still present can lose its slot: an alias that sorts first with the same device number takes it. |
| Hotplug.DiscoveredInPlace | emu/qemu/astra-input-hotplug.py:115-122 | A path that is attached and discovered again is discovered on the slot it is attached to. |
| Hotplug.MixedOnce | emu/qemu/astra-input-hotplug.py:115-165 | However far a reconciliation gets, no path ends up attached to two slots. |
| Hotplug.Controller.ReconcileRole | emu/qemu/astra-input-hotplug.py:137-165 | One role is sent, in this order and up to the first rejection, the removal of what it has and the addition of what it should have, and nothing if they are the same; attached stays equal to what QEMU holds. |
| Hotplug.Controller.Reconcile | emu/qemu/astra-input-hotplug.py:134-165 | Under any pattern of rejections attached equals the objects QEMU holds; every role that differs is sent its commands up to its first rejection, whatever happened to other roles, and no other role any; a pass without rejection ends with attached = desired. |
| Hotplug.Controller.Synchronize | emu/qemu/astra-input-hotplug.py:168-179 | Nothing is sent when nothing differs or QEMU cannot be reached. |
| Hotplug.Controller.RunPasses | emu/qemu/astra-input-hotplug.py:227-247 | Over any number of passes attached equals what QEMU holds; in each pass every attached gamepad keeps its slot if and only if its path leads, only roles that differ are commanded, each role ends as it was, absent or as wanted, and a pass that connects and meets no rejection reaches the desired devices; such a last pass leaves nothing attached. |

## Left out

- Failing calls of the group-commit benchmark: `fail()` ends the process, so it only cuts a run short.
- Partial writes inside the group-commit state machine: there a write is one step; `Journal.WriteAll` models the retries. The byte order is little-endian and sizes are 64 bits.
- The pthread barrier is one joint step of all its threads.
- GroupCommitRuns.RunReachesEnd: assumes no spurious wakeups from some point on, since infinitely many of them can keep any run going.
- Journal.BenchmarkJournal: the records it is given are those of all operations in order; the loop that prepares them calls `FillRecord` once for each and is left out.
- PNG chunks, zlib inflation and the conversion of scanlines to pixels.
- ColorReduction.ReduceColors: means are exact rationals rounded half to even, where the program divides floating-point numbers first.
- ReleaseManifest.Verify: every refusal is one outcome, without its message; a manifest that is a symbolic link is refused at once, where the program refuses it one check later.
- ReleaseManifest.Create: the NAME=SOURCE syntax of the command line, file-name length limits, and the temporary directory's removal.
- ReleaseStore.Store.Install: ownership changes, the check that stage and store share a file system, and other processes working on the store at the same time.
- ReleaseStore.Store.Select: selectors other than current, previous and one name below by-boot.
- ShadowRelease.Disk.Run: a sequence is followed until what an interrupted pruning left of a shadow has been activated.
- ShadowRelease.Disk.ShadowRelease: requires the selected release to verify; a corrupt manifest makes the program fail or build on it unchecked.
- Validation of the development mapping, services, mounting and systemd units around the shadow release.
- TraceRing.DecodeInvertsWrite: holds for numbers that do not wrap, time stamps whose upper half is not 0xE001 in its high 16 bits, kernel events other than 0xE000, and a ring that was cleared before its first write. The staging queue of the kernel and the rendering of records are left out.
- TraceReader.WaitReady: one read of a header or a slot is a single step, the deadline is a number of polls, the capacity does not change, and an invalid header is left out.
- BundleDeletion.HasDependents: paths that cannot be resolved or are too long, and the validation that skips unreadable bundles; what fails to validate is simply not in the scan.
- BundleDeletion.Installation.Delete: whether the removal of the files gets far enough for the bundle to be gone is an input.
- Publisher.Installation.Do: a debugfs request that cannot be carried out is refused, as the program intends; one with a line break or NUL in a path counts as such.
- Volume.MountedVolume.Replace: the requests to remove and write a file are one; the program does not quote their names, so a name with a space reads as two there and is one here; a directory where the file should go is refused here and left to debugfs there.
- Publisher.ImageFile.Install: e2fsck, debugfs and tune2fs are one faithful reading and writing of the partition; the provider index is given as files; the builds and policy checks before the first change are left out.
- SystemImage.PublishTwice: products whose bundle names repeat, or a Kit named without `.kit`, which the inventories refuse.
- HostRing.Run: the host may answer anything; how often it may stand still is a bound. The device configuration before the loop is left out.
- Hotplug.Controller.Reconcile: a rejected command has not been executed; connections, time-outs and the reading of sysfs are left out.
- Input pointers and keyboards share `Discover` with the gamepads; image_icon, wad_icon and the other strike builders are not modelled.
- Fixed-field record parsers, symbol checkers, MBR selection and grant checks.
