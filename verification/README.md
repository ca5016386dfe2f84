# MarFS: crash-safe migration, handles and quotas, proved in Dafny

This project models the parts of MarFS whose correctness depends on more than one call, and proves
what they promise over every run.

* **Emergency rebuild migration** (`src/dal/emergency_rebuild.c`). A target's data was rebuilt into a
  rebuild directory behind a symlink; the consumer `reb_cons` copies it to a `.tmp` directory, removes
  the symlink, renames the copy over it and deletes the rebuild directory and its parent.
  `Migration` is the protocol as a state machine whose steps are system calls, with a crash or an
  I/O error possible at every step; the two stats whose failure the code tolerates may fail as well. A
  history is any sequence of steps. `Consumers` puts any number of targets, with shared parent
  directories that paths are looked up through and that consumers remove, under any interleaving.
  `Duplicates` lets a second consumer loose on the same target. `RebCons` is the program itself: a
  class whose fields are the directories and whose methods, loops and early returns follow `reb_cons`;
  its `Valid()` says that the calls made so far form a history of the state machine, so the theorems
  hold between any two calls.
* **Location numbering, rank split and specification parser** of the same tool: `Locations`,
  `LocationSpec`.
* **Directory handle** (`src/api/marfs.c`): subspaces spliced in front of an MDAL stream, with the phase
  kept in a bit of the location word. `DirHandle` proves that the handle is a
  cursor over one listing, call by call and for whole scripts of calls.
* **File handle** (`src/api/marfs.c`): `FileHandle` accounts for every MDAL handle and namespace
  reference over whole sessions, and says what failed calls leave of the handle and what errno tells of
  it; `FileApi` is the field-updating form of the calls, with these promises call by call.
* **Quota figures** of `marfs_statvfs` against the checks of `marfs_creat`: `Quota`.
* **Fault lists** of the fuzzing DAL (`src/dal/fuzzing_dal.c`): `Fuzzing`.

`Common` and `Text` hold shared helpers. `dafny verify dfyconfig.toml` checks everything.

## Assumptions

* The data files in a rebuild directory do not change once the migration starts (the consumer takes
  write permission away first), `readdir` returns each name once in some order, positive writes make
  progress, and a write that completed persists (the code ignores what `close` returns and never syncs).
* In `Migration`, `Consumers` and `RebCons` one consumer at a time works on a target. The rank split gives
  this exactly for duplicate-free lists (`NumbersOnceIffDuplicateFree`); `Duplicates` shows what happens otherwise.
* A consumer reads and deletes files through descriptors and looks up paths only to open the directories
  and to remove the rebuild directory and its parent; these are the steps a parent can block.
* Each call on a directory or file handle is atomic.
* Integers are unbounded. The C code is undefined where a parsed number, `n_tgt` or a fuzz entry
  overflows an `int`; nothing is claimed there.
* An MDAL or datastream call that fails leaves its own state unchanged, or, for datastreams, destroys
  the stream, sets the reference to NULL and errno to EBADFD, which is reserved for this, as their headers
  say (`src/datastream/datastream.h:108-114`). The MDAL's `readdir` leaves errno
  alone at the end of a directory (`src/mdal/posix_mdal.c:2252-2261`).

## Where code and documentation part

The model follows the code. These points are proved, each with the exact condition:

* `emergency_rebuild.c:268` exits unconditionally: as committed the tool never migrates
  (`CommittedNeverMigrates`). All other migration results are about the protocol without that line.
* The header comment says the rename overwrites the symlink, so that data stays accessible. The code
  unlinks first: data is unavailable exactly while the path is missing, and every migration passes
  through such a state (`AvailableUnlessMissing`, `EveryMigrationIsUnavailableOnce`).
* A consumer that returns 0 need not have migrated a target for good: the delete loop takes any failing
  stat for "not migrated". It leaves one data file behind for each (`Consume`), any set of them
  can be left (`SuccessMayLeave`), and the state is final exactly if none failed.
* Lists may repeat a location, which gives a target two consumers; then each of its data files can be
  lost to one I/O error (`TwoConsumersLoseData`).
* `marfs_readdir` promises errno unset at the end; it is ENOENT exactly when that call passed missing
  subspaces (`Handle.Readdir`, `EndCanReportEnoent`).
* `marfs_read` alone keeps the MDAL handle of a destroyed stream, which is then closed again
  (`EveryHandleClosedOnce`).
* A failed call is documented to leave the handle as it was, or to report EBADFD of a lost one. The first
  half fails exactly for `marfs_read` (`FailurePreservesOrKills`), the second also for `marfs_creat` when
  it has closed a meta-only handle and cannot duplicate the namespace reference (`LossIsReported`).
* Two failing branches of `marfs_open` lose, or doubly destroy, a namespace reference
  (`EveryRefDestroyedOnce`).
* All calls are documented to fail on a flushed handle; some report success (`DeadReply`,
  `DeadReadSucceeds`).
* A location entry such as "-59" or "3-1-5" is accepted (`AcceptedWellFormedIff`), lists are neither
  sorted nor freed of duplicates (`MaxLocIsBoundIff`, `NumbersOnceIffDuplicateFree`, with accepted
  texts in `AcceptedListsExceedMaxLoc` and `AcceptedListsRepeat`).
* The pseudo-block -1 of `verify` and `cleanup` matches the terminator of a fault list (`Faults`).
* `marfs_statvfs` takes a failed usage read for zero usage, and an absent inode quota for no free
  inodes (`FreeBlocksAgree`, `FreeInodesAgree`).

## Model

| member | source | states |
|---|---|---|
| RebuildFiles.IsSfxIsFirstOccurrence | src/dal/emergency_rebuild.c:139-146 | the suffix test holds iff the name ends with the suffix and the suffix occurs nowhere earlier |
| RebuildFiles.DataNames | src/dal/emergency_rebuild.c:385-387 | which names are migrated, on the text: no leading dot, and neither ".partial" nor ".rebuild" at the end unless it also occurs earlier |
| Migration.StepKeepsInv | src/dal/emergency_rebuild.c:371-617 | every system call, I/O error and crash, and every step taken because a stat of a copy failed, keeps the protocol invariant: copies are prefixes of their sources, a missing path has a complete copy, a directory is complete and the rebuild directory only shrinks |
| Migration.NoDataLoss | src/dal/emergency_rebuild.c:371-587 | after any history of crashes, errors, tolerated stat failures and retries each data file exists, whole and with its time, in the rebuild directory, the real directory, or the completed temporary directory while the real path is missing; hidden files are never touched |
| Migration.ClassificationSound | src/dal/emergency_rebuild.c:1251-1272 | in every reachable state the kind of the real path alone tells how much was done: missing means the temporary directory is exactly the data files, a directory means the rename happened |
| Migration.SkipIsSound | src/dal/emergency_rebuild.c:402-409 | in every reachable state a copy passes the same-size, same-time test iff it is identical to its source |
| Migration.TimeAloneIsUnsound | src/dal/emergency_rebuild.c:402-409 | a crash can leave a cut-short copy with its source's time, so the size comparison is needed |
| Migration.FinishedCopiesSurvive | src/dal/emergency_rebuild.c:301-409 | in every reachable state a whole copy outlasts every continuation, crashes, I/O errors and restarts included, in which its stat does not fail, as long as the path is a link, iff it is not open for writing |
| Migration.EachFileCopiedOnce | src/dal/emergency_rebuild.c:301-483 | over any history a file whose copy can always be checked is copied to the end at most once, however often the migration is restarted |
| Migration.AvailableUnlessMissing | src/dal/emergency_rebuild.c:94-103 | in every reachable state a user sees a data file unchanged under the real path iff that path exists |
| Migration.EveryMigrationIsUnavailableOnce | src/dal/emergency_rebuild.c:497-517 | every history that puts the real directory in place passes a state where the path is missing, and a crash there keeps it so |
| Migration.RankDrops | src/dal/emergency_rebuild.c:383-617 | every step of a pass that is not cut short, tolerated stat failures included, brings the consumer closer to the end |
| Migration.Progress | src/dal/emergency_rebuild.c:211-617 | a consumer that is not done always has a step that succeeds |
| Migration.RecoveryConverges | src/dal/emergency_rebuild.c:1251-1272 | restarted after any history and not cut short again, the tool stops within a bound linear in files and bytes, with exactly the data files in the real directory and, in the rebuild directory, the hidden files and just those data files whose stat failed in the delete loop of this pass; final iff none did |
| Migration.PassCanComplete | src/dal/emergency_rebuild.c:497-617 | from every state satisfying the invariant some error-free pass ends with nothing left but hidden files and the data files it had passed over before |
| Migration.PassKeeps | src/dal/emergency_rebuild.c:529-541 | what any pass passes over in the delete loop is exactly the data files whose stat failed |
| Migration.PassIsBounded | src/dal/emergency_rebuild.c:211-617 | no pass is longer than its bound, however stats fail |
| Migration.LeftDiskIsFinalIff | src/dal/emergency_rebuild.c:569-587 | what a pass leaves is the final state iff it passed over no data file |
| Migration.SuccessMayLeave | src/dal/emergency_rebuild.c:538-541 | for every set of data files there is a successful pass that leaves exactly those behind |
| Migration.FinalDiskIsStable | src/dal/emergency_rebuild.c:223-617 | once final, no further passes, interrupted or not, change the disk |
| Migration.CommittedNeverMigrates | src/dal/emergency_rebuild.c:262-268 | histories of the program as committed leave the disk as prepared |
| Consumers.TargetSeesOwnHistory | src/dal/emergency_rebuild.c:1235-1332 | under any interleaving a target evolves by its own consumer's steps alone |
| Consumers.UpdateKeepsParentInv | src/dal/emergency_rebuild.c:589-611 | a parent still there has a rebuild directory in it or a consumer yet to try removing it; a removed parent had none |
| Consumers.ParentNeverBlocks | src/dal/emergency_rebuild.c:569-612 | while the parent invariant holds, opening and removing a rebuild directory and removing its parent succeed, or fail in a way the code tolerates, whenever they would for a consumer alone |
| Consumers.NoConsumerIsDisturbed | src/dal/emergency_rebuild.c:569-617 | in every reachable system state no lookup through a shared parent fails and no removal of a parent meets an errno other than those tolerated: a consumer can take exactly the steps it could take alone, an error-free one until it is done, and no step of another consumer changes that |
| Consumers.ParentGoneWhenAllDone | src/dal/emergency_rebuild.c:569-617 | when all consumers under a parent are done, it is gone iff none of its rebuild directories holds hidden files or data files whose stat failed in its last pass, and each target is as that pass leaves it |
| Consumers.SystemNoDataLoss | src/dal/emergency_rebuild.c:371-587 | no data file of any target is lost in any interleaved history, tolerated stat failures included |
| Consumers.SystemConverges | src/dal/emergency_rebuild.c:569-617 | restarted after any history, the consumers together stop within the sum of the single bounds under any interleaving; each target is then as its own pass alone leaves it, and a parent remains iff something is left under it |
| Consumers.SysRunIsBounded | src/dal/emergency_rebuild.c:1235-1332 | any interleaving of uninterrupted consumers is no longer than the sum of what they still have to do |
| Duplicates.TwoConsumersLoseData | src/dal/emergency_rebuild.c:418-443 | with a location listed twice, for every target and every data file in it there is a run in which the first consumer succeeds and one I/O error of the second loses the file altogether |
| Duplicates.SecondRestores | src/dal/emergency_rebuild.c:434-482 | without that error the second consumer restores the file from the source it holds open, and the state is final |
| RebCons.TargetStore.ValidIsSafe | src/dal/emergency_rebuild.c:165-617 | between any two calls of the program the invariant holds and no data file is lost |
| RebCons.TargetStore.WriteAll | src/dal/emergency_rebuild.c:436-452 | the inner loop appends the whole buffer however short the writes are; an error leaves no copy |
| RebCons.TargetStore.CopyData | src/dal/emergency_rebuild.c:434-466 | the outer loop makes the copy's bytes equal to the source's for any chunking of reads; an error leaves no copy |
| RebCons.TargetStore.CopyFile | src/dal/emergency_rebuild.c:411-483 | unless a call fails the copy equals its source, contents and time, also when an earlier copy could not be checked; if one fails the consumer has returned, and no part of a copy is left from this attempt |
| RebCons.TargetStore.CopyAll | src/dal/emergency_rebuild.c:380-495 | the copy loop visits every name and is a run of the protocol; a failing stat of a copy makes it copy again and is no fault |
| RebCons.TargetStore.DeleteEntry | src/dal/emergency_rebuild.c:538-553 | a name is left iff it is hidden or is a data file whose stat failed; no other name is touched |
| RebCons.TargetStore.DeleteAll | src/dal/emergency_rebuild.c:529-564 | the delete loop visits every name and is a run of the protocol; it leaves as many data files as stats of copies failed |
| RebCons.TargetStore.Migrate | src/dal/emergency_rebuild.c:371-587 | returns 0 iff no call failed other than stats of copies; then the rebuild directory is gone, or as many data files are left as stats failed in the delete loop |
| RebCons.TargetStore.Consume | src/dal/emergency_rebuild.c:165-617 | returns 0 iff no call failed other than stats of copies; then all data files are in the real directory, one file is left behind for each stat that failed in the delete loop, and the state is final iff none did; finished copies from earlier runs are kept unless a stat of a copy fails |
| RebCons.TargetStore.Pass | src/dal/emergency_rebuild.c:1251-1272 | one run of the tool from any reachable state: the same, and a final state is never left; so are finished copies while the path is a link, unless a stat of a copy fails |
| RebCons.TargetStore.Retry | src/dal/emergency_rebuild.c:1235-1272 | repeated runs report success within one more run than there are faults; the state is then final iff no stat failed in the last delete loop |
| RebCons.TargetStore.RetryUntilFinal | src/dal/emergency_rebuild.c:1235-1272 | runs repeated until one neither fails nor leaves a data file reach the final state within one more run than there are failing calls |
| Locations.FillLoc | src/dal/emergency_rebuild.c:639-654 | the division loop selects by the mixed-radix digits of the number |
| Locations.MapLocOfNumber | src/dal/emergency_rebuild.c:639-654 | the number built from four list indices maps to the location at those indices |
| Locations.MapLocOnto | src/dal/emergency_rebuild.c:639-654 | every combination of the four lists has a number below their product |
| Locations.MapLocOneToOne | src/dal/emergency_rebuild.c:639-654 | with duplicate-free lists different numbers give different locations |
| Locations.NumberingIsLexicographic | src/dal/emergency_rebuild.c:647-653 | locations are numbered in lexicographic order, scatters fastest and pods slowest |
| Locations.RanksPartition | src/dal/emergency_rebuild.c:1191-1237 | for any number of ranks each number belongs to the interval of exactly one rank |
| Locations.RanksShareEvenly | src/dal/emergency_rebuild.c:1191-1234 | every rank gets the same number of locations and the last one the remainder as well, which is less than the number of ranks |
| Locations.RankWork | src/dal/emergency_rebuild.c:1226-1239 | a rank hands out exactly the locations of its interval, in order |
| Locations.EachLocationVisitedOnce | src/dal/emergency_rebuild.c:1191-1239 | each location of a duplicate-free target is visited by exactly one rank in exactly one iteration |
| Locations.NumbersOnceIffDuplicateFree | src/dal/emergency_rebuild.c:639-654 | locations are numbered once iff no list repeats a value |
| Locations.MaxLocBounds | src/dal/emergency_rebuild.c:46-47 | for ascending lists the last elements bound every location of target and distribution |
| Locations.MaxLocIsBoundIff | src/dal/emergency_rebuild.c:1068-1071 | in general they do iff, field by field, no value exceeds both last elements |
| LocationSpec.AddRange | src/dal/emergency_rebuild.c:658-679 | appends exactly the range, or fails on an invalid range or a full buffer |
| LocationSpec.ParseField | src/dal/emergency_rebuild.c:730-782 | accepts a field iff every comma-separated entry is accepted and all values fit, and then holds exactly these values in order |
| LocationSpec.GenerateLocs | src/dal/emergency_rebuild.c:682-790 | null iff the text does not spell four fields "p…/b…/c…/s…" with acceptable values, else exactly the lists of those fields |
| LocationSpec.DenotesIff | src/dal/emergency_rebuild.c:690-729 | the exact acceptance law: a text denotes four lists iff it is "p" p "/b" b "/c" c "/s" d, without slashes in p, b and c, and the four parts have those values; a wrong or missing letter or field is refused |
| LocationSpec.FinishIsFieldValues | src/dal/emergency_rebuild.c:742-777 | the one-pass parse agrees with splitting at commas first |
| LocationSpec.AcceptedIsUsable | src/dal/emergency_rebuild.c:775-785 | every success has four nonempty, in-bounds, nonnegative lists |
| LocationSpec.SpecRoundTrip | src/dal/emergency_rebuild.c:682-790 | printing singles and ascending ranges and parsing them gives back exactly the flattened lists |
| LocationSpec.AcceptedListsExceedMaxLoc | src/dal/emergency_rebuild.c:682-790 | every text "p0/b0/c0/sx,y" with x above y is accepted and its maximum is exceeded |
| LocationSpec.AcceptedListsRepeat | src/dal/emergency_rebuild.c:682-790 | every text "p0/b0/c0/sx,x" is accepted and hands a location out twice |
| LocationSpec.WellFormedMeaning | src/dal/emergency_rebuild.c:744-770 | a number means itself, "lo-hi" means the range iff it ascends |
| LocationSpec.LeadingDashAccepted | src/dal/emergency_rebuild.c:752-767 | "-59" is accepted as 5 to 9 |
| LocationSpec.RepeatedDashAccepted | src/dal/emergency_rebuild.c:752-767 | "3-1-5" is accepted as 3 to 5 |
| LocationSpec.AcceptedWellFormedIff | src/dal/emergency_rebuild.c:744-770 | an accepted entry has one of the two forms iff it has at most one dash and does not start with it |
| DirHandle.SetThenClear | src/api/marfs.c:1706-1755 | setting the offset bit on a value that has it clear is visible and undone by stripping it |
| DirHandle.TellsOneCursor | src/api/marfs.c:1700-1724 | a location value identifies one position of the listing |
| DirHandle.Handle.ReadSubspaces | src/api/marfs.c:1584-1639 | lists existing subspaces in order, skips missing ones, and never stores the invalid marker |
| DirHandle.Handle.ReadMdal | src/api/marfs.c:1648-1664 | lists unfiltered MDAL entries; a failing call moves past filtered entries only |
| DirHandle.Handle.Readdir | src/api/marfs.c:1565-1665 | returns the next name of the one listing and moves on by one, or NULL and stays; without faults NULL means the end or a name too long, with errno ENOENT at the end iff missing subspaces were passed |
| DirHandle.Handle.Telldir | src/api/marfs.c:1675-1725 | answers a value that identifies the current place, or -1, without faults iff the MDAL value collides with the bit or with the error value; the value is a subspace index, the MDAL value with the bit added at the root of a namespace with subspaces, and the bare MDAL value elsewhere |
| DirHandle.Handle.Seekdir | src/api/marfs.c:1734-1774 | for any value told earlier, whatever happened since: success restores the position, failure moves nothing |
| DirHandle.Handle.Rewinddir | src/api/marfs.c:1787-1811 | success leaves the handle as freshly opened, failure moves nothing |
| DirHandle.Handle.constructor | src/api/marfs.c:1511-1542 | a fresh handle is at the start of the listing |
| DirHandle.Handle.LocationIsIndexOrBit | src/api/marfs.c:1616-1645 | after any calls the stored location is a subspace index or exactly the bit, never the invalid marker, whatever the MDAL tells; below the root of a namespace, or without subspaces, it stays 0 |
| DirHandle.ListingByDepth | src/api/marfs.c:1584-1657 | below the root of a namespace the listing is all entries and no subspaces; at the root it is the existing subspaces, then the entries that are not reserved |
| DirHandle.List | src/api/marfs.c:1565-1665 | reading a fresh handle to the end without faults yields exactly that, iff every subspace name fits the dirent, and a prefix otherwise |
| DirHandle.ReadAll | src/api/marfs.h:333-340 | repeated reading yields the rest of the listing, in order, nothing twice, up to a failing call or a name too long to return |
| DirHandle.ReadTwice | src/api/marfs.h:342-373 | reading again after seeking to a told value repeats the same names, and they are the rest of the listing up to a name too long to return |
| DirHandle.Script | src/api/marfs.c:1565-1811 | for any sequence of calls on a fresh handle with any failing MDAL calls, the answers replay on a plain cursor over the listing; told values always lead back to where they were told, and without faults nothing fails but telling an unrepresentable value; the location stored after each call is a subspace index or the bit |
| DirHandle.EndCanReportEnoent | src/api/marfs.c:1582-1607 | a handle at the end of its listing where errno is left at ENOENT |
| FileHandle.StepKeepsHandlesSound | src/api/marfs.c:2163-2207 | every call but a fatal read keeps pointers and MDAL handle accounts in agreement |
| FileHandle.EveryHandleClosedOnce | src/api/marfs.c:2486-2590 | a session that gives its handle up closes each owned MDAL handle once, none a stream owned, and leaves no stream, iff no read destroyed its stream |
| FileHandle.FatalReadClosesTwice | src/api/marfs.c:2757-2764 | open, a read that loses the stream, close: the MDAL handle is closed twice |
| FileHandle.DeadIsAbsorbing | src/api/marfs.c:2154-2162 | any calls but close and release leave a dead handle, and all accounts, unchanged |
| FileHandle.DeadReply | src/api/marfs.c:2766-2970 | which calls report success on a dead handle, exactly |
| FileHandle.DeadReadSucceeds | src/api/marfs.c:2766-2784 | after create and flush, read, seek and truncate report success where direct reads are on |
| FileHandle.LiveReply | src/api/marfs.c:2056-3144 | on a live handle every call reports success iff it is not refused for its arguments, permissions or kind of handle and every call it makes on the layers below succeeds |
| FileHandle.NoHandleReply | src/api/marfs.c:2134-2212 | without a handle create and open succeed iff the layers below do, and every other call fails |
| FileHandle.EinvalMeans | src/api/marfs.c:2154-2162 | errno is EINVAL iff there is no handle, or a dead one given to create, open or close, or no data stream where one is needed |
| FileHandle.EpermMeans | src/api/marfs.c:2746-2771 | errno is EPERM iff a permission is missing, a meta-only handle is written to, or direct reads are off |
| FileHandle.EbadfdElsewhere | src/api/marfs.c:2189-2199 | without a live handle errno is EBADFD iff a create or open without a handle lost its stream |
| FileHandle.FailurePreservesOrKills | src/api/marfs.c:2050-2054 | after any session a failed call leaves the handle as it was or dead, iff it is not a read that destroyed its stream |
| FileHandle.LossIsReported | src/api/marfs.c:2050-2054 | after any session a failed call on a live handle reports EBADFD exactly when it lost the handle, iff it is neither such a read nor a creat that closed a meta-only handle and could not duplicate the namespace reference |
| FileHandle.LossWithoutEbadfd | src/api/marfs.c:2178-2186 | a meta-only open, then such a creat: the handle is dead and errno is not EBADFD |
| FileHandle.StepKeepsRefsSound | src/api/marfs.c:2178-2208 | every call but a spoiling open keeps the handle's namespace reference the only live one |
| FileHandle.EveryRefDestroyedOnce | src/api/marfs.c:2502-2588 | a session that gives its handle up destroys each duplicated reference once iff no open failed in one of the two spoiling ways |
| FileHandle.FailedOpensSpoil | src/api/marfs.c:2394-2456 | the smallest session for each of the two ways |
| FileApi.Api.Creat | src/api/marfs.c:2134-2212 | success puts the handle on a data stream and its current file; failure leaves a handle passed in as it was or dead, and EBADFD tells which iff the namespace reference was not what failed after a meta-only handle was closed; accounts as the step function says; succeeds iff every call below does |
| FileApi.Api.OpenMeta | src/api/marfs.c:2372-2409 | success makes the handle a meta-only reference with an MDAL handle of its own; failure leaves it as it was or dead, and EBADFD tells which; accounts as the step function says; succeeds iff every call below does |
| FileApi.Api.OpenData | src/api/marfs.c:2410-2470 | success puts the handle on a data stream, or on the preserved MDAL handle of a file without data; failure leaves it as it was or dead, and EBADFD tells which; accounts as the step function says; succeeds iff every call below does, a preserved MDAL handle making up for the stream |
| FileApi.Api.FallBack | src/api/marfs.c:2417-2448 | releasing the stream and adopting a preserved MDAL handle, or closing it if the release fails, leaves the accounts as the step function says |
| FileApi.Api.Read | src/api/marfs.c:2755-2784 | changes nothing unless it destroys the stream; then EBADFD is reported of a handle that is neither as it was nor dead but keeps the MDAL handle of the stream that is gone; on a stream it succeeds iff the permission is there and the stream call succeeds |
| FileApi.Api.DataCall | src/api/marfs.c:2797-3144 | write, seek and extend leave the handle alone on success, and as it was or dead on failure, where EBADFD tells which; on a stream they succeed iff the permission is there and the stream call succeeds |
| FileApi.Api.ReadAt | src/api/marfs.c:2915-2993 | seek then read, with the same promise; a seek that stops short of the offset is success with nothing read; on a stream it succeeds iff the permission is there and the calls made do |
| FileApi.Api.Do | src/api/marfs.c:2056-3144 | any call that fails and keeps the handle leaves it as it was or dead, iff it is not a read that destroyed its stream; on a live handle it succeeds iff every call it makes below does |
| FileApi.Api.Flush | src/api/marfs.c:2621-2645 | whatever it reports, the handle is dead afterwards and keeps its namespace reference; it succeeds iff the handle was dead or the close below succeeds |
| FileApi.Api.GiveUp | src/api/marfs.c:2501-2593 | whatever they report, close and release leave no handle and drop its namespace reference; on a dead handle release succeeds and close fails; on a live one both succeed iff the close or release below does |
| FileApi.Api.OtherCall | src/api/marfs.c:3006-3096 | truncate, chunkbounds and setrecoverypath leave pointers and accounts alone and report what the step function says; on a stream they succeed iff the permission is there and the call below succeeds |
| FileApi.Session | src/api/marfs.c:2056-2593 | any session of calls: both accounts balance at its end, under exactly the two conditions above |
| Quota.StatNs | src/api/marfs.c:1224-1245 | the buffer rewritten step by step holds the block and inode figures the lemmas below are about, for failed usage reads too |
| Quota.UsedBlocks | src/api/marfs.c:1231-1233 | the number of used blocks is the least that covers the usage |
| Quota.FreeBlocksFit | src/api/marfs.c:1239-1240 | reported free blocks fit under the quota on top of the usage |
| Quota.FreeBlocksMaximal | src/api/marfs.c:1239-1240 | no more blocks would fit on top of those in use |
| Quota.BlocksAddUp | src/api/marfs.c:1231-1240 | the block count is the largest that fits the quota, in blocks of the data scheme, and free and used blocks add up to it until it is used up |
| Quota.InodesAddUp | src/api/marfs.c:1242-1245 | free and used inodes add up to the quota until it is used up |
| Quota.UnreadIsUnused | src/api/marfs.c:1224-1245 | a usage that could not be read is reported as none |
| Quota.FreeBlocksAgree | src/api/marfs.c:2117-2133 | free blocks imply creat's data check passes, iff the usage was read or the quota is below a block |
| Quota.FreeInodesAgree | src/api/marfs.c:2100-2116 | free inodes are reported iff creat's inode check passes, iff there is an inode quota and the usage was read |
| Fuzzing.ParseFuzz | src/dal/fuzzing_dal.c:90-161 | accepts iff what precedes the first dash is made of digits, commas and spaces with fewer than twenty comma-terminated numbers; stores -1 for a dash, else exactly the numbers listed, or no list if there are none |
| Fuzzing.DashIsEverything | src/dal/fuzzing_dal.c:104-113 | a string with a dash asks for every block iff what precedes the first dash is acceptable, and is refused otherwise |
| Fuzzing.CheckFuzz | src/dal/fuzzing_dal.c:58-83 | fails iff an entry matches before the list runs out |
| Fuzzing.PassMatchesEntries | src/dal/fuzzing_dal.c:104-146 | the one-pass parse agrees with deleting spaces and splitting at commas, and rejects exactly bad characters and lists with twenty comma-terminated numbers |
| Fuzzing.ParsedIsRequested | src/dal/fuzzing_dal.c:90-161 | an accepted string without a dash yields exactly its comma-separated numbers |
| Fuzzing.EncodedHits | src/dal/fuzzing_dal.c:58-83 | which blocks match a stored list, the full list and block -1 included |
| Fuzzing.Faults | src/dal/fuzzing_dal.c:52-161 | parsing and checking together, for every string and block: accepted by the condition above; then a dash fails every block, and otherwise a block fails iff it is named, and block -1 iff the list is neither empty nor full |

## Left out

- `pathshift`, configuration traversal, datastream internals, the POSIX DAL's paths and hashing, and the thread queue: their outcomes are parameters or arbitrary choices of the model.
- Targets whose hash falls on another rebuild target (never redirected, skipped by `main`), the status file, the prompt, MPI set-up, memory allocation and lock failures, logging, ownership and mode restoration.
- DirHandle.Handle.Valid: assumes no more subspaces than the offset bit's value (2^61, or 2^22 on 32-bit words), so the branch that stores the invalid marker is present but shown unreachable.
- DirHandle.Handle.Readdir: whether a subspace exists does not change while a handle is open.
- FileHandle.DeadReply: where `marfs_read_at_offset` compares an uninitialised offset its result is an arbitrary choice.
- FileHandle.Step: locks are not modelled, in particular the branch of `marfs_creat` that returns with the handle locked.
- LocationSpec.GenerateLocs: does not write terminators into its argument string.
- The `fuzzing_*` wrappers test a list and call the DAL below, and the metadata calls (stat, chmod, rename, link and so on) check a permission and call the MDAL below; what these calls below do is not part of the model. Neither are XML parsing and the ghost-namespace rule of rename and link.
- Duplicates.TwoConsumersLoseData: the second consumer is followed through its copy loop only, and never writes a file at the same time as the first.
- Consumers.NoConsumerIsDisturbed: failures of a parent's lookup or removal for reasons outside the directories (EIO and the like) are the crash step of that consumer.
