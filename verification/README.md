# paper-boxing: a verified model of the storage engine and of the fake backend

paper-boxing keeps static sites: per site a tree of files that nginx serves, an SQLite index of that tree, and a
lock. Uploads are received into a staging area and moved into the tree in one rename. The repository also holds an
in-memory fake backend, which the other components are developed against and which is said to behave identically.

This project states what that machinery does and proves it, for all inputs, all runs and all interleavings:

- **The two backends are identical** (`FakeBackend`, `SiteStore`, `Refinement`, `RealBackend`). Two flat
  dictionaries on one side, a directory tree and an index on the other; every sequence of requests gets the same
  statuses, error codes and bodies. The invariant behind it is that the dictionaries are the view of a tree whose
  index is exact.
- **What requests answer** (`RequestLaws`, `SiteLaws`, `Listings`, `HandMade`, `AccountLaws`). Every answer, with its
  status and code written out, told by what other requests show before it, and what those show after it: for uploads,
  deletions, listings, sites, sign-ins, tokens and accounts; for listings on any disk and with any index; for links and
  devices put on the volume by hand. With the first point it holds of both backends.
- **Concurrency** (`Protocol`, `ProtocolSafety`, `ProtocolOrder`, `ProtocolTheorems`, `ProtocolFailures`,
  `ProtocolWitness`). A request is a task that is interleaved with others at its awaits, can fail or be cancelled, and
  can meet a failure inside the lock. Each run is, site by site, a run of the fake in lock order; what is served is
  always whole; staging holds exactly what is in progress; a deleted site stays gone; each failure inside the lock is
  followed to what it leaves and to the listing or the repeated request that repairs it.
- **The lock table** (`Locks`, `LockRuns`, `SiteLocks`). A task keeps the entry object it was handed while others come
  and go; in every interleaving that object is still the table's, and one task is in its block.
- **The index as a cache** (`FileIndex`). Listings repair any index; its totals are those of a recursive walk.
- **Code that changes state in place** (`Volume`, `FakeSiteClass`, `AccountsClass`, `SiteLocks`). The classes, their
  loops over chunks, parents, directory entries and rows, proved against the functions of the other modules.
- **Accounts** (`Iso`, `Accounts`, `AccountsAgree`, `AccountsRuns`, `AccountsShown`, `Sessions`). Token rows with
  cascade, revoke-on-expired and purge against a dictionary of flags, over every run and under any clock; when exactly
  a session resolves; text order of stored times.
- **Names, paths, links, sizes, times** (`Naming`, `SlugSigns`, `Paths`, `Ordering`, `Sorting`, `Sums`, `Links`,
  `Base64`, `Base64Exact`, `Calendar`). Told by the alphabets, the RFCs and the calendar, apart from how they are
  computed.

`dafny verify dfyconfig.toml` checks everything.

## What the code does, where its documentation or the reader may expect otherwise

- A second deletion of a site that waited for the lock behind the first answers 204, where the fake would answer 404:
  the row is not looked at again under the lock (`storage.py:257-262`). `ProtocolWitness.SecondDeletionDiffers` is such
  a run; `ProtocolTheorems.AnswersDifferExactly` says that site deletions that find the site gone at their place are
  the only operations answered differently. The state is the fake's all the same.
- If writing the index row fails after the rename, the upload answers 500 and the new file stays in place, whole, with
  no or an old row (`storage.py:393-394`). Every earlier failure leaves the served files as they were. One listing of
  the file's folder then leaves the site as if the upload had succeeded, unless the replaced file had the same size and
  mtime and other bytes (`ProtocolFailures.LateFailureIsRepaired`).
- If deleting the site row fails, the folder has already been parked and stays in staging until the next start. The
  site is still known; the same deletion sent again ends it (`ProtocolFailures.FailedSiteDeletionIsRepeated`).
- If a folder's removal fails, the same request again completes it while the folder is still there. If the folder is
  gone and its index rows are not, the request is answered 404 and the rows stay
  (`ProtocolFailures.FailedRemovalIsRepeated`).
- The fake resolves a bearer sent along with a sign-in (`fake_backend.py:305`, by `:394`) and so moves a live token's
  times; the real sign-in has no authorization dependency (`routes.py:170-180`). The two agree after a sign-in if and
  only if it did not carry the bearer of a live token with a time to move: an agent token not last used at that very
  moment, or a session that does not already end a session length from it (`AccountsRuns.CallsAgree`). Otherwise a
  later reply can tell them apart: for a session, the next request at the earlier of its two ends
  (`AccountsShown.SlidSessionShows`); for an agent token, the list of tokens (`AccountsShown.SlidAgentShows`).
- Sign-ins of that kind aside, the replies of a run differ if and only if some request presents a secret that the fake
  holds live at that moment although an earlier presentation of it, or an earlier restart, met it past its end: the
  clock has run back over the end, the fake takes the session again, the real backend has revoked its row or purged it
  (`accounts.py:232-235`, `db.py:328-335`; `AccountsRuns.AccountsDifferExactly`). `AccountsShown.ClockBackShows` is such
  a run, with a presentation and with a restart. Under a clock that does not run back there is none
  (`AccountsRuns.AccountsIdentical`).
- `SLUG_RE` ends in `$`, so `validate_slug` also takes one trailing newline, and it takes doubled hyphens. No site has
  such a slug, so the answer is 404 either way.

## Model

| member | source | states |
|---|---|---|
| RealBackend.BackendsIdentical | src/paper_boxing/common/fake_backend.py:356-581 | from an empty volume, every sequence of site, file, folder, listing and totals requests, none overlapping, gets the same answers (status, code, body) from the real backend and from the fake |
| RealBackend.RunsAgree | src/paper_boxing/backend/routes.py:190-311 | the same from any two states in which each real site holds what the fake site holds and its index is exact |
| RealBackend.RequestsAgree | src/paper_boxing/backend/routes.py:118-311 | one request of any kind: the same answer, and the two states still hold the same |
| RealBackend.TargetsAgree | src/paper_boxing/backend/routes.py:118-145 | the slug check, the row check and the path check refuse together and yield the same relative path |
| RealBackend.CreationsAgree | src/paper_boxing/backend/storage.py:220-246 | site creation: same 400, 409 or 201 with the same totals, and the new site holds the same (nothing) |
| RealBackend.DeletionsAgree | src/paper_boxing/backend/storage.py:253-268 | after a site deletion both sides still hold the same |
| RealBackend.FileRequestsAgree | src/paper_boxing/backend/storage.py:361-496 | upload, file deletion and folder deletion, with all their refusals, agree |
| RealBackend.PublicSitesAgreeAt | src/paper_boxing/backend/storage.py:248-251 | count and bytes from the index are the fake's count and sum |
| RequestLaws.Uploads | src/paper_boxing/backend/storage.py:361-432 | an upload's answer, every status and code written out, told by the files and folders that downloads and listings show before it: 413 above the cap, 409 on a folder or below a file, 201 for a new file, 200 or 409 for a file there; afterwards they show the new content, the folders above it and all else as before |
| RequestLaws.UploadBetweenDownloads | src/paper_boxing/backend/routes.py:252-272 | a successful upload says 200 and replaced if and only if a download of that path just before answers content, otherwise 201; it carries the body's length and digest; a download just after answers the body |
| RequestLaws.FileDeletions | src/paper_boxing/backend/storage.py:464-475 | 204 for a file, 409 for a folder, 404 otherwise; afterwards exactly that file is shown no more |
| RequestLaws.FolderDeletions | src/paper_boxing/backend/storage.py:477-496 | 409 for a file, 404 for nothing, 409 for a folder with something below unless recursive, otherwise 204; afterwards exactly the folder and what was below it are shown no more |
| RequestLaws.Downloads | src/paper_boxing/backend/storage.py:349-359 | by any spelling of a path: the content, 409 for a folder, 404 otherwise |
| RequestLaws.RefusedFirst | src/paper_boxing/backend/routes.py:118-145 | an unknown site is 404 whatever else is wrong, a path that names nothing is 400 next, and neither changes anything |
| RequestLaws.ReadingChangesNothing | src/paper_boxing/backend/routes.py:190-243 | requests that read change nothing that is shown, though a listing may repair the index |
| RequestLaws.SoundFromTheStart | src/paper_boxing/backend/routes.py:190-311 | the empty volume satisfies what these laws assume, and every request keeps it |
| SiteLaws.Creations | src/paper_boxing/backend/routes.py:197-207 | 400 without a letter or digit in the name, 409 for a slug that is there, otherwise the answer shows the site empty under its slug and name, and so do requests afterwards |
| SiteLaws.SiteDeletions | src/paper_boxing/backend/routes.py:217-231 | without the slug repeated 400 and no change; otherwise 204, and afterwards nothing of the site is shown and all else is |
| SiteLaws.NeverAdopts | src/paper_boxing/backend/storage.py:220-246 | whatever is on the volume: a row of that slug or a node in place of the folder refuses the site with 409 and nothing changes; otherwise it gets an empty folder |
| SiteLaws.ListingsShow | src/paper_boxing/backend/storage.py:272-335 | by any spelling of a path: the subfolders and then the files, each once and by name, a file with the length and digest of its download, a subfolder with the sum of its own listing |
| SiteLaws.ListingsRefuse | src/paper_boxing/backend/storage.py:280-289 | 409 for a file, 404 for nothing |
| SiteLaws.SitesShow | src/paper_boxing/backend/storage.py:248-251 | a site's answer has its name, the number of files that downloads show and the sum of its root's listing |
| SiteLaws.SiteListShows | src/paper_boxing/backend/routes.py:191-195 | every site once, by slug, as the request for that site answers |
| Listings.ListingShows | src/paper_boxing/backend/storage.py:290-335 | whatever the disk and the index: a listing answers with the subfolders and then the regular files of the folder, each once and by name; a file's bytes are its length on disk, and its digest is the file's if and only if no stored row has that length and mtime and another digest |
| HandMade.LinksAreRefused | src/paper_boxing/backend/storage.py:189-213 | a link at a path, above it or in place of the site's folder: reading, listing, uploading and both deletions are refused with 400 and change nothing |
| HandMade.DevicesAreRefused | src/paper_boxing/backend/storage.py:408-432 | a device at a path is refused with 400 in every way; below one nothing can be written |
| HandMade.UploadMakesFolders | src/paper_boxing/backend/storage.py:390-402 | whatever the disk, an accepted upload leaves the file and its row and makes every missing folder above it, the site's own included; all else stays |
| HandMade.MissingFoldersList | src/paper_boxing/backend/storage.py:286-289 | whatever the disk, the root of a site whose folder is gone lists as empty, any other missing folder is 404, and neither changes the index |
| Refinement.WriteTargetsAgree | src/paper_boxing/backend/storage.py:408-432 | the two write-target checks, made in different orders, give the same verdict on every tree of files and folders |
| Refinement.UploadsAgree | src/paper_boxing/backend/storage.py:390-406 | the critical section of an upload gives the fake's answer, creates the same folders, stores the same body, and keeps the index exact |
| Refinement.FileDeletionsAgree | src/paper_boxing/backend/storage.py:464-475 | same answer, same remaining files, index still exact, empty folders left standing |
| Refinement.EmptinessAgrees | src/paper_boxing/backend/storage.py:487-489 | "no first entry" on disk is "no descendant" in the dictionaries |
| Refinement.FolderDeletionsAgree | src/paper_boxing/backend/storage.py:477-496 | same answer; tree, dictionaries and index lose the folder and exactly what is below it |
| Refinement.ReadsAgree | src/paper_boxing/backend/storage.py:349-359 | a download gives the same content, 404 or 409 |
| Refinement.ListingsAgree | src/paper_boxing/backend/storage.py:272-335 | a listing gives the fake's entries in the fake's order, sizes and digests included, and changes no row |
| Refinement.EntriesAgree | src/paper_boxing/common/fake_backend.py:136-141 | the entries of a directory are exactly the fake's children of that folder |
| Refinement.ViewWellFormed | src/paper_boxing/common/fake_backend.py:117-128 | a tree of files and folders gives dictionaries that are disjoint and closed under parents |
| FakeBackend.AddFoldersForAddsAncestors | src/paper_boxing/common/fake_backend.py:130-134 | stopping at the first folder already there still adds exactly the missing ancestors |
| FakeBackend.UploadKeepsWellFormed | src/paper_boxing/common/fake_backend.py:480-502 | an upload keeps files and folders disjoint and every parent a folder |
| FakeBackend.DeletesKeepWellFormed | src/paper_boxing/common/fake_backend.py:543-581 | so do both deletions |
| FakeBackend.HandleKeepsWellFormed | src/paper_boxing/common/fake_backend.py:412-581 | so does every request, for every site, and every site's slug stays a derived slug |
| FakeSiteClass.SiteObject.AddFoldersFor | src/paper_boxing/common/fake_backend.py:130-134 | the loop ends and adds exactly the ancestors of the path |
| FakeSiteClass.SiteObject.CheckWriteTarget | src/paper_boxing/common/fake_backend.py:480-495 | the loop over the parents gives the verdict stated on the set of ancestors |
| FakeSiteClass.SiteObject.Upload | src/paper_boxing/common/fake_backend.py:504-523 | new dictionaries and answer of an upload within the cap |
| FakeSiteClass.SiteObject.DeleteFile | src/paper_boxing/common/fake_backend.py:543-554 | new dictionaries and answer |
| FakeSiteClass.SiteObject.DeleteFolder | src/paper_boxing/common/fake_backend.py:556-581 | removing descendants one by one removes exactly them and the folder |
| ProtocolTheorems.InterleavingsAreSequential | src/paper_boxing/backend/storage.py:220-268 | after every interleaving, wherever a lock is free and no failure struck inside it, the site is the fake's after the operations in lock order; each operation got the fake's answer at its place, a second site deletion aside; no task is in the order twice; every answer is the ordered one, the fake's on arrival, or a give-up |
| ProtocolTheorems.OrderIsRealTime | src/paper_boxing/backend/storage.py:361-496 | the lock order respects time: an operation answered before another arrived comes before it |
| ProtocolOrder.SectionsAgree | src/paper_boxing/backend/storage.py:383-402 | every critical section, on a site in step with the fake, does what the fake's request does, also when the site was deleted meanwhile |
| ProtocolOrder.RemovalEnds | src/paper_boxing/backend/storage.py:495-496 | a removal that went node by node, with listings in between, ends in the state of a removal in one go |
| ProtocolOrder.RefusalInStep | src/paper_boxing/backend/storage.py:378-380 | a refusal before the first await, and a 413 while receiving, is the fake's answer at that moment |
| ProtocolOrder.InStepKept | src/paper_boxing/backend/storage.py:361-496 | every step of every task keeps the real sites in step with the fake |
| ProtocolOrder.AlwaysInStep | src/paper_boxing/backend/storage.py:361-496 | hence every run does |
| ProtocolTheorems.ReadsInStep | src/paper_boxing/backend/routes.py:190-243 | in every run, a read, the list of all sites included, that arrives while no lock on the sites it looks at is held and no failure has struck them gets the fake's answer |
| ProtocolTheorems.AnswersDifferExactly | src/paper_boxing/backend/storage.py:253-268 | in every run, an operation's answer differs from the fake's at its place if and only if it is a site deletion that finds the site gone there; then it is 204 for 404 |
| ProtocolWitness.SecondDeletionDiffers | src/paper_boxing/backend/storage.py:257-262 | a run with two deletions of one site: the second is answered 204 at its place, where the fake answers 404 |
| ProtocolTheorems.ServedFilesAreWhole | src/paper_boxing/backend/storage.py:378-405 | at every step of every interleaving, failures included, a served file is the whole body of one finished upload to that path, never a prefix |
| ProtocolTheorems.FailedUploadLeavesFiles | src/paper_boxing/backend/storage.py:434-454 | an upload that fails, at the cap, in staging, waiting, at a check or in the rename, leaves every served file unchanged |
| ProtocolTheorems.FailedUploadLeavesNoPart | src/paper_boxing/backend/storage.py:403-405 | a failed upload's part file is gone |
| ProtocolFailures.LateFailureIsRepaired | src/paper_boxing/backend/storage.py:393-402 | in every run, when an upload's index row fails to be written the new file is in place whole, and one listing of its folder leaves the site where the fake is after that upload, if and only if no row of a replaced file passes for one of the new file |
| ProtocolFailures.FailedRowDeletionIsRepaired | src/paper_boxing/backend/storage.py:474-475 | in every run, when a deleted file's row fails to go, one listing of its folder leaves the site where the fake is after that deletion |
| ProtocolFailures.FailedRenameLeavesFolders | src/paper_boxing/backend/storage.py:392-393 | in every run, after a failed rename the site has the fake's files, an exact index, and the fake's folders plus just the parents already made |
| ProtocolFailures.RenamesCanFail | src/paper_boxing/backend/storage.py:391-393 | the failures considered include that of a rename before any parent folder was made and that after all missing ones were |
| ProtocolFailures.FailedRemovalIsRepeated | src/paper_boxing/backend/storage.py:489-496 | in every run, when a folder's removal fails half-way or its rows fail to go: while the folder is still there the same request again is answered 204 and leaves the site where the fake is after it; once the folder is gone it is answered 404, and the site is there if and only if no row from below is left |
| ProtocolFailures.FailedSiteDeletionIsRepeated | src/paper_boxing/backend/storage.py:253-263 | in every run, when a site's row fails to go, the site keeps its row and index without a folder, and the same deletion again is admitted, answered 204 and leaves the site where the fake is after it |
| ProtocolFailures.DeletionAlwaysEndsSite | src/paper_boxing/backend/storage.py:253-263 | in every run, failures before it included, a site deletion that gets the lock leaves no row, folder or index, which is where the fake is after it |
| ProtocolFailures.FullVolumeWritesNothing | src/paper_boxing/backend/app.py:107-115 | a step that answers 507 to any task leaves all files, index rows and site rows of all sites as they were, as the message says |
| ProtocolFailures.FailuresAnswer | src/paper_boxing/backend/app.py:107-116 | a failing rename or removal may be answered 507 or 500, a failing row 500 only, and one that is undone either |
| ProtocolFailures.GivenUpAnswers | src/paper_boxing/backend/app.py:107-116 | in every run, what was given up after a failure was answered 500 or 507 |
| FileIndex.ListingCompletesUpload | src/paper_boxing/backend/storage.py:308-319 | listing the folder of a file whose row was not written gives the site of the whole upload, exactly unless the old row has the new size and mtime and another digest |
| FileIndex.ListingCompletesDeletion | src/paper_boxing/backend/storage.py:331-332 | listing the folder of a file whose row did not go drops that row and changes nothing else |
| ProtocolTheorems.FolderImpliesRow | src/paper_boxing/backend/storage.py:220-262 | at every step and under every failure a site folder implies a site row; with the lock free and no failure, row and folder come together |
| ProtocolTheorems.DeletedSiteStaysGone | src/paper_boxing/backend/storage.py:383-389 | from a state where the site is gone, no continuation without a creation of that slug brings its row, folder or index back |
| ProtocolTheorems.StagingIsConserved | src/paper_boxing/backend/storage.py:253-268 | staging holds one parcel per upload between opening and rename or cleanup, with exactly the bytes received, and one parked folder per deletion, heard or cancelled, whose thread still removes it; it is empty when nothing runs and nothing failed |
| ProtocolTheorems.RenameMovesPart | src/paper_boxing/backend/storage.py:392-394 | a successful upload serves exactly the bytes of its part file, which leaves staging in the same step |
| ProtocolFailures.ParkedFolderOnlyShrinks | src/paper_boxing/backend/storage.py:253-268 | in every run: the step that ends a site's serving has its served folder whole in staging; whatever follows, what is there is a part of that folder, until it is gone and the deletion has its answer |
| ProtocolFailures.LeakedForGood | src/paper_boxing/backend/storage.py:260-262 | a folder parked by a deletion whose row then failed to go stays in staging unchanged, whatever follows |
| ProtocolTheorems.RemovalExcludesOthers | src/paper_boxing/backend/storage.py:477-496 | while a folder is being removed no other task's step changes that site's tree |
| ProtocolSafety.SafeKept | src/paper_boxing/backend/storage.py:361-496 | every step keeps lock, staging, served files and rows in order |
| ProtocolSafety.AlwaysSafe | src/paper_boxing/backend/storage.py:361-496 | hence every run does, and a task once answered keeps its answer |
| ProtocolSafety.LockMoveKeeps | src/paper_boxing/backend/storage.py:111-129 | entering, taking and leaving a site's lock keep: inside exactly the waiting and removing tasks, a lock held only over a removal, by one task of that slug |
| ProtocolSafety.StagingMoveKeeps | src/paper_boxing/backend/storage.py:436-454 | taking up, filling, renaming, parking or dropping one parcel keeps staging in order |
| Protocol.FlattenGrows | src/paper_boxing/backend/storage.py:441-448 | what has been received is never more than the body |
| LockRuns.EveryInterleaving | src/paper_boxing/backend/storage.py:111-129 | in every interleaving of entering, taking the lock, releasing it, leaving and giving up a wait: at most one task in its block for a slug; all tasks inside for a slug hold one and the same entry object; a slug has an entry exactly while somebody is inside; whoever leaves finds its own entry in the table |
| LockRuns.StepKeeps | src/paper_boxing/backend/storage.py:117-129 | each step, by whichever task, keeps: shared entries, distinct slugs apart, exact counts, one task in a block |
| LockRuns.EnterShows | src/paper_boxing/backend/storage.py:117-124 | entering is entering of the table the storage engine is modelled with |
| LockRuns.AcquireShows | src/paper_boxing/backend/storage.py:124-125 | an unlocked entry object means that nobody holds the slug's lock in that table |
| LockRuns.LeaveShows | src/paper_boxing/backend/storage.py:124-129 | leaving, after the block or after a cancelled wait, is leaving of that table |
| SiteLocks.SiteLocks.Enter | src/paper_boxing/backend/storage.py:117-124 | a step of that run: a task is handed the slug's one entry object, made if missing |
| SiteLocks.SiteLocks.Acquire | src/paper_boxing/backend/storage.py:124-125 | a step of that run, with the entry object the task was handed when it entered |
| SiteLocks.SiteLocks.Release | src/paper_boxing/backend/storage.py:124-126 | a step of that run: the lock is free, the task still counted |
| SiteLocks.SiteLocks.Drop | src/paper_boxing/backend/storage.py:126-129 | with the entry object handed on entering, the test that the table still holds this very entry never fails; the slug keeps an entry exactly while somebody else is inside |
| SiteLocks.SiteLocks.Leave | src/paper_boxing/backend/storage.py:119-129 | leaving after the block or after a cancelled wait, the test included |
| SiteLocks.SiteLocks.IsLocked | src/paper_boxing/backend/storage.py:131-133 | true exactly while a task holds the slug's lock |
| SiteLocks.SiteLocks.Length | src/paper_boxing/backend/storage.py:135-136 | one entry for each slug with a task inside |
| LockRuns.OfLess | src/paper_boxing/backend/storage.py:127 | one task leaving lowers one slug's count by one and no other's |
| LockRuns.OfMore | src/paper_boxing/backend/storage.py:122 | one task entering raises one slug's count by one and no other's |
| FileIndex.ListingsRepairIndex | src/paper_boxing/backend/storage.py:286-332 | from any index and any disk, listing every existing folder in any order leaves one row for every file in a folder on disk, the right one if and only if the old row did not have the file's size and mtime and another digest; of the old rows only those whose parent folder is not on disk are kept |
| FileIndex.ListAllRepairs | src/paper_boxing/backend/storage.py:290-332 | listing any folders, in any order, of any disk, is repairing the rows in those folders once, and no others |
| FileIndex.ReportedRightly | src/paper_boxing/backend/storage.py:308-319 | the reported row is the file's, digest included, exactly when the stored one was not mistaken for it |
| FileIndex.ListingIsLocalAndSettles | src/paper_boxing/backend/storage.py:290-332 | a listing touches only rows whose parent is the listed folder; repeated on the same disk it hashes, writes and drops nothing |
| FileIndex.ListingWritesOnlyRepairs | src/paper_boxing/backend/storage.py:308-332 | the index changes exactly when a file had no fresh row or a row had no file |
| FileIndex.FoldersCanBeListed | src/paper_boxing/backend/storage.py:280-289 | every folder on disk can be listed, hand-made links and devices elsewhere notwithstanding |
| FileIndex.WalkIsSum | src/paper_boxing/backend/db.py:397-405 | a recursive walk of the tree and the sum over paths below a folder are the same number |
| FileIndex.TotalsAreWalks | src/paper_boxing/backend/db.py:397-405 | with an exact index, a folder's SQL total is what a recursive walk finds |
| FileIndex.SiblingsApart | src/paper_boxing/backend/db.py:172-177 | nothing is below two different entries of one folder, so no byte is counted twice |
| FileIndex.ListingConservesBytes | src/paper_boxing/backend/storage.py:294-335 | the bytes of a listing's entries sum to the folder's own total; for the root, to the site's |
| Volume.Database.InsertSite | src/paper_boxing/backend/db.py:339-347 | a second row for a slug is refused and changes nothing |
| Volume.Database.DeleteSite | src/paper_boxing/backend/db.py:359-363 | the row goes with all its file rows, other sites' rows stay |
| Volume.Database.UpsertFile | src/paper_boxing/backend/db.py:367-374 | one row of one site is set |
| Volume.Database.DeleteFileRow | src/paper_boxing/backend/db.py:376-378 | one row of one site goes |
| Volume.Database.DeleteFilesUnder | src/paper_boxing/backend/db.py:380-384 | exactly the rows below the folder go, and their number is returned |
| Volume.Database.FilesInFolder | src/paper_boxing/backend/db.py:386-395 | the prefix and substring filters yield exactly the rows whose parent is the folder |
| Volume.Database.FolderTotals | src/paper_boxing/backend/db.py:397-405 | count and sum over the rows below the folder |
| Volume.Storage.Stage | src/paper_boxing/backend/storage.py:434-454 | for any chunking: a body within the cap is staged whole with its length and digest, a longer one is 413 and leaves no part file |
| Volume.Storage.CheckWriteTarget | src/paper_boxing/backend/storage.py:408-432 | the climb to the site root, as a loop |
| Volume.Storage.Land | src/paper_boxing/backend/storage.py:382-406 | tree, row and answer of the critical section; the part file is gone in every case; other sites untouched |
| Volume.Storage.WriteFile | src/paper_boxing/backend/storage.py:361-406 | the whole upload: checks before a byte is read, staging, critical section; staging as before |
| Volume.Storage.DeleteFile | src/paper_boxing/backend/storage.py:464-475 | tree, index and answer; other sites untouched |
| Volume.Storage.DeleteFolder | src/paper_boxing/backend/storage.py:477-496 | tree, index and answer; other sites untouched |
| Volume.Storage.CreateSite | src/paper_boxing/backend/storage.py:220-246 | folder and row together, or 409 and nothing; a folder already there is never adopted, and an insert that fails leaves nothing behind |
| Volume.Storage.DeleteSite | src/paper_boxing/backend/storage.py:253-268 | row, index and folder gone, staging as before, other sites untouched |
| Volume.Storage.ReportFile | src/paper_boxing/backend/storage.py:308-319 | a row that agrees in size and mtime is reported, any other is written anew |
| Volume.Storage.Scan | src/paper_boxing/backend/storage.py:291-330 | scanning the entries in any order reports every folder's total and every file's row, subfolder totals undisturbed by rows written on the way |
| Volume.Storage.DropRows | src/paper_boxing/backend/storage.py:331-332 | exactly the stale rows go |
| Volume.Storage.ListFolder | src/paper_boxing/backend/storage.py:272-335 | refusals, reported totals and rows, and the index afterwards |
| Volume.SubfolderTotalStays | src/paper_boxing/backend/storage.py:296-319 | writing rows of a folder's own files leaves its subfolders' totals alone |
| SlugSigns.SlugIsSpelled | src/paper_boxing/common/naming.py:27-40 | told by two alphabets of 36 signs: the slug is the name's maximal runs of letters and digits in small letters, joined by single hyphens, cut to 63 characters and stripped of a trailing hyphen |
| SlugSigns.WordsAreLowered | src/paper_boxing/common/naming.py:36 | every word of 1 to 63 signs, whether spelled in large letters or in small ones, has the same word in small letters for a slug |
| SlugSigns.SlugExists | src/paper_boxing/common/naming.py:36-40 | no slug exists exactly when the name has none of the signs; otherwise it is 1 to 63 small letters, digits and single hyphens, none of these at an end |
| Naming.SlugIdempotent | src/paper_boxing/common/naming.py:27-49 | a slug's slug is itself, and it passes the slug pattern |
| Naming.SlugReExact | src/paper_boxing/common/naming.py:19-49 | the pattern is wider than the derived slugs by exactly a trailing newline and doubled hyphens |
| Naming.StripUnique | src/paper_boxing/common/naming.py:37-38 | stripping yields the one middle part that neither begins nor ends in the stripped character |
| Paths.ValidateSitePathExact | src/paper_boxing/common/naming.py:52-78 | a path is accepted with an answer exactly when the answer is a canonical path (1 to 1024 characters, no backslash, no code below 32, no 127, segments none of which is empty, a dot, two dots or above 255 bytes), or nothing where the root is allowed, and the path is it between slashes |
| Paths.ControlsAreRefused | src/paper_boxing/common/naming.py:24-62 | a path is refused for a forbidden character exactly when it has a backslash or a control character; an accepted one has none |
| Paths.ValidateSitePathErrors | src/paper_boxing/common/naming.py:61-77 | which error: a forbidden character first, then the root, then the length, then what is wrong with the first segment that is not good |
| Paths.Utf8LengthExact | src/paper_boxing/common/naming.py:76 | a character takes the fewest bytes that hold it (section 3 of RFC 3629), and a text what its parts take |
| Paths.ValidatedIsFixed | src/paper_boxing/common/naming.py:52-78 | an answer validates to itself |
| Paths.ExtraSlashesIgnored | src/paper_boxing/common/naming.py:63-67 | leading and trailing slashes never change answer or error |
| Paths.FirstBadSegment | src/paper_boxing/common/naming.py:70-77 | finds nothing exactly when every segment is good |
| Paths.JoinSplit | src/paper_boxing/common/naming.py:70-78 | splitting and joining gives the path back |
| Paths.SplitConcat | src/paper_boxing/common/naming.py:70 | splitting at one slash splits the segments there |
| Paths.CanonicalParent | src/paper_boxing/common/naming.py:81-88 | the parent of a canonical path is canonical or the root, and parent and name rebuild the path |
| Paths.ChildParts | src/paper_boxing/common/naming.py:81-88 | parent and name of an entry of a folder are that folder and that name |
| Paths.BelowStep | src/paper_boxing/common/fake_backend.py:143-148 | a path is below a folder exactly when its parent is the folder or is below it; so `docs2/x` is not below `docs` |
| Paths.AncestorsAreAbove | src/paper_boxing/common/fake_backend.py:130-134 | the folders a climb passes through are exactly those the path is below |
| Paths.SqlBelowExact | src/paper_boxing/backend/db.py:172-177 | `substr(path, 1, n) = prefix` selects exactly the paths below the folder |
| Paths.SqlDirectExact | src/paper_boxing/backend/db.py:386-395 | with `instr(substr(path, start), '/') = 0` exactly the paths whose parent is the folder |
| Sorting.SortedChildren | src/paper_boxing/backend/storage.py:333-334 | sorting a folder's entries by name or by full path gives the same order |
| Ordering.SortedOneWay | src/paper_boxing/common/fake_backend.py:139-140 | under a strict total order a set has one sorted sequence |
| Links.Resolve | src/paper_boxing/backend/storage.py:189-213 | in any tree with symbolic links: refused exactly when the site folder or a component is a link; otherwise the resolved path is the resolved site folder plus the path's own segments, so the containment check after the walk never fails |
| Links.ContainmentAloneAliases | src/paper_boxing/backend/storage.py:199-213 | without the walk the containment check would not do: a link inside a site passes it and gives one file two paths |
| Links.FollowConcat | src/paper_boxing/backend/storage.py:208-210 | resolving a path is resolving its front and then the rest from there, links and dots included |
| Links.FollowPlain | src/paper_boxing/backend/storage.py:200-208 | plain segments without links on the way resolve literally |
| Links.WalkSeesTree | src/paper_boxing/backend/storage.py:199-207 | the walk meets a link exactly where the site's tree has one on the way to the path |
| Links.CanonicalIsPlain | src/paper_boxing/common/naming.py:70-78 | a validated path has no empty or dotted segment |
| Iso.TextOrderIsTimeOrder | src/paper_boxing/backend/db.py:128-129 | comparing the stored ISO 8601 texts, fraction left out when zero, compares the times |
| Iso.InstantsGrow | src/paper_boxing/backend/db.py:328-335 | the calendar order of two times is the order of their microsecond counts, leap years included |
| Calendar.InstantExactly | src/paper_boxing/backend/accounts.py:230-238 | the microsecond count of a time is that of the Gregorian calendar in closed form |
| Calendar.TextExactly | src/paper_boxing/backend/db.py:128-129 | the stored text column by column: four digits of the year to two of the second, six of the fraction where there is one, and the offset |
| Calendar.TimesExactly | src/paper_boxing/backend/db.py:128-133 | which times there are, by the length of each month and the leap years |
| AccountsRuns.AccountsIdentical | src/paper_boxing/common/fake_backend.py:390-662 | from one account, every run of sign-ins, requests and restarts under a clock that does not run back, no sign-in carrying the bearer of a live token with a time to move, gets the same replies from the real tables and from the fake |
| AccountsRuns.AccountsDifferExactly | src/paper_boxing/backend/accounts.py:183-275 | from one account, under any clock, sign-ins of that kind aside: the replies of a run are the same if and only if no request in it presents a secret the fake holds live then although an earlier presentation of it, or an earlier restart, met it past its end |
| AccountsRuns.RunsAgreeExactly | src/paper_boxing/backend/accounts.py:230-238 | the same if and only if from any two states in agreement, given the secrets already met past their end |
| AccountsRuns.CallsAgree | src/paper_boxing/backend/accounts.py:183-275 | each single call, at any time, gets the same reply if and only if it does not present such a revived secret; agreement is then kept if and only if it is not a sign-in sent with the bearer of a live token that has a time to move |
| AccountsRuns.SlidesExactly | src/paper_boxing/common/fake_backend.py:281-296 | that guard on a sign-in is exactly when resolving its bearer leaves the fake with other tokens than the real tables |
| AccountsRuns.RevivedCallsDiffer | src/paper_boxing/backend/accounts.py:230-238 | a revived secret gets 401 from the real backend and from the fake never |
| AccountsRuns.ForwardNeverRevives | src/paper_boxing/backend/accounts.py:230-238 | under a clock that does not run back no request of any run presents a revived secret |
| AccountsShown.ClockBackShows | src/paper_boxing/backend/db.py:328-335 | a sign-in, then a presentation or a restart past the session's end, then a presentation before it: the replies differ |
| AccountsAgree.OwnersAreThere | src/paper_boxing/common/fake_backend.py:585-590 | the fake never lists an agent token, or resolves a caller, without an account |
| AccountsShown.SlidSessionShows | src/paper_boxing/common/fake_backend.py:299-306 | after a sign-in that let a session slide, whichever of its two ends comes first, a request of that session then is refused by one backend and not by the other |
| AccountsShown.SlidAgentShows | src/paper_boxing/common/fake_backend.py:585-590 | after a sign-in that let an agent token slide, whoever signs in next sees another list of tokens from the two |
| AccountsAgree.ResolvesAgree | src/paper_boxing/backend/accounts.py:215-241 | a bearer that is not a revived secret resolves on both sides or on neither, to the same token, touched alike, and the two still agree; revoke-on-expired is invisible |
| AccountsAgree.PurgeAgrees | src/paper_boxing/backend/db.py:328-335 | the purge, which compares texts, keeps the two in agreement once the secrets whose end has come count as met past their end; nothing else is affected |
| AccountsAgree.RemovalsAgree | src/paper_boxing/backend/db.py:252-256 | the cascade's missing rows and the fake's flags refuse the same secrets |
| AccountsAgree.SignOutsAgree | src/paper_boxing/backend/db.py:309-316 | a password change ends the same sessions |
| AccountsAgree.AgentFound | src/paper_boxing/backend/accounts.py:265-271 | the same token ids can be revoked |
| AccountsAgree.AgentListsAgree | src/paper_boxing/backend/db.py:318-326 | the same live agent tokens are listed in the same order, though one side sorts by the stored text of the times and the other by the times |
| AccountsClass.AccountsAreListed | src/paper_boxing/backend/db.py:243-246 | as usernames are unique, the list of accounts holds each account, in strictly increasing order of usernames |
| AccountLaws.CreatedTokenIsListed | src/paper_boxing/backend/accounts.py:248-263 | creating an agent token, then listing: the reply carries the id, name, scope, kind, account and time it was created with and no end; the list holds exactly one entry of that id, the same |
| AccountLaws.TokensAreListed | src/paper_boxing/backend/accounts.py:273-275 | a session lists every live agent token once, oldest first, each with the fields of its row |
| AccountLaws.SessionReplies | src/paper_boxing/backend/routes.py:315-389 | what a session is answered to every action, lists aside, field by field and code by code |
| AccountLaws.AgentReplies | src/paper_boxing/backend/routes.py:88-112 | an agent token is shown itself, may use the routes for all, and gets 403 for the rest |
| AccountLaws.Unauthorized | src/paper_boxing/backend/routes.py:88-92 | a bearer without a row that is taken gets 401 |
| AccountLaws.SignInReplies | src/paper_boxing/backend/routes.py:170-180 | the right password of an account is answered with the secret, its end and that account, a wrong one with 401 |
| AccountLaws.UnknownSignIn | src/paper_boxing/backend/routes.py:170-180 | a username nobody has gets the same 401 and nothing changes |
| AccountLaws.SignInThenSelf | src/paper_boxing/backend/accounts.py:183-206 | a sign-in, then the session asking for itself: its id, its name and scope as a session, its account, and an end that has moved on |
| AccountLaws.CreationShows | src/paper_boxing/backend/accounts.py:248-263 | a created token is in the list and nothing else there changes |
| AccountLaws.RevocationShows | src/paper_boxing/backend/accounts.py:265-271 | a revoked token leaves the list and nothing else there changes |
| AccountLaws.RemovalShows | src/paper_boxing/backend/db.py:252-256 | with an account exactly its tokens leave the list |
| AccountLaws.UseShows | src/paper_boxing/backend/accounts.py:215-241 | a use of an agent token shows as its last use and changes nothing else of the list |
| AccountLaws.OthersShowNothing | src/paper_boxing/backend/routes.py:315-389 | everything else a session does leaves the list as it is |
| AccountLaws.RestartShows | src/paper_boxing/backend/db.py:328-335 | the purge drops exactly the sessions that are revoked or whose end has come, and changes no other row |
| AccountLaws.AccountsListed | src/paper_boxing/backend/db.py:243-246 | a session lists every account once, by username |
| AccountLaws.AccountsAfter | src/paper_boxing/backend/routes.py:353-389 | creating an account adds just that one with its password, deleting one takes just that one, nothing else adds, removes or renames one |
| AccountLaws.SoundFromTheStart | src/paper_boxing/backend/db.py:43-62 | one account without tokens satisfies what these laws assume, and every call keeps it |
| AccountsAgree.ActionsAgree | src/paper_boxing/backend/routes.py:315-389 | every action of a signed-in caller, last-account guard included, gives the same reply and keeps agreement |
| Sessions.SessionResolvesExactly | src/paper_boxing/backend/accounts.py:215-241 | with a clock that runs forward, a session resolves exactly when nothing has signed it out and every gap, from sign-in over its presentations, is strictly below the session length |
| Sessions.SignInStartsSession | src/paper_boxing/backend/accounts.py:183-206 | a sign-in starts such a session at that moment |
| Sessions.RefusedOnceRefusedForever | src/paper_boxing/backend/accounts.py:230-238 | under any clock, a secret refused once is refused after any further calls |
| AccountsClass.PresentationMeans | src/paper_boxing/backend/accounts.py:215-241 | over all tables with their keys in order: a secret is found exactly when it is taken now, then runs on; a refusal is final; every other secret is taken at every time as before |
| AccountsClass.SignInMeans | src/paper_boxing/backend/accounts.py:183-206 | a sign-in opens a session exactly when some account has that name and password; the session is taken until its end |
| AccountsClass.PasswordChangeMeans | src/paper_boxing/backend/accounts.py:163-213 | after a change only the new password opens the account and exactly its other sessions are refused |
| AccountsClass.AgentRevocationTakes | src/paper_boxing/backend/db.py:303-307 | revoking by id refuses exactly agent tokens of that id, as ids are unique |
| AccountsClass.PurgeSpares | src/paper_boxing/backend/db.py:328-335 | the purge, which compares texts, takes no secret away that would be taken now or later |
| AccountsClass.Service.VerifyPassword | src/paper_boxing/backend/accounts.py:163-172 | says whether the password is the account's; a hash of lower settings is made again, and every password of every account verifies as before |
| AccountsClass.Service.CreateUser | src/paper_boxing/backend/accounts.py:152-161 | refused exactly when the username is taken |
| AccountsClass.Service.Login | src/paper_boxing/backend/accounts.py:183-206 | exactly with a right password a session is opened that is taken until its end; no other secret is affected |
| AccountsClass.Service.ResolveBearer | src/paper_boxing/backend/accounts.py:215-241 | a token is found exactly when its secret is taken now; a session then runs a session length on; a refused secret is refused at every time; no other secret is affected |
| AccountsClass.Service.Logout | src/paper_boxing/backend/accounts.py:208-209 | exactly the session's secret is refused from then on, at every time |
| AccountsClass.Service.ChangePassword | src/paper_boxing/backend/routes.py:363-375 | with a right current password only the new one opens the account, every other account's password stays, and exactly the account's other sessions are refused; otherwise nothing changes |
| AccountsClass.Service.RevokeAgentToken | src/paper_boxing/backend/accounts.py:265-271 | exactly the secret of an agent token of that id is refused from then on, sessions never |
| AccountsClass.Service.DeleteUser | src/paper_boxing/backend/routes.py:377-389 | unknown 404, last account 409, and nothing changed; otherwise exactly the account's secrets are refused; an account is always left |
| AccountsClass.Service.PurgeDeadSessions | src/paper_boxing/backend/db.py:328-335 | no secret that is taken now or later is affected; the number of dropped rows is returned |
| Base64.DecodeEncode | src/paper_boxing/mcp/tools.py:148-151 | every file decodes to itself (section 4 of RFC 4648) |
| Base64.CompactLines | src/paper_boxing/mcp/tools.py:149 | taking the white space out of text wrapped at 76 columns (section 6.8 of RFC 2045) leaves the plain encoding |
| Base64.LinesLength | src/paper_boxing/mcp/server.py:67-75 | the JSON size of wrapped text is its digits and two bytes a line, to the byte |
| Base64.WrappedUpload | src/paper_boxing/mcp/server.py:67-75 | every file within the cap, wrapped, with an envelope of up to 64 KiB, passes the gate and arrives whole; a larger one is refused by the tool |
| Base64.PlainUpload | src/paper_boxing/mcp/tools.py:181-186 | the same for unwrapped text |
| Base64Exact.EncodeExactly | src/paper_boxing/mcp/tools.py:207 | each three bytes are four characters of the alphabet with the same 24 bits, the last group padded, and nothing else |
| Base64Exact.DecodeExactly | src/paper_boxing/mcp/tools.py:148-155 | text is accepted exactly when it is whole groups of the alphabet with up to two paddings at the end; then it is three bytes a group, less the paddings |
| Base64Exact.DecodeReads | src/paper_boxing/mcp/tools.py:148-155 | each group of four characters is read as the leading bits of its digits |
| Base64Exact.UploadRefusedExactly | src/paper_boxing/mcp/tools.py:181-186 | a tool call is refused as invalid exactly when its text, white space aside, is not such text, and as too large exactly when it is and holds more than the cap |
| Base64Exact.GateExactly | src/paper_boxing/mcp/server.py:67-75 | the gate accepts exactly what is no longer than the wrapped form of a file at the cap and 64 KiB |

The functions these are about: `FakeBackend.Handle` and the functions it calls (`fake_backend.py:333-581`),
`SiteStore` (`storage.py:189-496`, one critical section each), `RealBackend.Handle` (`routes.py:118-311`),
`Protocol.Next` (the awaits of `storage.py:220-496`), `Locks` and `LockRuns.Next` (`storage.py:111-129`),
`Accounts.Step` and `Accounts.FakeStep` (`accounts.py:163-285` with `db.py:219-335`;
`fake_backend.py:281-330, 392-410, 585-662`).

## Left out

- HTTP, ASGI, FastAPI validation, the REST client, the frontend, the MCP server around `request_body_limit` and
  `_decode`, nginx, configuration and logging: plumbing over libraries.
- SQLite itself: tables are maps with unique keys and cascades, each call atomic.
- argon2, randomness and SHA-256: an ideal digest that determines its input, a hash that verifies its own password,
  ids, secrets and staging names that are fresh.
- Unicode: a slug starts from the name as folded to ASCII (NFKD is not modelled), and strings hold no lone surrogates.
- `name.strip()`, messages, URLs, content types, Range requests, `created_at` and `modified_at` in answers, and the
  newest mtime of `folder_totals`: the two backends differ in times by design.
- The scopes of agent tokens beyond "any token" and "session only": a finite table.
- Listings, downloads and totals are atomic steps. A listing that races a writer can leave the index wrong until the
  next one; the protocol lets listings happen between any two steps, half-way through a folder's removal too, but not
  inside a critical section.
- The order in which waiters get a lock is left open, which allows more than `asyncio.Lock` does.
- Cancelling `delete_folder` while its thread still removes (the lock would be released before the thread ends),
  files of a parked folder that cannot be removed (`rmtree` ignores them), hand-made changes during a run, process
  crashes and `clean_staging`.
- File system limits (name lengths, case-insensitive volumes). A failure inside the lock is one of: the rename, the
  index row, the row of an unlinked file, the site row, a folder's removal. It marks its site, and the order theorem
  then speaks of the other sites only; the safety theorems speak of all.
- Liveness: that a waiting task gets its turn.
- ProtocolTheorems.InterleavingsAreSequential: reads are not placed in the order; `ReadsInStep` says what they answer,
  and a read during a folder's removal may see part of it gone, as on disk. A site that a failure inside the lock has
  struck is not followed further; for each kind of failure `ProtocolFailures` says what it left and what, if
  anything, repairs it.
- AccountsRuns.AccountsDifferExactly: a run is followed up to a sign-in that lets another token slide; after one,
  `AccountsShown` gives a reply that differs and not the condition for each later one.
- The disk is a flat map from paths to nodes; an empty map is an absent site folder. A link anywhere on the way is one
  predicate on that map; the walk that finds it, over real links, is `Links.Resolve`, tied to it by
  `Links.WalkSeesTree`.
- Volume.Storage.DeleteFolder: `rmtree` is one call here; it goes node by node in `Protocol`.
- Volume.Storage.CreateSite: the insert cannot conflict under the lock, only fail; in `Protocol` that is a give-up that
  changes nothing.
- Volume.Storage.ListFolder: reports totals and rows by name; the sorted list of entries is in `SiteStore.ListFolder`.
- `download_file` of the MCP tools checks the size in a listing and again on the bytes: not modelled.
- `bootstrap`, the decoy hash, the audit log and the rules for usernames and passwords.
