# Aurforge in Dafny

Aurforge follows packages of the Arch User Repository and local package
directories, builds every new revision in a disposable container and publishes
the results in a pacman repository. This project models the build queue behind
it and the algorithms that feed the queue, and proves what the queue promises
over whole runs.

## How it is built

The queue, from the rows up:

- `Tables` holds the rows of the database and, as functions on them, the meaning
  of every transaction of `internal/db.go`.
- `Database` is the database as a mutable object. Its methods work statement by
  statement on a copy and commit it, as the transactions do, and are proved
  against the functions of `Tables`. `ClaimJob` keeps its retry loop and is proved
  against a specification of one instant.
- `Protocol` is the state machine of accepts, claims, build results, batch reads,
  publications, lost marks, restarts and removals. A run is a list of stamped
  events; `Legal` says that each is enabled where it happens, `Final` gives the
  state it leads to.
- `Invariants` and `Evolution` prove what every step keeps and how rows change
  over any stretch of a run. On them stand `Order` and `OrderLimits` (publication
  order and its exact condition), `Freshness` (latest and superseded), `Fairness`
  (no overtaking, bounded wait, delay), `SourcePaths`, `Creation` and `Polling`.
- `Roles` has the calls of the worker and the publisher as methods of an object and
  proves each one to be a run of the protocol, so the theorems about runs hold
  however the calls interleave. `Publishing` and `PublishRestarts` open up
  `publishJob`: the effect of a run cut short anywhere, and of repeating it.
- `Abandoned` follows a running job that no worker holds.
- `Counterexamples` has the runs from an empty database in which promises fail.
- `Removal` and `ArtifactNames` cover `internal/remove.go`.

What feeds the queue: `DependencyNames`, `Srcinfo`, `SrcinfoText` and
`PackageSource` (metadata of a package directory), `Graph` (the recursive walk
over AUR dependencies), `Trees` and `Snapshots` (digest and copy of a source tree),
`Paths` and `HostPath` (translation through bind mounts). `Options`, `Sets`, `Strings`, `Sorting` and
`Packages` hold what several of them share.

## Assumptions

- Every transaction is one atomic step; the code takes no row locks, so this
  seriality is an assumption. There is one worker and one publisher
  (`README.md:105`, `docker-compose.yml:72-105`).
- An accept and a removal are each one step at one instant, a publication and a
  removal do not overlap, and the staging directory of a removed job is gone when
  the publisher comes to it. Row ids come from increasing counters.
- Each event carries its own clock reading. Where a theorem needs a clock that does
  not go back, a hypothesis of it says so (`Forward` on runs, `SeenInOrder` on
  tables); the others hold for any clock.
- The latest version of a package is the one with the greatest
  (first_seen_at, id), which is what the claim compares (`internal/db.go:66-69`).
- A mark that reports an error was not applied. A commit whose acknowledgement is
  lost, after which the publisher would mark a published job as failed, does not occur.
- One transaction reads the clock once; `ClaimJob` reads it for the query
  (`internal/db.go:50`) and again for the row (`internal/db.go:90`), and the two are taken to agree.
- Names and revisions are single path elements, so that joining a snapshot path
  does not clean anything away (`SourcePaths.JoinedPathsDiffer`).
- Dependency and artifact rows are keyed by their unique index, so a repeated
  pair is a failed insert.
- A Go string is a sequence of code points, whose order is that of the UTF-8
  bytes; in a tree, a character of a file's content stands for a byte. Package
  files are sequences of bytes. SHA-256 is an arbitrary function of the hashed text. Directory walks
  list each directory before its entries and its entries together; the digest
  does not depend on the order otherwise.
- Git, the AUR, Docker, `repo-add`, the clock and every I/O error are inputs of
  the methods that meet them.

Where the repository contradicts itself, the code is followed. Two tests
(`internal/package_test.go:52-91`) expect `.pkg.tar.` files to be hashed and
copied, the code leaves them out (`internal/package.go:149`, `internal/package.go:191`); the model has one
predicate for it and no theorem depends on which side is right. `README.md:87-88`
says that a reverted revision is never built; a head that is already recorded is
ignored by the poll (`internal/roles.go:88-94`), so a revision that is withdrawn by going
back to the one before it is built (`Counterexamples.WithdrawnIsBuilt`), and
`Polling.PollFollowsHead` says exactly when the latest version follows the head. Apart
from a known head it does not when the remote moves on before the clone, when the
clone names another package (which only `refreshLocal` checks,
`internal/roles.go:143`), and when the clock has gone back.

`internal/remove.go:61-65` asks to try a refused removal again when the build finishes; a
job whose worker died or whose mark was lost never does (`Abandoned.NeverRemoved`).
A removal deletes files before rows (`internal/remove.go:88-122`), so a failed commit leaves
rows without files, and a file name shared with another package is deleted too
(`Removal.OthersKeepFiles`).

Three more properties fail in corners. For each there is an input that shows it
and the exact condition: publication order when a failure mark is lost
(`Counterexamples.OrderCanBreak`, `OrderLimits.LossExactly`); the source path after a known revision is
accepted again (`Counterexamples.WrongSource`, `SourcePaths.PathExactly`); and the agreement of digests when
the source root holds a regular file named `.git` or is itself named so
(`Snapshots.GitFileDisagrees`, `Snapshots.GitRootDisagrees`, `Snapshots.SnapshotAgrees`).

## Model

| member | source | states |
|---|---|---|
| Database.Database.ClaimJob | internal/db.go:43-106 | At one instant the loop claims the first eligible job by (eligible_at, id) whose version is its package's latest, skips exactly the superseded jobs before it (all of them when there is none), changes no other row, and ends |
| Database.Database.ClaimTurn | internal/db.go:45-105 | One transaction: nothing, a skip of the first eligible job, its claim with the package's name, path and version, or an error that changes nothing |
| Database.FirstEligible | internal/db.go:49-52 | The pending job with eligible_at <= now that comes first by (eligible_at, id), none exactly when there is none |
| Database.LatestVersion | internal/db.go:66-69 | The package's version with the greatest (first_seen_at, id) |
| Database.FirstMeans | internal/db.go:49-52 | The order of the claim query: no pending job has an earlier eligible_at, and none with the same has a smaller id |
| Database.LatestMeans | internal/db.go:66-69 | The order of the version query: no version of the package was seen later, and none at the same time has a greater id |
| Database.SupersededMeans | internal/db.go:66-71 | A job is superseded exactly when a version of its package was seen later, or at the same time with a greater id |
| Database.ClaimWrites | internal/db.go:71-92 | What a claim writes, row by row: running with the time and one attempt more on the claimed job, skipped with time and reason on the superseded due ones before it, and nothing else; no claimable job comes before the claimed one |
| Database.WinnerFound | internal/db.go:45-105 | The first job left after any legal skips is the winner of the whole call, and taking it gives the specified tables |
| Database.NothingLeft | internal/db.go:53-56 | When no eligible job is left, every eligible job was superseded and none is a winner |
| Database.Database.MarkJob | internal/db.go:108-117 | Status and finish time are always written, log path and error only when not empty; unknown ids change nothing |
| Database.Database.JobArtifacts | internal/db.go:274-276 | The job becomes published |
| Tables.EligibleAtFromCommit | internal/db.go:121-127 | The later of now and commit time plus delay |
| Database.Database.CreatePackage | internal/db.go:129-209 | All or nothing: the package row is written, and for an unknown revision the version, its dependencies, the skips and one job; the id is that of the known or the new version |
| Database.InsertDependencies | internal/db.go:181-193 | The inserts give all rows, or nothing when one hits the unique index |
| Database.SkipPendingJobs | internal/db.go:211-238 | The loop and the bulk update give the specified rows |
| Database.SkipWrites | internal/db.go:228-236 | Exactly the pending jobs of the package's other versions are skipped, with time and reason |
| Creation.InsertsSucceed | internal/db.go:181-193 | For a version without rows the inserts succeed exactly when the names are distinct, and then add exactly those rows with their kinds |
| Creation.KnownRevision | internal/db.go:145-161 | A known revision keeps its id and changes nothing but the package row |
| Creation.NewRevision | internal/db.go:163-209 | A new revision fails exactly on a repeated dependency name, and otherwise adds exactly one version, its dependencies and one pending job and skips the package's other pending jobs |
| Creation.NewColumns | internal/db.go:136-203 | The stored columns: package name, kind, reference and path; version, release, digest, kind, first_seen_at and the split names in order; a pending job with the eligible time, no attempts and no other times |
| Creation.InsertsNeverCollide | ent/schema/dependency.go:19-21 | With distinct dependency names in the metadata, CreatePackage never fails on the index, in any consistent database |
| Creation.OneJobPerVersion | internal/db.go:129-209 | In every reachable state each version has exactly one job, names and (package, revision) pairs are unique and every reference resolves |
| Creation.AcceptAur | internal/import.go:90-226 | From the clone to the rows: succeeds exactly when every preview and snapshot step, the metadata, all lookups, the commit time and the commit get through; then the parsed and classified metadata, the eligible time and the snapshot path are what is stored, and otherwise the database is unchanged |
| Creation.AcceptLocal | internal/import.go:188-203 | Succeeds exactly when the snapshot is in place and the commit goes through, and is then the protocol's local accept with the digest as revision |
| Creation.AurStep | internal/import.go:205-226 | An accept of an unknown commit stores the commit and digest, points at sources/aur/name/commit, and leaves a pending job due at the later of now and commit time plus delay |
| Creation.LocalStep | internal/import.go:188-203 | An accept of unknown local contents has the digest as revision, points at sources/local/name/digest, and leaves a pending job due at once |
| Invariants.StepKeeps | internal/db.go:129-209 | Every enabled step of every role keeps the invariant: references, unique rows, one job per version, row fields, artifacts of published jobs, older jobs not pending, worker and batch |
| Invariants.Always | internal/db.go:43-117 | The invariant holds along every legal run, with any clock |
| Evolution.StepEvolves | internal/db.go:75-117 | Every step moves each surviving job along one edge of the life cycle or leaves it, and never changes its identity, eligible time or its version's row |
| Evolution.LifeCycle | ent/schema/job.go:15 | Jobs go from pending to running or skipped, running to built or failed, built to published or failed; attempts, claimed_at and finished_at match the status in every reachable state |
| Evolution.RunKeeps | internal/roles.go:162-193 | Over any run rows keep their identity, jobs only go forward, and removed ids do not come back |
| Evolution.OnlyAcceptsAddJobs | internal/db.go:197-203 | Only an accept adds job rows |
| Order.StepKeepsOrder | internal/roles.go:290-303 | Each step keeps the order of siblings: once the newer one is published the older one is neither built nor building, and the batch holds the older one whenever it holds the newer |
| Order.PublicationOrder | internal/roles.go:162-312 | Over every run, with any clock, no job of an earlier version of a package is published after a later one, given that no lost failure mark is harmful |
| Order.NeverBackwards | internal/roles.go:162-312 | From an empty database, every publication out of order comes with a lost failure mark that was harmful where it happened |
| Order.PublishedFromBuilt | internal/roles.go:292-303 | Only built jobs get published |
| Order.StillPublished | internal/db.go:274-276 | A published job stays published while an older sibling of it exists |
| OrderLimits.LossExactly | internal/roles.go:299-303 | When publishing fails and the failure mark is lost too, a later publication out of order becomes possible exactly when a newer job of the package waits behind in the batch |
| Counterexamples.HarmIsReachable | internal/roles.go:292-303 | A run from an empty database, two revisions built in turn and read in one batch, ends where a lost failure mark does harm |
| Counterexamples.OrderCanBreak | internal/roles.go:296-303 | From there a whole run from an empty database publishes the earlier version after the later one |
| Abandoned.AbandonedForever | internal/roles.go:170-192 | A running job that the worker does not hold stays running, its row unchanged, in every later state of every run |
| Abandoned.NeverRemoved | internal/remove.go:61-65 | From then on its package stays and every removal of it is refused |
| Counterexamples.RemovalBlocked | internal/remove.go:61-65 | A worker that dies in its first build leaves such a package: whatever follows, it cannot be removed |
| Freshness.LatestIsNeverLost | internal/db.go:66-87 | With a clock that never goes back, a superseded job is not pending, the latest one is not skipped, and a package has at most one pending job |
| Freshness.ClaimNeverSkips | internal/db.go:71-87 | In such runs every claim that finds a job starts a build of its package's latest version |
| Freshness.SkipBranch | internal/db.go:71-87 | With any clock, a pending job counts as superseded exactly when an older version of its package was first seen strictly later |
| Freshness.SupersededIsOlder | internal/db.go:66-71 | Superseded by (first_seen_at, id) is the same as having a newer job, when versions are seen in order |
| Fairness.NoOvertaking | internal/db.go:49-52 | While a job waits, no job created later is claimed before it |
| Fairness.WaitIsBounded | internal/db.go:49-52 | Every claim made while a job waits uses up one of the jobs ahead of it |
| Fairness.ServedInTurn | internal/db.go:49-52 | After more claims than there were jobs ahead of it, the job is no longer pending |
| Fairness.DelayHolds | internal/import.go:220-225 | Over every run, with any clock, a claimed AUR job was claimed no earlier than its commit time plus the delay at its accept |
| SourcePaths.PathsAlwaysAgree | internal/db.go:145-161 | When accepts bring new or latest revisions and the clock never goes back, every package points at the snapshot of its latest version |
| SourcePaths.ClaimedPath | internal/db.go:96-104 | In such runs the path a claim returns is the snapshot of the version it returns |
| SourcePaths.ClaimedPathExactly | internal/db.go:96-104 | In any run, with any clock, that is so exactly when the package's last committed accept brought that version's revision and kind |
| SourcePaths.ReacceptExactly | internal/db.go:145-150 | Accepting a known revision leaves the path of the latest version right exactly when it is the latest version, of the same source kind |
| SourcePaths.JoinedPathsDiffer | internal/import.go:189 | For names and revisions that are single path elements the path is sources, aur or local, name and revision; joining changes nothing, and the paths of one name differ in every other kind or revision |
| SourcePaths.PathExactly | internal/db.go:145-161 | Over any run, with any clock, a package points at the snapshot of its latest version exactly when its last committed accept brought that version's revision and kind |
| SourcePaths.LastAccept | internal/db.go:136-151 | Every package of a reachable state has such a last committed accept |
| Counterexamples.WrongSource | internal/db.go:96-104 | Two commits accepted in turn and then the first again: ClaimJob answers with the second version and the source of the first, and with nothing else |
| Polling.PollPackage | internal/roles.go:77-103 | A poll ignores a missing head, a recorded head and a failed preview, and otherwise is the protocol's AUR accept of the previewed commit |
| Polling.TakenIsStep | internal/roles.go:100 | A poll that accepts is an accept step of the protocol, so the delay holds for polled commits |
| Polling.PollFollowsHead | internal/roles.go:77-104 | For every head, preview and clock: after the poll the package's latest version has the head as its revision exactly when it had so before, or the head was unknown, the preview has the package's name and the head as its commit and can be stored, and the clock is not behind the time the latest version was first seen |
| Polling.TakenWhen | internal/import.go:205-226 | An accept goes through exactly when there is a commit time and the revision is known or no dependency name repeats |
| Counterexamples.WithdrawnIsBuilt | internal/roles.go:88-94 | Two commits accepted in turn, the second withdrawn by going back to the first: the poll changes nothing and the next claim builds the withdrawn one |
| Roles.Daemons.ClaimNext | internal/roles.go:170-182 | The worker's call of ClaimJob is a legal run of claim steps, and the worker holds exactly the job it was given |
| Roles.Daemons.FinishBuild | internal/roles.go:183-191 | One step of the protocol; the job's row becomes built after a good build and failed with the build's error after a bad one, with time and log path, and is unchanged when the mark does not get through |
| Roles.Daemons.ReadBuilt | internal/roles.go:292-295 | The publisher reads exactly the built jobs, in id order |
| Roles.Daemons.PublishNext | internal/roles.go:296-303 | The step its fate calls for; only the job's own row changes: published exactly when the run succeeds, failed with the error when the mark gets through, untouched otherwise |
| Roles.ClaimRun | internal/db.go:43-106 | A call of ClaimJob is the run of its transactions as protocol steps and ends in the state the call is specified to give |
| Roles.BuiltJobs | internal/roles.go:292 | The built jobs, each once, in ascending id order |
| Publishing.Publisher.PublishJob | internal/roles.go:312-362 | Files and rows after a run that ends anywhere: completed files with rows, at most the first bytes of one more file, and the published mark only after everything; it succeeds exactly when nothing stops it, there is a package file and the job exists |
| Publishing.Publisher.PublishFile | internal/roles.go:328-352 | One file: the whole content and a row unless there is one, or at most the first bytes and no row |
| Publishing.Publisher.InsertArtifact | ent/schema/artifact.go:21-23 | The insert fails exactly when the (job, filename) pair is there |
| Publishing.PackageFilesAre | internal/roles.go:322-327 | A name is published exactly when it has `.pkg.tar` somewhere in it and is an entry that is no directory, with that entry's content |
| Publishing.ParsedIsPublished | internal/roles.go:323 | Every file whose name removal can parse is published |
| Publishing.SucceedsMeans | internal/roles.go:354-361 | A run succeeds exactly when nothing stops it, some entry is a package file and the job exists |
| Publishing.CutRun | internal/roles.go:322-353 | A run cut at an entry leaves the files before it in place and recorded with hash and size, at most the first bytes of that one, and the rest as before |
| PublishRestarts.RestartsAreHarmless | internal/roles.go:312-362 | Any number of runs cut short anywhere, with other roles in between that keep off the job's rows and names, and then a full run leave the same rows and files as one full run |
| PublishRestarts.NewRowsAreTrue | internal/roles.go:333-352 | Wherever a run ends, each row it inserted has the hash and size of a file that is then completely in place |
| PublishRestarts.RowsMatchExactly | internal/roles.go:344-352 | After a full run the rows have the hashes and sizes of the published files exactly when no row with others was there before |
| PublishRestarts.FullRun | internal/roles.go:312-362 | A full run puts every package file in place, keeps old rows and adds the missing ones |
| PublishRestarts.RunFrame | internal/roles.go:312-362 | A run touches no other file, no row of another job and nothing of the job but its status, and that only when it succeeds |
| PublishRestarts.RunIsStep | internal/roles.go:312-362 | The tables after a run of the batch's head are those of the protocol's publication, restart, loss or failure |
| Removal.RemovePackage | internal/remove.go:30-137 | Fails without change when the package is unknown or building; otherwise deletes its files and signatures, then its rows if the commit goes through, and reports the strictly sorted repository names and one file name for each artifact row |
| Removal.RemoveFiles | internal/remove.go:91-94 | The named files and their signatures go, but for those whose deletion fails |
| Removal.OthersKeepFiles | internal/remove.go:91-94 | The files recorded for other packages all stay exactly when none in the directory is also a file or signature of the removed package that can be deleted |
| Removal.RetryIsHarmless | internal/remove.go:88-122 | A removal whose commit failed, tried again, ends as if it had gone through at once |
| Removal.RemovalIsExact | internal/remove.go:98-122 | Exactly the package's package, version, dependency, job and artifact rows go, every other row stays as it is, and all references still resolve |
| Removal.ArtifactIsCovered | internal/remove.go:79-88 | Every recorded artifact with a regular file name has its package among the names to remove |
| Removal.AcceptedSplitIsCovered | internal/db.go:162-172 | Every non-empty split name of an accepted revision is among the names to remove, as long as its version row is there |
| Removal.ReadSplitPackages | internal/remove.go:168-187 | Both encodings of the metadata are read; items that are no strings or empty are dropped |
| Removal.SplitNamesReadBack | internal/db.go:163-172 | What CreatePackage stores as split packages is what removal reads back, but for empty names |
| Removal.TextItemsMean | internal/remove.go:176-183 | The items kept are exactly the non-empty strings |
| Removal.SortedKeys | internal/remove.go:205-212 | Strictly sorted, with exactly the keys |
| ArtifactNames.PackageNameFromArtifact | internal/remove.go:189-203 | The loop over the suffixes and the cut of the last three parts compute the specified name |
| ArtifactNames.FilenameRoundTrip | internal/remove.go:189-203 | For any name without a slash and hyphen-free version, release and architecture, each listed suffix gives the name back |
| ArtifactNames.BaseOfPath | internal/remove.go:190 | Of a path the last element is taken |
| ArtifactNames.NameExactly | internal/remove.go:197-202 | A base gives a name exactly when it is the name and three more hyphen-free parts |
| ArtifactNames.OneSuffix | internal/remove.go:191-196 | No file name ends in two of the listed suffixes, so their order does not matter |
| ArtifactNames.SuffixIsDropped | internal/remove.go:191-196 | The loop drops exactly the suffix the name ends in |
| Graph.ResolveGraph | internal/import.go:123-150 | Succeeds exactly when every name reachable through AUR edges has a preview, and then lists every reachable name, nothing else, each once and the root first, cycles included; the list has each AUR dependency of its names, and each name but the root is one of an earlier name |
| Graph.Walk.Visit | internal/import.go:126-145 | The recursive visit explores exactly what the name adds, in place, and ends on the names not visited yet |
| Graph.ClosedHasPath | internal/import.go:137-143 | A set of names closed under AUR edges holds every path that starts in it |
| DependencyNames.ComputeDepName | internal/package.go:126-134 | The loop over the markers cuts at the first marker of the list that occurs |
| DependencyNames.DepNameFixed | internal/package.go:126-134 | A text is its own dependency name exactly when it has no comparison sign or colon and no space around it |
| DependencyNames.DepNameOfConstraint | internal/package.go:126-134 | A name with any operator and any version gives the name |
| DependencyNames.DepNameByPrecedence | internal/package.go:127 | The text is cut at the first occurrence of the first of >=, <=, =, >, <, : that occurs anywhere, and taken whole when none does |
| DependencyNames.FirstOccurrencesMeans | internal/package.go:85-90 | The dedup keeps exactly the non-empty names, each once |
| DependencyNames.FirstOccurrencesInOrder | internal/package.go:85-90 | The names come in the order of their first occurrences |
| Srcinfo.ParseSrcinfo | internal/package.go:67-93 | The loop yields the first pkgbase, the last pkgver and pkgrel, all pkgname values in order, and the deduplicated names of depends and makedepends |
| Srcinfo.FieldsCount | internal/package.go:73-83 | The first pkgbase gives the name, the last pkgver and pkgrel the version and release, and what no line gives stays |
| SrcinfoText.RoundTrip | internal/package.go:67-93 | A document whose fields list the metadata in any order, dependencies under either key, with unrecognised lines anywhere in between, parses to the metadata |
| SrcinfoText.PrintedRoundTrip | internal/package.go:67-93 | What makepkg prints, build-time dependencies first, parses to the metadata |
| SrcinfoText.PlainText | internal/package.go:67-93 | A plain .SRCINFO, letter by letter, parses to its metadata |
| SrcinfoText.RenderedRecords | internal/package.go:69-73 | A rendered document is read as exactly its field lines |
| PackageSource.ParsePkgbuild | internal/package.go:98-124 | The loop over assignments yields the last pkgname, pkgver and pkgrel heads, all split names, and the deduplicated dependencies |
| PackageSource.AssignmentsCount | internal/package.go:104-113 | The last non-empty assignments give name, version and release by their first tokens |
| PackageSource.ParsersAgree | internal/package.go:67-124 | The same declarations give the same metadata through .SRCINFO and through PKGBUILD |
| PackageSource.ParsersAreUnique | internal/package.go:114-121 | Whatever the text, both parsers leave non-empty and pairwise distinct dependency names |
| PackageSource.ParsePackage | internal/package.go:37-65 | .SRCINFO wins over PKGBUILD, missing fields get their defaults, a missing PKGBUILD or name is an error |
| PackageSource.ClassifyDependencies | internal/import.go:152-161 | Names and order stay, each flag is the AUR's answer, and any failed lookup fails the whole |
| Trees.HashTree | internal/package.go:136-173 | The digest is that of name, NUL and content of exactly the hashed files of the tree, in the order of their relative paths |
| Trees.HashPaths | internal/package.go:159-171 | The loop over the sorted paths hashes the specified text, and fails when a file cannot be read |
| Trees.HashedMeans | internal/package.go:139-157 | The hashed names are those of files and links outside directories named .git without `.pkg.tar.` in their last element |
| Trees.StreamOfOne | internal/package.go:161-169 | One file is hashed as its name, a NUL and its content |
| Trees.StreamOfConcat | internal/package.go:159-171 | The text of two lists of files is that of the first and then that of the second |
| Trees.OneFileTree | internal/package.go:136-173 | A tree with a single file hashes exactly its name, a NUL and its content |
| Trees.ContentMatters | internal/package.go:161-169 | Over the same names, another content of a single file gives another text |
| Trees.DigestsDiffer | internal/package.go:136-173 | Two readable trees with the same names that differ in one file's content have different digests, if the hash is injective |
| Trees.CollectPaths | internal/package.go:139-157 | The walk with its skips lists exactly the files that no directory named .git contains and that are no build artifacts |
| Trees.SortedRels | internal/package.go:158-160 | Sorting the root-prefixed paths sorts the relative ones |
| Snapshots.FileTree.CopyTree | internal/package.go:179-218 | Succeeds exactly when the tree has nothing to refuse, and then the destination holds exactly the kept entries with their contents |
| Snapshots.CopiedMeans | internal/package.go:185-218 | Copied are exactly the directories and files outside a .git at the root and without `.pkg.tar.` in their last element, as they are |
| Snapshots.ReadableStream | internal/package.go:161-169 | A tree can be hashed exactly when each of its files can be read |
| Snapshots.GitByName | internal/package.go:185-190 | The test of the relative path for .git or a prefix of it is the test of its first element |
| Snapshots.SnapshotAgrees | internal/package.go:136-218 | After a successful copy, whatever the two directories are named, the hashed streams agree exactly when: under other names than .git, the source root has no regular file named .git; and when one root is named .git, the other has nothing to hash |
| Snapshots.SameRels | internal/package.go:144-190 | Source and copy have the same files to hash, but for a regular file .git at the source root, and a root named .git has none |
| Snapshots.Snapshot | internal/import.go:60-203 | The digest taken before the copy is that of the snapshot when the streams agree, and only then if the hash is injective |
| Snapshots.GitFileDisagrees | internal/package.go:143-190 | A concrete source with a regular .git at its root whose stream the copy does not have |
| Snapshots.GitRootDisagrees | internal/package.go:143-145 | A concrete source with one file, imported from a directory named .git, whose stream the copy does not have |
| Paths.ComponentsOfAbs | internal/hostpath.go:137-144 | A cleaned absolute path is determined by its elements |
| Paths.CleanIsIdempotent | internal/hostpath.go:137-139 | Cleaning twice is cleaning once |
| Paths.OneElementMore | internal/hostpath.go:138-139 | What cleaning does with one more element: empty ones and dots change nothing, a dot-dot takes the last element back, anything else is added |
| Paths.PrefixMeans | internal/hostpath.go:137-144 | On cleaned absolute paths the prefix test compares element by element, and the root directory covers only itself |
| HostPath.HostPathFromBindMounts | internal/hostpath.go:37-63 | Fails exactly when no mount with a source covers the path, and otherwise translates through the first of the longest covering destinations |
| HostPath.ParseMounts | internal/hostpath.go:65-95 | The mounts of the printed lines in order, destinations cleaned; an error exactly when there is none |
| HostPath.MountLine | internal/hostpath.go:81-88 | A line is a destination, a tab and a source, in this order; anything else is no mount |
| HostPath.FirstOfTies | internal/hostpath.go:48-50 | Of covering mounts with the same destination the first is taken |
| HostPath.BestIsLongestPrefix | internal/hostpath.go:42-51 | For cleaned and distinct destinations the choice is the unique longest prefix, element by element |
| HostPath.OrderDoesNotMatter | internal/hostpath.go:42-62 | The host path does not depend on the order of the mounts |
| HostPath.TranslateMeans | internal/hostpath.go:55-62 | The host path has the elements of the source and then those of the container path below the destination |
| HostPath.BackToTheContainer | internal/hostpath.go:55-62 | Going back through the mount gives the container path, except below a source that is the root directory |
| HostPath.AbsPathIsClean | internal/hostpath.go:146-151 | The path to translate is always absolute and cleaned |
| HostPath.AbsPathMeans | internal/hostpath.go:146-151 | An absolute path is taken as it is, a relative one below the working directory |
| Strings.LessMeans | internal/package.go:158 | The sort order: a proper prefix comes first, otherwise the first difference decides |

## Left out

- Generated `ent/` code; of the schema only fields, defaults, enumerations and unique indexes are used. Columns that no modelled decision reads (enabled, most timestamps, architecture, warnings) are not modelled.
- HTTP, git, docker, repo-add, repo-remove, notifications, logging, prompts, the command line, file modes and owners, CPU caps, shell scripts and Compose files. Their outcomes are inputs.
- `ListPackages`, `AuditPackage` and the local updater's script: reports and foreign code. `refreshLocal`'s decision on a known digest is the one that `Polling` proves for AUR packages.
- Isolation anomalies: with unlocked reads two workers could claim one job; the model is serial.
- Removal in its read and delete phases: an accept that lands in between can leave rows whose package is gone (`internal/remove.go:31-96`).
- A retry after a copy that failed partway: an existing target counts as complete (`internal/import.go:190`), so snapshot agreement is about a successful copy into an empty directory.
- Injectivity of the tree digest: the hashed text has no length framing (`internal/package.go:161-166`). Agreement is stated on the hashed text.
- The regular expressions of `parsePKGBUILD`: the loop is modelled over extracted keys and tokens.
- The endless loops of the worker, the publisher and the scheduler: each turn is a method or an event, and theorems range over all sequences of events.
- What removal deletes besides package files and rows: entries of the pacman database, staging directories, logs and source snapshots. Errors of `repo-remove` are dropped in the source too.
- Container id discovery and the configured fallbacks of `resolveHostDataRoot`: scans and settings without hard properties.
- Bytes that are not valid UTF-8 in names and paths, and file systems that change during a walk or a copy.
- Order.PublicationOrder: takes as hypothesis that no lost failure mark is harmful where it happens, because the order fails otherwise; OrderLimits.LossExactly proves that hypothesis exact.
- SourcePaths.PathsAlwaysAgree: takes as hypothesis that accepts bring new or latest revisions, because source_path is overwritten for any known revision; SourcePaths.PathExactly gives the exact condition over runs, with any clock.
- PublishRestarts.RestartsAreHarmless: speaks of the job's own rows and file names; other roles may change everything else between the runs.
