# yore: a verified model

This project models the parts of yore, an end-to-end encrypted shell-history store, whose
correctness spans several functions or several machines, and proves what they promise.
`dafny verify dfyconfig.toml` checks it.

**Group keys.** Devices share one History Key; data keys (DEKs) are sealed under it and records
under DEKs. The server (`servertx.dfy`, `server.dfy`) cannot read any blob and does not look at
the versions inside a rotation's wraps, so the safety argument is a joint invariant over the server,
the caches of every syncer and every request still on its way. `group.dfy` is the protocol as a
transition system: each server transaction is one step, each client operation a chain of steps that any
others may interleave with, any number of operations of one syncer may run at once, and any of them
may stop anywhere, which covers lost replies. `groupinv.dfy` and `groupsteps.dfy` prove the
invariant, `groupsafety.dfy` the theorems over runs, `groupprogress.dfy` what each chain of steps achieves, `grouprace.dfy` a concrete run showing that the
one hypothesis is needed: an activation of a formed group that finds no wrap stored at all is taken for
a bootstrap and must carry the current version. `syncer.dfy` is the client's side as it runs
undisturbed, against the imperative server: exactly when a revocation goes through and what it leaves.
Cryptography (`crypto.dfy`) is symbolic; additional data stays structured, and every open
accepts the current or the legacy domain.

**Replication.** `push.dfy` proves the upload loop over a network that may commit a request
and lose the answer, or deliver any request late or again; `pull.dfy` the page loop over streams that keep
growing, and the two together: what is pulled of a host is what it recorded. `rstore.dfy` is the
trimmed ciphertext cache, `remote.dfy` the cache of other hosts' history with its retention bound and
revocation latch.

**The local log and the memory that must agree with it.** `spool.dfy` is the spool directory with
writers interleaved at will with one drainer; `store.dfy` the log with its id index and tombstones;
`corpus.dfy` the corpus folded batch by batch, its snapshot and restarts; `tags.dfy` the tag index;
`tokens.dfy` enrollment tokens over whole runs of the server.

**Search.** `match.dfy`, `filter.dfy` (search as you type over two swapped buffers), `utf8.dfy` and
`casefold.dfy` (text outside ASCII), `highlight.dfy` and `fuzzy.dfy`.

**Parsers and printers.** `shelllex.dfy` and `shellparse.dfy` (the shell lexer is compositional), `shellspell.dfy` and
`shellrun.dfy` (what a line spells and what it runs), `zshhistory.dfy`, `zshlines.dfy`, `zshlengths.dfy` and
`zshroundtrip.dfy` (when import undoes export), `zshforeign.dfy` (files zsh wrote), `redact.dfy` (claims merged and spliced).

Strings are byte strings, one char a byte. Code that works on fields, arrays and loops is modelled by
classes, arrays and loops, each proved against a function or a declarative property; the theorems are about
those. Clocks, random keys and ids, Unicode tables, regular expressions and the network's behaviour are
parameters or nondeterministic choices.

## Where code and documentation differ

The model follows the code.

- The bootstrap branch of an activation is taken whenever no wrap is stored, not only the first time
  (internal/server/handlers.go:860-869); `GroupRace.StaleApprovalRegresses` shows a run in which that lowers
  the version.
- The spool promises that a record that exists survives (internal/spool/spool.go:1-9). When a drained file
  cannot be removed, the records of the files removed before it are dropped with the batch
  (internal/store/store.go:283-291); `Spool.StuckFileLosesRecord` is a run that loses one, and `Spool.IngestSpool`
  says exactly when.
- Merged redaction ranges are said to keep the first rule in table order that claimed the range
  (internal/redact/redact.go:520-522). They keep the first rule, in table order, among those whose claim
  starts where the range starts: `Redact.LaterRuleNamesRange` is a case where the two differ, `Redact.FirstRuleNames` the
  exact condition.
- A warm start is said to be equivalent to a full load (internal/daemon/snapshot.go:69-76). A tombstone stored
  before its target makes them differ; `Corpus.FoldIsExact` gives the exact condition.
- The incremental filter is justified by a row that failed a query failing every narrower one
  (internal/match/filter.go:38-39). For queries that are not ASCII that is not so: `Match.NonAsciiNeedNotNarrow` is a case, and
  `CaseFold.OneRuneNarrows` says exactly which rune typed after which token can win rows.
- An exported entry is meant to be rejoined into its command on read (internal/cli/export.go:82-86). The import also undoes
  zsh's escaping of the byte 0x83 (internal/importer/zsh.go:22-33), which the export never applies:
  `ZshRoundTrip.MetaByteIsRewritten` is a command that comes back changed, and `ZshRoundTrip.ImportUndoesExport` the exact
  condition.
- Undoing the escaping is said never to produce a newline (internal/importer/zsh.go:43-45). It does for an escaped star:
  `ZshForeign.StarIsNewline`.

## Model

| member | source | states |
|---|---|---|
| GroupSafety.OneCurrentKey | internal/syncer/enroll.go:218-297 | over every run and every reachable state, once the first activation has landed there is one History Key: every device wrap and the recovery wrap contain it, every DEK wrap is sealed under it, all at exactly hk_version, and a syncer that believes in that version caches that key |
| GroupSafety.VersionNeverDecreases | internal/server/handlers.go:825-896 | hk_version of a later state of a run is never smaller |
| GroupSafety.VersionNamesOneKey | internal/server/handlers.go:1073-1211 | two states of a run at the same version are on the same key, so a version number identifies a key for ever |
| GroupSafety.ActivationSafeIff | internal/server/handlers.go:859-871 | an activation accepted in a reachable formed group leaves one current key if and only if it does not find the wrap bucket empty while carrying another version; the condition is the guard of the bootstrap branch |
| GroupSafety.DeksSurvive | internal/syncer/enroll.go:304-334 | whatever rotations, approvals and recoveries lie between two states, a stored DEK id is still stored and opens, under the key current by then, to the same plaintext |
| GroupSafety.PushedHistoryStaysReadable | internal/syncer/syncer.go:522-566 | a record accepted by a push opens at every later state, through current History Key, DEK and record, to the record that was pushed, with its host and position |
| GroupSafety.CachedKeysNeverLie | internal/syncer/syncer.go:544-566 | a DEK any syncer has cached, however stale, opens a stored record to what was pushed there or does not open it |
| GroupSafety.RevokedStaysOut | internal/syncer/enroll.go:246-266 | a key that a rotation installs after a device was revoked is granted to that device, at any time before or after, only if the device was activated again first |
| GroupSafety.WrapsAreLogged | internal/server/handlers.go:1175-1194 | the grant log is faithful: whoever holds a wrap was granted the key in it |
| GroupRace.StaleApprovalRegresses | internal/server/handlers.go:860-869 | a concrete reachable state and step where the bootstrap branch is taken in a formed group and the version goes down: a stale approval lands after the only key holder revoked itself |
| GroupSteps.StepKeepsInv | internal/syncer/syncer.go:213-253 | every step of every task, interleaved at will, keeps the joint invariant of server, syncer caches and tasks in flight, and never loses a fact already established; what the steps achieve is stated by the rows of GroupProgress |
| GroupSteps.RotateStep | internal/server/handlers.go:1073-1211 | an accepted rotation, which the server checks for coverage but not for the versions inside the wraps, keeps the invariant whatever requests landed since it was prepared |
| GroupSteps.UploadStep | internal/syncer/syncer.go:402-434 | an upload that arrives whenever it likes keeps the joint invariant and loses no established fact |
| GroupSteps.UploadDecided | internal/server/handlers.go:1035-1066 | an upload is accepted exactly when the key it was prepared under is still the current one; then what is stored under its id opens to that DEK under the current key, otherwise neither server nor caches change |
| GroupSteps.ActivateTargetStep | internal/syncer/enroll.go:186-209 | an approval that lands late is either refused or carries the current key |
| GroupSteps.AdmitStep | internal/server/handlers.go:396-464 | admission by the recovery key hands out the current key or is refused |
| GroupSteps.PushStep | internal/server/handlers.go:509-577 | a push keeps every stored record opening under its DEK, and positions already taken keep their record |
| GroupSteps.RevokeStep | internal/server/handlers.go:899-937 | revoking keeps the joint invariant; of what the server stores it changes that device's status and removes its wrap, and nothing else; an unknown device changes nothing |
| GroupSteps.BootstrapStep | internal/syncer/enroll.go:49-88 | a bootstrap at any time keeps the joint invariant and loses no established fact |
| GroupSteps.FirstBootstrap | internal/server/handlers.go:322-333 | in every reachable state the first bootstrap makes its key the only one, with the recovery key opening to it, and any other leaves server, caches, tasks and keys as they were |
| GroupSteps.SweepStep | internal/syncer/enroll.go:304-334 | re-wrapping page by page, while the store may grow or rotate between pages, never produces a wrap with another plaintext |
| GroupProgress.RotatedReads | internal/syncer/syncer.go:246-253 | after a rotation or bootstrap of its own a syncer whose key is current drops its cached wraps, refetches, and opens any stored DEK to what was generated, whatever it had cached before |
| GroupProgress.EnrolledReads | internal/syncer/syncer.go:522-587 | an enrolled device with nothing cached for a DEK fetches the current key, caches it, fetches the wrap and opens it, and the DEK opens the stored record to what was pushed |
| GroupProgress.UploadGives | internal/syncer/syncer.go:402-434 | a DEK prepared and sent under the current key is stored, and the syncer seals the epoch with it from then on |
| GroupProgress.BootstrapGives | internal/syncer/enroll.go:49-88 | recovery, own activation, cache: a first bootstrap ends with the group on its key at version 1 and the device active, its wrap opening |
| GroupProgress.ApprovalGives | internal/syncer/enroll.go:186-209 | an approval under the current key ends with a known, unrevoked device active and its wrap opening, under its registered key, to the group key |
| GroupProgress.RecoveryGives | internal/syncer/enroll.go:108-160 | the recovery key admits a registered device, whose wrap then opens |
| GroupProgress.RevocationGives | internal/syncer/enroll.go:218-297 | begun under the current key with another device staying, a revocation goes through by its own steps, however many pages the sweep takes: the group is on the new key, the target holds nothing, every DEK is what it was, and the revoker caches the new key and no old wrap |
| GroupProgress.SweepsAll | internal/syncer/enroll.go:304-334 | the paged sweep reaches its end with every stored DEK re-wrapped once |
| Enroll.Client.Revoke | internal/syncer/enroll.go:218-297 | run undisturbed it succeeds exactly when the target is known, another device stays active, and the cached key is current and opens every DEK; then the group is on the new key, the target holds nothing, every DEK has its old plaintext, and the client caches the new key; otherwise the server is as before or has only marked the device revoked |
| Enroll.Client.ReWrapAllDEKs | internal/syncer/enroll.go:304-334 | the paged sweep yields each stored DEK exactly once, re-sealed with the same identity and plaintext, or fails exactly when some DEK does not open |
| Enroll.Client.Bootstrap | internal/syncer/enroll.go:49-88 | from an unformed group the result is a group on the new key with this device active; it fails without touching devices, wraps or version |
| Enroll.Client.Approve | internal/syncer/enroll.go:186-209 | on the current key it succeeds exactly for a known device that is not revoked, and the group stays on that key with the target active |
| Enroll.Client.ResolveHK | internal/syncer/syncer.go:213-240 | answers the cached key, or unwraps and caches the device's own; nothing else makes a key appear |
| Enroll.RotationMoves | internal/syncer/enroll.go:244-293 | a well-formed rotation request is accepted exactly at the version it was built for, and moves the whole group |
| Enroll.ActiveDevicesResolve | internal/syncer/syncer.go:213-240 | in a group on one key every active device unwraps that key at the current version |
| Crypto.BoxOpensIff | internal/cryptobox/historykey.go:77-89 | a wrapped History Key opens to a key under exactly the key pair it was sealed to, in the current or the legacy domain |
| Crypto.DekOpensIff | internal/cryptobox/dek.go:23-41 | a wrapped DEK opens under exactly its History Key and for exactly its own additional data, in either domain |
| Crypto.RecordOpensIff | internal/cryptobox/record.go:26-40 | a record opens under exactly its DEK and only as the record, on the host and at the position it was sealed for |
| ServerTx.OnlyActiveDevicesHoldWraps | internal/server/handlers.go:1100-1113 | after any sequence of arbitrary requests only active devices hold a wrap, each under its own id |
| SyncServer.Server.HandleActivate | internal/server/handlers.go:825-896 | a refused request changes nothing; an accepted one leaves the device active under exactly this wrap at the current version and every other device, wrap, DEK, token and record as it was; the version moves only when no wrap was stored |
| SyncServer.Server.HandleRecoveryActivate | internal/server/handlers.go:396-464 | likewise for admission by the recovery identity, which never moves the version |
| SyncServer.Server.HandleRegister | internal/server/handlers.go:636-718 | redeeming the token and writing the device commit together or not at all: the token write is rolled back when the registration it would authorize is refused |
| SyncServer.Server.HandleRevoke | internal/server/handlers.go:899-937 | accepted exactly for a known device, which is then revoked and holds no wrap; every other device and wrap, the version, DEKs, tokens and records are untouched |
| SyncServer.Server.HandleInitRecovery | internal/server/handlers.go:297-339 | material with an empty salt, a key of the wrong length or an empty wrap is refused; once configured, no request replaces it |
| SyncServer.Server.HandlePostDEK | internal/server/handlers.go:1017-1070 | all wraps or none; an id already stored keeps its wrap, and the count answered is how many ids are new |
| SyncServer.Server.CheckDekCover | internal/server/handlers.go:1115-1139 | the two-map loop accepts exactly the requests that name every stored DEK once and no other |
| SyncServer.Server.HandleRotate | internal/server/handlers.go:1073-1211 | checks first, then writes: a refused request leaves every bucket as it was; an accepted one moves the version by one, leaves exactly its own device wraps, replaces the wrap of every stored DEK and of no other, and keeps the recovery key under its new wrap |
| SyncServer.Server.HandlePush | internal/server/handlers.go:509-577 | first write wins per position: what is stored at a position was there before or is what the request brought for it, stamped with the time; the count answered is how many records the stream grew by and the position answered is the last one stored |
| SyncServer.PushTaken | internal/server/handlers.go:525-533 | a push is taken exactly when it names its host and brings at most a thousand records in strictly ascending order |
| SyncServer.Server.HandlePull | internal/server/handlers.go:580-633 | one page is the least positions after the cursor, without gaps, and says truly whether more are left |
| SyncServer.Server.HandleListDEK | internal/server/handlers.go:968-1014 | one page of DEK ids strictly after the cursor, without gaps |
| SyncServer.Server.HandleMintToken | internal/server/handlers.go:76-143 | mints under the new hash, good for half an hour; any other token stays as it is if it was claimed or ended less than a week ago, and goes otherwise |
| SyncServer.Server.HandleRevokeToken | internal/server/handlers.go:189-221 | unknown and claimed tokens are refused and nothing changes; otherwise the token is never usable again, a repeat keeps the first time, and no other token is touched |
| Bucket.ReadPage | internal/server/handlers.go:598-627 | the cursor walk behind the list handlers returns the least keys from a point on, at most the limit, and flags the rest |
| Bucket.Seek | internal/server/handlers.go:598-608 | a cursor seek lands on the least key not below the target |
| Bucket.Last | internal/server/handlers.go:568-569 | the cursor's last key, 0 for an empty bucket |
| Tokens.AdmitsOneDevice | internal/server/server.go:194-201 | over any run with a clock that never runs backwards, at most one registration succeeds on a token, and from then on the token names that device |
| Tokens.NeverUsableAgain | internal/server/server.go:141-155 | once a request finds a token claimed, revoked, expired or gone, every later request does |
| Tokens.GoodUntilSpent | internal/server/server.go:141-155 | whatever else the server is asked, a minted token admits exactly until its half hour is over, it has admitted a device, or it has been revoked |
| Tokens.MintKeeps | internal/server/handlers.go:123-143 | a mint keeps another token exactly when it was claimed or ended less than a week ago |
| Tokens.ClaimIsKept | internal/server/handlers.go:129-143 | a claimed token is never pruned or altered |
| Tokens.ClaimedByAdmission | internal/server/handlers.go:680-712 | a token becomes claimed by a registration that succeeds on it and in no other way |
| Push.Host.Push | internal/syncer/syncer.go:261-354 | the upload ends; at every return, lost answers and requests arriving late or twice included, the server holds exactly the pushable rows up to some position at or past the watermark; on success it holds them all; the count returned is the number of pushed rows the watermark passed |
| Push.Host.PushWithBackoff | internal/syncer/syncer.go:364-376 | halving ends and reports a prefix the server is known to hold; it sends the whole batch, then half of what it sent before, only after a 413 or a 400, and gives up only at one record or on another answer |
| Push.Host.SealBatch | internal/syncer/syncer.go:283-326 | consumes at least one row, seals exactly the pushable rows of what it consumed, in order, and keeps the estimated body within the bound unless it is a single record; it stops short of the batch only before a record that does not fit |
| Push.Host.PushWindow | internal/syncer/syncer.go:271-352 | one turn moves the watermark past at least one row and never past a pushable row that is not stored |
| Push.Host.Bank | internal/syncer/syncer.go:336-352 | the position banked matches what was acknowledged, skipping rows that are never pushed |
| Push.CommitKeepsExact | internal/server/handlers.go:534-571 | committing any sealed prefix, over whatever part of it a lost answer already stored, leaves the stream exactly the pushable rows up to a later position and only adds after what was there |
| Push.Host.Arrive | internal/server/handlers.go:534-571 | any request the host ever sent may be committed at any later time, and again: the stream stays exact and extends every value it ever had |
| Push.Host.PushRecords | internal/syncer/syncer.go:364-376 | one request on a network that may deliver earlier ones around it: an acknowledgement means the server holds what was sent |
| Push.LivesOn | internal/server/handlers.go:534-571 | every value a stream ever had is extended by every later one |
| Push.SkipKeepsExact | internal/syncer/syncer.go:339-352 | rows that are never pushed may be passed without leaving a hole |
| Push.SealedBatchAccepted | internal/server/handlers.go:525-533 | no sealed batch or prefix of one is refused for order or size |
| Push.WatermarkIsSafe | internal/syncer/syncer.go:261-352 | every pushable row at or below the watermark is on the server as it was recorded |
| Push.PromptsStay | internal/syncer/syncer.go:286-293 | with prompt sync off no prompt is ever on the server |
| Push.SinceIs | internal/store/store.go:335-352 | the rows read for a batch are the first ones after the watermark, as many as the limit |
| Push.SealsRow | internal/syncer/syncer.go:296-309 | a sealed record opens under its DEK, at its own place in the stream, to what was recorded |
| Push.Host.SizeIs | internal/syncer/syncer.go:391-396 | the size estimate counts four bytes for every three of the blob begun, the id and a constant |
| Pull.PullHost | internal/syncer/syncer.go:443-476 | against a stream that grows between pages, the page loop ends and returns exactly the records between old and new cursor, ascending and once each, with nothing left at the last page; `Pull.PushingGrows` discharges the growth it asks for |
| Pull.PullCiphertext | internal/syncer/syncer.go:443-476 | the same for every remote host at once; the own host and unlisted cursors are untouched |
| Pull.PushingGrows | internal/syncer/syncer.go:261-354 | whatever hosts ingest, push, fail to push and have arrive late, every history of their streams that a puller can see only grows at its end |
| Pull.DeliveredIsRecorded | internal/syncer/syncer.go:443-476 | a pull delivers exactly the pushed rows of the origin host's log between its two cursors, in order, each as it was recorded |
| Pull.PulledIsRecorded | internal/server/handlers.go:598-627 | end to end: after any number of pulls interleaved with ingests, pushes, failures and late arrivals, what was pulled of a host is its pushed rows up to the cursor, every one, once, in order, as recorded; no row the last pull found pushed is above the cursor |
| Pull.PullsCompose | internal/server/handlers.go:598-627 | successive pulls join into one slice: no record ever appears at or below a cursor handed out; `Pull.CyclesJoin` applies it to the streams of a host over any number of cycles |
| Pull.CyclesJoin | internal/server/handlers.go:598-627 | successive pulls of one host, each from the cursor the last one left, are one pull from the start |
| Pull.SliceSurvives | internal/server/handlers.go:534-571 | what was pulled stays the exact slice after the stream has grown |
| Store.Database.AppendOne | internal/store/store.go:212-277 | deduplicates by id; a new record is stored as it came but for the number, host and missing id the store gives it; a tombstone marks its target with its own time or the clock and no other record changes; the ids and history buckets stay inverse |
| Store.Database.AppendBatch | internal/store/store.go:189-207 | a batch is its records one after another, the count is how many were new, and every new row is one of them as it came, in order |
| Store.Database.All | internal/store/store.go:313-330 | exactly the live commands, in order |
| Store.Database.Since | internal/store/store.go:335-352 | exactly the raw stream after a position, cut at the limit |
| Store.BatchGrows | internal/store/store.go:189-277 | any batch leaves seqs without gaps, each id once, every id of the batch present, and marks an old record exactly when the batch brought a tombstone for it |
| Store.BatchHolds | internal/store/store.go:189-277 | the rows a batch adds are its records in order, each as it came but for what the store assigns and the marks of later tombstones; only records with an id can be missing |
| Store.LiveAre | internal/store/store.go:298-308 | the live commands are the records that are no tombstone, tag or prompt and are not deleted |
| Store.GrewTransitive | internal/store/store.go:247-263 | growth composes over any number of batches |
| Corpus.FoldIsExact | internal/daemon/daemon.go:536-606 | folding the rows after a position into the corpus of that position gives what a scan of the store gives, if and only if no live command in the fold comes after a tombstone for it; it covers both a refresh and a warm start |
| Corpus.SplitsDoNotMatter | internal/daemon/daemon.go:556-591 | when tombstones follow their targets, every way of splitting the appends into folds ends in the store's own corpus |
| Corpus.EarlyTombstoneSplits | internal/daemon/daemon.go:582-590 | a tombstone ahead of its target makes the result depend on the split |
| Corpus.Life | internal/daemon/snapshot.go:77-131 | any run of ingests, deletes, snapshots and restarts keeps corpus, texts, position and tag index equal to what the store says |
| Corpus.Daemon.DoIngest | internal/daemon/daemon.go:512-548 | after ingest and refresh memory is exact if and only if the new rows hold no early tombstone |
| Corpus.Daemon.DeleteRecord | internal/daemon/daemon.go:743-763 | appends a record that says only which one to delete and when, takes exactly that id out of the corpus, and keeps memory exact, always |
| Corpus.Daemon.LoadCorpus | internal/daemon/snapshot.go:77-118 | warm equals cold under that same condition on the rows after the snapshot; a snapshot ahead of the store is ignored |
| Corpus.Daemon.Start | internal/daemon/daemon.go:180-205 | a restart over the same files restores exact memory, tags included |
| Corpus.Daemon.SnapshotNow | internal/daemon/snapshot.go:123-131 | what is written is the store's corpus at the current position |
| Corpus.Daemon.FoldRows | internal/daemon/daemon.go:556-591 | the two passes and the rebuild compute the fold, with texts kept beside their rows |
| Corpus.Dropped | internal/daemon/daemon.go:595-606 | rows and texts are rebuilt together without the given ids |
| Corpus.AddLive | internal/daemon/daemon.go:579-589 | the second pass appends the live rows no tombstone of the batch names |
| Corpus.WithoutNone | internal/daemon/daemon.go:595-606 | the rebuild is the identity exactly when no id is present |
| Corpus.TagsGrow | internal/daemon/daemon.go:572-574 | folding each batch's tag records keeps the index that of the whole log |
| Tags.LastOpDecides | internal/daemon/tags.go:57-98 | after any log a tag is on a command or session exactly when the last op on that pair was not a removal, and no target keeps an empty set |
| Tags.ReplayAbsorbs | internal/daemon/daemon.go:196-205 | records of the log folded beforehand, in any order and number, leave no trace once the whole log is folded |
| Tags.DescriptionVerdict | internal/daemon/tags.go:67-72 | a name's text is the last non-empty one |
| Tags.NameVerdict | internal/daemon/tags.go:67-72 | a name is known exactly when some record carries it |
| Tags.TagIndex.Apply | internal/daemon/tags.go:57-98 | the in-place update is the fold step |
| Tags.TagIndex.Has | internal/daemon/tags.go:143-159 | agrees with the resolved tags of a row; an empty name matches every row |
| Tags.RowCarries | internal/daemon/tags.go:115-137 | after any log a row carries a tag exactly when the last op on its command, or on its session, was not a removal, or a rule covers its directory |
| Tags.UnderIs | internal/daemon/tags.go:34-40 | a directory rule covers that directory and those below it, with or without trailing slashes, and none that only starts with the same letters |
| Spool.Dir.Drain | internal/spool/spool.go:95-169 | with writers moving before and between its steps it hands over exactly the files found at the start, in name order, removes only those, and stops at one it cannot remove |
| Spool.Dir.Take | internal/spool/spool.go:103-112 | between reading and removing one file the writers only add |
| Spool.Dir.Rename | internal/spool/spool.go:74-81 | a record is published exactly when its file is still there to be renamed, whole |
| Spool.Dir.Act | internal/spool/spool.go:47-82 | each step of a writer does what it says, and any of them keeps every published record in exactly one file or taken exactly once |
| Spool.Dir.SweepTmp | internal/spool/spool.go:120-133 | sweeping touches no published file |
| Spool.Dir.DrainFile | internal/spool/spool.go:139-169 | delivers a file up to its first torn line |
| Spool.ReadableIs | internal/spool/spool.go:139-169 | whole lines are all delivered, and none after a torn one |
| Spool.ContentsInOrder | internal/spool/spool.go:95-118 | published records are delivered in the order of their file names |
| Spool.IngestSpool | internal/store/store.go:283-296 | draining into the store loses no published record whatever the writers do, if and only if every file could be removed or no file taken before the stuck one held a record the log did not have |
| Spool.StuckFileLosesRecord | internal/store/store.go:283-291 | a concrete run: two spooled records, the second file stuck, and the first record is in no file and not in the log |
| CipherStore.RunKeepsNewest | internal/rstore/rstore.go:148-189 | after any batches, repeated positions included, a host's cache is the newest entries of everything that ever came |
| CipherStore.NewestComposes | internal/rstore/rstore.go:148-221 | evicting before a batch instead of after it makes no difference |
| CipherStore.NewestUnique | internal/rstore/rstore.go:200-221 | there is only one such selection |
| CipherStore.Cache.Append | internal/rstore/rstore.go:148-189 | the stored count equals the number of keys, the trimmed count is exact, other hosts are untouched |
| CipherStore.Cache.Trim | internal/rstore/rstore.go:200-221 | deletes exactly the lowest positions above the bound |
| CipherStore.Cache.Reset | internal/rstore/rstore.go:226-247 | nothing is left, cursors included |
| Remote.RemoteCache.SyncOnce | internal/daemon/remote.go:478-537 | a successful cycle leaves the fold of what was warmed and pulled, pruned, with the new cursors; a failed or refused one adds only what was warmed; a refused one latches |
| Remote.RemoteCache.Absorb | internal/daemon/remote.go:514-537 | what was pulled goes to disk host by host, newest kept and cursor moved, is opened, folded, pruned and the cursors kept; a batch that does not open leaves memory as it was |
| Remote.RemoteCache.CacheCiphertext | internal/daemon/remote.go:539-550 | a host's stream on disk becomes the newest of it and the batch, with the batch's cursor, and no other host changes; without a file nothing does |
| Remote.KeepSyncing | internal/daemon/remote.go:478-537 | over any number of cycles, failed and refused ones among them, while no deletion comes in: memory is what was there plus everything the successful cycles pulled, pruned as if once at the end |
| Remote.PruningComposes | internal/daemon/remote.go:723-764 | pruning after every batch leaves what pruning once at the end would |
| Remote.StaysOut | internal/daemon/remote.go:420-455 | once refused, no events short of moving to a different server bring back a cycle, a cursor, an open file or a write |
| Remote.EachHostKeepsNewest | internal/daemon/remote.go:723-747 | pruning leaves of every host exactly its last records in arrival order |
| Remote.OthersUntouched | internal/daemon/remote.go:723-747 | hosts within the bound keep all their records in the order they had among each other |
| Remote.Prune | internal/daemon/remote.go:723-764 | the excess-counting passes compute that selection, texts alongside |
| Remote.RemoteCache.Hydrate | internal/daemon/remote.go:561-610 | the file is opened whole into memory with its cursors, or thrown away with them |
| Remote.RemoteCache.OnRevoked | internal/daemon/remote.go:310-325 | latched, recorded, cursors and file gone |
| Remote.RemoteCache.Attach | internal/daemon/remote.go:420-455 | the same server keeps cache and refusal, a different one clears both |
| Remote.RemoteCache.FoldRemote | internal/daemon/remote.go:681-717 | the fold of the local corpus, on remote records |
| SearchFilter.Filter.Apply | internal/match/filter.go:28-69 | in every call the answer is in range, ascending and matching, and shares no buffer with the filter; it is the full scan whenever the query is not an extension, the rows got fewer, or the query is ASCII over rows only appended to |
| SearchFilter.Session | internal/match/filter.go:28-69 | every answer of any sequence of ASCII queries over growing or shrinking rows is the full scan |
| SearchFilter.IncrementalIsFull | internal/match/filter.go:38-60 | re-testing the old matches and scanning the new rows is scanning everything |
| SearchFilter.FullScanExact | internal/match/filter.go:50-60 | the reference is the set of matching rows in ascending order |
| SearchFilter.Filter.Reset | internal/match/filter.go:72-77 | the next call starts afresh |
| Match.PrefixNarrows | internal/match/match.go:32-77 | a row matching an ASCII query matches every prefix of it, across token boundaries and the switch to case-sensitive |
| Match.NonAsciiNeedNotNarrow | internal/match/match.go:69-75 | for other queries it can fail: a row and a query whose prefix does not match |
| CaseFold.OneRuneNarrows | internal/match/match.go:32-77 | with tables that act rune by rune, adding a rune to a token loses rows only, for every row, if and only if it is not the first rune outside ASCII of an ASCII token without upper case one of whose letters some rune outside ASCII folds to |
| CaseFold.FoldedIsRunes | internal/match/match.go:69-75 | folding both sides and searching bytes finds exactly the stretches that fold to the term rune by rune |
| Match.AsciiFoldIndex | internal/match/match.go:193-215 | the byte scan finds the first folded occurrence or none |
| Match.MatchQuery | internal/match/match.go:55-77 | every term occurs |
| Match.WordMatches | internal/match/match.go:32-77 | an ASCII word is one term: found anywhere in the row, in any case when it has no upper case and exactly as typed when it has |
| Match.TwoQueries | internal/match/match.go:32-62 | two ASCII queries with a blank between match exactly the rows that both match |
| Highlight.Ranges | internal/match/match.go:84-113 | ascending, never touching, within the row, covering exactly the bytes some occurrence covers, and beginning and ending where occurrences do |
| Highlight.HighlightRow | internal/match/match.go:79-113 | the same for a parsed query; when the query is well-encoded text no range begins or ends inside a rune, whatever bytes the row is |
| Highlight.MatchIsHighlighted | internal/match/match.go:55-113 | for every query a row matches exactly when each term has an occurrence to highlight, although matching folds the whole row and highlighting goes rune by rune |
| Highlight.AppendRanges | internal/match/match.go:117-171 | every occurrence of the term, overlapping ones included, and nothing else; a folded term outside ASCII occurs where a stretch cut between runes folds to it |
| Highlight.MatchFoldAt | internal/match/match.go:176-189 | the bytes from a rune on that fold to the needle, or that there are none |
| FuzzyMatch.Fuzzy | internal/match/fuzzy.go:17-47 | succeeds if and only if the pattern is a subsequence of the row under smart case; the score is four times the number of runs plus the place of the first rune |
| FuzzyMatch.FoldIsLower | internal/match/fuzzy.go:89-97 | a pattern without upper case matches as its lower case does in the lower case of the row, any other exactly as typed |
| FuzzyMatch.FuzzyRanges | internal/match/fuzzy.go:59-87 | non-empty exactly when the match succeeds, and then the byte spans of the scoring walk |
| FuzzyMatch.RangesExplainScore | internal/match/fuzzy.go:59-87 | one code point covered for each pattern rune, spans apart from each other, as many as the runs the score counts, the first where the score starts |
| FuzzyMatch.GreedyDecides | internal/match/fuzzy.go:29-41 | taking each rune as soon as it fits gets through the pattern whenever anything does |
| FuzzyMatch.WalkIsLeftmost | internal/match/fuzzy.go:52-57 | no placement has any rune earlier |
| FuzzyMatch.SpansMark | internal/match/fuzzy.go:68-83 | a code point lies in a span when it was taken and clear of all spans when it was not |
| ShellLex.LexLoop | internal/risk/parse.go:35-148 | the scanner, its quote stack and index jumps compute the lexing function and always end |
| ShellSpell.LexSpells | internal/risk/parse.go:35-148 | any line written from words, each of bare, escaped, single-quoted and double-quoted pieces, and operators, with blanks where they are needed, lexes to exactly those words with quotes and escapes taken off and marked when quoted, and those operators |
| ShellSpell.LexUnfinished | internal/risk/parse.go:98-116 | an open quote runs to the end of the line and a last backslash stands for itself |
| ShellSpell.LexSubstitution | internal/risk/parse.go:69-86 | a substitution between double quotes lexes as the command line it is, between two marks, with the text around it still quoted |
| ShellSpell.SubstRuns | internal/risk/parse.go:69-86 | the same from any state, quoted or not, and for process substitutions |
| ShellLex.LexSplits | internal/risk/parse.go:35-148 | a line left closed, a spaced list operator and any line lex to the tokens of the parts with the operator between |
| ShellLex.ClosedSplits | internal/risk/parse.go:35-148 | after a closed part and a list operator, the line is closed if and only if its second part is |
| ShellParse.ListSplits | internal/risk/parse.go:208-237 | for every list operator the segments of a list are those of its parts, piped flags included |
| ShellParse.SemicolonSplits | internal/risk/parse.go:208-237 | the same for two commands and a semicolon |
| ShellParse.SequenceSplits | internal/risk/parse.go:208-237 | and for any number of closed commands |
| ShellParse.EachSplits | internal/risk/parse.go:352-359 | a predicate run over the segments holds of a list exactly when it holds of one side |
| ShellParse.EachLoop | internal/risk/parse.go:352-359 | the loop answers whether some segment that acts satisfies the predicate |
| ShellParse.ParseLoop | internal/risk/parse.go:208-237 | the token loop computes the segments |
| ShellParse.ResolveLoop | internal/risk/parse.go:242-311 | redirections, wrappers and classification compute the segment |
| ShellParse.HeadIsNamed | internal/risk/parse.go:262-291 | the command word is an unquoted token that is neither an assignment nor a wrapper |
| ShellRun.LineRuns | internal/risk/parse.go:208-237 | however it is spelled, a line runs one command for each group of words between its cuts, in order, reading from a pipe after a single bar |
| ShellRun.SubstitutionRuns | internal/risk/parse.go:208-237 | what is substituted into a quoted word is cut into the segments it has alone, and the words around it are data |
| ShellRun.SegmentIs | internal/risk/parse.go:242-311 | after any assignments and wrappers the command, its arguments, plain words, redirections, sudo and inert marks are those written |
| ShellRun.HeadAfter | internal/risk/parse.go:262-291 | the command is the first word after any assignments and any wrappers with their flags, flag values and numbers; quoted text is none; sudo is noted on the way |
| ShellRun.SkipsGroups | internal/risk/parse.go:277-290 | of a wrapper's arguments exactly flags, numbers and the values of value flags are passed over |
| ShellRun.RedirectIs | internal/risk/parse.go:245-257 | the word right after an operator is a redirection target and every other word stays, in order |
| ShellRun.WordsAre | internal/risk/parse.go:293-305 | the plain words are the arguments that are neither quoted nor flags, in order |
| ShellRun.BasenameIs | internal/risk/parse.go:313-318 | a path names what follows its last slash, and one ending in a slash names itself |
| ShellRun.AssignmentIs | internal/risk/parse.go:320-334 | an assignment is a name, an equals sign and anything |
| ShellRun.InertFlagIs | internal/risk/parse.go:293-302 | the announcing flags, alone or with a value, and no others |
| ZshRoundTrip.ImportUndoesExport | internal/importer/zsh.go:22-142 | for any bytes and 64-bit times, importing an export gives back the commands in order with times cut to the second and duration zero, if and only if no row is blank, ends in a carriage return, ends in a backslash before another row, is dated a second or more before the epoch, or holds a byte 0x83 with a byte after it |
| ZshLengths.RewrittenIsShorter | internal/importer/zsh.go:22-33 | a byte 0x83 with a byte after it is never made up for elsewhere: such a file never comes back as it was |
| ZshRoundTrip.MetaByteIsRewritten | internal/importer/zsh.go:22-33 | with the byte 0x83 the law fails: a concrete row comes back changed |
| ZshLines.ParseOwnLine | internal/importer/zsh.go:100-142 | an exported line parses to its own second and command |
| ZshLines.JoinRecord | internal/importer/zsh.go:44-58 | the physical lines of one record join back into its one logical line |
| ZshLines.LinesOfRecord | internal/cli/export.go:86-93 | an exported record is read as its own lines whatever follows |
| ZshLines.LogicalCount | internal/importer/zsh.go:44-58 | a line that continues into the next record loses one |
| ZshHistory.RunExport | internal/cli/export.go:46-76 | rows answered newest first are written oldest first |
| ZshHistory.ReversedAt | internal/cli/export.go:62-74 | the last row answered is the first one written |
| ZshHistory.PhysicalLines | internal/importer/importer.go:52-72 | the scan yields the lines between newlines without their final carriage return |
| ZshHistory.ImportLoop | internal/importer/zsh.go:37-77 | the line loop computes the import |
| ZshHistory.UnmetafyLoop | internal/importer/zsh.go:22-33 | the in-line rewrite undoes metafication |
| ZshHistory.ParseExtendedLoop | internal/importer/zsh.go:100-142 | the index walk recognises exactly the strict extended prefix |
| ZshForeign.FileImports | internal/importer/zsh.go:22-97 | a history file as zsh writes it is imported entry by entry: seconds as milliseconds, negative durations dropped, escaped bytes and continued lines restored |
| ZshForeign.EntryParses | internal/importer/zsh.go:84-97 | start and duration become milliseconds, and a negative duration none |
| ZshForeign.ExtendedParses | internal/importer/zsh.go:84-142 | for any digits, blanks and sign, the extended line gives its numbers in milliseconds, or the whole line as a command when they do not fit 64 bits |
| ZshForeign.OtherwisePlain | internal/importer/zsh.go:84-97 | a line not of that form is a command without a time |
| ZshForeign.MetafiedComesBack | internal/importer/zsh.go:19-33 | a byte zsh escapes comes back as itself, whatever follows |
| ZshForeign.StarIsNewline | internal/importer/zsh.go:43-45 | an escape stands for a newline exactly when its second byte is a star |
| ZshForeign.PlaceValue | internal/importer/zsh.go:135-140 | digits are worth what they say by place |
| Redact.RedactText | internal/redact/redact.go:481-506 | whatever ranges the rules claim and however they overlap, each maximal stretch of claimed bytes becomes one mark, named after the first rule in table order whose claim starts there, and every other byte is kept in order |
| Redact.OneMatch | internal/redact/redact.go:523-573 | one match of one rule costs exactly the bytes of its secret group, or of the match when the rule has none: they become the marker; a group that took no part, an empty one, one already a marker, or a rule without its hints costs nothing |
| Redact.FirstRuleNames | internal/redact/redact.go:520-559 | a merged range is named after the first rule in table order that claimed it if and only if the first claim starting where the range starts carries that name |
| Redact.LaterRuleNamesRange | internal/redact/redact.go:520-559 | two claims whose merged range is named after the second rule |
| Redact.Spans | internal/redact/redact.go:523-561 | ascending ranges that never touch, whose union is the union of all claims |
| Redact.MergedMerges | internal/redact/redact.go:547-559 | merging sorted claims keeps exactly the claimed bytes and the name of each stretch's first claim |
| Redact.MergeInPlace | internal/redact/redact.go:547-559 | the merge that writes over the array it reads computes it |
| Redact.Splice | internal/redact/redact.go:489-495 | right-to-left splicing is left-to-right replacement |
| Redact.SplicedIsBlanked | internal/redact/redact.go:489-495 | replacing the merged spans is blanking the claims byte by byte |
| Redact.SortKeeps | internal/redact/redact.go:543-545 | the stable sort keeps the claims and which comes first at each start |
| Redact.Fired | internal/redact/redact.go:496-505 | each rule that named a range, once, in the order of the ranges they first name |

## Left out

- Request signatures, TLS pinning, HTTP, JSON and base64: the protocol model lets anyone send any key-free request and
  lets syncers act without authorization, so it admits more runs than the code.
- `AdoptHK` and `ActivateWith`: a recovered machine's own bookkeeping; admission by the recovery identity is modelled.
- The syncer's operations under interleaving are a step machine on values, since a method body cannot be interrupted; their
  imperative form is proved for the undisturbed case only.
- DEK and record identifiers are abstract: a key id is a number whose order is the order of the text, and 0 is the empty one.
- Real cryptography: seals are terms that open under the right key and additional data only.
- The host list handler and the token list: read-only listings.
- Failures of the local database, such as a watermark that cannot be written.
- Nonces and replay of signed requests.
- The push theorem is for one server and one prompt-sync setting: the watermark is not kept per server.
- Pull.PullHost: asks that streams only grow at their end; `Pull.PushingGrows` derives that for hosts that run Push, and a host that
  pushes by other means is outside it.
- Corpus.Life: assumes that every tombstone follows its target and that a delete never runs between an ingest's commit and its
  refresh; the first is the exact condition for independence of splits, the second keeps the position from passing rows that were
  never folded (internal/daemon/daemon.go:757-759).
- Crashes between the removal of spool files and the commit of their batch, and an open that fails on a file other than by its absence.
- The prompt index, `MarkDeleted`, and the re-seeding of deleted prompts at start-up.
- `tagIndex.list` and the sorting of resolved tags; trimming and lower-casing of tag names is abstract.
- Match.PrefixNarrows: is for whole ASCII queries; beyond ASCII `CaseFold.OneRuneNarrows` is for one token, since splitting a query
  at white space outside ASCII is left to a parameter.
- Highlight.HighlightRow: white space outside ASCII is a parameter, and what the case tables say outside ASCII is arbitrary.
- Bash and plain history formats, imported record ids, and the other importers.
- The flag queries over shell segments, sub-shell payloads and the risk rules themselves.
- Redact: which ranges the regular expressions match, the hints that skip a rule, and idempotence, which depends on the rules.
- Remote.RemoteCache.SyncOnce: pushing and pulling inside a cycle are taken as their outcomes; their own theorems are in Push and Pull.
- Remote.KeepSyncing: is for cycles that bring no deletion, after the first; a deletion that names a record already pruned, or one that
  makes room, tells pruning as you go from pruning once.
- Configuration changes concurrent with an explicit sync.
- The TUI, agent hooks, keyring, backups, health checks and the frecency ranking.
