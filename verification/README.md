# Verified model of roving

Roving runs a fleet of AFL fuzzers. Each fuzzer writes its finds below `output/<id>/`, a client pauses it from time to
time and uploads everything, the server stores the uploads, and every machine downloads the queues of the whole fleet.
This project models that machinery in Dafny and proves what it keeps.

| file | what it covers |
|---|---|
| `text.dfy`, `paths.dfy`, `names.dfy`, `disk.dfy` | splitting and numerals, lexical paths, listing order, the file system calls |
| `file_store.dfy` | writes without truncation, as overlays; series of writes; concurrent uploads |
| `corpus.dfy`, `afl_files.dfy`, `fleet.dfy` | `types/types.go`, `types/files.go`, `types/fleet_file_manager.go` |
| `sync.dfy`, `progress.dfy` | the fleet protocol as a transition system: invariant, prefix chain, snapshots, convergence, and that convergence is always possible |
| `refinement.dfy`, `client.dfy` | the loops on disk take the protocol's steps; the client's retry loop over one request |
| `fuzzer_id.dfy` | fuzzer ids |
| `archiver.dfy`, `backup.dfy`, `server.dfy`, `dedup.dfy` | archiving with failing copies, backups, the upload handler, copying crashes only once |
| `copies.dfy` | copies of one crash by several handlers at the same time |
| `witness.dfy`, `survival.dfy` | servers on which a backup, an archive or the server itself fails, and when the server survives |
| `stats.dfy` | the `fuzzer_stats` parser |
| `nodes.dfy`, `locks.dfy` | the client table and its reaper, with atomic sweeps and at the granularity of lock operations |
| `codegen.dfy` | the harness code generator |

`dafny verify dfyconfig.toml` checks everything.

## Assumptions

The fact everything rests on is that `WriteInputToFile` opens files without truncating them, so a write replaces a prefix
and leaves the tail of a longer old body.

The theorems about archived crashes distinguish whether the archive is apart from the server's own files (`Server.Apart`);
those about backups and about concurrent copies are for archives that are.

The theorems about the fleet protocol assume that fuzzer ids are distinct (two fuzzers are two keys of `home`;
`FuzzerIds.SameId` says when two ids coincide), that ids and file names are single path components, that a fuzzer only
creates or extends its own files and does neither while stopped, and that one uploader works for each fuzzer. The network may lose,
delay, repeat and reorder messages, and a write may be cut anywhere. AFL may in fact rewrite a file when it trims it; what
holds then are the unconditional theorems on overlays, `FileStore.*`, `Corpus.*`, `AflFiles.*` and `Fleet.*`.

Inputs that come from outside are parameters: the random number of an id, the characters the generator draws, clocks,
the outcome of each network try, and the fault of each copy. Loops over Go maps take their elements in an arbitrary order.

## What the code does not do

* The 32-character limit on ids is not kept for long hostnames (`FuzzerIds.IdCanBeTooLong`); `FuzzerIds.IdFits` has the
  exact condition.
* `InputPath` drops the error of its name check, so a name such as `..` leads out of the corpus directory
  (`Fleet.FleetFileManager.CrashPathEscapes`). A path is where it should be exactly for names that are single components
  (`InputPathIsInside`), and heeding the error would not be enough (`CheckIsNotEnough`: `.`, `..` and `/` pass the check).
  Likewise exactly the ids that are single components have a tree of their own (`AflFiles.OwnTrees`).
* The configuration accepts a base directory that is the very place where the disk archiver keeps crashes,
  `<dst_root>/realtime-crashes` (types/config.go:58-71). Then every crash is copied onto itself: the copy truncates it before
  reading it, reports success, and leaves it empty on the server and in the archive (`Witness.CrashCopiedOntoItself`).
  `Server.Apart` says that the two are different, and `Server.ArchivedExactlyApart` that archiving works exactly then.
* A listing of the disk archiver never matches a crash (`Server.SkipNeverFires`), and S3 listings do so only if the root
  key has no components (`Dedup.S3Dedups`). The configuration rejects an empty root key (types/config.go:72-75), which
  leaves keys such as `.` that clean to nothing; so as a rule S3 listings match nothing either. Hence crashes are copied
  again in every call, and a failing copy can truncate an archived crash (`Witness.CrashLost`); `Server.StaysArchived` has
  the exact condition. Where listings do match, the archive keeps of each crash the body that the first call found
  (`Dedup.KeepsFirstBody`).
* When several uploads are handled at the same time, their copies of one crash can interleave. A copy that succeeds is
  then not enough (`Copies.SuccessIsNotEnough`); `Copies.LastCopyCounts` says which copy is.
* Empty directories are missing from backups, so reading one can fail (`Witness.BackupUnreadable`);
  `Backup.BackupRestores` has the exact condition.
* The reaper's sweep reads the table without locks, and the deletion it starts does not look again. So it can cull a
  client that is just registering (`Locks.FreshClientReaped`), or one that reports again after the sweep has looked at its
  old time (`Locks.RevivedClientReaped`). `Locks.CulledWrongly` says exactly when a client is culled although its time is
  recent enough, and `Locks.MissingTime` when the sweep meets a client without a time.
* An archive below `output/` makes the server die on its own copies (`Survival.ArchiveInsideKills`) and backups
  (`Survival.BackupInsideKills`);
  `Survival.SurvivesExactly` has the exact condition for one call, and `Survival.SurvivesAll` one for whole runs.
* The comment on `mkFuzzerId` promises four hexadecimal digits; small numbers give fewer (`FuzzerIds.HexLength`).

## Model

| member | source | states |
|---|---|---|
| Paths.RelReaches | server/archiver.go:325-331 | for any two clean paths, following the relative path from the base reaches the target |
| Paths.JoinIsStepDown | types/types.go:62 | a name joins as one step down under its own name exactly if it is a single component |
| Paths.OwnBase | types/files.go:295-308 | which names the check of input names accepts: those without a slash that are not empty, and the slash |
| FileStore.OverlayTornWrite | types/types.go:61-70 | a write cut anywhere and then repeated is the write itself |
| FileStore.OverlayAssociative | types/types.go:61-70 | a write without truncation overlays the old body; overlaying is associative, so replaying or regrouping writes is harmless |
| FileStore.OverlayJoinsPrefixes | types/types.go:61-70 | on prefixes of one common body a write is a join: the longer of the two survives, whichever comes last |
| FileStore.ApplyByte | types/types.go:48-70 | closed form of any series of writes, duplicate names included: byte i of a file comes from the last write to it longer than i, else from the old file |
| FileStore.ApplyIdempotent | types/types.go:48-70 | repeating any whole series of writes changes nothing |
| FileStore.ApplyGrows | types/types.go:61-70 | no file disappears or shrinks; the new length is the maximum of the lengths involved |
| FileStore.InterleavedEqualsSequential | types/files.go:59-86 | uploads that stay below directories of their own give the same tree in any interleaving, write by write, as one after the other in any order |
| Names.LessIs | types/files.go:252 | the order of a listing: a name comes first exactly if it is a proper prefix or has the smaller character at the first difference |
| Corpus.WriteInputToFile | types/types.go:61-70 | one overlay write at the joined path, or no change when the file cannot be opened |
| Corpus.WrittenInside | types/types.go:61-70 | an input is written into the directory, under its own name, exactly if its name is a component |
| Corpus.WriteInputCorpusToFile | types/types.go:48-57 | exactly the writes before the first file that cannot be opened take place; success means all did |
| Corpus.ReadInputCorpus | types/files.go:248-293 | returns every file directly in the directory but `README.txt`, with its body, in ascending order of names; fails exactly when the directory is missing |
| Corpus.CorpusIsThe | types/files.go:248-279 | the content of a directory as a corpus is unique, so what a read returns is determined by the files |
| Corpus.AllButReadme | types/files.go:256-276 | of each name a read has the body of the file, except for `README.txt`, which it never has |
| Corpus.ReadAfterWrite | types/files.go:248-293 | reading after writing over an existing directory gives, name by name, the overlay of the bodies written on the old one |
| Corpus.WriteThenRead | types/files.go:248-293 | in a fresh directory, writing a listing and reading it back is the identity but for `README.txt` |
| Corpus.WriteThenReadSorts | types/files.go:248-293 | in a fresh directory, distinct inputs written in any order read back sorted by name, without `README.txt` |
| Corpus.SortedFromUnique | types/files.go:248-293 | that result is unique, and for inputs already in order it is the inputs themselves |
| AflFiles.AflFileManager.MkAllOutputDirs | types/files.go:183-207 | creates the three directories and all above them, and fails exactly when a file is in the way of one |
| AflFiles.AflFileManager.WriteOutput | types/files.go:59-86 | queue, crashes and hangs are written in turn up to the first file that cannot be opened |
| AflFiles.AflFileManager.InOrder | types/files.go:59-86 | each write of an upload by its position: the queue comes first, then crashes, then hangs, each input in its own directory |
| AflFiles.AflFileManager.ReadOutput | types/files.go:112-133 | the contents of the three directories, or failure when one of them is missing |
| AflFiles.AflFileManager.Layout | types/files.go:45-55 | ids that are single components give the layout `output/<id>/{queue,crashes,hangs}` |
| AflFiles.AflFileManager.LiteralLayout | types/files.go:45-56 | the same with every name written out |
| AflFiles.AflFileManager.CorpusDirs | types/files.go:92-109 | the corpus types `queue`, `crashes` and `hangs` select the directory of their own kind, and any other type is an error |
| AflFiles.AflFileManager.OutputDirIsOwn | types/files.go:45-51 | an id has the directory of its own name exactly if it is a component |
| AflFiles.OwnTrees | types/files.go:45-51 | an id has a tree of its own, strictly below `output/` and at or below no other well-formed id, exactly if it is a component |
| AflFiles.AflFileManager.InputPathIsInside | types/files.go:164-172 | an input path is in its corpus directory under the input's name exactly if that name is a component |
| AflFiles.AflFileManager.CheckIsNotEnough | types/files.go:170-171 | of the names the dropped check accepts, exactly `.`, `..` and `/` give no path of their own in the corpus directory, and exactly `..` leads out of it |
| AflFiles.FixedNames | types/files.go:213-223 | joining one of the fixed names of the layout is one step down |
| AflFiles.ConcurrentUploads | types/files.go:45-86 | whole uploads of distinct fuzzers, interleaved at single writes, give the tree of running them in turn, in any order |
| AflFiles.UploadIdempotent | types/files.go:59-74 | a repeated upload changes nothing |
| AflFiles.IdsCanCollide | types/files.go:45-51 | two pairs of ids that share a tree |
| Fleet.FleetFileManager.FuzzerIds | types/fleet_file_manager.go:78-93 | the directories directly below `output/`, ascending |
| Fleet.FleetFileManager.ReadOutputs | types/fleet_file_manager.go:56-74 | every fuzzer's output, or failure when any fuzzer lacks one of its directories |
| Fleet.FleetFileManager.ReadQueues | types/fleet_file_manager.go:163-182 | every fuzzer's queue, or failure when any fuzzer lacks its queue directory |
| Fleet.FleetFileManager.WriteQueues | types/fleet_file_manager.go:149-159 | the queues are stored in some order of the fuzzers until one cannot be, and what is written stays; with well-formed ids and names it succeeds exactly if no file and no directory was in the way of any queue at the start |
| Fleet.FleetFileManager.StoredExactly | types/fleet_file_manager.go:149-159 | whether each queue can be stored depends on the tree at the start alone, whatever was stored before it; the loop stops at one that cannot |
| Fleet.FleetFileManager.DirsAddId | types/files.go:183-195 | making an upload's directories adds its fuzzer to those listed, and no other |
| Fleet.FleetFileManager.CrashPathIsInside | types/fleet_file_manager.go:195-197 | a crash's path is in the fuzzer's directory of crashes exactly for names that are components |
| Fleet.FleetFileManager.CrashPathEscapes | types/fleet_file_manager.go:195-197 | the name `..` leads to the fuzzer's own directory |
| Fleet.StoreMerge | types/fleet_file_manager.go:48-74 | after interleaved uploads each corpus reads back as if its own upload had been the only one: the name-wise merge with what was there |
| Fleet.StoreRoundTrip | types/fleet_file_manager.go:48-74 | on fresh directories `ReadOutputs` returns exactly the uploaded corpora, of distinct names in any order, each sorted by name and without `README.txt` |
| Fleet.QueuesRoundTrip | types/fleet_file_manager.go:149-182 | the same for `WriteQueues` and `ReadQueues`: the merge in general, the identity on fresh directories |
| Fleet.GrowOnly | types/fleet_file_manager.go:149-159 | over any run of uploads and downloads no file disappears or shrinks, whatever the origins do |
| Sync.StepInv | types/types.go:61-70 | every step of the fleet protocol keeps its invariant: a fuzzer extending a file, pause, single reads, sends, deliveries of any message any number of times, partial and complete writes |
| Sync.PrefixChain | types/fleet_file_manager.go:149-182 | in every reachable state a downloaded copy is a prefix of the server's, the server's a prefix of the origin's, and bodies in flight fit the same chain |
| Sync.WriteBackIsNoOp | client/queue_downloader.go:50-58 | writing a fuzzer's own queue back to it changes nothing |
| Sync.SnapshotAtomic | client/state_uploader.go:47-56 | what an uploader sends is the fuzzer's whole tree at the instant it was stopped, even if downloads write into the same directories during the read |
| Sync.AnswerOf | server/server.go:67-76 | a request for the queues is answered with at least what the server had when its pass began and at most what it has at the end, whichever reads the pass makes; with exactly that if it is the same |
| Sync.Convergence | client/queue_downloader.go:34-62 | once fuzzers find nothing new, a completed upload of every fuzzer and then a completed download of every workdir leave all queue trees equal to the server's, which is the union of all fuzzers' files |
| Sync.StaysConverged | client/state_uploader.go:47-72 | after that no step changes any tree, whatever stale or repeated messages arrive |
| Progress.CanConverge | client/state_uploader.go:36-41 | from every reachable state some schedule without new finds reaches that agreement, so no state of the protocol is beyond repair |
| Client.UploadState | client/server_client.go:132-179 | all tries share one request, whose body only the first that reads it can deliver; the loop makes as many tries as configured, and one if none; it succeeds exactly if that try is among them, arrives, can be stored and is answered, and the upload is stored exactly if it arrives |
| Client.FirstReaderDecides | client/server_client.go:149-178 | by that contract, the first try that consumes the body decides: nothing is stored unless it is made and arrives, and the outcome is its answer if the server can store the upload, whatever the other tries do |
| Refinement.PutIsInstall | types/types.go:61-70 | a write on disk is an installation step of the protocol on the corresponding tree |
| Refinement.HandleUpload | server/server.go:56-58 | `WriteOutput` writes up to the first file that cannot be opened and succeeds exactly if there is none; that is a run of the protocol ending in the tree on disk, and on success the writer has finished |
| Refinement.HandleDownload | client/queue_downloader.go:50-58 | `WriteQueues` on a workdir's disk, with its exact condition for success, is a run of the protocol in any order of the fuzzers |
| Refinement.ReadForUpload | client/fuzzer.go:99-113 | `ReadOutput` succeeds exactly if the three directories exist, and what it returns for a stopped fuzzer is what the protocol's message holds, whichever reads the protocol makes |
| Refinement.QueuesAreMessage | types/fleet_file_manager.go:163-182 | the queues that `ReadQueues` returns are, as a message, the visible queue files of the tree |
| Refinement.PassMayStart | types/fleet_file_manager.go:163-170 | the protocol allows a pass over exactly the fuzzers that `FuzzerIds` lists |
| Refinement.ServeQueues | server/server.go:67-76 | `ReadQueues` succeeds exactly if `output/` and every known fuzzer's queue directory exist, and the answer that the protocol's pass over these fuzzers leads to holds exactly what it returns |
| FuzzerIds.IdIsComponent | client/fuzzer.go:183-197 | every id is a single path component, so joining it is one step down from any directory |
| FuzzerIds.SameId | client/fuzzer.go:183-197 | two ids coincide exactly when the sanitized hostnames and the low 16 bits of the numbers do |
| FuzzerIds.IdFits | client/fuzzer.go:184-196 | all ids of a host respect AFL's limit of 32 characters exactly when its name has at most 27: the truncation is applied to the wrong variable |
| FuzzerIds.HexLength | client/fuzzer.go:195-196 | how many digits the number has in an id: one to four |
| FuzzerIds.HexCanonical | client/fuzzer.go:195-196 | the numeral has lower-case digits and no leading zeros |
| FuzzerIds.IdCanBeTooLong | client/fuzzer.go:190-196 | a hostname whose ids break the limit |
| FuzzerIds.MkFuzzerId | client/fuzzer.go:183-197 | position by position: the characters of the hostname, with `_` for each that is not a letter, digit, `_` or `-`, then a `-`, then a hexadecimal numeral of the low 16 bits of the number; the truncated hostname is never used |
| Archiver.DiskArchiver.ArchiveOne | server/archiver.go:136-162 | one copy with an arbitrary fault: unchanged files if it fails early, a truncated destination if it fails while copying, success exactly without a fault and with nothing in the way |
| Archiver.DiskArchiver.LsDstFiles | server/archiver.go:167-189 | the bare names of the files directly in the directory, none if it is missing |
| Archiver.ArchiveManifest | server/archiver.go:62-82 | all entries are tried in order, a failing one stops no other |
| Archiver.ManifestResult | server/archiver.go:62-82 | afterwards each destination whose copy succeeded holds the source's body, a failed one its old body or a piece of the source's; sources are unchanged |
| Archiver.OnlyFaultsFail | server/archiver.go:136-162 | where nothing is in the way an entry succeeds exactly if it has no fault, and its destination's body is known in every case |
| Archiver.FailedCopyTruncates | server/archiver.go:153-160 | one copy that fails shortens an earlier good one |
| Copies.LastCopyCounts | server/archiver.go:149-160 | of interleaved copies of one crash, the one that created the destination last counts: once it has come to the end of the source the archive holds the body of then, or more of it, whatever the others do, until another copy creates the file |
| Copies.SuccessIsNotEnough | server/archiver.go:149-160 | another copy that succeeds does not: one that has created the file in between, and fails, can leave zeros at the front |
| Copies.AloneAsCopyOne | server/archiver.go:136-162 | a copy that is alone leaves what the sequential model of one copy says |
| Backup.NewSimpleManifest | server/archiver.go:318-346 | the manifest has exactly the files below the root, each once, each with its place below the destination; panics exactly when there is nothing at the root |
| Text.DigitsCanonical | server/archiver.go:87 | a printed number has no leading zeros |
| Text.NumeralRoundTrip | server/archiver.go:87 | printing what a numeral without leading zeros says gives the numeral back, so a number has only one |
| Backup.ArchiveToTimestampedDir | server/archiver.go:85-90 | the same as a backup into a directory named by the decimal timestamp, a single component, whose numeral `Text.DigitsCanonical` and `Text.NumeralRoundTrip` pin |
| Backup.BackupCopies | server/archiver.go:56-90 | a backup into a fresh place holds nothing but copies; without failures it equals the source, even if it lies inside it, and nothing else changes in any case |
| Backup.BackupFile | server/archiver.go:62-82 | each file is in the backup whole, cut or not at all, exactly as its own copy goes, whatever the other copies do |
| Backup.BackupDirs | server/archiver.go:136-145 | a backup has the directories with a file somewhere below them and no others |
| Backup.BackupRestores | types/fleet_file_manager.go:56-74 | reading outputs from the backup equals reading them from the source if and only if every directory that has to be read holds a file at some depth |
| Backup.EmptyDirBreaksBackup | types/fleet_file_manager.go:62-68 | one fuzzer with a file but an empty directory makes reading the whole backup fail |
| Witness.BackupUnreadable | types/fleet_file_manager.go:62-68 | a server with one fuzzer and no hangs whose outputs can be read, but not from its complete backup |
| Server.NewCrashManifest | server/server.go:126-167 | the manifest has exactly the local crashes not in the listing, each once, whatever order the map yields |
| Server.SkipNeverFires | server/archiver.go:164-189 | with the disk archiver's listing the check against archived crashes holds nothing back |
| Server.ArchiveNewCrashes | server/server.go:123-170 | copies every local crash; the server dies exactly when the archive or the outputs cannot be read, before anything is written |
| Server.CrashArchived | server/server.go:142-169 | after every call each crash on the server whose own copy did not fail is at its place in the archive with its current body, whatever failed before or beside it, provided the archive is apart from the server's files; otherwise it is empty in both places |
| Server.LiteralPlace | server/server.go:131-163 | the place of a crash in the archive is `realtime-crashes/output/<id>/crashes/<name>` below its root |
| Server.ArchivedExactlyApart | server/archiver.go:145-160 | a non-empty crash with nothing in the way of its place, copied without a fault, is in the archive if and only if the archive is apart from the server's files |
| Server.CrashEmptied | server/archiver.go:149-160 | where it is not, source and destination are one file, a copy without a fault succeeds, and every copy that gets as far as creating leaves it empty |
| Witness.CrashCopiedOntoItself | types/config.go:58-71 | a server with an accepted configuration that empties its crash in a call without any fault |
| Server.NothingElseChanges | server/server.go:168-169 | paths that are no crash's place are unchanged |
| Server.StaysArchived | server/archiver.go:153-160 | an archived crash stays intact through a call exactly if its copy in that call is not cut short, provided the archive is apart from the server's files; otherwise exactly if it is empty or its copy fails before creating |
| Witness.CrashLost | server/archiver.go:153-160 | a server whose archived crash a later call cuts to any given shorter length |
| Server.PostState | server/server.go:32-63 | the server survives an upload exactly if its directories can be made, all its files can be opened, and the archive and the outputs can be read then; the upload is then stored, archived and noted in the client table, and otherwise the table is unchanged |
| Server.UploadedCrashArchived | server/server.go:53-62 | when an upload has been handled, each of its crashes whose copy did not fail is in the archive, overlaid on what the server had, provided the archive is apart from the server's files; otherwise it is empty |
| Survival.SurvivesExactly | server/server.go:137-169 | a surviving server survives the next call exactly if the way to each place in the archive that can be made passes through no directory directly in `output/`, or through one that is there already |
| Survival.SurvivesAll | server/server.go:126-140 | with the archive neither below `output/` nor above the base directory, a server that has survived once can read its archive and its outputs ever after, whatever well-formed uploads it handles, whatever backups it makes by the same archiver, and whichever copies fail |
| Survival.ArchiveInsideKills | server/server.go:137-140 | with the archive directly in `output/` the first copied crash makes reading the outputs fail |
| Survival.BackupInsideKills | server/archiver.go:38-53 | with the archive directly in `output/` a backup makes reading the outputs fail, too, unless there is a file below a `queue` in the base directory |
| Dedup.CopiedOnce | server/server.go:126-169 | with listings as the interface promises them, over any run without failures each crash is copied at most once and exactly the crashes found are copied |
| Dedup.KeepsFirstBody | server/server.go:157-166 | over such a run the archive holds the current body of a crash exactly if it is still the body of the first call that found it |
| Dedup.RepeatCallIsEmpty | server/server.go:157-169 | a call that finds nothing new has an empty manifest |
| Dedup.S3Dedups | server/archiver.go:236-261 | the S3 listing lets the check work if and only if the root key is empty; otherwise every crash is copied in every call |
| Text.SplitJoins | types/stats.go:73 | joining the lines gives the file back |
| Text.TrimIs | types/stats.go:80-81 | trimming removes a run of the character at either end, and all of it |
| Text.ParseUintIs | types/stats.go:83-86 | a text is an unsigned number exactly if it is decimal digits, at least one, of a value below 2^64 |
| Stats.ParseStats | types/stats.go:41-203 | splitting and parsing a whole file gives the declarative verdict on its lines |
| Stats.ParseLines | types/stats.go:69-174 | the loop with its bitmask and one value per key computes the declarative verdict on the lines |
| Stats.LineOfText | types/stats.go:74-81 | which texts are blank, without a colon, of an unknown key, or of which key and with which value |
| Stats.UnknownLine | types/stats.go:158-164 | a line of an unknown key stays one with any padding and any value, colons included |
| Stats.ParsesText | types/stats.go:69-203 | in terms of the text alone: a file parses exactly if no line stops the parser and all 25 keys have a line; each of the 25 named fields of the record is then what the last line of the key of that name says, as an integer, a float, a percentage or text; without a line for some key the fields are missing |
| Stats.StopsAtFirst | types/stats.go:74-168 | the first line that stops the parser decides how: a panic if it has no colon, an error with its key and value otherwise |
| Stats.ParsesLastOccurrences | types/stats.go:69-174 | parsing succeeds exactly when every non-empty line has a colon, every recognised numeric value parses and all 25 keys occur; each field is the value of its key's last line |
| Stats.AllCovered | types/stats.go:172-174 | the mask equals 33554431 exactly when all 25 bits are set |
| Stats.StatsRoundTrip | types/stats.go:41-203 | the printed file of a record, its lines in any order and mixed with empty lines and lines whose trimmed text before the first colon is no key, parses back to that record |
| Stats.PrintedLayout | types/stats_test.go:7-32 | printed lines have the layout of AFL's own, one of each kind written out |
| Stats.TwoDecimalsIs | types/stats_test.go:12-22 | the floats that can be printed are the hundredths |
| Stats.ReadDecimalReadsHundredths | types/stats.go:99-131 | a two-decimal numeral reads back as exactly its value |
| Nodes.Setup | server/server.go:180-183 | the reaper's copy of the table refers to the same two maps as the global one |
| Nodes.CleanUpOldNodes | server/reaper.go:24-32 | a sweep deletes from the reaper's copy of the maps exactly the clients of the global table that are stale by the copy's times |
| Nodes.Sweep | server/server.go:180-183 | as wired, copy and global table share their maps: exactly the stale clients leave both |
| Nodes.Serve | server/reaper.go:36-45 | a series of updates and ticks on the shared maps computes the table the event history determines |
| Nodes.PresentUntilStale | server/reaper.go:24-32 | a silent client is present exactly as long as no sweep came later than its last update plus the interval |
| Nodes.DueIs | server/reaper.go:36-45 | sweep n is due n intervals after the start |
| Nodes.ReaperBound | server/reaper.go:36-45 | with ticks one interval apart a client silent since u is present through every sweep up to u + interval and gone from u + 2 * interval on |
| Locks.StepInv | server/nodes.go:23-44 | every single lock operation and map access of `setStats`, `deleteNode`, a reader or the sweep keeps the invariant that ties lock states, thread positions and the two maps |
| Locks.Linearizable | server/nodes.go:23-44 | whenever no thread holds `statsLock` for writing the table is what the completed calls make one after the other, and both maps have the same clients |
| Locks.ReaderView | server/metrics_poller.go:35-38 | a reader of the statistics sees such a table and it cannot change under it |
| Locks.OneMutator | server/nodes.go:35-44 | at most one thread at a time is about to change either map although `deleteNode` holds `updatesLock` only for reading |
| Locks.NoDeadlock | server/nodes.go:23-44 | from any reachable state every schedule ends within a bound unless new calls start, and it ends only where all calls have returned |
| Locks.MissingTime | server/reaper.go:27-28 | the unlocked sweep meets a client without a time exactly when the client is new and its `setStats` is between its two writes |
| Locks.FreshClientReaped | server/reaper.go:24-32 | a client between the two writes of its first registration can be culled by a sweep that began at the time of that registration |
| Locks.RevivedClientReaped | server/reaper.go:24-32 | a client that reports again after the sweep has looked at its old time is culled all the same |
| Locks.CulledWrongly | server/reaper.go:27-29 | when the sweep's deletion holds `statsLock`, the client's time is recent enough exactly if a recent enough `setStats` has completed since the sweep looked and is the client's last call |
| Codegen.Generator.DefTreeOfDepth | examples/client/ruby-complex/codegen/generate_def_code.rb:144-176 | the recursion over a global counter emits the definitions of the functional generator |
| Codegen.Generator.GenerateDefNodes | examples/client/ruby-complex/codegen/generate_def_code.rb:178-180 | started with the counter at zero, emits the whole program of that depth |
| Codegen.GeneratesHeap | examples/client/ruby-complex/codegen/generate_def_code.rb:144-180 | for every depth the output is the heap-ordered complete tree of 2^depth - 1 definitions |
| Codegen.ProgramIs | examples/client/ruby-complex/codegen/generate_def_code.rb:144-180 | definition i is `entry_point` or `f(i-1)`, compares with its own character, and calls `f(2i)` and `f(2i+1)` as long as they exist, or else raises or is happy |
| Codegen.ClosedAndTreeShaped | examples/client/ruby-complex/codegen/generate_def_code.rb:144-180 | every called name is defined exactly once and every definition but the entry point is called exactly once |
| Codegen.RenderedDistinct | examples/client/ruby-complex/codegen/generate_def_code.rb:148-151 | different names are different in the emitted text |
| Codegen.RenderedIs | examples/client/ruby-complex/codegen/generate_def_code.rb:148-151 | a name is `entry_point` or an `f` and a decimal numeral without leading zeros |
| Codegen.AlwaysExactReads | examples/client/ruby-complex/codegen/generate_def_code.rb:56-69 | a program of depth d reads exactly d times on any input and never gets stuck |
| Codegen.EveryCrashReachable | examples/client/ruby-complex/codegen/generate_def_code.rb:115-137 | each of the 2^(d-1) leaf definitions has an input that reaches it and raises there |
| Codegen.CrashesOnlyAtLeaves | examples/client/ruby-complex/codegen/generate_def_code.rb:115-137 | a run ends at the leaf its comparisons lead to and raises exactly if the last byte read is that leaf's character |

## Left out

- HTTP, JSON, routing, the admin pages, metrics, logging and Sentry: foreign libraries. JSON is taken as the identity.
- Flag parsing, configuration and the AFL command line: single-branch facts.
- Symbolic links and permissions: paths are lexical, and a call fails only because of a missing parent, a file in the way of a directory or a directory in the way of a file. Failing copies of the archiver are the exception.
- Races between the separate `mkdir` calls and other requests, and an `output/` directory that disappears: `MkAllOutputDirs` is one step of a handler, and the protocol's trees have no directories.
- Files of `output/<id>` outside the three corpus directories, among them `fuzzer_stats` while it is uploaded: the parser is modelled on its own.
- Fuzzer.stop and Fuzzer.start: process signals, present as the protocol's pause and resume steps.
- Client.UploadState: whether a try reads the request's body is arbitrary; a partly read body never arrives.
- Stats.ParseStats: floating-point fields hold the exact decimal value, and the numeral reader is a parameter; signs, exponents and rounding of `strconv.ParseFloat` are not modelled.
- Stats.ReadDecimalReadsHundredths: reads decimals exactly over the reals, where `strconv.ParseFloat` rounds to a double.
- Copies.LastCopyCounts: a crash on the server only grows meanwhile, and is not copied onto itself.
- Survival.SurvivesAll: the base directory does not lie in a directory that a backup is written to.
- S3Archiver: keys and listings only; storing an object is all-or-nothing by its interface.
- Backup.NewSimpleManifest: does not model the lexical order of the walk, on which nothing depends, nor files that change during the walk.
- Backup.ArchiveToTimestampedDir: takes timestamps to be non-negative.
- Nodes.ReaperBound: ticks are exactly one interval apart and a sweep takes no time, as a ticker that drops no tick would have it.
- Locks.State: does not model that the Go runtime aborts when it detects a map iterated during a write, which the unlocked sweep can cause.
- Refinement.ServeQueues: the same, and the server's files do not change while it answers; `Sync.AnswerOf` covers the case that they do.
- Refinement.ReadForUpload: relates reading in one go to the protocol's piecewise reading; the disk is not changed by others while the method runs.
- NullArchiver: does nothing.
