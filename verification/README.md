# Verified models of Gitea's stateful core

This project models ten self-contained parts of Gitea in Dafny and proves what they promise. Each
part has a specification as functions over values, the code's own form as classes and methods that
change state in place, proofs that the second does what the first says, and theorems about the first
over all inputs and all histories. `dafny verify dfyconfig.toml` checks everything.

| part | files |
|---|---|
| the database file system: blocks in a table refine flat byte arrays | `DbfsFlat`, `DbfsCalls`, `DbfsBlocks`, `Dbfs` |
| the Actions state machine: claims, reports, stops and cancels on stale rows | `ActionsStatus`, `ActionsModel`, `ActionsRuns`, `ActionsHistory`, `ActionsSteps`, `ActionsConcurrency`, `ActionsCancel`, `ActionsStale`, `Actions` |
| the in-place merge of coverage profiles | `CoverBlocks`, `CoverFinish`, `CoverFold`, `CoverCounts`, `CoverMerge` |
| access token scopes: parser, printer, queries | `ScopeText`, `Scopes`, `ScopePrint`, `ScopeRoundTrip`, `ScopeQueries` |
| the varint log index | `Varint` |
| Git pkt-lines, the proc-receive commands and the pre-receive batches | `PktLine`, `ProcReceive`, `HookBatches` |
| nested transactions | `TxModel`, `Tx` |
| the cache of access token lookups | `TokenModel`, `Tokens` |
| regenerating and appending to authorized_keys | `KeyLines`, `AuthorizedKeys` |
| batch-wise iteration over LFS rows that the callback changes | `LfsModel`, `Lfs` |

Conventions: a database table is a map from row id to row, or a sequence of rows where the order of
rows is visible; an update reports how many rows it hit; columns that are zero are skipped unless
they are listed. An error return is a value of a datatype. Clocks, hashes and the answers of the
server and of callbacks are parameters. 64-bit integers are bounded where the code depends on it (`Bytes`).

## What the proofs found

- `tools/gocovmerge.go:42` probes `p.Blocks[startIndex]` without a check. A merge panics there exactly
  when some block's probe leaves the list and every block before it can be merged
  (`CoverFinish.PanicIff`, with an input in `CoverFinish.MergePanics`); an overlap before that block
  stops the merge first (`CoverFinish.OverlapComesFirst`). A merge of at least one block that gets
  through has all its probes in range: the list is not empty and, if more than one block is merged, ends
  after the last but one of them (`CoverFinish.FinishesIff`). The abort "OVERLAP AFTER" cannot happen.
- The guard `task_id = 0` of a claim does not look at the status. A job that was cancelled before any
  runner took it is revived by a claim whose row was read earlier: `ActionsHistory.ClaimRevivesIff` says
  exactly when, `ActionsHistory.CancelledJobCanRun` is such a history.
- A step that has finished and was started is set back to Running by any later report on its unfinished
  task that leaves it out, or that names it with a start time and no result: `ActionsSteps.StepChangesIff`
  says exactly when, `ActionsSteps.FinishedStepRunsAgain` shows it.
- The job-level concurrency cancel leaves its own job out of the jobs it finds, but not its own run out
  of the runs: `ActionsConcurrency.JobCancelHitsItselfIff` says exactly when it ends the job it prepares,
  `ActionsConcurrency.JobCancelsItself` is such a state. Called for a job that is being inserted, it can
  end jobs of the same run (`ActionsConcurrency.NewJobHitsSiblingsIff`).
- A written pkt-line payload of 1 to 65516 bytes is read back as itself. The reader refuses the line of an
  empty payload and of one of 65517 to 65531 bytes. From 65532 bytes on the four-digit header counts modulo
  65536: 65532 bytes are read as a flush, with the payload left in the stream; 65533 to 65536 bytes are
  refused; the next lengths are read as data without their last 65536 bytes (`PktLine.PacketOutcome`).
- `RegeneratePublicKeys` is not idempotent on lines that end in more than one CR, because the line scanner
  drops one each time (`KeyLines.IdempotentIff`). An append to a file whose last line lacks its newline,
  or whose last line is a managed comment without its second line, leaves a stray line behind at the next
  regeneration (`KeyLines.AppendThenRegenerateIff`).
- The token cache compares ids and the last eight characters only. Its answer is that of the plain lookup
  exactly when the row it takes still has the hash of the token (`TokenModel.AgreeIff`); an update that
  changes a stored hash makes the two differ (`TokenModel.ChangedHashShows`).
- After a nested call failed, writes through the closed session are kept or lost as the ORM decides;
  `models/db/context.go` does not prevent later ones. Earlier ones never survive (`TxModel.FailureLosesEarlier`).

## Model

| member | source | states |
|---|---|---|
| `DbfsFlat.OverwriteIsSplice` | models/dbfs/dbfile.go:91-153 | a non-empty write leaves the old content cut or zero-filled up to the offset, then the bytes, then whatever lay beyond them |
| `DbfsFlat.OverwriteAdjacent` | models/dbfs/dbfile.go:91-153 | two writes one after the other are one write of the joined bytes, so splitting a write at block boundaries cannot be seen |
| `DbfsFlat.ReadLen` | models/dbfs/dbfile.go:41-75 | one read stops at the end of the block or of the file, and gives nothing only at the end of the file or for an empty buffer |
| `DbfsFlat.ReadToEofIsSuffix` | models/dbfs/dbfile.go:41-89 | reading until EOF returns exactly the rest of the file, for every block size, buffer size and starting offset |
| `DbfsFlat.WriteThenReadBack` | models/dbfs/dbfile.go:77-180 | write, seek back and read to the end returns the written bytes first |
| `DbfsFlat.StepOk` | models/dbfs/dbfile.go:77-320 | no call through one handle breaks what holds of the files and of every other handle |
| `DbfsBlocks.BlockStartIsMod` | models/dbfs/dbfile.go:46-48 | the block of a byte starts at its offset less the remainder by the block size |
| `DbfsBlocks.AlignedIsMultiple` | models/dbfs/dbfile.go:104-107 | a block offset is aligned exactly when it is a multiple of the block size |
| `DbfsBlocks.UpsertUnique` | models/dbfs/dbfile.go:125-133 | update-else-insert never stores two rows for one block offset of a file |
| `DbfsBlocks.WriteBlock` | models/dbfs/dbfile.go:103-141 | storing one patched block overwrites exactly that stretch of the flat content, and keeps blocks aligned, no longer than the block size and inside the file |
| `DbfsBlocks.UpsertOtherFile` | models/dbfs/dbfile.go:125-133 | storing a block of one file leaves the content of every other file alone |
| `DbfsBlocks.DeleteOtherFile` | models/dbfs/dbfile.go:307-320 | deleting the blocks of one file leaves the content of every other file alone |
| `Dbfs.File.ReadAt` | models/dbfs/dbfile.go:41-75 | what is read at an offset is that part of the flat content, holes and short blocks read as zeros |
| `Dbfs.File.Read` | models/dbfs/dbfile.go:77-89 | a read on the block tables returns, and moves the offset by, what the flat file says |
| `Dbfs.File.WriteChunk` | models/dbfs/dbfile.go:104-141 | one turn of the write loop overwrites the part of the data that fits into the current block |
| `Dbfs.File.WriteChunks` | models/dbfs/dbfile.go:91-153 | the loop as a whole overwrites all of the data, moves the offset by its length and grows the size if the end moved |
| `Dbfs.File.Write` | models/dbfs/dbfile.go:91-153 | a write turns the flat content into the overwritten content and changes no other file; access and missing-file errors change nothing |
| `Dbfs.File.Seek` | models/dbfs/dbfile.go:155-180 | a seek moves to a target that is an int64 of at least 0 and otherwise fails and stays, including when the int64 sum wraps |
| `Dbfs.File.Size` | models/dbfs/dbfile.go:322-328 | the size is the length of the flat content |
| `Dbfs.File.LoadMetaByPath` | models/dbfs/dbfile.go:202-211 | a handle is given the row and block size of its path, if there is one |
| `Dbfs.File.CreateEmpty` | models/dbfs/dbfile.go:262-277 | creating adds an empty file under the next id, or fails if the handle already has one |
| `Dbfs.File.Truncate` | models/dbfs/dbfile.go:279-292 | truncating empties the content and deletes the blocks, and leaves all other files alone |
| `Dbfs.File.OpenWritable` | models/dbfs/dbfile.go:226-259 | a missing file is made exactly with O_CREATE, an existing one refused exactly with O_CREATE and O_EXCL, each error changes nothing; then the content is empty if the file is new or O_TRUNC is set, the offset is its end with O_APPEND, and no other file changes |
| `Dbfs.File.Open` | models/dbfs/dbfile.go:213-260 | opening grants the access the flags ask for and otherwise does to the flat file system what the flags say |
| `Dbfs.Database.Remove` | models/dbfs/dbfs.go:101-108 | removing a path deletes that file and its blocks and nothing else |
| `Dbfs.OpenFile` | models/dbfs/dbfs.go:71-82 | a new handle on a path, opened with flags, against the flat file system |
| `Dbfs.ReadAll` | models/dbfs/dbfs_test.go:17-110 | reading in pieces of any size until EOF returns the flat content from the offset on |
| `Dbfs.Perform` | models/dbfs/dbfile.go:77-320 | one call of any kind on the tables has the effect and the outcome it has on flat files |
| `Dbfs.Replay` | models/dbfs/dbfile.go:77-320 | any history of opens, seeks, writes, reads and removals, through any number of handles, returns what the flat file system returns and ends in the tables for it |
| `DbfsCalls.OpenWritableMeans` | models/dbfs/dbfile.go:226-259 | the same of the flat file system |
| `DbfsCalls.OpenMeans` | models/dbfs/dbfile.go:213-260 | a path has a file after an open exactly if it had one or the flags write and create; the error is exist, not exist or none exactly as the flags and the file say, and an error changes nothing; the content is empty or the old one by O_TRUNC; the new handle stands at the start or, writing with O_APPEND, at the end, and may read and write as the flags say |
| `DbfsCalls.OpenLeavesOthers` | models/dbfs/dbfile.go:213-260 | an open changes the content of no other path |
| `DbfsCalls.WriteMeans` | models/dbfs/dbfile.go:91-153 | a write through a handle of a path is refused exactly without write access, or else splices its bytes into the content at the offset and moves behind them |
| `DbfsCalls.WriteLeavesOthers` | models/dbfs/dbfile.go:91-153 | and changes the content of no other path |
| `DbfsCalls.ReadMeans` | models/dbfs/dbfile.go:77-89 | a read is refused exactly without read access, or else gives a non-empty piece of the content at the offset, or EOF at its end, and changes no content |
| `DbfsCalls.OpenThenWrite` | models/dbfs/dbfile.go:213-260 | an open followed by a write gives the old content and then the bytes with O_APPEND, the bytes in place of the first ones without, just the bytes with O_TRUNC, and is refused exactly for a read-only open |
| `DbfsCalls.OpenThenRead` | models/dbfs/dbfile.go:213-260 | an open followed by a read gives the first bytes of the content, or EOF with O_RDWR and O_APPEND, and is refused exactly for a write-only open |
| `DbfsCalls.SeekMeans` | models/dbfs/dbfile.go:155-180 | a seek counts from the start, the offset or the end of the content, and fails for any other origin or a target outside int64 or below 0 |
| `DbfsCalls.RemoveMeans` | models/dbfs/dbfs.go:101-108 | a removal succeeds exactly if there is a file, which is gone then, and leaves every other path alone |
| `DbfsCalls.RemovedHandle` | models/dbfs/dbfs.go:101-108 | a handle whose file was removed gets not-exist errors from reads and writes |
| `ActionsStatus.AggregateIsMax` | models/actions/run_job.go:214-245 | the status of a run is the greatest of its jobs' under Skipped < Success < Unknown < Blocked < Failure < Waiting < Running < Cancelled |
| `ActionsStatus.AggregateComposes` | models/actions/run_job.go:214-245 | the aggregate of two groups of jobs is the aggregate of their aggregates |
| `ActionsStatus.AggregateIsLast` | models/actions/run_job.go:214-245 | with that order written as the list of the status numbers: the aggregate is the last of it that occurs |
| `ActionsStatus.DoneNumbers` | models/actions/status.go:14-57 | the statuses by number, and which of them are done |
| `Actions.AggregateJobStatus` | models/actions/run_job.go:214-245 | the seven flags compute that aggregate, and Unknown for no jobs, whatever the order of the jobs |
| `Actions.Tables.UpdateRepoRunsNumbers` | models/actions/run.go:196-221 | both counters of the repository become fresh counts of its runs and its finished runs |
| `Actions.Tables.RefreshRun` | models/actions/run_job.go:175-210 | the run takes the aggregate of its jobs, its start and stop times are set once, and the counters are recounted |
| `Actions.Tables.UpdateRunJob` | models/actions/run_job.go:153-212 | the guarded update writes all or nothing and says so in its count; zero columns are skipped unless listed; only a written status refreshes run and counters |
| `Actions.Tables.PickJob` | models/actions/runner.go:181-184 | the first waiting job whose labels the runner has |
| `Actions.Tables.CreateTaskForRunner` | models/actions/task.go:233-340 | a claim inserts the task and its steps and takes the job together, or changes no task, job or step |
| `Actions.Tables.ClaimJob` | models/actions/task.go:265-340 | when the guarded update misses the job row, the inserted task and steps are taken back |
| `Actions.Tables.StopTask` | models/actions/task.go:432-482 | an unfinished task, its job and its unfinished steps get the final status; a finished task is left alone; all rows agree afterwards |
| `Actions.Tables.UpdateTaskByState` | models/actions/task.go:356-430 | a report on the runner's own unfinished task changes task, job, steps and run consistently: every step takes its result, or runs if it has started, or keeps its status, and takes each reported value that is not zero; any other report changes nothing |
| `Actions.Tables.CancelJobs` | models/actions/run.go:266-311 | given rows read at any earlier time, each unfinished job that still is what the row says is cancelled or stopped, all rows agree afterwards, and exactly the jobs of the turns that hit are returned, in order |
| `Actions.Tables.CancelPreviousJobsByRunConcurrency` | models/actions/run.go:405-459 | given the run as a value, with or without a row: exactly the jobs end that are, or whose other run is, in its repository and group and Waiting, Blocked or, with cancel-in-progress, Running; every other job keeps its row, every changed job is returned; with cancel-in-progress off no running job is touched, also between the inserts of a new run |
| `Actions.Tables.CancelPreviousJobsByJobConcurrency` | models/actions/run_job.go:247-281 | the same for a job-level group, given the job as a value |
| `ActionsRuns.PutJobAggregates` | models/actions/run_job.go:153-212 | after any change of a job row every run is the aggregate of its jobs and every counter is the recount |
| `ActionsRuns.ClaimKeepsInv` | models/actions/task.go:233-340 | a claim keeps links, task and job statuses, aggregates and counters consistent |
| `ActionsRuns.StopKeepsInv` | models/actions/task.go:432-482 | stopping a task keeps them consistent |
| `ActionsRuns.UpdateKeepsInv` | models/actions/task.go:356-430 | a report keeps them consistent |
| `ActionsRuns.CancelOneKeepsInv` | models/actions/run.go:268-307 | cancelling from a stale row keeps them consistent |
| `ActionsSteps.StepsAfterReport` | models/actions/task.go:409-427 | after a report a step has its result if there is one, runs if there is none but a start time, and else keeps its status; each reported value that is not zero is the new value of its own column, all else stays, and no other task's steps change |
| `ActionsSteps.ReportedTask` | models/actions/task.go:382-402 | a result and its stop time are those of the task and its job; without a result both keep their rows |
| `ActionsSteps.RefusedReport` | models/actions/task.go:371-380 | a report from another runner, on no task or on a finished one changes nothing |
| `ActionsSteps.StoppedSteps` | models/actions/task.go:463-479 | a stop leaves no step unfinished: it gives the others the status, the time and, if they had none, a start time, and does not touch finished ones |
| `ActionsSteps.StoppedTask` | models/actions/task.go:432-461 | the stopped task and its job have the status and the time |
| `ActionsSteps.PickIs` | models/actions/runner.go:181-184 | the job picked is the first whose labels the runner has |
| `ActionsSteps.ClaimMeans` | models/actions/task.go:253-340 | a claim that goes through, row by row: a fresh running task of the next attempt, its waiting steps, and the job running with that task, started now |
| `ActionsSteps.CancelledJob` | models/actions/run.go:273-290 | a job without a task is cancelled in its own row, with the time |
| `ActionsSteps.RunAfterJob` | models/actions/run_job.go:175-210 | after a job changed its run starts when it first runs and stops when it is first done |
| `ActionsSteps.ClosedMeans` | models/actions/run.go:206-221 | the runs counted as closed are those that succeeded, failed, were cancelled or skipped |
| `ActionsSteps.CountersMean` | models/actions/run.go:196-221 | in every consistent state both counters of a repository are the numbers of such runs |
| `ActionsSteps.RunTimesAreFinal` | models/actions/run_job.go:195-205 | over any history the start and stop time of a run, once set, never change |
| `ActionsSteps.StepChangesIff` | models/actions/task.go:409-427 | one event changes the status of a finished step exactly if it is an accepted report that names the step with another result, or gives it no result and finds it started |
| `ActionsSteps.FinishedStepStays` | models/actions/task.go:409-427 | over any history without such an event a finished step keeps its status |
| `ActionsSteps.FinishedStepRunsAgain` | models/actions/task.go:409-422 | a finished step with a start time is set back to Running by a later report that leaves it out |
| `ActionsHistory.EveryStateIsGood` | models/actions/run.go:266-311 | in every state of any interleaving of claims, reports, stops and cancels on stale rows, runs are aggregates of jobs, jobs agree with tasks and counters are right, and nothing settled has been undone |
| `ActionsHistory.OneTaskPerJob` | models/actions/task.go:326-340 | at no two times of a history do two different tasks belong to one job |
| `ActionsHistory.DoneIsFinal` | models/actions/task.go:377-380 | a finished task never changes again, and its job keeps the status |
| `ActionsHistory.StaleRowsAreUsable` | models/actions/run.go:268-307 | any row read earlier in a history may be handed to a later claim or cancel |
| `ActionsHistory.LostRace` | models/actions/task.go:326-340 | a claim changes a row exactly when the job it picks among any rows found can be parsed and still has no task; a lost race uses up a task id and nothing else |
| `ActionsHistory.LostCancel` | models/actions/run.go:273-290 | a cancel from a row that is done, or whose job has meanwhile been taken, changes nothing |
| `ActionsHistory.ClaimRevivesIff` | models/actions/task.go:326-330 | a claim changes the status of a finished job exactly when it picks that job and the job never got a task: the guard does not look at the status |
| `ActionsHistory.CancelledJobCanRun` | models/actions/task.go:326-330 | a history of two steps in which a cancelled job is claimed from a stale row and runs |
| `ActionsHistory.ChangedAreReturned` | models/actions/run.go:266-311 | every job that a cancel changes is among those it returns |
| `ActionsConcurrency.CancelEffect` | models/actions/run.go:266-311 | cancelling the current rows of a set of jobs finishes exactly those jobs |
| `ActionsConcurrency.NoneRunning` | models/actions/run.go:427-459 | a run with a running job is Running or Cancelled |
| `ActionsConcurrency.AggregatesAreQuiet` | models/actions/run.go:427-459 | so no run whose status is Waiting or Blocked has a running job |
| `ActionsConcurrency.InsertionIsQuiet` | services/actions/run.go:79-157 | the same holds between the inserts of a run and of its jobs, when the run's status is not yet an aggregate |
| `ActionsConcurrency.CancelAllKeepsQuiet` | models/actions/run.go:266-311 | and any cancel keeps it so |
| `ActionsConcurrency.RunCancelSparesRunning` | models/actions/run.go:427-459 | without cancel-in-progress a run-level cancel, for a run with or without a row, never stops a running job or its task |
| `ActionsConcurrency.JobCancelSparesRunning` | models/actions/run_job.go:247-281 | without cancel-in-progress a job-level cancel, for a job with or without a row, never stops a running job or its task |
| `ActionsConcurrency.RunCancelFinishesOthers` | models/actions/run.go:427-459 | after a run-level cancel every job of the other runs it found is done, and every job found by its own group, for any run value |
| `ActionsConcurrency.JobCancelHitsItselfIff` | models/actions/run_job.go:247-281 | a job that has a row is ended by its own job-level cancel exactly when its own run is among the runs found |
| `ActionsConcurrency.NewJobHitsSiblingsIff` | models/actions/run_job.go:247-281 | for a job without a row, exactly which of the jobs of its own run are ended: those in the group, or all if the run is found |
| `ActionsConcurrency.JobCancelsItself` | models/actions/run_job.go:247-281 | a valid state in which preparing a blocked job to start cancels that very job |
| `ActionsCancel.CollectedAreEnded` | models/actions/run.go:427-459 | the jobs either cancel collects, by repository, group and the statuses Waiting, Blocked and, with cancel-in-progress, Running |
| `ActionsCancel.RunCancelIff` | models/actions/run.go:405-459 | a run-level cancel changes an unfinished job exactly if it, or its run other than the own one, is in the repository and group with such a status, and the job is done then |
| `ActionsCancel.JobCancelIff` | models/actions/run_job.go:247-281 | the same for a job-level cancel, which spares its own job unless it is ended through its run |
| `ActionsCancel.RunCancelStopsRunning` | models/actions/run.go:435-459 | with cancel-in-progress the running jobs of the group, and those of running other runs of it, are done, and so are their tasks |
| `ActionsCancel.RunningJobIsStopped` | models/actions/run.go:435-459 | a valid state in which a new run stops the running job of an older run in its group |
| `ActionsStale.EveryStateIsStarted` | models/actions/run.go:266-311 | over any history with the protocol's report results, a running job has a task, and a task is running or done |
| `ActionsStale.HarmlessSpareRunning` | models/actions/run.go:268-307 | cancelling rows that were waiting, blocked or done when read stops no running job, however old the rows are |
| `ActionsStale.LateRunCancelSparesRunning` | models/actions/run.go:427-459 | jobs collected for a run in one state of a history and cancelled in any later one: with cancel-in-progress off no running job stops |
| `ActionsStale.LateJobCancelSparesRunning` | models/actions/run_job.go:247-281 | the same for jobs collected for a job |
| `CoverBlocks.LowerBoundIs` | tools/gocovmerge.go:36-45 | the insertion position in a sorted list is the one with smaller starts before it and none at it |
| `CoverBlocks.AtMember` | tools/gocovmerge.go:46 | what a sorted list holds at a position is its one block that starts there, if there is one |
| `CoverBlocks.MergeOneSorted` | tools/gocovmerge.go:46-75 | merging a block keeps the list strictly sorted by start |
| `CoverBlocks.MergeOneAt` | tools/gocovmerge.go:46-75 | merging a block changes the list at that block's start and nowhere else |
| `CoverBlocks.MergeFromAt` | tools/gocovmerge.go:23-76 | a finished merge holds a block at a position exactly if one of the lists did, with its start and end: no block is lost, invented or doubled; the counts are those of CoverCounts.MergeCounts |
| `CoverCounts.OrBits` | tools/gocovmerge.go:52 | a bit of the OR is set exactly if it is set in either number |
| `CoverCounts.BitsDecide` | tools/gocovmerge.go:52 | two numbers with the same bits are the same number |
| `CoverCounts.MergeOneCounts` | tools/gocovmerge.go:50-55 | one merged block: the sum of the counts modulo 2^64 for count and atomic, the bits of either for set |
| `CoverCounts.MergeCounts` | tools/gocovmerge.go:23-76 | the same for two whole lists |
| `CoverCounts.StopReason` | tools/gocovmerge.go:46-62 | why a block cannot be merged: its start with another end; its start and end in an unknown mode; a new start while the block before it ends after it |
| `CoverCounts.FoldCounts` | tools/gocovmerge.go:107-115 | of any finished fold: a count is the plain integer sum of the inputs' counts modulo 2^64 for count and atomic, and for set bit i is set exactly if it is in some input's count |
| `CoverCounts.BlocksInOrder` | tools/gocovmerge.go:36-39 | the blocks of a finished fold are ordered by line, and in one line by column |
| `CoverCounts.FilesInOrder` | tools/gocovmerge.go:79 | its files are ordered by name: a proper prefix first, else by the first character that differs |
| `CoverFinish.FinishesIff` | tools/gocovmerge.go:23-76 | a merge finishes exactly when all probes are in range and each block fits the two given lists |
| `CoverFinish.PanicIff` | tools/gocovmerge.go:41-43 | a merge panics exactly when some block's probe leaves the list and all blocks before it can be merged |
| `CoverFinish.InRangeNeverPanics` | tools/gocovmerge.go:41-43 | a merge whose probes stay in the list does not panic: it suffices that the list is not empty and ends after the last but one block merged |
| `CoverFinish.MergePanics` | tools/gocovmerge.go:41-43 | two blocks behind the only block of a list: an input that panics |
| `CoverFinish.OverlapComesFirst` | tools/gocovmerge.go:57-62 | an input whose probes would leave the list but which an overlap stops before |
| `CoverMerge.Profile.Search` | tools/gocovmerge.go:41-44 | the binary search from the start index finds the position in the whole list |
| `CoverMerge.Profile.Locate` | tools/gocovmerge.go:36-45 | the probe and the search together find the position a search of the whole list would |
| `CoverMerge.Profile.Insert` | tools/gocovmerge.go:70-73 | append, shift and assign insert the block at its position |
| `CoverMerge.Profile.MergeBlock` | tools/gocovmerge.go:35-76 | the in-place step gives what a search over the whole list gives; the new count is the sum modulo 2^64 for count and atomic, and for set has the bits of either; the abort "OVERLAP AFTER" is unreachable; it panics exactly when the start index is past the list |
| `CoverMerge.Profile.Merge` | tools/gocovmerge.go:23-33 | the loop with its moving start index computes the merge, and stops for the same reasons |
| `CoverMerge.SearchName` | tools/gocovmerge.go:79 | the binary search finds the first file name that is not smaller |
| `CoverMerge.AddProfile` | tools/gocovmerge.go:78-88 | a profile is merged into the one of its file, or inserted at its place; no object appears twice |
| `CoverMerge.MergeAll` | tools/gocovmerge.go:107-115 | adding all inputs in turn gives the fold, a list sorted by name with every name once, whose counts are the integer sums or the joined bits of all inputs |
| `CoverFold.NameTotal` | tools/gocovmerge.go:79 | byte-wise name order: of two names exactly one is smaller or they are equal |
| `CoverFold.AddOneOk` | tools/gocovmerge.go:78-88 | adding a profile keeps names sorted and unique and blocks sorted |
| `CoverFold.AddOneProfile` | tools/gocovmerge.go:78-88 | adding a profile changes what is held for its own file to the merge and for no other file |
| `CoverFold.AddAllOk` | tools/gocovmerge.go:107-115 | any finished fold is sorted by name with unique names |
| `CoverFold.AddAllSums` | tools/gocovmerge.go:107-115 | a finished fold holds, for every file and position, the total over all inputs and the end they share |
| `CoverFold.TotalPermutation` | tools/gocovmerge.go:107-115 | the total does not depend on the order of the inputs |
| `CoverFold.OrderDoesNotMatter` | tools/gocovmerge.go:107-115 | two orders of the same inputs that both finish give the same files, starts, ends and counts |
| `Scopes.Parse` | models/auth/access_token_scope.go:238-273 | the hand-written scanner equals: split at commas, drop empties, OR the bits, fail on the first unknown item |
| `Scopes.NextPiece` | models/auth/access_token_scope.go:243-254 | one turn takes the piece before the first comma, and treats a trailing comma as the end |
| `Scopes.ParseOkIff` | models/auth/access_token_scope.go:264-267 | parsing succeeds exactly when every non-empty piece is a scope |
| `Scopes.ParseUnion` | models/auth/access_token_scope.go:257-268 | a bit is set exactly when some piece has it |
| `Scopes.SamePieces` | models/auth/access_token_scope.go:238-273 | order, repeats and stray commas make no difference |
| `Scopes.ParseConcatenation` | models/auth/access_token_scope.go:238-273 | two strings joined by a comma grant what both grant, or fail on the first unknown item |
| `ScopePrint.LookupName` | models/auth/access_token_scope.go:134-169 | every listed scope finds its own bits |
| `ScopePrint.ListScopes` | models/auth/access_token_scope.go:350-368 | a scope is listed exactly when it is held and not covered by the ones listed before it |
| `ScopePrint.ToScope` | models/auth/access_token_scope.go:350-377 | the printer's loop, join and rewrite |
| `ScopePrint.ChosenIsAll` | models/auth/access_token_scope.go:350-368 | what is listed covers exactly the bits of the bitmap |
| `ScopePrint.AllWritesListed` | models/auth/access_token_scope.go:350-368 | with every write scope held, exactly those are listed, after public-only |
| `ScopeRoundTrip.PrintAll` | models/auth/access_token_scope.go:370-376 | with all nine write scopes the printer says "all" |
| `ScopeRoundTrip.PatternAbsent` | models/auth/access_token_scope.go:370-376 | with one of them missing the rewritten text does not occur anywhere |
| `ScopeRoundTrip.PrintSome` | models/auth/access_token_scope.go:370-376 | and then nothing is rewritten |
| `ScopeRoundTrip.ParsePrint` | models/auth/access_token_scope.go:238-377 | parsing what was printed gives the bitmap back, for every bitmap that parsing can produce |
| `ScopeRoundTrip.ParsedIsClosed` | models/auth/access_token_scope.go:87-130 | those bitmaps have no stray bits, and a write bit brings its read bit |
| `ScopeRoundTrip.NormalizePreserves` | models/auth/access_token_scope.go:283-337 | normalising fails exactly on unknown items, changes no bit and no HasScope or HasAnyScope answer, and is idempotent |
| `ScopeRoundTrip.NormalFormIsCanonical` | models/auth/access_token_scope.go:283-291 | two strings have one normal form exactly when they grant the same |
| `ScopeRoundTrip.HasScopeMeaning` | models/auth/access_token_scope.go:307-348 | one listed scope is held exactly when some piece is it, is "all", or is the write scope over it |
| `ScopeQueries.LookupIff` | models/auth/access_token_scope.go:132-169 | a name is known exactly if it is "all" or one of the nineteen listed |
| `ScopeQueries.HoldsMeans` | models/auth/access_token_scope.go:339-348 | one name against the pieces of the string: an error naming it if unknown, and else whether some piece grants it, for "all" whether all nine write scopes are granted |
| `ScopeQueries.HasScopeIff` | models/auth/access_token_scope.go:307-321 | any list of names: true exactly if all are known and granted, false exactly if the first that is not is known, the error exactly if that one is unknown |
| `ScopeQueries.HasAnyScopeIff` | models/auth/access_token_scope.go:323-337 | any list of names: true exactly if one is granted and all before it are known, false exactly if all are known and none granted, the error exactly for the first unknown one with nothing granted before it |
| `ScopeQueries.ParseErrorIff` | models/auth/access_token_scope.go:238-273 | a string parses exactly if all non-empty pieces are known, and else the error names the first that is not |
| `ScopeQueries.ErrorsPassThrough` | models/auth/access_token_scope.go:283-337 | that error is what every query on the string reports |
| `ScopeQueries.ReadNames` | models/auth/access_token_scope.go:55-85 | the listed read scopes and public-only by name |
| `Varint.LogIndexes.ToDB` | models/actions/utils.go:64-71 | ten bytes a number are always enough for the running position, and the result is the varints one after the other |
| `Varint.LogIndexes.FromDB` | models/actions/utils.go:50-62 | decoding appends every whole number, ends without error at the end of the bytes, and keeps what came before a malformed end |
| `Varint.PutUvarint` | models/actions/utils.go:64-71 | a number is written as its base-128 digits at the given position and nothing before it changes |
| `Varint.ReadUvarint` | models/actions/utils.go:52-61 | at most ten bytes are read and an overflow is an error |
| `Varint.ToUnsigned` | models/actions/utils.go:64-71 | the 64-bit shift and complement are the zigzag mapping |
| `Varint.EncodeFormat` | models/actions/utils.go:64-71 | the bytes of a number are its base-128 digits, lowest first, the high bit set on all but the last, without a zero digit at the end |
| `Varint.ReadOutcome` | models/actions/utils.go:50-62 | what any bytes are read as: an overflow, an end, or the number spelled by the digits up to the first byte without high bit |
| `Varint.SampleVarint` | models/actions/utils.go:64-71 | 75 and -1 are stored as the bytes 150, 1, 1 |
| `Varint.MaxLength` | models/actions/utils.go:65 | no 64-bit number takes more than ten bytes |
| `Varint.ReadEncoded` | models/actions/utils.go:50-71 | reading gives back the number written and stops right behind it |
| `Varint.RoundTrip` | models/actions/utils.go:48-71 | every list of signed 64-bit numbers comes back, whatever bytes follow |
| `Varint.ToBytesInjective` | models/actions/utils.go:64-71 | different lists are stored as different bytes |
| `PktLine.HeaderNumber` | cmd/hook.go:797-806 | the four hex digits spell the length modulo 65536 |
| `PktLine.Digits` | cmd/hook.go:797-806 | the writer uses 0 to 9 and a to f, the reader takes capitals too |
| `PktLine.DataIff` | cmd/hook.go:735-779 | which inputs are read as data: four digits that give the length with them, 1 to 65516 bytes, and whatever is behind |
| `PktLine.ReadErrors` | cmd/hook.go:735-779 | each other outcome, by the first four bytes and what was asked for |
| `PktLine.PacketOutcome` | cmd/hook.go:735-813 | what a written line of any length is read as: its header counts modulo 65536 |
| `PktLine.PacketRoundTripIff` | cmd/hook.go:735-813 | a payload written as one pkt-line is read back as itself exactly when it has 1 to 65516 bytes |
| `PktLine.WrappedHeader` | cmd/hook.go:789-813 | a longer payload overflows the header and is read, if at all, as fewer bytes |
| `PktLine.StreamRoundTrip` | cmd/hook.go:602-633 | a list of such payloads and a flush are read back as that list, and the bytes behind the flush are untouched |
| `PktLine.StreamRoundTripOnlyIf` | cmd/hook.go:602-633 | and no list with a payload outside the limits comes back |
| `PktLine.Reader.ReadPktLine` | cmd/hook.go:735-779 | reading a line byte by byte: flush, data, and each of the errors in its order |
| `PktLine.Reader.ReadUntilFlush` | cmd/hook.go:602-633 | the loop collects the data lines up to the flush, or fails as the first bad line does |
| `PktLine.Writer.WriteData` | cmd/hook.go:789-813 | a line is its four hex digits and its data |
| `PktLine.Writer.WriteFlush` | cmd/hook.go:781-787 | a flush is four zeros |
| `PktLine.Writer.WriteLines` | cmd/hook.go:658-712 | data lines one after the other and a flush |
| `PktLine.Exchange` | cmd/hook.go:602-813 | what the writer writes as lines and a flush, the reader reads back, whatever follows in the stream |
| `ProcReceive.ParseIff` | cmd/hook.go:611-617 | a line has three fields exactly if it is the line of the command they make, with no space in the two ids |
| `ProcReceive.CommandsComeBack` | cmd/hook.go:602-618 | the lines of any commands parse back to those commands |
| `ProcReceive.BadLinesArePassedOver` | cmd/hook.go:611-617 | a line that is not the line of a command gives nothing, and those before and after it give what they give without it |
| `ProcReceive.ReadCommands` | cmd/hook.go:602-618 | the loop collects the lines with three fields up to the flush, passes over others, and fails as the first unreadable line does |
| `ProcReceive.ReceiveCommands` | cmd/hook.go:602-618 | the commands one side writes are the commands the hook reads |
| `HookBatches.BatchesAreAll` | cmd/hook.go:211-297 | the batches concatenate to the references, all but the last hold 500, and none is empty |
| `HookBatches.SentColumns` | cmd/hook.go:222-290 | the old ids, new ids and names the server is sent are the first, second and third fields of the checked lines, in order |
| `HookBatches.RequestSizes` | cmd/hook.go:225-290 | a request carries 1 to 500 references, all but the last 500 |
| `HookBatches.PreReceive` | cmd/hook.go:211-297 | the loop over fixed arrays sends exactly those batches in order, up to the first one refused; for a wiki it sends nothing |
| `TxModel.NothingDurableEarly` | models/db/context.go:90-173 | while no nested call has failed, everything written is pending in the one session and nothing is durable, at every moment before the outermost commit |
| `TxModel.FailureLosesEarlier` | models/db/context.go:103-111 | once a nested call fails the session is closed, and whatever the callers do next only writes made after the failure can become durable |
| `TxModel.OwnTxClean` | models/db/context.go:161-173 | without a failed call the outermost call keeps all writes or none |
| `TxModel.OutsideKeeps` | models/db/context.go:90-173 | a run that begins outside a transaction leaves every plain write and, of each outermost call, all writes if it and every call inside succeeded and none if not: for any ORM when no call inside failed, for all runs when a closed session refuses writes |
| `TxModel.NoEarlierWriteSurvives` | models/db/context.go:143-148 | no write made before the failure is in the database afterwards, even if the outermost call returns success |
| `TxModel.KeepsEverythingIff` | models/db/context.go:90-173 | all writes become durable exactly when no nested call failed, the outermost one returned success and the database agreed |
| `TxModel.AllOrNothingIff` | models/db/context.go:90-173 | with a closed session that refuses writes, a transaction is all or nothing, and which one is decided by that condition |
| `TxModel.LateWritesSurvive` | models/db/context.go:140-151 | with a closed session that lets writes through, exactly the writes after the failure survive |
| `TxModel.LaterCallIsSeparate` | models/db/context.go:311-317 | if a closed session no longer counts as a transaction, a later call begins its own, which is kept |
| `Tx.HalfCommitter.Close` | models/db/context.go:103-111 | closing after a commit does nothing; closing without one closes the parent at once |
| `Tx.GetTransactionSession` | models/db/context.go:311-317 | the context's session if it is in a transaction |
| `Tx.BeginTxContext` | models/db/context.go:125-136 | a half committer over the parent's session, or a session of its own |
| `Tx.RunTxContext` | models/db/context.go:125-136 | a call between TxContext and Close has the effect of that call in the model |
| `Tx.RunWithTx` | models/db/context.go:140-151 | WithTx has that effect too |
| `Tx.TxWithNoCheck` | models/db/context.go:161-173 | begin, run, commit unless the function failed, close in any case |
| `Tx.Run` | models/db/context.go:90-173 | any tree of nested calls on real sessions and committers ends in the state the model gives |
| `TokenModel.AgreeIff` | models/auth/access_token.go:142-191 | the cached lookup gives the answer of the plain one exactly when a row taken from the cache still has the token's hash |
| `TokenModel.ChangedHashShows` | models/auth/access_token.go:158-168 | after an update that changes a stored hash, the cached lookup still answers where the plain one finds nothing |
| `TokenModel.CacheIsInvisible` | models/auth/access_token.go:126-191 | over any history of creating, deleting, updating, evicting and asking, every answer is the one without a cache |
| `TokenModel.RevokedStaysRevoked` | models/auth/access_token.go:226-236 | after a token is deleted no later lookup returns it |
| `TokenModel.NewTokenIsFound` | models/auth/access_token.go:100-115 | a token just made is found under its own row, whatever the cache holds |
| `TokenModel.PlainMeans` | models/auth/access_token.go:142-191 | a token is found exactly if it is forty characters of 0-9 and a-f and some row has its last eight characters and its salted hash |
| `TokenModel.DeleteMeans` | models/auth/access_token.go:226-236 | a delete removes the row with the id if it is that user's, or anybody's for user 0; with another user's id it removes nothing and reports not exist |
| `TokenModel.AskRemembers` | models/auth/access_token.go:126-191 | an answer changes no row, a found token is remembered if there is a cache, and no other entry changes |
| `TokenModel.WithoutOne` | models/auth/access_token.go:226-236 | a delete by id removes one row or none |
| `TokenModel.StepKeepsInv` | models/auth/access_token.go:100-236 | no event makes a cache entry point to a row that does not match its token |
| `Tokens.TokenStore.GetAccessTokenBySHA` | models/auth/access_token.go:142-191 | the lookup with its checks, its cache and its loop, state and answer |
| `Tokens.TokenStore.DeleteAccessTokenByID` | models/auth/access_token.go:226-236 | a delete that does not hit exactly one row says so |
| `Tokens.TokenStore.IsWellFormed` | models/auth/access_token.go:147-155 | 40 lower-case hexadecimal digits and nothing else |
| `Tokens.TokenStore.SearchRows` | models/auth/access_token.go:171-189 | the loop returns the first row whose salted hash is the stored one |
| `Tokens.TokenStore.Replay` | models/auth/access_token.go:100-236 | whole histories on the store answer as the plain lookup does |
| `KeyLines.EntriesAreSkipped` | models/asymkey/ssh_key_authorized_keys.go:180-186 | entries the program wrote are skipped as a whole, whatever follows them |
| `KeyLines.KeepIs` | models/asymkey/ssh_key_authorized_keys.go:180-197 | the lines copied are, in order, exactly those that are neither a managed comment nor the line behind one |
| `AuthorizedKeys.AppendedOne` | models/asymkey/ssh_key_authorized_keys.go:46-105 | one key appended: the comment line and its command line, or nothing for a principal or an invalid key |
| `AuthorizedKeys.AppendedInTurn` | models/asymkey/ssh_key_authorized_keys.go:108-161 | a list of keys is appended one key after the other |
| `AuthorizedKeys.RegeneratedIs` | models/asymkey/ssh_key_authorized_keys.go:164-201 | a regeneration is the keys appended to an empty file and then the unmanaged lines |
| `KeyLines.SecondPass` | models/asymkey/ssh_key_authorized_keys.go:164-201 | a second regeneration keeps the same unmanaged lines but takes one more trailing CR off each |
| `KeyLines.IdempotentIff` | models/asymkey/ssh_key_authorized_keys.go:164-201 | regenerating is idempotent exactly when no kept line still ends in a CR |
| `KeyLines.NotIdempotent` | models/asymkey/ssh_key_authorized_keys.go:164-201 | a line of two CRs shows that it is not always |
| `KeyLines.AppendKeeps` | models/asymkey/ssh_key_authorized_keys.go:108-161 | after an append a regeneration keeps what it kept before, or, for an unsettled file, one line more |
| `KeyLines.AppendThenRegenerateIff` | models/asymkey/ssh_key_authorized_keys.go:108-201 | appending and regenerating equals regenerating exactly when the file was settled: no comment waiting for its second line, and a whole last line or an unterminated managed comment |
| `KeyLines.AppendNotSettled` | models/asymkey/ssh_key_authorized_keys.go:108-201 | a last line without its newline swallows the comment of the first entry appended |
| `KeyLines.RegeneratedIsSettled` | models/asymkey/ssh_key_authorized_keys.go:164-201 | what a regeneration writes is settled |
| `KeyLines.StaysSettled` | models/asymkey/ssh_key_authorized_keys.go:108-201 | a file once settled stays settled over any history |
| `KeyLines.UnmanagedLinesStay` | models/asymkey/ssh_key_authorized_keys.go:108-201 | over any history from a settled file the unmanaged lines stay, in order, none lost or doubled, each without one trailing CR per regeneration |
| `KeyLines.RegenerationForgetsHistory` | models/asymkey/ssh_key_authorized_keys.go:108-201 | what a regeneration after any history gives; without trailing CRs, what it would have given at the start |
| `AuthorizedKeys.Scanner.Scan` | models/asymkey/ssh_key_authorized_keys.go:183-190 | one line at a time, one trailing CR dropped, the last line with or without its newline |
| `AuthorizedKeys.WriteKey` | models/asymkey/ssh_key_authorized_keys.go:46-105 | a key that renders writes its two lines, principals included; an invalid one writes nothing |
| `AuthorizedKeys.KeyFile.Append` | models/asymkey/ssh_key_authorized_keys.go:108-161 | the entries of the keys that are valid and no principals go behind the old text |
| `AuthorizedKeys.KeyFile.Regenerate` | models/asymkey/ssh_key_authorized_keys.go:164-201 | the entries of the table, then every unmanaged line in order |
| `AuthorizedKeys.KeyFile.CopyUnmanaged` | models/asymkey/ssh_key_authorized_keys.go:183-199 | the loop drops a managed comment with the line behind it and copies the rest |
| `AuthorizedKeys.KeyFile.Replay` | services/asymkey/ssh_key_authorized_keys.go:33-80 | any history on the file gives the text the model gives |
| `LfsModel.ObjectsAreAll` | models/git/lfs.go:333-346 | the list has every matching object once, by ascending id, with the number of rows that hold it |
| `LfsModel.ObjectsMean` | models/git/lfs.go:320-346 | a row is listed exactly if it is of the repository, beyond the key and older than each time limit set, and its count is the number of rows with its object id |
| `LfsModel.GroupsMean` | models/git/lfs.go:281-296 | a repository is listed exactly if it is beyond the key and has rows, and its count is their number |
| `LfsModel.ObjectsNext` | models/git/lfs.go:345-357 | asking again behind the first object answers the rest |
| `LfsModel.ObjectsBeyond` | models/git/lfs.go:333-346 | what lies ahead, counts included, depends only on the rows a callback may not touch |
| `LfsModel.GroupsAreAll` | models/git/lfs.go:289-296 | the list has every repository above the key that has rows once, ascending, with their number |
| `LfsModel.GroupsNext` | models/git/lfs.go:291-309 | asking again behind the first repository answers the rest |
| `Lfs.VisitsPrefix` | models/git/lfs.go:303-307 | a walk without an error visits the whole list in order, and a failing one a prefix |
| `Lfs.ObjectsAfterVisit` | models/git/lfs.go:350-356 | a callback that changes only what was already visited does not change what is visited next |
| `Lfs.LfsStore.VisitObjects` | models/git/lfs.go:350-356 | the inner loop visits the batch in order and leaves the query answering the rest, or stops at an error |
| `Lfs.LfsStore.IterateObjects` | models/git/lfs.go:320-359 | the batches visit exactly the objects that matched at the start, each once, with the counts of the start, and terminate |
| `Lfs.LfsStore.IterateRepositories` | models/git/lfs.go:281-311 | the batches visit exactly the repositories that had rows at the start, each once, and terminate |

## Left out

- Dbfs.File.Write: assumes that offset plus length fits an int64, as the offset behind the bytes must; Go's sum would wrap to a negative offset, which the model does not follow. `Dbfs.Perform` and `Dbfs.Replay` inherit this.
- Dbfs.Replay: calls are sequential and free of database errors, as `models/dbfs/dbfs.go:44-46` asks; timestamps, revisions, `Stat`, `Rename` and path cleaning are not modelled.
- Actions.Tables.CreateTaskForRunner: the rows its query returns are a parameter, any rows seen earlier; the runner's repository and owner filter, the token, the log file name and step names are not modelled, and a new task id is never reused after a rollback.
- Actions.Tables.UpdateRunJob: the version lock of the run row, which the same step has just loaded, the tasks version counters and ephemeral runners are not modelled; each step is one transaction, which `CancelJobs` and `StopTask` leave to their callers.
- ActionsStale.LateRunCancelSparesRunning: reports carry one of the five results of the runner protocol, none or a final one; the rows an unknown result number would make are not covered.
- Rerunning runs, unblocking jobs and inserting runs as steps of a history; jobs start Waiting or Blocked without a task. The states between the inserts of a run are covered by `ActionsConcurrency.InsertionIsQuiet`.
- The converse "a finished run has only finished jobs" is not a property of the code: Cancelled outranks Running.
- CoverMerge.MergeAll: blocks of each input are strictly sorted by start, as the parser of coverage profiles leaves them; the number of statements of a block is carried but not compared.
- ScopePrint.ToScope: a 64-bit bitmap is the set of its bit positions; the printer's order of scopes is the list's.
- Varint.ReadUvarint: bytes come from memory, so no read error other than the end of input occurs.
- PktLine.Reader.ReadPktLine: bytes come from memory; version negotiation and push options are not modelled.
- HookBatches.PreReceive: progress output is not modelled; the post-receive hook batches the same way and is left out.
- TxModel.NothingDurableEarly: every nested call gets the context of the call around it; a callee that keeps an older context is not modelled.
- Tx.RunWithTx: a function passed to `WithTx` is a finite tree of writes and calls with a given end; the error values themselves are not modelled.
- Tokens.TokenStore.GetAccessTokenBySHA: the cache may forget entries at any time, which covers its size limit and recency order; database errors are not modelled.
- TokenModel.CacheIsInvisible: hashes are any function under which no token matches two rows, ids are never reused and updates keep the hash columns.
- The cache of running-task tokens in `models/actions/task.go:167-217`: its cached and uncached paths filter differently, so they are not meant to agree.
- AuthorizedKeys.KeyFile.Regenerate: an entry is rendered as two lines, the second beginning with `command=`; template and parsing errors count as invalid keys, lines over the scanner's 64 KB limit, backups and file modes are not modelled.
- Lfs.LfsStore.IterateObjects: a callback is a function of the table and its item that leaves unvisited rows alone; the batch size is positive and times are not zero unless unset.
- SQL, sessions, network, logging, command lines, rendering and the server around these parts.
