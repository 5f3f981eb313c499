# A verified model of the mirror, copy and remove engine of mc

This project models the algorithms and protocols behind the client's `mirror`, `cp`, `rm`, `rb`, `du` and `watch`
commands in Dafny and proves what they are for: that two sorted listings are compared exactly, that a full mirror
makes the target equal to the source and has nothing left to do afterwards, that the worker pool cannot deadlock or
lose a result, that batched and recursive removal removes exactly what was listed, and that the small parsers round
trip. Check it with `dafny verify dfyconfig.toml`.

## How the model is laid out

| file | what it models |
|---|---|
| `ParallelManager.dfy`, `ParallelManagerProofs.dfy`, `ParallelManagerTheorems.dfy`, `ParallelManagerRuns.dfy` | The worker pool: enqueuers, workers, bandwidth monitor, consumer and shutdown as interleaved atomic steps, with a reader/writer lock whose waiting writer shuts out new readers |
| `PipeChan.dfy`, `PipeChanProofs.dfy`, `PipeChanBlocking.dfy` | The growing and shrinking chain of channels between a producer and a consumer, one channel operation or length read a step |
| `Strings.dfy`, `ClientUrl.dfy` | Byte-wise string search and order; parsing, printing and joining of URLs |
| `Difference.dfy`, `DifferenceProofs.dfy` | The streaming merge of two listings and the comparison of two objects |
| `Mirror.dfy`, `MirrorProofs.dfy` | From differences to plan, from plan to tasks, and what executing the tasks does to the target |
| `MirrorFilters.dfy`, `MirrorOverwrites.dfy`, `MirrorFolders.dfy` | What the exclude and age options do, when a run that should preserve the target overwrites it, and runs between two folders of an object store |
| `MirrorStatus.dfy` | The consumer of mirror results and its decision to cancel |
| `Duration.dfy`, `DurationProofs.dfy` | The duration parser on wrapping 64-bit integers |
| `Metadata.dfy` | The quote-aware `key=value;...` automaton |
| `FsRemove.dfy`, `FsRemoveProofs.dfy` | Recursive directory listing, and removal with pruning of emptied parents, on a file system object |
| `S3Remove.dfy`, `S3RemoveProofs.dfy`, `S3RemoveSessions.dfy` | The per-bucket batches of object removal |
| `S3Versions.dfy` | Version listing as of a point in time |
| `RmMain.dfy` | The list-and-remove pass with its per-object buffer |
| `DiskUsage.dfy` | Disk usage by depth against the flat sum |
| `Counting.dfy` | Counting elements of a sequence |

Loops of the source are methods with loops; each is proved equal to a function of its inputs, and the lemmas are about
that function. The two concurrent protocols are state machines: a run is any sequence of enabled actions, and the
theorems hold of the state after every run. Channels are sequences, the remote store is a map or a function, time is an
integer. Library predicates (wildcard match, normalisation, canonical header key, age tests) are fields of a record of
functions, so the lemmas hold for every choice of them.

## What the proofs found

- `PipeChan` is documented as a channel that never blocks its sender (cmd/pipechan.go:22-25). When it
  refuses an element at rest, exactly 1002 times its capacity, two, and what is left in the consumer's channel are on
  their way (`RefusesOnlyWhenFull`). That channel may be empty or full, so the number lies between 1002 and 1003 capacities and
  two, and for every positive capacity both ends are met: the larger by a sender nobody reads for (`BlocksInTheEnd`),
  the smaller with a receiver who stops in time (`BlocksWithLeast`).
- The merge loop does not pop either stream when two objects of one name differ in type
  (cmd/difference.go:323-333): it sends the same message for ever (`MismatchSpinsForever`). The comparison of sorted
  listings ends exactly if objects of one name agree in type wherever both names are valid (`CompletesExactly`), and the
  exactness theorem asks for that.
- Two objects are reported to differ in metadata only if the user metadata *and* the metadata maps both differ
  (cmd/difference.go:352-354), although either difference alone would be one (`MetadataNeedsBoth`).
- Listing only as far as the source queues the same tasks, but it misses a failure of the target's listing which is
  reported and comes after the source is used up (cmd/difference.go:401-421): then, and only then, the full listing
  reports one error more (`EarlyExitChangesNothing`, `MissesTheFailureExactly`). A failure of any other kind ends the
  comparison without a message.
- A mirror converges exactly if matching names which pass the filters are spelled the same way before normalisation:
  two names which normalise to one key match each other, and the copy is written under the other spelling
  (`MirrorConverges`).
- With overwriting off, an object whose name is not valid UTF-8 can still be written over an existing one: invalid names
  are skipped on either side while both listings last and copied once the target's is used up. `OverwritesExactly` says
  when: some valid source object lies before the invalid one and after every valid object of the target.
- A second run has something to do exactly if the first one made a copy which still differs from its source for the
  comparison, by its metadata or by being older, and which the options and filters let through (`SecondRunPlansNothing`).
- Removing paths below the root stops early: when the last leaf of a top directory goes, the climb through the emptied
  parents goes on to the root, which cannot be removed. `FailsAtRootExactly` says when; for any other base no removal
  fails this way (`NoRemovalFails`).
- Exclude patterns are matched against the empty name for the side on which an object is missing: an empty pattern, which
  names nothing, hides every object that is on one side only (`MissingIsCopiedExactly`, `RemovalsAreExact`). Excluded
  storage classes and age limits protect nothing from being removed at the target.
- Object names that hold `://` collapse when joined to the target: everything up to the separator is taken for a
  scheme (`JoinLosesSchemes`); joining is plain appending exactly for the names of `Plain`.
- Removing objects hangs if, and only if, what stops the loop first is an object listed after its own bucket with no
  other bucket in between: the batch is closed and its channel nil (`HangsExactlyWhenMisordered`).
- What waits in the status stream when the loop switches buckets is reported under the name of the *next* bucket
  (cmd/client-s3.go:1243-1275), and failures at the end under no name; `NamesAreRightExactly` says when all names are right.
- `du` with a depth of zero or less never ends if some prefix lists itself, and with a depth of two or more counts the
  objects of such a prefix again (`EndsExactly`, `CountsExactly`).
- `rm --versions --incomplete` hands over the unfinished uploads only if there are none, or the pass over the versions
  saw an entry, or the run is forced or a dry run: otherwise the first pass fails as having found nothing
  (`UploadsNeedVersions`).
- The snapshot of a versioned bucket would lose an object with the empty key, should a server send one, exactly if its
  current version is the first version listed that existed (`ListsTheSnapshotExactly`).

## Model

| member | source | states |
|---|---|---|
| ParallelManagerTheorems.NewParallelManager | cmd/parallel-manager.go:276-296 | The loop that starts the workers leaves an initial state: as many workers as processors, but never more than the limit given or else 128, none of them busy, nothing locked or logged |
| ParallelManagerInvariant.StepInv | cmd/parallel-manager.go:84-233 | Every enabled action of every process keeps the whole invariant: lock counts, pool and wait-group counts, shutdown order, the log of events against the places where tasks sit, and each enqueuer's plan |
| ParallelManagerInvariant.RunInv | cmd/parallel-manager.go:84-233 | So does every run |
| ParallelManagerTheorems.BarrierRunsAlone | cmd/parallel-manager.go:177-182 | From the acceptance of a barrier task to the release of its lock, every event of the pool belongs to that task |
| ParallelManagerTheorems.BarrierSeparates | cmd/parallel-manager.go:214-226 | Of two tasks one of which is a barrier, the one accepted first has had its result received and its lock released before the other is accepted |
| ParallelManagerTheorems.LockCountsTasks | cmd/parallel-manager.go:99-120 | At every moment the reader count is the number of accepted, unreleased ordinary tasks, the writer flag stands for one unreleased barrier, and a task is in flight exactly if an enqueuer or a worker holds it |
| ParallelManagerTheorems.WorkersNeverExceedCap | cmd/parallel-manager.go:85-121 | In spite of the separate check and increment, the counter never passes the cap; there are never more workers than it says, and at most one fewer |
| ParallelManagerTheorems.NothingHappensAfterStop | cmd/parallel-manager.go:229-233 | Once the wait of stopAndWait is over no continuation adds any event, late workers included, and no task is in flight |
| ParallelManagerTheorems.EachEventOnce | cmd/parallel-manager.go:101-120 | In a disciplined log each task is accepted, started, delivered and released at most once, in that order |
| ParallelManagerTheorems.EveryResultOnce | cmd/mirror-main.go:799-833 | No result is delivered twice or without its task being accepted; when the consumer has seen the result channel closed every accepted task was delivered exactly once, no lock is held, and each enqueuer handed over a prefix of its plan, the rest being what it dropped |
| ParallelManagerTheorems.RequestedBarriersAreKept | cmd/parallel-manager.go:180-219 | A job queued with a barrier is run as one |
| ParallelManagerRuns.BarriersExactlyAsAsked | cmd/parallel-manager.go:172-226 | In any run, the k-th accepted task of an enqueuer is its k-th call, and is a barrier exactly if the job asks for one or the memory check of that very call made it one |
| ParallelManagerRuns.EnoughMemoryKeepsJobs | cmd/parallel-manager.go:214-226 | So while memory suffices a task is a barrier exactly if its job asks for one |
| ParallelManagerRuns.AllRunTogether | cmd/parallel-manager.go:84-120 | Ordinary jobs do run in parallel, up to the cap: in some run jobs of that many enqueuers are being executed at the same time |
| ParallelManagerRuns.PlansAreServed | cmd/mirror-main.go:799-833 | Every run in which no enqueuer gives up can be continued, still without giving up, until all has come to its end, and then every enqueuer has handed over its whole plan, in order |
| ParallelManagerTheorems.NoDeadlock | cmd/mirror-main.go:514-520 | After every run some action other than the monitor's is possible, and without an enqueuer giving up work it has left, unless every process has come to its end; and then there is none |
| ParallelManagerRuns.NothingIsSentAfterClose | cmd/parallel-manager.go:229-233 | In every run who offers a task finds the queue open, and who has a result or may have a report the result channel |
| ParallelManagerRuns.JobsAreRun | cmd/mirror-main.go:799-833 | What is accepted is a job and what is sent past the pool is a report |
| ParallelManagerRuns.OneByOne | cmd/mirror-main.go:514-520 | A ticket is the rank of its task in the order of acceptance, and the consumer takes one result at a time: it has finished with all it received but the one it may be handling |
| ParallelManagerTheorems.RunsEnd | cmd/mirror-main.go:799-833 | The actions other than the monitor's are bounded by the work in the plans, so every run that keeps going reaches the end of all processes |
| ParallelManagerRuns.RunStopsMonitor | cmd/parallel-manager.go:133-170 | Once the stop channel is closed the monitor can end at its next turn, having at most added the workers it began with |
| PipeChanTheorems.LosslessQueue | cmd/pipechan.go:46-87 | In every interleaving and for every capacity: delivered, then on the way in pipe order, then waiting at the input, is what was sent; every channel but the last is closed |
| PipeChanTheorems.ClosedMeansDelivered | cmd/pipechan.go:70-87 | The output is closed only after the input, and then all that was sent has been delivered or waits in the output |
| PipeChanTheorems.ChannelSizes | cmd/pipechan.go:48-64 | The channels are made with capacities c, 2c, 4c, 2c, 4c, ... and none ever holds more than c elements, so a 4c channel shrinks before it could grow |
| PipeChanTheorems.SendNeverBlocks | cmd/pipechan.go:52-68 | With a positive capacity the send into the current channel always finds room |
| PipeChanTheorems.PipeIsBounded | cmd/pipechan.go:38-49 | At most 1003 capacities and two elements are ever on their way |
| PipeChanBlocking.RefusesOnlyWhenFull | cmd/pipechan.go:46-75 | With a positive capacity, when the goroutines are at rest and the open input takes no more, exactly this many elements are on their way: 1002 capacities (full input and output, 1000 waiting channels of one capacity each), one in either hand, and what is left in the channel the consumer works on |
| PipeChanBlocking.BlocksInTheEnd | cmd/pipechan.go:40-49 | For every positive capacity some run without a receiver ends in such a refusal with 1003 capacities and two on their way, which is the bound of PipeIsBounded |
| PipeChanBlocking.BlocksWithLeast | cmd/pipechan.go:40-87 | And some run with a receiver ends in one with 1002 capacities and two, the least that is possible |
| PipeChanTheorems.OnlyWaitsForOutside | cmd/pipechan.go:46-87 | When neither goroutine can move, the output is closed, or full, or the pipe is empty and waits for input |
| PipeChanTheorems.PipeEnds | cmd/pipechan.go:51-86 | The goroutines take boundedly many steps per outside operation; when they stop with the input closed and the output not full, the output is closed and everything sent is out |
| PipeChanBlocking.EverythingArrives | cmd/pipechan.go:51-87 | After any run, for any capacity, the outside can close the input and receive until the output is closed, and then everything sent has been delivered, in order |
| ClientUrl.PrintThenParse | cmd/client-url.go:65-183 | Printing and parsing give a URL back exactly if it is canonical: http or https, a nonempty host without slash and at sign, a rooted path and no second separator; or a local path that shows no scheme and does not start with two slashes |
| ClientUrl.ParsedIsCanonical | cmd/client-url.go:108-134 | Every parsed object URL is canonical and prints as the text it came from, up to one slash at the end |
| ClientUrl.SchemeExactly | cmd/client-url.go:65-78 | A scheme is recognised exactly if it consists of letters and is followed by the only separator |
| ClientUrl.JoinAppends | cmd/client-url.go:137-147 | Joining a name to a folder URL is appending it, exactly for names without leading slash and without a scheme of their own |
| ClientUrl.JoinsAsFolder | cmd/client-url.go:137-147 | Joining to a URL without a slash at its end, local or not, is joining to the folder it names |
| ClientUrl.JoinIsFaithful | cmd/client-url.go:193-197 | On such names joining keeps and reflects order and equality, and trimming the folder gives the name back |
| ClientUrl.JoinComposes | cmd/client-url.go:193-197 | Joining a subfolder and then a name is joining both at once |
| ClientUrl.JoinLosesSchemes | cmd/client-url.go:65-147 | Two names that differ only in what stands before `://`, neither of them http or https and the rest without slash and colon, both join to the folder itself |
| Strings.LessIsByFirstDifference | cmd/difference.go:311 | Keys are compared by their first difference: the smaller character there comes first, and a proper prefix before what it begins |
| Difference.UpdatedMeansLater | cmd/difference.go:85-132 | The two-sided comparison of modification times amounts to: both objects have a data time, recorded or own, and the source's is later |
| Difference.MetadataEqual | cmd/difference.go:138-162 | Two maps are equal exactly if they agree on every key outside the ignored ones, in both directions |
| Difference.RoundPops | cmd/difference.go:241-391 | A round that continues removes an entry from a stream, or leaves both alone because the heads have one name and two types |
| Difference.MismatchSpinsForever | cmd/difference.go:323-333 | In the latter case any number of rounds passes, each sending the same message |
| Difference.DifferenceInternal | cmd/difference.go:227-391 | The loop sends the messages and ends the way the round-by-round definition says, and if it completes it took at most as many rounds as there are entries |
| Difference.ObjectDifference | cmd/difference.go:395-425 | The wrapper adds one message for a listing failure of the kinds that are reported, and none for any other; it never gets to end a loop that spins |
| DifferenceTheorems.ReportsExactlyTheDifferences | cmd/difference.go:241-388 | On sorted, error-free, valid listings which agree in type the comparison completes and sends exactly one message per one-sided key and per common key that differs by size, else time, else metadata, in key order |
| DifferenceTheorems.KindsAreExact | cmd/difference.go:320-373 | About two objects under one key a difference in size is sent exactly if the sizes differ; in time exactly if they agree, both data times are known and the source's is later; in metadata exactly if neither holds, metadata are compared and both kinds differ beyond the replication stamps; and nothing else about either |
| Difference.StampIsFirst | cmd/difference.go:69-85 | The stamp of the replication is the first nonempty one of its four spellings |
| DifferenceTheorems.CompletesExactly | cmd/difference.go:264-333 | On any sorted, error-free listings, whether their names are valid or not, the comparison completes if objects with matching valid names agree in type, and otherwise never ends |
| DifferenceTheorems.OrderedContentsAreUnique | cmd/difference.go:241-388 | In key order these messages form one sequence only, so the previous row fixes the output |
| DifferenceTheorems.SourceListingIsAPrefix | cmd/difference.go:245-254 | On any listings the run that stops with the source sends a prefix of the full run and all that is missing is about target-only objects; it completes exactly if it uses up the source, and then the full run ends as the rest of the target's listing does |
| DifferenceTheorems.UsesUpSourceFirst | cmd/difference.go:245-262 | With a target whose listing fails after some objects, a comparable source is used up first exactly if none of its keys lies beyond theirs |
| DifferenceTheorems.FolderListingsAreSorted | cmd/difference.go:286-290 | Listings sorted by name below a folder are sorted by the compared keys exactly if normalising the names at the target keeps their order, as it does where it leaves the names alone |
| Mirror.DeltaSourceTarget | cmd/mirror-url.go:133-262 | The plan is one failure if a client cannot be made, and otherwise what the message-by-message definition says |
| MirrorFilters.SkippedExactly | cmd/mirror-url.go:96-131 | A difference is skipped exactly if some exclude pattern matches the name of an object below its folder, or some bucket pattern the first part of it, on either side, or the source object's storage class is excluded |
| MirrorFilters.HiddenIsUntouched | cmd/mirror-url.go:172-209 | On any listings, failing ones included, and under any options, no task copies an object whose name is hidden, whose class is excluded or whose age is out of bounds, nor removes one whose name is hidden |
| MirrorFilters.MissingIsCopiedExactly | cmd/mirror-url.go:172-249 | Under any options, a source object without namesake is copied exactly if it is neither hidden nor left out by class or age, and no pattern matches the empty name |
| MirrorFilters.OutdatedIsCopiedExactly | cmd/mirror-url.go:172-238 | One with a namesake is copied exactly if neither is hidden, it is not left out, overwriting, dry run or active-active is on, and the two differ in size, or the source's data is newer, or both kinds of metadata differ and are compared |
| MirrorFilters.RemovalsAreExact | cmd/mirror-url.go:172-257 | A target object is removed exactly if removing is on, no source object matches it, it is not hidden, and no pattern matches the empty name |
| MirrorFilters.ErrorsAreExact | cmd/mirror-url.go:211-262 | On comparable listings the errors of a plan are exactly the refusals to overwrite the outdated namesakes which are not hidden, with overwriting, dry run and active-active off |
| MirrorFilters.RemovalsAnnounced | cmd/mirror-url.go:250-257 | The plan holds the removal of a target object exactly if removing or a dry run is on, no source object matches it, and nothing hides it |
| MirrorFilters.ProgressCountsTasks | cmd/mirror-main.go:746-796 | The progress bar counts the tasks, and without removing on the announced removals too; its bytes are those of the copies |
| Mirror.StartMirror | cmd/mirror-main.go:746-796 | Of the entries received until the plan ends or the run is cancelled, the loop queues the tasks in order, passes the errors on, and counts entries and bytes |
| MirrorTheorems.EarlyExitChangesNothing | cmd/mirror-main.go:967-972 | Whenever runMirror chooses to stop with the source listing, the tasks are those of the full listing, on any two listings; the errors are the same exactly if no reported failure of the target's listing comes after the source is used up, and otherwise miss just that one |
| MirrorTheorems.MissesTheFailureExactly | cmd/difference.go:401-421 | In terms of the listings: the failure is missed exactly if it is of a reported kind and no source key lies beyond the target's keys before it |
| MirrorTheorems.PlanIsUnambiguous | cmd/mirror-url.go:211-262 | No two tasks of a plan write or remove the same object |
| MirrorTheorems.ExecuteAt | cmd/mirror-main.go:746-796 | After executing unambiguous tasks, in any order, an object no task is about is unchanged, a copied one is what the copy puts there, a removed one is gone |
| MirrorTheorems.DryRunChangesNothing | cmd/mirror-main.go:340-430 | In a dry run no task changes the target |
| MirrorOverwrites.InvalidIsMissingExactly | cmd/difference.go:264-321 | In a comparison of sorted listings that reaches its namesake, an object with an invalid name is sent as missing at the target exactly if a valid source object lies before it and after every valid target object, or the target is empty |
| MirrorOverwrites.InvalidSourceIsReported | cmd/difference.go:264-297 | In any comparison of sorted listings a source object with an invalid name is spoken of in exactly one way: reported as invalid, or sent as missing at the target |
| MirrorOverwrites.InvalidTargetIsReported | cmd/difference.go:264-303 | And a target object with an invalid name is reported as invalid, or sent as missing at the source |
| MirrorOverwrites.OverwritesExactly | cmd/mirror-url.go:211-262 | With overwrite, remove, dry run and active-active off, some task of the run (which then lists only as far as the source) works on a name the target has exactly if such an object is present on both sides and passes the filters |
| MirrorOverwrites.NothingIsOverwritten | cmd/mirror-url.go:211-262 | Otherwise any execution of any part of the plan writes only absent names and leaves every object present before as it was |
| MirrorOverwrites.ValidNamesAreSafe | cmd/difference.go:291-309 | In particular on sorted listings of valid names that agree in type |
| MirrorOverwrites.InvalidNameIsOverwritten | cmd/difference.go:255-309 | The smallest run that overwrites: a valid object, an invalid one, and only the latter at the target |
| MirrorTheorems.MirrorConverges | cmd/mirror-url.go:172-262 | With overwrite and remove on, and any exclude and age filters, executing the plan makes the target hold exactly the source names that pass, with the source's sizes, and what is skipped, unchanged, if and only if matching names that pass are spelled alike |
| MirrorTheorems.FullMirrorConverges | cmd/mirror-url.go:172-262 | Without filters: exactly the source's names with the source's sizes, if and only if matching names are spelled alike |
| MirrorFolders.FolderMirrorConverges | cmd/mirror-url.go:133-262 | Between two folders of an object store whose names are valid and left alone by normalisation, with the URL-based keys, paths and filters of the code, the target always ends that way |
| MirrorFolders.FolderMirrorIsFull | cmd/mirror-url.go:133-262 | And with no filter option given, as an exact mirror |
| MirrorFolders.FolderSpellingDecidesValidity | cmd/difference.go:286-309 | Below two folders, objects spelled alike at the target agree in the validity of their names, as the overwriting theorems ask |
| MirrorTheorems.SecondRunPlansNothing | cmd/mirror-url.go:172-262 | Under any options but a dry run, and any filters: after the tasks of a run, a second run over a sorted listing of the new target plans nothing exactly if each copy the first one made does not differ from its source for the comparison, or differs in a way that leads to no task |
| MirrorTheorems.SecondRunIsQuiet | cmd/difference.go:241-388 | After a full mirror, if copies are not older than their source, comparing the source with the new target reports nothing at all |
| MirrorStatus.MonitorMirrorStatus | cmd/mirror-main.go:500-565 | Every result is received even after a cancellation; the run fails exactly if some failure counts (an ignorable copy error or a refusal about no object does not); it is cancelled once, at the first such failure, or at the end if failures are skipped or there is none |
| Duration.WrapIsModular | cmd/duration.go:50-70 | Wrapping of the model is reduction modulo two to the 64th into the signed range |
| Duration.LeadingInt | cmd/duration.go:50-70 | The tests for a negative result detect every overflow: the run of digits is read exactly if its value fits, and refused otherwise |
| Duration.ParseNumber | cmd/duration.go:119-154 | Reads whole digits, an optional point and fraction digits; refuses if a part does not fit or there is no digit at all |
| Duration.ParseTerm | cmd/duration.go:115-190 | One number with its unit and the rest, or nothing if it is malformed, unknown or too large |
| Duration.SumTerms | cmd/duration.go:115-195 | The loop adds the terms up and fails exactly if a term or a partial sum does not fit |
| Duration.ParseDuration | cmd/duration.go:94-200 | The parser accepts what the reference grammar of signed token lists accepts, with its value, which lies within plus and minus the largest 64-bit integer: the most negative one never comes out |
| DurationTheorems.WrittenParsesExactly | cmd/duration.go:119-199 | Any signed list of numbers with units, with or without fractions, parses to the sum of its terms, each the whole part exactly and the fraction as rounded, or to an error if the sum exceeds the largest 64-bit integer or the digits of a fraction do |
| DurationTheorems.AcceptedIsWritten | cmd/duration.go:94-200 | Everything accepted is the digit 0 with an optional sign, which is zero, or such a written list |
| DurationTheorems.NanosecondsRoundTrip | cmd/duration.go:94-200 | Every duration in that range, written in nanoseconds, parses to itself |
| DurationUnits.CommandRoundTrip | cmd/duration.go:74-86 | The same for the command's own table of units |
| DurationUnits.UnitsAgree | cmd/duration.go:30-86 | A whole number of each unit means the same as the number of the next smaller unit it makes: years of 365 days, down to the nanosecond |
| Metadata.GetMetaDataEntry | cmd/cp-main_contrib.go:31-138 | The automaton computes the two-pass meaning (remove quotes, then split at bare semicolons and equal signs) and never reaches its panic |
| Metadata.AutomatonIsMeaning | cmd/cp-main_contrib.go:61-137 | One pass with quote state and two buffers agrees with the two passes, on every string |
| Metadata.JoinOverrides | cmd/cp-main_contrib.go:61-137 | Behind an accepted string and a semicolon a second string is accepted exactly if it is on its own, and the result is the union in which the second wins |
| Metadata.WriteThenParse | cmd/cp-main_contrib.go:61-137 | Any nonempty list of entries, whatever characters they hold, can be quoted so that parsing enters them in order |
| Metadata.MapsRoundTrip | cmd/cp-main_contrib.go:61-137 | So every nonempty map with canonical keys has texts that parse to it |
| FsRemove.FileSystem.OsRemove | cmd/client-fs.go:553-563 | Removes a file or an empty directory and nothing else, and says why not otherwise |
| FsRemove.FileSystem.DeleteFile | cmd/client-fs.go:553-582 | Leaves what pruning upward defines, and fails exactly if the climb arrives at the root |
| FsRemove.FileSystem.Remove | cmd/client-fs.go:585-632 | Handles the paths one after the other up to the first failure; which that is and what then is left |
| FsRemove.ListDirOpt | cmd/client-fs.go:898-974 | The recursive listing, with each directory before or after what is in it |
| FsRemove.Filter | cmd/client-fs.go:715-735 | Drops the hidden entries and keeps the order |
| FsRemoveTheorems.ListsEverything | cmd/client-fs.go:898-974 | With directories first or last, a path is listed exactly if it is the base or can be reached through the tree |
| FsRemoveTheorems.ListsChildrenFirst | cmd/client-fs.go:941-973 | With directories last nothing is listed twice, and nothing before what is inside it |
| FsRemoveTheorems.ListsParentsFirst | cmd/client-fs.go:941-973 | With directories first nothing is listed twice either, and nothing before the directory it is in |
| FsRemoveTheorems.TextDecidesInside | cmd/client-fs.go:565-575 | On the way up, comparing texts by prefix is comparing paths: pruning stays below the base, and at it unless the base ends in a slash |
| FsRemoveTheorems.RemovalIgnoresOrder | cmd/client-fs.go:553-582 | Whatever the order of the paths: outside the base nothing changes, and below it exactly those nodes remain that lead to a leaf not handed in; for the root as base, as long as something stays |
| FsRemoveTheorems.EmptyWhenReached | cmd/client-fs.go:941-973 | With directories last, everything inside a directory is gone when its turn comes |
| FsRemoveTheorems.RemovesWhatIsListed | cmd/client-fs.go:585-632 | Removing a filtered listing leaves, below the base, exactly the nodes that lead to something filtered out |
| FsRemoveTheorems.RemovesWhatIsListedInside | cmd/client-fs.go:585-632 | The same for a base written with a slash at its end |
| FsRemoveTheorems.RemovesTheWholeTree | cmd/client-fs.go:585-632 | With nothing filtered out the whole tree goes and nothing else, for both spellings of the base |
| FsRemoveTheorems.NeverReachesRoot | cmd/client-fs.go:568-579 | Pruning below a base other than the root never climbs to the root |
| FsRemoveTheorems.NoRemovalFails | cmd/client-fs.go:585-632 | So the loop handles all its paths |
| FsRemoveTheorems.ReachesRootExactly | cmd/client-fs.go:553-582 | With the root as base, removing a path climbs to the root exactly if nothing else is in its top directory than what leads to it |
| FsRemoveTheorems.FailsAtRootExactly | cmd/client-fs.go:553-632 | With the root as base, the loop handles all its paths exactly if in each top directory some leaf is not handed in, and the root is not handed in itself |
| S3Remove.Remove | cmd/client-s3.go:1212-1363 | The loop, for every server timing and every input, ends in the state and with the log of the entry-by-entry definition; no bucket is removed unless asked for, nor in the mode for unfinished uploads |
| S3RemoveTheorems.BatchesAreOrderly | cmd/client-s3.go:1232-1363 | On any input no channel is closed twice or sent to after its close, each batch is closed and drained before the next opens, objects go to a batch of their own bucket, and a bucket is removed once, after its drain |
| S3RemoveTheorems.NothingIsLost | cmd/client-s3.go:1288-1318 | A run that ends hands in every object once, in order, and reports every answer once, in order; one that stops early hands in a prefix |
| S3RemoveTheorems.HangsExactlyWhenMisordered | cmd/client-s3.go:1257-1324 | On any input and whichever buckets can be removed: the loop hangs exactly if what stops it first is an object after its own bucket's entry with no other bucket in between; it fails exactly if that is the first entry after a bucket that cannot be removed as asked, or if nothing stops it and the last bucket is such a one |
| S3RemoveSessions.GroupedListingIsServedInSessions | cmd/client-s3.go:1217-1363 | For a listing grouped by bucket with each bucket's entry last, the actions are exactly one session per bucket: open, its objects in order, close, drain, and removal of the bucket if asked for; with a bucket that cannot be removed, the sessions up to and including its own and one refusal |
| S3RemoveSessions.NamesAreRightExactly | cmd/client-s3.go:1243-1275 | On any input and whichever buckets can be removed: reports name the bucket of their object at every server speed exactly if of the entries read only one bucket gets answers and, if all were read, none is a failure |
| S3Versions.ListVersionsRoutine | cmd/client-s3.go:1786-1845 | The loops over buckets and versions send what the remembered-key definition says, bucket by bucket, or the failure to list buckets |
| S3Versions.EveryBucketIsListed | cmd/client-s3.go:1806-1844 | On any list of buckets the versions sent are, bucket by bucket and in order, the snapshots of the buckets, or with older versions all that existed and are to be shown; all failures come, in order |
| S3Versions.SentEntryByEntry | cmd/client-s3.go:1808-1844 | On server order without empty keys each entry is sent in its turn exactly if it is a failure or a current version to be shown |
| S3Versions.SentExactly | cmd/client-s3.go:1818-1844 | In plain terms: a version is sent exactly if it is before the point in time, no unrequested delete marker, and of its key's versions before that point none is newer, nor as new and listed earlier |
| S3Versions.ListsTheSnapshotExactly | cmd/client-s3.go:1806-1844 | Without older versions, on server order, what is sent is the bucket's state at the point in time (the newest version of each key before it, delete markers only if asked for) exactly if no current version to be shown has the empty key and no version that existed before it |
| S3Versions.ListsTheSnapshot | cmd/client-s3.go:1806-1844 | In particular if no key is empty |
| S3Versions.DeletedStaysDeleted | cmd/client-s3.go:1823-1837 | If the current version is an unrequested delete marker, no version of that object is listed |
| S3Versions.EveryKeyOnce | cmd/client-s3.go:1818-1828 | No object is listed with two versions |
| S3Versions.NoObjectIsMissing | cmd/client-s3.go:1818-1844 | Every object that existed has a current version, which is listed unless it is an unrequested delete marker |
| S3Versions.OlderVersionsAreAllListed | cmd/client-s3.go:1818-1844 | With older versions, an entry is sent exactly if it is a failure, or existed and is no unrequested delete marker |
| S3Versions.FailuresPassThrough | cmd/client-s3.go:1809-1816 | Failures are all passed on in order; the rows above hold with failures mixed in |
| RmMain.Hand | cmd/rm-main.go:523-553 | Sends or announces one entry, unless a fatal result arrives first |
| RmMain.Flush | cmd/rm-main.go:502-556 | Hands over the wanted ones of the held-back versions, in order, up to a fatal result |
| RmMain.ListAndRemovePass | cmd/rm-main.go:447-716 | Buffering and flushing hands over exactly the plain filter of the listing in listing order; after a listing error in the non-current mode exactly the last object's versions are missing; after a fatal result it is a prefix; and how the pass ends |
| RmMain.PassInPlainTerms | cmd/rm-main.go:447-716 | Entry by entry: which are handed over (reached, no bucket, with a time in the limits, and in the non-current mode no live version), in which order, and when the pass fails or has found nothing |
| RmMain.LiveVersionsAreSafe | cmd/rm-main.go:502-521 | However a pass ends, in the non-current mode it never hands over a live latest version, nor ever a prefix or an entry outside the age limits |
| RmMain.DryRunTellsTheTruth | cmd/rm-main.go:523-526 | A dry run announces exactly what a real run without fatal results hands over, however the listing ends |
| RmMain.ListAndRemove | cmd/rm-main.go:430-445 | Versions first, then unfinished uploads, the second pass only if the first was done |
| RmMain.OnePassUnlessBoth | cmd/rm-main.go:430-445 | Unless both are asked for there is one pass with the options as given |
| RmMain.SecondPassIfDone | cmd/rm-main.go:430-445 | With both, the first pass is without unfinished uploads and the second, made exactly if the first was done, is without versions and point in time; the last pass made decides the outcome |
| RmMain.UploadsNeedVersions | cmd/rm-main.go:430-445 | Asked for versions and unfinished uploads, a run in which nothing fails hands over the wanted uploads exactly if there are none, or the first pass saw an entry, or the run is forced or a dry run |
| DiskUsage.Du | cmd/du-main.go:122-207 | The recursive method ends with the report of the definition, wherever that ends |
| DiskUsage.EveryDepthSumsTheSame | cmd/du-main.go:135-206 | Where no prefix lists itself, every depth, positive, zero or negative, gives the sum of the flat listing, and each printed line is the flat sum of its prefix |
| DiskUsage.FlatSumIsLive | cmd/du-main.go:182-187 | The flat sum is the number and the total size of the objects below that are no delete markers |
| DiskUsage.PrintedExactly | cmd/du-main.go:191-206 | The lines printed are one for every prefix less than the depth below, for every one if it is negative and none for depth zero, each with the flat sum of what is below |
| DiskUsage.EndsExactly | cmd/du-main.go:165-180 | A positive depth always ends; any other exactly if no prefix lists itself |
| DiskUsage.CountsExactly | cmd/du-main.go:165-187 | At a positive depth the result is never below the flat sum, and equal to it exactly if no prefix with objects lists itself on the levels visited one by one |
| DiskUsage.RunsToOne | cmd/du-main.go:122-207 | A report does not depend on how many nested calls are allowed |

## Left out

- ParallelManagerTheorems.NoDeadlock: the enqueuers are assumed to have stopped before the shutdown begins and the consumer to read until the result channel is closed, as the mirror command does; a caller that breaks this is not modelled.
- ParallelManagerTheorems.RunsEnd: the monitor may tick for ever, so its own steps are not counted; its bandwidth rule is replaced by a free choice between adding workers and giving up.
- The memory probe of the worker pool: a free choice that may turn a task into a barrier. Worker pool and pipe are state machines on values, one atomic operation a step; the Go memory model below that is not modelled.
- PipeChanTheorems.SendNeverBlocks: asks for a positive capacity; with capacity zero a send meets a waiting consumer, which the state machine models as a hand-over.
- The panic of a wait group that is added to after its wait: WorkersDone and Spawn are separate steps whose order is proved harmless to the log only.
- ClientUrl.PrintThenParse: Windows paths and the file-system cleaning of local paths are left out; local URLs keep their text.
- Difference.DifferenceInternal: the mode that also reports pairs without difference is part of the loop, but no caller asks for it and the theorems are about the other; normalisation is a function parameter, and so are time parsing and UTF-8 validity; that normalisation keeps the order of keys is part of the assumption that listings are sorted.
- MirrorOverwrites.OverwritesExactly: assumes that objects of one valid name agree in type, since the loop does not end otherwise (CompletesExactly), and that one spelling is either valid or invalid on both sides (FolderSpellingDecidesValidity).
- DifferenceTheorems.ReportsExactlyTheDifferences: assumes that objects of one name agree in type, since the loop does not end otherwise (CompletesExactly), and that names are valid; what becomes of other names is said by InvalidIsMissingExactly.
- MirrorTheorems.MirrorConverges: one execution of the plan without failures or concurrent writers; the watch mode and the bucket creation of the mirror command are left out, and so is newest-wins between two active sites, which the size comparison overrides.
- MirrorStatus.MonitorMirrorStatus: messages and the progress bar are left out; which errors are ignorable is part of the input.
- Mirror.DeltaSourceTarget: which client cannot be made, and why, is part of the input.
- Mirror.StartMirror: retries, progress accounting and server-side encryption lookups are left out.
- Duration.ParseDuration: error texts and kinds are one failure; the value of a fraction is an unspecified function because it rounds floating-point numbers; blanks are trimmed in the ASCII range only.
- Metadata.GetMetaDataEntry: works on decoded characters; the decoding of invalid UTF-8 and the canonical header key are left to parameters.
- FsRemove.FileSystem.Remove: permission errors, symbolic links, partial uploads chosen by the caller, and changes to the file system during the removal are left out; a failure is the climb to the root only, which the operating system is taken to report as busy.
- FsRemove.Filter: the mode that lists unfinished uploads, and strips their suffix, is left out.
- FsRemove.ListDirOpt: the tree is given; directories that cannot be read are left out. The listing without directories (listRecursiveInRoutine) and the order in which a directory is read are left out.
- S3Remove.Remove: which of the two calls for finished and unfinished uploads a batch is handed to is not part of the log; the forced removal of one object and the refusal to remove a bucket by an object URL (cmd/client-s3.go:1187-1210) come before the loop and are left out; so is cancellation, which ends the loop before the next entry with the batch still open. The splitting of a path into bucket and object is left to the caller.
- S3Versions.ListVersionsRoutine: cancellation is left out; it ends the sending early.
- RmMain.ListAndRemovePass: the results that arrive between sends are a predicate that says before which entry a fatal one arrives; messages are left out. Results about protected objects, which the plain mode skips, are not fatal.
- DiskUsage.Du: errors of a listing are left out, except those that are skipped; sums are unbounded where the code uses 64-bit integers. The method asks for the condition under which the code ends (EndsExactly).
- Network calls, credentials, output formats, command-line flags, configuration migration, the floating-point code for humanised durations, the directory sort order (not an order on two directories), access permission strings and content-type guessing: plumbing, unseen libraries or easy.
