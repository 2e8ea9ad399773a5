# A verified model of log4c

log4c is a logging library in C.  These Dafny modules model four of its cores
and prove what they keep, over every input, every run and every reachable state:

* **Rolling files** (`Rollover`, `Conservation`, `Crash`, `Failures`, `Threads`,
  `RollingFile`).  The size-window policy and the appender that drives it, with
  the directory as a map from window index to the messages of the file.  A
  rollover is cut into its file operations, so that each of them can fail, the
  process can die between any two of them, and threads can interleave with them.
* **Containers** (`Chains`, `Traversal`, `Hash`, `Factory`, `Stack`, `List`).
  The chained hash table, the factory on top of it, the array stack and the
  doubly linked list, as objects with links in memory, proved against maps and
  sequences.  `Sequences` and `Option` are shared by all modules.
* **XML** (`Dom`, `Printer`, `Scanner`, `Patterns`, `Munch`, `Lalr`, `Grammar`,
  `Lexicon`, `Build`, `LalrSound`, `LalrComplete`, `Parsing`, `XmlParser`,
  `RoundTrip`, `PrintScan`, `Spelling`, `Written`, `Expat`, `ExpatReader`).  The
  printer, the longest-match scanner with its start conditions, bison's tables and
  the loop that runs over them, the actions that build the tree, and the handlers
  of the other reader, which builds it by prepending.  `Lexicon` and `Spelling`
  say in literal characters what is read, `Written` what is written.
* **Categories and configuration** (`Category`, `Delivery`, `Config`, `Loader`,
  `Loaded`, `RcLoader`).  The registry whose constructor goes back to the
  registry, inherited priorities, additive delivery, and the configuration loader
  as a sequence of keyed assignments; `Loaded` says what a document leaves in each
  place by its elements, attributes and texts alone.

Code that the library runs in place is a class with the fields of the C struct,
or a method with the loop of the C function.  Each such method is proved against
a function on values, and the properties are lemmas about those functions.
Failures of the disk are a function from the number of the operation to whether
it fails; a reliable disk is one on which none does.

`dafny verify dfyconfig.toml` checks the whole project.

## What the proofs show about the code

* A disk that refuses one `rename`, `fopen` or `fclose` at the wrong moment
  leaves a hole in the window.  From then on the rename loop stops at the hole:
  the appender never archives another message, and every rollover truncates
  file 0, until the process restarts.  A rollover makes the hole if and only if
  its first operation that changes the directory (the `unlink` of a full window,
  else the first `rename`) succeeds and a later one before the reopening fails;
  a `fopen` that failed in the rollover before counts as well, since the rename
  of the missing file 0 fails on a perfect disk.  `Failures.DoomedExactlyWhen`
  says this for one rollover in any state and `Failures.RunDoomedExactlyWhen` for
  whole runs from any directory; `Failures.FailedReopeningDooms` shows that a
  single failed `fopen` does it, and `Failures.MissingFileDooms` when the rollover
  after one does.  With `maxFiles` 1 it cannot happen
  (`Failures.OneFileIsNeverDoomed`).  `Failures.DoomedForever` is what follows,
  `Failures.RestartHeals` the way out.  A refused `unlink` is harmless but for
  file 0, which is truncated (`Failures.RefusedUnlinkEmptiesFileZero`).
* After a failed `fopen` of file 0 the messages go to stderr until a rollover can
  reopen it, and to no file (`Failures.MessageGoesSomewhere`,
  `Failures.ConsoleIsToStderr`).
* `sizewin_rollover` overwrites its return code when it reopens file 0, and does
  not set it when it creates the first file: it returns 0 although the very first
  `fopen` failed (`Failures.ReturnCode`, `Failures.FirstOpenFails`).
* After a crash and a restart the files are those of the uninterrupted rollover
  (`Crash.RestartFinishesRollover`), but the last index the policy computes stops
  at the hole that was closed.  Each of the next rollovers, one for each rename
  done before the crash, overwrites the file just above that index, even when the
  window had room for all of them (`|ws| + 1 < maxFiles`).
  `Crash.RunAfterRestart` gives the files of every run,
  `Crash.SameFilesExactlyWhen` says when they differ from those of the run without
  the crash, `Crash.RolloverAfterRestart` says it for the first rollover, and
  `Crash.CrashLosesFile` is a run that loses a file.
* A first message longer than the limit goes to a file of its own and leaves an
  empty archived file behind; no other file of the run is archived without a
  message (`Conservation.EmptySegment`).  A file found empty at the start is
  archived as it is, for example file 0 of a process that logged nothing
  (`Conservation.EmptyArchive` says of every index what is there).
* The parser's stacks hold at most 9999 states.  A tree written by the printer
  comes back exactly when the parser's stack can hold it; trees of 1998 levels
  always can, and trees of 2000 levels or more never do
  (`PrintScan.WriteThenRead`, `PrintScan.RoundTripDepth`,
  `PrintScan.DeepChainDoesNotComeBack`).
* A comment that is written and read again has one blank more at its end, the one
  the printer puts before the closing mark.  One that stands first after a text
  comes back with `<!-- ` at its beginning: `comment()` skips four characters of a
  match that begins with the blanks before the comment (`Spelling.TakenOf`,
  `Written.WriteThenReadComments`, `Written.ReadBackAddsBlanks`).
* `sd_hash_iter_prev` stops before bucket 0, so it undoes `sd_hash_iter_next`
  except when the step went out of bucket 0 (`Traversal.PrevUndoesNext`,
  `Traversal.PrevStopsShort`).
* A stack with a maximum from 1 to 31 starts with 32 slots: it takes more than
  its maximum, and the 33rd push trips an assertion
  (`Stack.MaximumKeptExactlyWhen`).
* The two XML readers build mirror images of each other.  The configuration
  loader does not notice, as long as no object, field or attribute is configured
  twice (`Loader.EitherReader`), and, when only attributes are unique, exactly
  when the last assignment to each place is the same
  (`Loader.EitherReaderExactlyWhen`).

## Model

| member | source | states |
|---|---|---|
| Rollover.LastIndex | src/log4c/rollingpolicy_type_sizewin.c:361-385 | the index found is the end of the leading run of existing files: all up to it exist, the next one does not or is outside the window |
| Rollover.FinishAfterSteps | src/log4c/rollingpolicy_type_sizewin.c:102-199 | a rollover interrupted after any number of file operations and then continued ends like an uninterrupted one |
| Conservation.RenamesShift | src/log4c/rollingpolicy_type_sizewin.c:164-192 | on a reliable disk the rename loop moves every file one index up, loses and duplicates none, and leaves an empty file 0 and the right last index |
| Conservation.RolloverKeepsWindow | src/log4c/rollingpolicy_type_sizewin.c:102-199 | a rollover puts an empty file in front of the window and drops a file only when the window is full, and then the oldest |
| Conservation.AppendKeepsWindow | src/log4c/appender_type_rollingfile.c:129-185 | an append extends the newest file, or starts a new one exactly when the message does not fit in the limit |
| Conservation.RunKeepsNewestFiles | src/log4c/appender_type_rollingfile.c:54-185 | whole-run conservation from any directory: the window is the newest `maxFiles` of the run's segments followed by the leading run of files found at the start, the last index and the size counter agree with it, and every other file is untouched until the window reaches its index |
| Conservation.RunFromWindow | src/log4c/appender_type_rollingfile.c:54-185 | when the directory holds a window and nothing else, that is all it holds after any run, and the last index and one more is the number of files: bytes are lost only as whole oldest files |
| Conservation.SegmentsAreTheMessages | src/log4c/appender_type_rollingfile.c:129-185 | the segments of a run, oldest first, are its messages in order, none lost, none twice |
| Conservation.SegmentsWithinLimit | src/log4c/rollingpolicy_type_sizewin.c:71-98 | every segment is within the size limit, or is a single message that is longer than it |
| Conservation.SegmentsAreFull | src/log4c/rollingpolicy_type_sizewin.c:71-98 | a new segment is started only when its first message would not have fitted in the one before |
| Conservation.EmptySegment | src/log4c/appender_type_rollingfile.c:129-185 | no segment of a run is empty except the oldest, and that one, when there are more, exactly if the first message is longer than the limit |
| Conservation.EmptyArchive | src/log4c/appender_type_rollingfile.c:54-185 | in the directory, after any run from any directory: a file of the run with index 1 or more is without a message exactly when it is the oldest and the first message is longer than the limit; the files behind it are those found at the start, empty exactly when those were; files beyond the window are untouched |
| Conservation.RunWithinLimit | src/log4c/appender_type_rollingfile.c:141-170 | the counter is the length of file 0 after any run, and every file the run wrote is within the limit or holds one oversized message |
| Conservation.LastIndexOfWindow | src/log4c/rollingpolicy_type_sizewin.c:361-385 | on a contiguous window the last index is the number of files less one |
| Crash.StepStaysUnderway | src/log4c/rollingpolicy_type_sizewin.c:134-192 | every file operation of a rollover keeps the retained files present once and in order around at most one free index |
| Crash.CrashLeavesOneHole | src/log4c/rollingpolicy_type_sizewin.c:134-192 | a process that dies after n operations, before file 0 is reopened, leaves the retained files in order around a single hole that has moved down once for each rename done, or, before the first operation, a full window untouched |
| Crash.OpenClosesHole | src/log4c/appender_type_rollingfile.c:95-113 | opening a directory with one hole moves the files below the hole into it and counts only those |
| Crash.RestartFinishesRollover | src/log4c/rollingpolicy_type_sizewin.c:134-192 | whatever the moment of the crash, restarting gives the files of the uninterrupted rollover |
| Crash.RunAfterRestart | src/log4c/rollingpolicy_type_sizewin.c:361-385 | the files of any run after a crash and a restart: each rollover takes the place of the lowest file above the closed hole, until none of those is left |
| Crash.RunWithoutCrash | src/log4c/rollingpolicy_type_sizewin.c:134-192 | the files of the same run of the process that did not crash |
| Crash.SameFilesExactlyWhen | src/log4c/rollingpolicy_type_sizewin.c:361-385 | the two are the same if and only if no rename was done before the crash, or no rollover came after it, or the window is too small to hold any file from above the hole, or it had `maxFiles` files or one less and the lost files equal the kept ones |
| Crash.RolloverAfterRestart | src/log4c/rollingpolicy_type_sizewin.c:361-385 | the first rollover after the restart overwrites the file above the hole, if a rename was done before the crash; the files are those of the run without the crash if and only if none was, or the window had `maxFiles` files or one less and the files above the hole are all the same |
| Crash.CrashLosesFile | src/log4c/rollingpolicy_type_sizewin.c:361-385 | a run in which that loses a file |
| Failures.StepStaysConsistent | src/log4c/rollingpolicy_type_sizewin.c:102-199 | every file operation, whether it succeeds or fails, keeps the invariant of the policy and its stream |
| Failures.FinishStaysConsistent | src/log4c/rollingpolicy_type_sizewin.c:102-199 | a whole rollover under arbitrary failures ends with a stream that is not null, and with an empty file 0 unless the stream is stderr |
| Failures.RunStaysConsistent | src/log4c/appender_type_rollingfile.c:54-185 | in every reachable state, whatever fails: the last index is within the window, files outside it are untouched, the failed-open flag is set exactly when the stream is stderr, stderr is never closed, every replaced stream is closed exactly once, and the counter is the length of file 0 |
| Failures.ReturnCode | src/log4c/rollingpolicy_type_sizewin.c:122-192 | the return code is 1 exactly when the last open failed, except that creating the first file always returns 0 |
| Failures.FirstOpenFails | src/log4c/rollingpolicy_type_sizewin.c:122-132 | in an empty directory a failed first open returns 0 and leaves the stream at stderr |
| Failures.RenamesStop | src/log4c/rollingpolicy_type_sizewin.c:164-179 | the rename loop stops at the first rename that fails: the files above have moved, those below have not, and the last index is advanced only when all have |
| Failures.FinishDoomed | src/log4c/rollingpolicy_type_sizewin.c:134-192 | a rollover of a window with a hole keeps the hole and the last index, and archives nothing |
| Failures.DoomedForever | src/log4c/rollingpolicy_type_sizewin.c:134-192 | after any further appends, whatever the disk does, no message has been archived and the hole is still there |
| Failures.DoomedExactlyWhen | src/log4c/rollingpolicy_type_sizewin.c:134-192 | in any state without a hole a rollover leaves one if and only if the operation that begins to change the directory succeeds and a later one before the reopening fails or finds no file 0; and what every other rollover leaves of the index, file 0, the stream and the number of operations |
| Failures.CounterIsSegment | src/log4c/appender_type_rollingfile.c:141-170 | whatever fails, the counter is the length of the current segment, so rollovers come at the same messages as on a reliable disk |
| Failures.RunDoomedExactlyWhen | src/log4c/appender_type_rollingfile.c:54-185 | for whole runs from any directory: whether there is a hole is decided by which operations fail, one rollover for each segment, failed reopenings included |
| Failures.OneFileIsNeverDoomed | src/log4c/rollingpolicy_type_sizewin.c:134-192 | with a window of one file there is never a hole |
| Failures.MissingFileDooms | src/log4c/rollingpolicy_type_sizewin.c:164-192 | when a failed reopening has left no file 0 in a reachable state with a last index of 1 or more, the next rollover leaves a hole exactly when its first operation succeeds |
| Failures.FailedReopeningDooms | src/log4c/rollingpolicy_type_sizewin.c:164-192 | when only the reopening of a rollover of an intact window fails, there is no hole and no file 0, and the next rollover makes the hole |
| Failures.RestartHeals | src/log4c/rollingpolicy_type_sizewin.c:361-385 | opening any directory on a reliable disk leaves no hole below the last index |
| Failures.RefusedUnlinkEmptiesFileZero | src/log4c/rollingpolicy_type_sizewin.c:134-192 | when only the unlink of a full window fails, file 0 is emptied, the other files and the last index are as before, and neither this rollover nor the next leaves a hole |
| Failures.FinishWritesNothing | src/log4c/rollingpolicy_type_sizewin.c:102-199 | a rollover writes no message anywhere: it ends at stderr with the files 0 there were, or behind a handle with an empty file 0, and the console as before |
| Failures.MessageGoesSomewhere | src/log4c/appender_type_rollingfile.c:160-182 | after any run under any failures, one more message is the last of file 0 and the console is unchanged, or the stream is stderr, the message is the last on the console and file 0 gained nothing |
| Failures.ConsoleIsToStderr | src/log4c/rollingpolicy_type_sizewin.c:389-408 | over a whole run the console gains exactly the messages appended while the stream was stderr, in order |
| Threads.InsideStaysHalfway | src/log4c/appender_type_rollingfile.c:137-182 | each step of the thread in the critical section is a step of the serial append it is doing |
| Threads.MoveStaysSerial | src/log4c/appender_type_rollingfile.c:129-185 | one step of any thread keeps the state a serial run, with at most one append under way |
| Threads.RunIsSerial | src/log4c/appender_type_rollingfile.c:129-185 | under every schedule, and whatever fails, the state is that of the appends done one at a time in an order that keeps each thread's own |
| Threads.FinishedRunIsMerge | src/log4c/appender_type_rollingfile.c:129-185 | when all threads are through, the order is a merge of their programs |
| Threads.FreeLockMeansWindow | src/log4c/appender_type_rollingfile.c:129-185 | on a reliable disk, after every schedule that leaves the lock free, the window, index and size invariants hold |
| Threads.SomeScheduleFinishes | src/log4c/appender_type_rollingfile.c:129-185 | from every reachable state some schedule brings all threads to their end |
| Threads.EveryProgramFinishes | src/log4c/appender_type_rollingfile.c:129-185 | so programs of any threads can all be run, and then the state is that of the serial run of a merge of them |
| RollingFile.SizeWin.GetLastIndex | src/log4c/rollingpolicy_type_sizewin.c:361-385 | the loop over `stat` finds `LastIndex` |
| Failures.TriggersExactlyWhenFull | src/log4c/rollingpolicy_type_sizewin.c:71-98 | in every reachable state whose stream is a file, whatever has failed, a rollover is triggered exactly when writing the message as things are would take file 0 over the limit |
| RollingFile.SizeWin.RotateUp | src/log4c/rollingpolicy_type_sizewin.c:164-183 | the in-place rename loop does to the disk what the renaming steps of the specification do |
| RollingFile.SizeWin.Rollover | src/log4c/rollingpolicy_type_sizewin.c:102-199 | the whole rollover in place leaves the disk, flag, stream, last index and return code of the specification |
| RollingFile.RollingFile.Open | src/log4c/appender_type_rollingfile.c:54-125 | opening initializes the policy, rolls over once and resets the counter, as specified, and returns 1 exactly when the rollover reports an error |
| RollingFile.RollingFile.Append | src/log4c/appender_type_rollingfile.c:129-185 | trigger test, rollover, write and counter update are the specified append, and the number of characters written is returned |
| Chains.Push | src/sd/hash.c:41-46 | linking an entry in front of its bucket keeps next and prev inverse, every entry in the bucket of its hash, and the other chains as they were |
| Chains.PushedShape | src/sd/hash.c:126-131 | the same for the links as values |
| Chains.Relink | src/sd/hash.c:29-57 | rehashing in place moves every entry, the same objects, into the chain its hash selects in the larger table |
| Chains.Unlink | src/sd/hash.c:312-319 | unlinking takes exactly that entry out of its chain, whether it stands first, in the middle or last |
| Chains.RemovedShape | src/sd/hash.c:312-319 | the same for the links as values |
| Hash.Table.constructor | src/sd/hash.c:60-88 | an empty table of the asked size, or of 10 |
| Hash.Table.Lookup | src/sd/hash.c:91-105 | the walk along one bucket finds the entry of the key, and null exactly when there is none |
| Hash.Table.LookAdd | src/sd/hash.c:108-136 | the entry there is for the key, the table unchanged, or a new one added to an otherwise unchanged map |
| Hash.Table.Rehash | src/sd/hash.c:29-57 | four times the buckets, the same entries for the same keys |
| Hash.Table.Add | src/sd/hash.c:139-154 | the map becomes the old map with the key bound to the data; existing entries keep their identity |
| Hash.Table.IterDel | src/sd/hash.c:295-322 | the entry is taken out of the chains and the count, or, while it is being visited, only loses its key and data |
| Hash.Table.Del | src/sd/hash.c:186-197 | the map becomes the old map without the key |
| Hash.Table.Clear | src/sd/hash.c:165-183 | every entry is freed once, in table order, and the table is empty |
| Hash.Table.Visit | src/sd/hash.c:207-221 | one turn of the traversal: the callback's verdict on the entry is carried out after the successor has been read |
| Hash.Table.Foreach | src/sd/hash.c:200-222 | the callback sees a prefix of the table order, ended early only by a non-zero return, and exactly the entries it deleted are gone, the others untouched |
| Hash.FullSweepFilters | src/sd/hash.c:200-222 | a callback that always returns 0 sees every entry once, and what is left is the table filtered by it |
| Hash.CountIsMapSize | src/sd/hash.c:91-197 | `nelem` is the size of the map and at most twice the number of buckets and one |
| Hash.Table.Begin | src/sd/hash.c:239-249 | the first entry of the first bucket that is not empty |
| Hash.Table.IterNext | src/sd/hash.c:258-273 | the successor in table order, found from the hash of the entry even when its key has been freed |
| Hash.Table.IterPrev | src/sd/hash.c:276-292 | the predecessor in table order, unless it is in bucket 0 and the entry is not |
| Traversal.OrderIsNodes | src/sd/hash.c:239-273 | the table order contains every entry exactly once, so a traversal takes `nelem` steps |
| Traversal.AfterIs | src/sd/hash.c:258-273 | skipping empty buckets reaches the successor in table order |
| Traversal.AheadIs | src/sd/hash.c:276-292 | skipping empty buckets backwards reaches the predecessor |
| Traversal.PrevUndoesNext | src/sd/hash.c:258-292 | `iter_prev` undoes `iter_next` if and only if the step did not leave bucket 0 |
| Traversal.PrevStopsShort | src/sd/hash.c:276-292 | a table with an entry in bucket 0 and the next one in bucket 1, where the step forward is not undone |
| Factory.Factory.Delete | src/sd/factory.c:52-76 | every product is deleted exactly once although deleting it frees the key of its entry |
| Factory.Factory.List | src/sd/factory.c:129-147 | the total number of products, and as many of them as the array was said to hold, in table order; -1 for no room at all |
| Stack.PushPays | src/sd/stack.c:122-146 | a push adds at most two to the slots copied and the credit left, and keeps large arrays a quarter full |
| Stack.PopPays | src/sd/stack.c:149-163 | the same for a pop |
| Stack.AmortisedCost | src/sd/stack.c:122-163 | over any n pushes and pops from a new stack, whatever its maximum, the reallocations copy at most 2n slots |
| Stack.Stack.constructor | src/sd/stack.c:43-54 | an empty stack of 32 slots; a maximum of 0 stands for INT_MAX |
| Stack.Stack.Push | src/sd/stack.c:122-146 | where its assertion holds: fails exactly when the stack holds its maximum of at least 32, and otherwise puts the data on top, through any reallocation |
| Stack.Stack.Pop | src/sd/stack.c:149-163 | returns and removes what was on top, null when empty, through any reallocation |
| Stack.Stack.Peek | src/sd/stack.c:113-119 | what is on top, null when empty |
| Stack.CopiesAtMostTwice | src/sd/stack.c:122-163 | for the array in memory: at most two slots copied per operation, `size >= 128` implies `sp >= size/4 - 1`, and `sp <= size <= max` unless the maximum is below 32, when the size stays 32 |
| Stack.MaximumKeptExactlyWhen | src/sd/stack.c:43-54 | over all pushes and pops the maximum is kept, and the assertion of push never fails, if and only if the maximum is 0 or at least 32; below that 32 pushes exceed it and one more trips the assertion |
| Stack.PopUndoesPush | src/sd/stack.c:122-163 | a pop after a push returns what was pushed and restores the stack |
| List.InsertedLinked | src/sd/list.c:271-348 | linking a node in at any place keeps head, tail, next and prev those of the longer sequence |
| List.RemovedLinked | src/sd/list.c:253-267 | unlinking a node at any place keeps them those of the shorter sequence |
| List.List.Add | src/sd/list.c:119-141 | a new node in front |
| List.List.Prepend | src/sd/list.c:299-322 | a new node in front |
| List.List.Append | src/sd/list.c:325-348 | a new node at the end |
| List.List.IterInsert | src/sd/list.c:271-296 | a new node just before the given one, also when that is the head |
| List.List.Lookup | src/sd/list.c:92-103 | the first node with the data, null when there is none |
| List.List.LookAdd | src/sd/list.c:106-116 | an existing node with the data and the list unchanged, or a new one in front |
| List.List.IterDel | src/sd/list.c:245-268 | the node is taken out, or only marked while it is being visited |
| List.List.Del | src/sd/list.c:162-178 | the first node with the data is taken out, -1 and no change when there is none |
| List.List.SortAdd | src/sd/list.c:144-159 | the new node goes in front of the first one the callback says is above it |
| List.SortAddKeepsOrder | src/sd/list.c:144-159 | under a total preorder a sorted list stays sorted, and the new element comes after all equal ones and before all greater ones |
| List.List.Visit | src/sd/list.c:190-203 | one turn of a traversal in either direction, with deletion deferred past the reading of the link; the callback sees and changes its user data |
| List.List.Foreach | src/sd/list.c:181-204 | the callback sees a prefix of the list, ended early only by a non-zero return, its user data go from one call to the next, and exactly the nodes it deleted are gone |
| List.List.Rforeach | src/sd/list.c:207-230 | the same from the tail |
| List.FullSweepFilters | src/sd/list.c:181-230 | a callback that always returns 0 sees every node once, with the user data left by the calls before, and the list is filtered with its order kept |
| List.DropSeenKeepsFirst | src/sd/list.c:181-230 | with a callback that deletes what it has seen before, exactly the elements that do not occur earlier are kept, in their order |
| List.List.Delete | src/sd/list.c:32-51 | every node is freed once |
| Category.PathEnds | src/log4c/category.c:73-95 | the dotted prefixes of a name end at root, never repeat, and are at most one more than its dots |
| Category.AncestorsRegistered | src/log4c/category.c:73-95 | in a closed registry all dotted prefixes of a registered name are registered |
| Category.CutAtLastDot | src/log4c/category.c:276-288 | the name above `a.b` is `a`, whatever dots `a` has |
| Category.NoDotIsBelowRoot | src/log4c/category.c:276-288 | and above a name without a dot it is `root` |
| Category.PathIsCuts | src/log4c/category.c:73-95 | a path is the name and what stands before each of its dots, longest first, down to `root`; only what is above a prefix `root` is left out |
| Category.ParentIsPrefix | src/log4c/category.c:73-95 | in a registry the parent of a registered `a.b` is the registered `a`, that of a name without a dot is the registered `root`, which has none |
| Category.Registry.Get | src/log4c/category.c:48-62 | returns the one category of the name, adds exactly the missing ancestors with default fields, changes no existing category, and keeps the registry closed, although the constructor calls back into the registry |
| Category.Registry.New | src/log4c/category.c:73-95 | the new category's parent is the registered category of its dotted prefix; root has none |
| Category.ClosedMore | src/sd/factory.c:79-96 | adding the product after its constructor has added the ancestors completes the path of the name |
| Delivery.NearestIsNearest | src/log4c/category.c:120-131 | the inherited priority is the first one set on the path, else that of root |
| Delivery.SetPriorityScope | src/log4c/category.c:146-156 | setting a priority changes the effective priority of exactly the categories whose path reaches it with no nearer priority set, and to exactly which value |
| Delivery.ParentWalks | src/log4c/category.c:125-128 | following `cat_parent` walks the path of the name and ends after root |
| Delivery.GetChainedPriority | src/log4c/category.c:120-131 | the loop over the parents finds the inherited priority |
| Delivery.SetPriority | src/log4c/category.c:146-156 | returns the previous priority and changes that of one category |
| Delivery.CountAppenders | src/log4c/category.c:220-227 | zero exactly when no category on the path has an appender |
| Delivery.Vlog | src/log4c/category.c:206-267 | the event is appended to exactly the delivery list of the path |
| Delivery.DeliveredUpTo | src/log4c/category.c:262-267 | the delivery list is the appenders along the path up to and including the first category that is not additive, in order |
| Config.ReadRun | src/log4c/rc.c:66-249 | after any assignments a field holds the last value given to it, else what it held, else the default of a new object |
| Config.RunTwice | src/log4c/rc.c:66-249 | repeating a sequence of assignments changes nothing |
| Config.OrderDoesNotMatter | src/log4c/rc.c:66-249 | sequences with the same assignments, none of which disagree, have the same effect |
| Config.SameEffectExactlyWhen | src/log4c/rc.c:66-249 | from every state two sequences of assignments have the same effect if and only if they end with the same value for each place and make the same objects |
| Loader.LoadTwice | src/log4c/rc.c:322-380 | loading a document twice is loading it once, errors included |
| Loader.UniqueKeysAgree | src/log4c/rc.c:322-380 | in a document that configures each object and field at most once no two assignments disagree |
| Loader.LoadReversed | src/log4c/rc.c:357-375 | with unique keys the elements can be loaded in reverse order |
| Loader.EitherReader | src/log4c/rc.c:322-380 | with unique keys and attributes the mirrored document gives the same categories, appenders, layouts, config fields and return code |
| Loader.SameLoadExactlyWhen | src/log4c/rc.c:322-380 | any two documents load alike from every state if and only if both are refused, or both accepted with the same last values and the same objects |
| Loader.ReversedExactlyWhen | src/log4c/rc.c:357-375 | without unique keys, reversing the elements changes nothing if and only if the last assignment to each place stays the same |
| Loader.EitherReaderExactlyWhen | src/log4c/rc.c:322-380 | and so for the mirrored document |
| RcLoader.Rc.GetCategory | src/log4c/category.c:48-95 | the category and its missing ancestors are made with default fields, nothing else changes |
| RcLoader.Rc.GetAppender | src/log4c/appender.c:98-133 | the first use makes stderr and stdout, a new appender has the basic layout, no other name, layout or type changes |
| RcLoader.Rc.GetLayout | src/log4c/layout.c:94-127 | the first use makes dated and basic, nothing else changes |
| RcLoader.Rc.CategoryLoad | src/log4c/rc.c:111-145 | makes exactly the assignments of the element; -1 without a name |
| RcLoader.Rc.AppenderLoad | src/log4c/rc.c:148-226 | makes exactly the assignments of the element; -1 without a name |
| RcLoader.Rc.LayoutLoad | src/log4c/rc.c:232-249 | makes exactly the assignments of the element; -1 without a name |
| RcLoader.Rc.ConfigLoad | src/log4c/rc.c:66-108 | the loop makes exactly the assignments of the children |
| RcLoader.Rc.Load | src/log4c/rc.c:322-380 | -1 and no change for a file that cannot be opened, another root or another version; else 0 and the assignments of the document |
| Loaded.ResultOfLoad | src/log4c/rc.c:322-356 | 0 exactly for a document with root `log4c` whose version, if any, is that of the library; else -1 and no change |
| Loaded.LastGivenHolds | src/log4c/rc.c:66-249 | after an accepted document each place (priority, additivity, appender, appender type and layout, layout type, config fields) holds what the last element that gives it says, read off its name, attributes and text |
| Loaded.NothingGivenKeeps | src/log4c/rc.c:322-380 | a place no element gives a value holds what it held, that of a new object if the document makes the object, and for the cleanup the negation of the deprecated attribute |
| Loaded.SizeIs | src/log4c/rc.c:36-63 | a size is the number it begins with, 0 if negative, times 1024, 1048576 or 1073741824 if it ends in KB, MB or GB |
| Loaded.SpellsIs | src/log4c/rc.c:120-133 | `true` and `false` may be spelled in capital and small letters |
| Printer.XmlFwrite | src/sd/domnode-xml.c:27-78 | the recursive printer writes the specified text of the tree at the given indentation |
| Printer.PutAttributes | src/sd/domnode-xml.c:45-50 | the attribute loop writes the specified text |
| Printer.PutChildren | src/sd/domnode-xml.c:61-68 | the loop over the children writes their texts one after the other |
| Printer.Fwrite | src/sd/domnode-xml.c:89-99 | the declaration and the text of the tree |
| Scanner.ExtractWord | src/sd/domnode-xml-scanner.l:50-63 | the two loops find the word after the opening bracket and blanks |
| Scanner.ExtractString | src/sd/domnode-xml-scanner.l:67-77 | the loop finds the text between the double quotes |
| Scanner.WinnerIsChosen | src/sd/domnode-xml-scanner.l:112-134 | a match that no active rule beats, by length or by place, is the one flex chooses |
| Lexicon.RuleMatches | src/sd/domnode-xml-scanner.l:98-134 | every rule of the scanner matches exactly the texts described by their characters: blanks, names, values, tags, comments, text and line ends |
| Munch.StartWins | src/sd/domnode-xml-scanner.l:122-126 | before a start tag the START rule wins, with exactly the tag's name |
| Munch.EndWins | src/sd/domnode-xml-scanner.l:127-127 | before an end tag the END rule wins |
| Munch.NameWins | src/sd/domnode-xml-scanner.l:118-118 | inside a tag a name is taken whole |
| Munch.ValueWins | src/sd/domnode-xml-scanner.l:119-119 | a quoted attribute value is taken whole |
| Munch.CloseWins | src/sd/domnode-xml-scanner.l:117-117 | a closing bracket takes the blanks after it |
| Munch.DataWins | src/sd/domnode-xml-scanner.l:131-131 | in content the text of an element is taken up to the next newline |
| Munch.DeclarationWins | src/sd/domnode-xml-scanner.l:129-129 | the XML declaration and the blank line after it are skipped as one match |
| Munch.CommentWins | src/sd/domnode-xml-scanner.l:128-128 | a comment is taken with the blanks before and after it, up to the first two dashes and a bracket |
| Spelling.BlanksDoNotMatter | src/sd/domnode-xml-scanner.l:98-127 | any text of spaces, tabs, carriage returns and line ends before a tag, after its opening bracket, after a closing bracket and before a name in a tag scans like none |
| Spelling.ScanAttr | src/sd/domnode-xml-scanner.l:113-119 | the same around an attribute and its equals sign; an attribute may have no value |
| Spelling.TakenOf | src/sd/domnode-xml-scanner.l:80-95 | of a comment `comment()` takes the text without the blanks at its beginning; with blanks before the mark, of which the match has n, also the last n (at most four) characters of the mark |
| Spelling.ScanDeclared | src/sd/domnode-xml-scanner.l:129-129 | a declaration is skipped with the blanks after it, inside and outside of content |
| Spelling.QuestionMark | src/sd/domnode-xml-scanner.l:120-120 | a `?>` inside a tag is a token of its own |
| Spelling.TextLines | src/sd/domnode-xml-scanner.l:131-134 | line ends between lines of text are skipped |
| Spelling.AmpersandIsWrong | src/sd/domnode-xml-scanner.l:133-133 | an ampersand is reported and passed over |
| Spelling.ScanDoc | src/sd/domnode-xml-scanner.l:98-134 | a document with any blanks between its marks, comments and text in any order scans to the tokens of one derivation, and no error |
| Spelling.SpelledReads | src/sd/domnode-xml-parser.y:60-204 | such a document is read exactly when the stack can hold it, and gives the tree it spells: attributes in order, children and comments in order, the last text as value, comments outside the root dropped |
| Lalr.TablesAreTheAutomaton | src/sd/domnode-xml-parser.c:160-215 | bison's packed tables encode this automaton, for every state and lookahead |
| Lalr.GotosAreTheAutomaton | src/sd/domnode-xml-parser.c:183-215 | and these gotos |
| Lalr.StepDescends | src/sd/domnode-xml-parser.c:676-1074 | the loop cannot reduce for ever: every round consumes a token or descends a measure, so it ends on every input |
| LalrSound.RightHandSideOnTop | src/sd/domnode-xml-parser.c:886-1074 | whenever a rule is reduced its right-hand side is on the stack, and more than that |
| LalrSound.ReductionDoesNotCrash | src/sd/domnode-xml-parser.y:117-156 | the assertions of the actions hold whenever they are run |
| LalrSound.ReductionStaysTraced | src/sd/domnode-xml-parser.c:886-1074 | reductions keep the stack a spelling of what has been read |
| LalrSound.StepStaysTraced | src/sd/domnode-xml-parser.c:676-1074 | every round keeps the invariant, and never pops below the bottom |
| LalrSound.RunStaysTraced | src/sd/domnode-xml-parser.c:676-1251 | every run returns 0, 1 or 2, and a token list on which it returns 0 derives from `document` |
| LalrComplete.AttributesRun | src/sd/domnode-xml-parser.y:168-188 | a list of attributes is reduced to one symbol, or the stack is exhausted, exactly as computed |
| LalrComplete.ElementRuns | src/sd/domnode-xml-parser.y:83-159 | an element is reduced to one symbol and its tree hung below the open element, exactly when its tags match and it fits in the stack |
| LalrComplete.DocumentRuns | src/sd/domnode-xml-parser.y:60-67 | which derivations of `document` are accepted, and with which result |
| Parsing.ParseDecides | src/sd/domnode-xml-parser.c:596-1262 | every run returns 0, 1 or 2; it returns 0 if and only if the tokens derive from the grammar with matching tags, within the depth of the stacks |
| Parsing.ParseBuilds | src/sd/domnode-xml-parser.y:60-204 | the tree built is the one the derivation denotes, and the element stack is empty |
| Build.ElementBuilds | src/sd/domnode-xml-parser.y:83-204 | the actions over an element append its tree to the open element and change nothing else |
| XmlParser.XmlMaker.OnStart | src/sd/domnode-xml-parser.y:83-112 | the START action on the objects |
| XmlParser.XmlMaker.OnComment | src/sd/domnode-xml-parser.y:69-81 | the comment action on the objects |
| XmlParser.XmlMaker.OnData | src/sd/domnode-xml-parser.y:145-155 | the DATA action on the objects |
| XmlParser.XmlMaker.OnAttribute | src/sd/domnode-xml-parser.y:194-204 | the attribute action on the objects |
| XmlParser.XmlMaker.OnEnd | src/sd/domnode-xml-parser.y:117-142 | the END action on the objects |
| XmlParser.Recover | src/sd/domnode-xml-parser.c:1140-1236 | no state can shift the error token: recovery pops every state and returns 1 |
| XmlParser.Consult | src/sd/domnode-xml-parser.c:772-884 | what the code reads off the tables, with a lookahead read only when needed, is the decision of the automaton |
| XmlParser.Reduction | src/sd/domnode-xml-parser.c:886-1074 | action, pops and goto leave the stacks and the objects of the specification |
| XmlParser.YyParse | src/sd/domnode-xml-parser.c:596-1262 | the goto-driven loop with growing stacks returns the result of the specification, and its objects are the specified tree |
| RoundTrip.SyntaxDenotes | src/sd/domnode-xml.c:27-78 | the tokens of a printed tree denote that tree |
| RoundTrip.SyntaxNeeds | src/sd/domnode-xml-parser.c:722-749 | how deep a stack they need |
| PrintScan.ScanElement | src/sd/domnode-xml-scanner.l:98-134 | scanning the printed text of an element, indentation included, gives its tokens and leaves the rest |
| PrintScan.ScanWritten | src/sd/domnode-xml-scanner.l:98-134 | scanning a written document gives exactly the tokens of the tree and no error |
| PrintScan.WriteThenRead | src/sd/domnode-xml.c:27-149 | round trip: for every clean tree what is written reads back as the same tree, order included, if and only if the parser's stack can hold it |
| PrintScan.StackNeedOfDepth | src/sd/domnode-xml-parser.c:722-749 | five entries a level, and at most three more |
| PrintScan.RoundTripDepth | src/sd/domnode-xml.c:27-149 | trees of at most 1998 levels always come back |
| PrintScan.DeepChainDoesNotComeBack | src/sd/domnode-xml-parser.c:722-738 | a chain of 2000 levels or more never does |
| Written.SampleWritten | src/sd/domnode-xml.c:27-99 | the very characters of a written document, for all names, values and texts in it |
| Written.WrittenIsSpelled | src/sd/domnode-xml.c:27-99 | what is written, comments included, is such a document |
| Written.WriteThenReadComments | src/sd/domnode-xml.c:27-149 | round trip with comments: what is written reads back, exactly when the stack can hold it, as the tree with the comments as `comment()` takes them |
| Written.ReadBackAddsBlanks | src/sd/domnode-xml.c:38-41 | that is the tree with one blank more in each comment, when comments begin with other than a blank and none stands first after a text |
| Written.ReadBackIsTree | src/sd/domnode-xml.c:27-149 | and the tree itself when it has no comments |
| Written.RespelledReads | src/sd/domnode-xml-scanner.l:98-134 | a written document whose indentation, line ends and blanks before attributes are replaced by any others reads back as the same tree |
| Expat.MirrorTwice | src/sd/domnode-expat.c:175-206 | mirroring twice is the identity |
| Expat.ElementMirrored | src/sd/domnode-expat.c:175-206 | the handlers over the events of an element hang the mirror of its tree in front of the open element's children |
| Expat.HandlersMirrorActions | src/sd/domnode-expat.c:175-206 | for every element without text and comments the handlers build the mirror of what the grammar actions build, and both leave the element stack empty |
| ExpatReader.StartHandler | src/sd/domnode-expat.c:175-199 | the handler on the objects, with its loop over the attributes |
| ExpatReader.EndHandler | src/sd/domnode-expat.c:202-206 | the handler on the objects |
| ExpatReader.ReadEvents | src/sd/domnode-expat.c:175-206 | a whole stream of events on the objects |

## Left out

- Integer widths: sizes, counts and hashes are unbounded; overflow of `long`, `int`, `size_t` and of `strtol` is not modelled.
- Allocation failure, and the release of memory: a freed object is one that is no longer in the structure.
- The text of messages: `fprintf` appends a message without conversion specifiers, and does not fail.  A stream is open only between the `fopen` of file 0 and the `fclose` before the renames, so a write goes to the file with index 0.
- Loader.LoadTwice: speaks also of documents with a `nocleanup`, `bufsize` or `reread` element without text, which `config_load` dereferences; the specification reads such a text as empty.  So do the other lemmas about documents.
- RcLoader.Rc.ConfigLoad: not for those documents; `RcLoader.Rc.Load` neither.
- Scanner.ExtractString: not for attribute values in single quotes without a double quote, where `string()` reads past the end of its buffer.
- RcLoader.Rc.GetAppender: the user data of `stderr` and `stdout`, the streams of that name.
- RcLoader.Rc.AppenderLoad: the rollingfile part of the element (logdir, prefix, policy).
- RcLoader.Rc.Load: the rollingpolicy elements are passed over.
- ExpatReader.StartHandler: the emptying of the text buffer, which only text events use.
- ExpatReader.EndHandler: the same.
- ExpatReader.ReadEvents: text and comment events.
- Closing and reopening a rolling appender, two appenders on one policy, and an appender without a policy.
- Real mutexes: a thread that waits for the lock stays where it is, and only the holder is inside the critical section.
- Rereading the configuration file when it changes.
- `atoi`, `strtol`, the table of priority names and the tables of appender and layout types: parameters of the loader.
- A configuration file that exists and is not well-formed: the library compares the name of an empty root, which is null.
- The flex tables and buffer refills: the rules of the `.l` file are the scanner.  Input has no NUL bytes.
- Comments whose text contains two dashes, which end the comment when it is read, and comments without a text, for which `fprintf` is given a null pointer: the specification of the printer writes nothing there.
- Spelling.SpelledReads: not for text that does not end with its line, comments that begin with `>` or `->`, several lines of text before the next tag, `<!` and `<?` other than a declaration in front, and blanks after the opening bracket of a tag; of these the scanner's part is in `Spelling.TextLines`, `Spelling.ScanDeclared` and `Spelling.BlanksDoNotMatter`.
- Attribute values in single quotes, which `string()` reads past the end of, and values with `&` or a double quote.
- The element stack of the parser and of the expat handlers, and the lists of attributes and children, are sequences there; the array stack and the linked list are proved by themselves in `Stack` and `List`.
- The back pointers from entries to their table and from nodes to their list: operations on entries and nodes are methods of the table and the list.
- The optional key and data copying and freeing callbacks of the hash table.
- `sd_stack_begin`, `sd_stack_next` and `sd_stack_clear`.
- `sd_list_clear`, which drops the nodes without freeing them.
- `sd_factory_destroy` and `sd_factory_print`.
- Null receivers and null arguments of the container and category functions, which return at once, except where a method takes a nullable parameter.
- Layouts, logging events, the stream, syslog and mmap appenders, `sd_getopt`, and tracing.
