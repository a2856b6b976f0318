# Process sampling and capture protocols

Models of the stateful parts of the agent: the process library of procps
(process history, result stacks, thread iterator, string vectors, disk nodes, cpu ticks,
stack pools, slab totals, vmstat's percentages, UTF-8 escaping), the incremental log
reader, and the two protocols between goroutines that collect a capture, each with
proofs of what it keeps and promises.

`dafny verify dfyconfig.toml` verifies everything. One file is one module:

| file | models | main results |
|---|---|---|
| Common.dfy | machine words, optional values, lists without duplicates | |
| PidsHistory.dfy | two hash tables with index chains, swapped at every fetch | refine a map from pid to counters; deltas over whole runs |
| PidsResults.dfy | extents of result stacks, slots that own strings | every string freed once over any session; every slot shows its own read |
| ReadEither.dfy | the thread iterator with its static state | a scan returns exactly the expected tasks |
| FileVec.dfy | the two passes that make a string vector of a file | pointers fit their space; strings are the pieces of the file |
| DiskNodes.dfy | the linked list of disk nodes, on the heap | refines a sequence; when the deltas a caller is given telescope |
| StatTicks.dfy | derived ticks, cpus folded into NUMA nodes | conservation; sums and deltas stay sound |
| StatPools.dfy | three stack pools under one item list, one apart | results stay live and itemized over any session |
| Slabs.dfy | the slab node array and its totals | totals are sums; the average is between the extremes |
| VmstatPercent.dfy | clamped deltas, debt, rounded percentages | exact bounds, both reached |
| Escape.dfy | escaping in place | well-formed out of well-formed, for every cut |
| AppLogM3.dfy | the read position of every log, unique file names | where every byte goes, over any run; exactly when all is sent; least unused name |
| CaptureProtocol.dfy | FullCapture's goroutines, channels and wait groups | never stuck if and only if the receives respect the waits |
| JStackProtocol.dfy | the coordinator and two workers of JStack | count rounds whatever fails; no full buffer |

Code that works in place is modelled by classes and methods over arrays and linked nodes,
each specified by a function of the old state; the laws are lemmas about those functions.
Files, directories, statistics and failures enter as parameters, and hold for all values.
In the two protocols an action is one step of one goroutine, and a run is any sequence of
enabled actions.

## Where code and description differ

- esc_ctl is said to eliminate control characters (escape.c:85). It looks at lead bytes
  only: C2 0A keeps its newline. `Escape.ControlsSurvive` says exactly when, and on
  well-formed text it never happens (`Escape.EscapeKeepsWellFormed`).
- esc_ctl is idempotent on C strings, but on bytes with a NUL inside only under the
  condition of `Escape.CtlTwice`, because esc_all stops at that NUL.
- The log reader means to avoid missing logs after rotation while not processing entries
  twice (applogm3.go:121-123). It detects a rotation only by a smaller size
  (`AppLogM3.RotationCaptured`), and even then the bytes written between the last capture and
  the rotation are in no chunk (`AppLogM3.RotationLoses`). A failing seek collects bytes again
  (`AppLogM3.SeekFailureRepeats`), as its comment admits, and a chunk that cannot be synced is
  never sent. `AppLogM3.RunAccounts` is the account of every run, `AppLogM3.RunFlaws` says
  exactly which events lose, repeat or withhold bytes.
- dmesg is started with vmstat to wait for (ondemand.go:332), but the wait is skipped while
  vmstat's Cmd is not set (capture.go:32-35), so dmesg can run first:
  `CaptureProtocol.DMesgUnordered`. When it saw the Cmd, it runs after vmstat's result was
  received: `CaptureProtocol.FullCaptureCollectsAll`.
- vmstat subtracts guest from user time and prints 0 when guest is larger, but still
  prints the guest share, which can exceed 100: `VmstatPercent.GuestColumn` says exactly
  when, `VmstatPercent.RowSumIs` what the row then sums to, and
  `VmstatPercent.GuestBeyondUser` gives an interval.
- A disk's delta is what changed between the last two reads of it. A reap walks all nodes
  without the test for staleness (diskstats.c:640-654), so a device that the file no longer
  lists is given its last delta again (`DiskNodes.UnlistedRepeats`);
  `DiskNodes.DeltasTelescope` is the exact account.
- A task's tics are 64 bits wide, pcpu is a 32-bit int, and the result slot is unsigned
  again (pids.c:273). A delta is reported right if and only if it is neither negative nor
  2^32 or more (`PidsHistory.ReportedIsTrue`), whatever the field between holds
  (`PidsHistory.PcpuIsTrue`).
- The plain tick deltas are clamped at zero one by one (stat.c:164-166), so that unlike
  the derived ones they need not add up: `StatTicks.PlainDeltasAddUp`.

## Model

| member | source | states |
|---|---|---|
| PidsHistory.HistoryInfo.HistGet | internal/capture/procps/linux/pids.c:678-690 | walking the hash chain finds exactly the record last put for the pid in the saved frame, and nothing when none was put |
| PidsHistory.HistoryInfo.HistPut | internal/capture/procps/linux/pids.c:693-701 | a put overrides the map from pid to record at one key, keeps the saved frame, and keeps every link below its own index |
| PidsHistory.HistoryInfo.MakeHist | internal/capture/procps/linux/pids.c:706-739 | the frame gains the task's counters, the reported deltas are those against the saved frame, growth loses nothing |
| PidsHistory.HistoryInfo.Toggle | internal/capture/procps/linux/pids.c:742-757 | the frame just recorded becomes the saved one, the new one is empty, the tables never alias |
| PidsHistory.HistoryInfo.Fetch | internal/capture/procps/linux/pids.c:1132-1166 | one fetch reports, task by task, the deltas against the previous fetch; a fetch without history clears it |
| PidsHistory.LookupAtNewest | internal/capture/procps/linux/pids.c:678-690 | in an array of chained records the newest record of a bucket decides a lookup, or hands it to the records in front of it |
| PidsHistory.ChainedPut | internal/capture/procps/linux/pids.c:693-701 | appending a record with the table's old head as its link keeps all chains, and changes the map they stand for at that pid alone |
| PidsHistory.Run | internal/capture/procps/linux/pids.c:1132-1166 | over any run of fetches every frame's deltas are those of the frame in front of it |
| PidsHistory.ReportsAre | internal/capture/procps/linux/pids.c:720-735 | from the counters read: in the frame after one with the same task id the deltas are those of utime + stime, of the major and of the minor faults, else all the tics and no faults |
| PidsHistory.PcpuIsReported | internal/capture/procps/linux/pids.c:728-735 | in frames without duplicates the stored value is the difference to the task's previous frame, or all its tics when it is new |
| PidsHistory.PcpuIsTrue | internal/capture/procps/linux/pids.c:728-735 | the field of the proc_t is the true number of tics if and only if that fits an int |
| Common.IntRange | internal/capture/procps/linux/pids.c:728-735 | a store into an int keeps the value modulo 2^32, in the range of an int |
| PidsHistory.ReportedIsTrue | internal/capture/procps/linux/pids.c:273 | the unsigned value a caller is given is the true number of tics if and only if that is not negative and below 2^32 |
| PidsHistory.FaultsAreTrue | internal/capture/procps/linux/pids.c:728-732 | the fault deltas are the true differences if and only if these fit an int |
| PidsHistory.PcpuTelescopes | internal/capture/procps/linux/pids.c:706-739 | from a task's first frame on, the values a caller is given sum to its latest tics modulo 2^32, and with tics that never ran backwards exactly if and only if no frame used 2^32 or more |
| PidsResults.PidsInfo.AssignSlot | internal/capture/procps/linux/pids.c:119-146 | a setter frees what the slot held, then takes the string, duplicates, or stores the number of its own item; no other slot changes |
| PidsResults.PidsInfo.CleanupStack | internal/capture/procps/linux/pids.c:870-882 | every slot up to the logical end is freed when its item owns a string, and cleared |
| PidsResults.PidsInfo.AssignResults | internal/capture/procps/linux/pids.c:851-867 | slot by slot the stack shows the read at hand, its numbers and the text of its strings; ownership stays unique and no string changes |
| PidsResults.FirstSlotTakes | internal/capture/procps/linux/pids.c:127-143 | of several slots with one string item the first takes the string, so later ones get a duplicate hint |
| PidsResults.SetSlotsShow | internal/capture/procps/linux/pids.c:119-146 | right after a read, the first slot of a string field holds that read's own string, a later one the hint, a duplicating slot the character array |
| PidsResults.ShowsMeans | internal/capture/procps/linux/pids.c:110-146 | slot by slot, what a caller reads: the number, the text of the read's own string or the hint, the character array |
| PidsResults.PidsInfo.CleanupStacksAll | internal/capture/procps/linux/pids.c:885-896 | afterwards no stack of any extent holds a string |
| PidsResults.PidsInfo.ItemizeStacksAll | internal/capture/procps/linux/pids.c:942-953 | all cleared stacks take the current items and end in the logical end within their capacity |
| PidsResults.PidsInfo.StacksAlloc | internal/capture/procps/linux/pids.c:1087-1129 | a new extent of distinct fresh stacks, itemized and zero, in front of the others |
| PidsResults.PidsInfo.Reset | internal/capture/procps/linux/pids.c:1498-1547 | items change only after every value was cleared; stacks are kept and itemized again, or all given up when they are too small; a refused list changes nothing |
| PidsResults.PidsInfo.Fetch | internal/capture/procps/linux/pids.c:1132-1190 | the results are n_inuse distinct itemized stacks in read order with a NULL behind them, the stacks of earlier fetches first, stack i showing the numbers and the strings of read i; the counts are the tally of the reads |
| PidsResults.PidsInfo.Harvest | internal/capture/procps/linux/pids.c:1462-1600 | reap fails on an empty scan, select does not; on success one live stack per read, distinct, in order, NULL-delimited, showing the numbers and strings of that read, with the tally of the reads |
| PidsResults.PidsInfo.FreeAcquired | internal/capture/procps/linux/readproc.c:79-97 | of the strings left in the proc_t exactly those of the fields it knows are freed, and no other string; slots keep theirs |
| PidsResults.PidsInfo.Unref | internal/capture/procps/linux/pids.c:1315-1367 | the last unref frees every string a slot still holds |
| PidsResults.TallyPartitions | internal/capture/procps/linux/pids.c:1040-1073 | total = running + sleeping + stopped + zombied + other = number of reads, each the count of its states |
| PidsResults.FreedOnce | internal/capture/procps/linux/pids.c:108-146 | under the ownership invariant no string is freed twice, none that was taken is lost, and no two slots share one |
| PidsResults.Session | internal/capture/procps/linux/pids.c:1498-1600 | over any sequence of resets and harvests every answer is that to its operation under the items last accepted, every harvest shows its own reads; after the final unref every string ever taken was freed exactly once, and free was never called on a number |
| ReadEither.Scanner.NextTid | internal/capture/procps/linux/readproc.c:1389-1411 | the next entry of the process's own task directory, opening it once and closing the previous one |
| ReadEither.Scanner.Next | internal/capture/procps/linux/readproc.c:1476-1518 | one call returns the head of what a complete scan has yet to return, through the static state of the iterator, and NULL exactly at its end |
| ReadEither.Scan | internal/capture/procps/linux/readproc.c:1476-1518 | a complete scan over distinct tgids returns one part for each process, in finder order |
| ReadEither.ScanByProcess | internal/capture/procps/linux/readproc.c:1490-1514 | a part is the process itself when task directories are missing, nothing when its directory does not open, else its listing up to the first entry that cannot be read, the leader through the base directory |
| ReadEither.TasksArePrefix | internal/capture/procps/linux/readproc.c:1501-1514 | of a process the tasks in front of the first unreadable one, in listing order; the leader, and it alone, through the base directory |
| ReadEither.NoTaskTwice | internal/capture/procps/linux/readproc.c:1476-1518 | with distinct tgids and no id twice in one listing, no pair of tgid and tid is returned twice, with or without task directories |
| ReadEither.NoTidTwice | internal/capture/procps/linux/readproc.c:1476-1518 | with ids distinct over all listings no tid is returned twice |
| FileVec.Slurp | internal/capture/procps/linux/readproc.c:767-799 | the file up to the first short read, NUL-terminated, or nothing on an error or an empty file; cut off at a chunk boundary near the limit |
| FileVec.FailsIff | internal/capture/procps/linux/readproc.c:767-799 | nothing is returned exactly of an empty file and when a read fails before any was short |
| FileVec.StreamIsFile | internal/capture/procps/linux/readproc.c:767-790 | what is read is the whole file if and only if no data comes behind a short read |
| FileVec.CountPointers | internal/capture/procps/linux/readproc.c:801-812 | the first pass reserves one pointer per separator and one for the NULL, or stops where the block would exceed an int |
| FileVec.FillPointers | internal/capture/procps/linux/readproc.c:814-827 | the second pass writes exactly the reserved number of pointers, each to the start of its string |
| FileVec.FileToStrVec | internal/capture/procps/linux/readproc.c:755-829 | on every input the block is that of the data, byte by byte, of all of it or, from the limit on, of a part in front of a chunk boundary |
| FileVec.BlockIs | internal/capture/procps/linux/readproc.c:781-827 | of data s: a NUL is appended unless s ends in one, strings run between the NULs and newlines, their number is that of these bytes and one for a tail, or the most the size of an int leaves room for; pointers are aligned |
| FileVec.BlockJoins | internal/capture/procps/linux/readproc.c:804-826 | with all strings there, joined by NULs they are the data with newlines as NULs, and a NUL behind a tail |
| FileVec.PieceAt | internal/capture/procps/linux/readproc.c:819-826 | each piece is what lies between two consecutive separators |
| FileVec.PiecesJoin | internal/capture/procps/linux/readproc.c:804-826 | joined by NULs the pieces are the bytes again, newlines read as NULs |
| FileVec.StringsArePieces | internal/capture/procps/linux/readproc.c:814-827 | a C string read at a pointer is the piece of that number |
| FileVec.RoomForPointers | internal/capture/procps/linux/readproc.c:801-812 | below 128 MiB the first pass never stops early, and there is always room for one pointer |
| FileVec.WholeFile | internal/capture/procps/linux/readproc.c:755-829 | the strings are all the pieces of the file if and only if it has no more than there is room for, and joined by NULs they then are the file; no string holds a newline |
| FileVec.SmallFile | internal/capture/procps/linux/readproc.c:801-829 | that is so for every file of up to 128 MiB |
| DiskNodes.DiskstatsInfo.NodeAdd | internal/capture/procps/linux/diskstats.c:284-320 | a node goes to the tail of the acyclic list |
| DiskNodes.DiskstatsInfo.NodeCut | internal/capture/procps/linux/diskstats.c:349-369 | exactly the given node is unlinked, the others keep their order |
| DiskNodes.DiskstatsInfo.NodeGet | internal/capture/procps/linux/diskstats.c:372-394 | the node of that name, which is evicted and not returned when it is stale |
| DiskNodes.DiskstatsInfo.NodeUpdate | internal/capture/procps/linux/diskstats.c:397-421 | a known device keeps its place and remembers its previous counters, an unknown or stale one enters at the tail |
| DiskNodes.DiskstatsInfo.ReadFailed | internal/capture/procps/linux/diskstats.c:511-560 | stamps move on and the lines are merged in order up to the first malformed one |
| DiskNodes.DiskstatsInfo.Get | internal/capture/procps/linux/diskstats.c:812-846 | the file is read when a second has passed; a device the read listed is answered with its line's counters and the list is left alone, any other only if its stamp is one of the last two |
| DiskNodes.GetPrunes | internal/capture/procps/linux/diskstats.c:372-394 | a lookup filters out the stale device of that name, leaves all others in their order, and names stay unique |
| DiskNodes.LookStamps | internal/capture/procps/linux/diskstats.c:372-394 | by the stamps: a lookup finds and keeps a device stamped by either of the last two reads and evicts any other |
| DiskNodes.LookupFindsRecent | internal/capture/procps/linux/diskstats.c:372-394 | over any run whose reads have growing stamps a lookup finds a device if and only if one of the last two reads listed it; then nothing changes, else the name leaves the list |
| DiskNodes.UpdatePlaces | internal/capture/procps/linux/diskstats.c:397-421 | names stay unique, survivors keep their relative order, re-insertion goes to the tail |
| DiskNodes.UnlistedStays | internal/capture/procps/linux/diskstats.c:511-560 | a read leaves the devices it does not list as they were |
| DiskNodes.ListedIsMerged | internal/capture/procps/linux/diskstats.c:397-421 | after a read with one line per name a listed device has the new stamp and its line's counters; old is its previous new if either stamp fits, else new |
| DiskNodes.ListedIsFound | internal/capture/procps/linux/diskstats.c:397-421 | after a successful read every listed device is found with its line's counters and stamp; its old counters are its previous new ones exactly when its stamp was one of the two |
| DiskNodes.MalformedStops | internal/capture/procps/linux/diskstats.c:526-557 | lines in front of a malformed one are merged, those behind it are not |
| DiskNodes.RunUnique | internal/capture/procps/linux/diskstats.c:372-421 | names are unique through any run of reads and lookups, whatever the files hold |
| DiskNodes.DeltasTelescope | internal/capture/procps/linux/diskstats.c:372-421 | over any run whose reads see no name twice: counter now = counter on entry + deltas given + deltas missed - deltas repeated, so what a caller is given telescopes if and only if as much was repeated as was missed |
| DiskNodes.ReapsTelescope | internal/capture/procps/linux/diskstats.c:640-654 | nothing is repeated or missed when the operations that give the device to the caller are those that read it |
| DiskNodes.TurnsTelescope | internal/capture/procps/linux/diskstats.c:397-421 | while the reads that list a device and its showings take turns, the deltas given telescope, up to one that is due |
| DiskNodes.GetIsATurn | internal/capture/procps/linux/diskstats.c:812-846 | a get or select with a read of its own is one turn, and so is a reap of a file that lists the device |
| DiskNodes.UnlistedRepeats | internal/capture/procps/linux/diskstats.c:640-654 | a reap of a file that no longer lists a device gives its last delta again |
| StatTicks.DeriveUnique | internal/capture/procps/linux/stat.c:396-427 | derived sums are consistent, and never run backwards: old is kept when no sum did, else replaced by new |
| StatTicks.ClampIs | internal/capture/procps/linux/stat.c:164-166 | a delta is the difference, or nothing when the counter ran backwards |
| StatTicks.DerivedDeltasAddUp | internal/capture/procps/linux/stat.c:164-166 | no derived delta is clamped, and busy and idle deltas add up to the total delta |
| StatTicks.PlainDeltasAddUp | internal/capture/procps/linux/stat.c:164-166 | the plain user and nice deltas add up to the derived one if and only if neither ran backwards |
| StatTicks.CpuHist.ReadCpus | internal/capture/procps/linux/stat.c:621-662 | every cpu line, across growth of the array, keeps the slot's previous counters as old and derives its sums |
| StatTicks.LineIsRead | internal/capture/procps/linux/stat.c:396-427 | of a line each of the ten counters is in its place, the five sums are what they say, and old is what the slot held unless a sum ran backwards |
| StatTicks.NodeHist.AddCpu | internal/capture/procps/linux/stat.c:515-541 | one cpu's fifteen fields are added to its node, in new and old, and no other node changes |
| StatTicks.NodeHist.MakeNumaHist | internal/capture/procps/linux/stat.c:487-544 | every node is the sum of the cpus placed on it, and counts them |
| StatTicks.FoldStep | internal/capture/procps/linux/stat.c:515-541 | adding one more cpu keeps every node the sum of its cpus |
| StatTicks.NodeIsItsCpus | internal/capture/procps/linux/stat.c:515-541 | each of a node's 15 counters, new and old, is the plain sum over the cpus on it, and its count their number |
| StatTicks.FoldConserves | internal/capture/procps/linux/stat.c:487-544 | over all nodes the ticks and counts are those of the cpus with a node id that is not negative |
| StatTicks.CountersConserved | internal/capture/procps/linux/stat.c:487-544 | by plain addition, each of the 15 counters, new and old, sums to the same over the nodes as over the cpus that have one |
| StatTicks.NodesAreSound | internal/capture/procps/linux/stat.c:396-427 | nodes inherit busy + idle = total and deltas that are not negative from their cpus |
| StatTicks.ReadAndFold | internal/capture/procps/linux/stat.c:1073-1084 | reading and folding in sequence: conservation of each counter and soundness whatever the counters did |
| StatPools.ReapSupport.Fetch | internal/capture/procps/linux/stat.c:757-810 | the result is one live, itemized stack per record, in order, also when the pool grows or was given up; stacks are used again as long as there are extents |
| StatPools.ItemsAccepted | internal/capture/procps/linux/stat.c:457-484 | a list is accepted if and only if it is not empty and all its items are below the logical end |
| StatPools.StatInfo.ReconfigReap | internal/capture/procps/linux/stat.c:813-834 | a changed list gives up all three pools together, an unchanged or refused one none |
| StatPools.StatInfo.UpdateSummary | internal/capture/procps/linux/stat.c:837-848 | the summary is a live stack with the current items |
| StatPools.StatInfo.Reap | internal/capture/procps/linux/stat.c:1028-1093 | everything reachable from the result is live and itemized with the latest items; with the list unchanged no stack is given up, with a changed one all are new; the stacks of select are untouched |
| StatPools.StatInfo.Select | internal/capture/procps/linux/stat.c:1103-1119 | its own list and stack; a result of reap stays good and filled as it was |
| StatPools.Session | internal/capture/procps/linux/stat.c:1028-1119 | over any sequence of calls the last successful reap's result is good until the next reap |
| Slabs.SlabInfo.AllocSlabNodes | internal/capture/procps/linux/slabinfo.c:325-342 | growth keeps the nodes in use and leaves room for one more |
| Slabs.SlabInfo.Account | internal/capture/procps/linux/slabinfo.c:428-451 | one cache is added to node and totals alike |
| Slabs.AddTo | internal/capture/procps/linux/slabinfo.c:431-451 | every one of the nine totals grows by the cache's own share, the extremes by its size |
| Slabs.SlabInfo.Parse | internal/capture/procps/linux/slabinfo.c:398-458 | for any table the totals are the sums over the stored nodes, which are the listed caches in order; a malformed line fails |
| Slabs.SlabInfo.ReadFailed | internal/capture/procps/linux/slabinfo.c:468-500 | the previous totals become old, the new ones are those of the file alone, column by column, sizes in bytes are in the nodes, and with any object minimum <= average <= maximum |
| Slabs.SummarizesStep | internal/capture/procps/linux/slabinfo.c:431-451 | the summary of one cache more: sums, minimum and maximum |
| Slabs.TotalsFromLines | internal/capture/procps/linux/slabinfo.c:431-451 | each total is the sum of its column over the lines of the table, the extremes are those listed |
| Slabs.ListedAt | internal/capture/procps/linux/slabinfo.c:413-429 | cache i is that of line i, called unknown if it has no name |
| Slabs.SizesBound | internal/capture/procps/linux/slabinfo.c:444-447 | minimum times objects <= total size <= maximum times objects |
| Slabs.AverageBetween | internal/capture/procps/linux/slabinfo.c:454-455 | with any object, minimum <= average <= maximum size |
| Slabs.ActiveTotals | internal/capture/procps/linux/slabinfo.c:444-447 | active size is at most total size when every cache has active <= total objects |
| VmstatPercent.Iterate | internal/capture/procps/linux/vmstat.c:460-534 | for every debt: the idle ticks pay what is owed, what they do not cover stays owed, and the row is that of the interval so corrected, unless the sum overflows an int |
| VmstatPercent.DueIs | internal/capture/procps/linux/vmstat.c:481-489 | ticks owed are taken off the idle ticks of the interval |
| VmstatPercent.Columns | internal/capture/procps/linux/vmstat.c:491-533 | division and truncation of the printed columns give the rounded shares of the interval |
| VmstatPercent.ColumnsShow | internal/capture/procps/linux/vmstat.c:460-533 | each column by the ticks it shows: user and nice less guest, system with both interrupts, idle, wait, stolen, guest, in rounded percent of all but guest; negative deltas count as none |
| VmstatPercent.NothingIsIdle | internal/capture/procps/linux/vmstat.c:491-493 | an interval without ticks is shown as 100 percent idle |
| VmstatPercent.Loop | internal/capture/procps/linux/vmstat.c:454-534 | every row of a run follows so from the debt in front of it, has five columns of at most 100, and all its bounds when guest is at most user |
| VmstatPercent.NoDebt | internal/capture/procps/linux/vmstat.c:481-489 | the debt stays zero exactly as long as no interval's idle delta reads as a negative int, and until then each row is its own interval's |
| VmstatPercent.SharesAddUp | internal/capture/procps/linux/vmstat.c:491-501 | with guest time taken out of user time the six shares add up to Div if and only if guest is at most user plus nice |
| VmstatPercent.PercentRounds | internal/capture/procps/linux/vmstat.c:523-533 | each percentage is its share rounded to the nearest integer |
| VmstatPercent.SixRounded | internal/capture/procps/linux/vmstat.c:522-533 | the sum of six rounded shares is within three percent of the sum of the shares |
| VmstatPercent.RowSumIs | internal/capture/procps/linux/vmstat.c:491-533 | in every interval the six columns sum to 100 percent plus the guest ticks that are no user ticks, within three percent |
| VmstatPercent.ColumnBounds | internal/capture/procps/linux/vmstat.c:491-531 | in every interval us, sy, id, wa and st are at most 100 |
| VmstatPercent.RowBounds | internal/capture/procps/linux/vmstat.c:481-533 | with guest at most user, each column is at most 100 and the six sum to between 98 and 103, the fallback included |
| VmstatPercent.GuestColumn | internal/capture/procps/linux/vmstat.c:533 | the guest column is at most 100 if and only if 100 guest + Div/2 < 101 Div, as long as it fits an unsigned |
| VmstatPercent.BoundsReached | internal/capture/procps/linux/vmstat.c:522-533 | there are intervals whose columns sum to 103 and to 98 |
| VmstatPercent.GuestBeyondUser | internal/capture/procps/linux/vmstat.c:495-533 | one interval with guest beyond user prints 200 percent of guest, another prints 0 |
| Escape.EscAllInPlace | internal/capture/procps/linux/escape.c:65-74 | bytes up to the NUL are mapped by the table, everything else in the buffer is untouched |
| Escape.EscAllBytes | internal/capture/procps/linux/escape.c:54-74 | of a C string: control characters and DEL become dots, bytes beyond ASCII question marks, printable characters stay |
| Escape.EscCtlInPlace | internal/capture/procps/linux/escape.c:76-91 | the walk in place is the specified one; nothing outside the string changes |
| Escape.CtlWalk | internal/capture/procps/linux/escape.c:35-91 | by the lead bytes: which characters the walk keeps, and at which bytes it leaves the rest to esc_all, for every C string |
| Escape.CtlBytes | internal/capture/procps/linux/escape.c:76-91 | of a well-formed string the control characters become question marks and all other bytes stay |
| Escape.EscapeStr | internal/capture/procps/linux/escape.c:93-113 | at most bufsize - 1 bytes and a NUL, nothing written elsewhere; outside UTF-8 byte by byte as in the table, and a printable string that fits unchanged in both modes |
| Escape.EscapedBytes | internal/capture/procps/linux/escape.c:93-113 | the two laws byte by byte, of what is left in the buffer |
| Escape.EscapeCommand | internal/capture/procps/linux/escape.c:115-142 | brackets and the defunct mark fit around the escaped name in every size, or nothing is written but a NUL |
| Escape.CommandIsClean | internal/capture/procps/linux/escape.c:115-142 | for every size and choice of marks the command is well-formed and without controls, shorter than its bytes, with whole marks, and complete when it fits |
| Escape.CommandReads | internal/capture/procps/linux/escape.c:115-142 | a printable name that fits stands as it is between its marks, in this order: [name] <defunct> |
| Escape.CutStaysWellFormed | internal/capture/procps/linux/escape.c:76-91 | a well-formed string cut anywhere, also inside a character, comes out well-formed UTF-8 (section 4 of RFC 3629) without control characters |
| Escape.EscapeKeepsWellFormed | internal/capture/procps/linux/escape.c:93-113 | for every well-formed source and bufsize below INT_MAX: min(length, bufsize - 1) bytes, or none of a source longer than INT_MAX, well-formed, no C0 control and no DEL |
| Escape.CtlTwice | internal/capture/procps/linux/escape.c:76-91 | on arbitrary bytes the walk is idempotent if and only if no NUL is in the part where it gives up |
| Escape.CtlTwiceOnCString | internal/capture/procps/linux/escape.c:76-91 | on every C string it is idempotent |
| Escape.EscapedTwice | internal/capture/procps/linux/escape.c:93-113 | in either mode escaping what escape_str left, into a buffer of the same size, changes nothing |
| Escape.ControlsSurvive | internal/capture/procps/linux/escape.c:85-87 | of an arbitrary C string a control character survives exactly when it stands where a lead byte announced the rest of a character |
| Escape.NewlineSurvives | internal/capture/procps/linux/escape.c:80-90 | C2 0A comes out unchanged |
| AppLogM3.GenerateUniqueLogPath | internal/capture/applog.go:106-119 | terminates within one try more than there are files, with the least unused name |
| AppLogM3.NameReads | internal/capture/applog.go:109-111 | the name is the counter in decimal, .appLogs., and the base name |
| AppLogM3.LogPathsDiffer | internal/capture/applog.go:109-111 | different counters give different names |
| AppLogM3.SearchBound | internal/capture/applog.go:106-119 | n tries need n - 1 files in the way |
| AppLogM3.Reader.Capture | internal/capture/applogm3.go:92-172 | every outcome of one capture: chunk, state and destination; no existing file is overwritten, and the state moves only after a complete copy |
| AppLogM3.OutcomeIs | internal/capture/applogm3.go:92-172 | every outcome by what went wrong first |
| AppLogM3.FailureIsRetried | internal/capture/applogm3.go:143-160 | a capture that fails before its copy is complete changes nothing for the next one |
| AppLogM3.NextChunk | internal/capture/applogm3.go:151-160 | after a first sight or a complete copy, the next chunk of a file that only grew is what it grew by |
| AppLogM3.StepExact | internal/capture/applogm3.go:92-172 | while rotations are seen and seeking works, one event keeps the chunks collected since the first sight or the last shrink equal to the file's bytes up to the read position, and a complete capture reaches its end |
| AppLogM3.RunExact | internal/capture/applogm3.go:92-172 | the same over any run of appends, captures and rotations in which rotations are seen as a shrink and seeking works |
| AppLogM3.RunAccounts | internal/capture/applogm3.go:92-172 | over any run whatever, the bytes the file was given since it was first seen are, in order and each once, in a chunk, lost, or pending |
| AppLogM3.RunFlaws | internal/capture/applogm3.go:92-172 | bytes are lost if and only if a rotation comes before the reader has caught up or is captured unseen; repeated if and only if seeking fails in a file read before; withheld if and only if a chunk cannot be synced |
| AppLogM3.EverythingSent | internal/capture/applogm3.go:92-172 | where seeking repeated nothing, the chunks sent are all the bytes given if and only if nothing is pending, lost or withheld |
| AppLogM3.RotationLoses | internal/capture/applogm3.go:121-126 | whatever is appended between a capture and a rotation, also one seen to shrink, is in no chunk |
| AppLogM3.RotationCaptured | internal/capture/applogm3.go:121-126 | the new content of a rotated file is captured whole if and only if it is smaller than the old one was, or nothing had been read of that |
| AppLogM3.SeekFailureRepeats | internal/capture/applogm3.go:129-138 | a failing seek collects the file from its start, so bytes repeat unless the read position was 0 |
| CaptureProtocol.StepInv | internal/capture/capture.go:32-37 | every step of every goroutine keeps: places match the collector's progress, groups are up from Run to the end, whoever saw a Cmd waits or its owner is done |
| CaptureProtocol.LookDecides | internal/capture/capture.go:32-37 | a look at a set Cmd blocks the waiter, a look at an unset one is all the waiting there is |
| CaptureProtocol.ReceiveInv | internal/agent/ondemand/ondemand.go:480-714 | a receive takes the result of a task that gave none before, never the zero value of a closed channel |
| CaptureProtocol.StepDrops | internal/capture/capture.go:103-135 | every step uses up a measure that is never negative |
| CaptureProtocol.RunDrops | internal/capture/capture.go:103-135 | so every run is finite, with the invariant at its end |
| CaptureProtocol.StuckIsFinal | internal/agent/ondemand/ondemand.go:480-714 | if nobody waits for a task received later, only a state with all results collected and all goroutines done has no step |
| CaptureProtocol.StaysTrapped | internal/capture/capture.go:32-37 | a task waiting for one that is received later waits for ever |
| CaptureProtocol.ReachTrap | internal/capture/capture.go:126-135 | under any plan with such a pair a run leads there |
| CaptureProtocol.NeverStuckIffOrdered | internal/agent/ondemand/ondemand.go:280-714 | for every plan of spawns, receives and waits: all dead ends are complete if and only if nobody waits for a task received later |
| CaptureProtocol.RunAfterWaitedFor | internal/capture/capture.go:126-135 | in every reachable state the results are an initial part of the receives, each once; a task looks at all it waits for before its Run, and begins it after the result of whoever's Cmd it saw set was received |
| CaptureProtocol.RunUnordered | internal/capture/capture.go:32-37 | under every plan any task can be in its Run while all those it was told to wait for have not begun |
| CaptureProtocol.FullCaptureInOrder | internal/agent/ondemand/ondemand.go:280-714 | in every configuration the plan spawns and receives the same tasks, each once, and vmstat is received before dmesg |
| CaptureProtocol.FullCaptureTasks | internal/agent/ondemand/ondemand.go:280-467 | which tasks each configuration spawns |
| CaptureProtocol.FullCaptureWaits | internal/agent/ondemand/ondemand.go:332 | dmesg waits for vmstat, and nobody else for anyone |
| CaptureProtocol.FullCaptureReads | internal/agent/ondemand/ondemand.go:280-714 | the order of all spawns and of all receives |
| CaptureProtocol.FullCaptureCollectsAll | internal/agent/ondemand/ondemand.go:280-714 | every run of FullCapture is bounded and its end has every result once, in order, every channel closed and no goroutine left; if dmesg saw vmstat's Cmd set, its Run comes after vmstat's result was received |
| CaptureProtocol.DMesgUnordered | internal/agent/ondemand/ondemand.go:332 | if it did not, dmesg can run before vmstat has begun |
| JStackProtocol.StepInv | internal/capture/jstack.go:45-213 | every step of coordinator and workers keeps requests and replies in step, whatever fails |
| JStackProtocol.ReceiveOk | internal/capture/jstack.go:54-62 | the reply received is that of the round, or the zero value after the worker gave up |
| JStackProtocol.NoFullBuffer | internal/capture/jstack.go:46-49 | no send on any of the four channels ever meets a full or a closed one |
| JStackProtocol.RoundFinished | internal/capture/jstack.go:194-204 | top -H worked through round n before round n + 1 is requested of anyone |
| JStackProtocol.StuckIsFinal | internal/capture/jstack.go:50-53 | without a step left the coordinator is through all rounds and both workers are gone |
| JStackProtocol.StepDrops | internal/capture/jstack.go:45-213 | every step uses up a measure |
| JStackProtocol.JStackCompletes | internal/capture/jstack.go:45-213 | for every count and every pattern of failures: at most 10 count + 6 steps, exactly count rounds, each with top -H's reply of that round and the dump's until it gave up |
| JStackProtocol.OutcomesAreReported | internal/capture/jstack.go:174-204 | by the outcomes of the workers' actions alone: the dump worker gave up in round n exactly when its n-th work was the first to fail, and every reply in the log tells how that round's work went |

## Left out

- I/O, /proc formats, sscanf, clocks, uploads, exec and signals: inputs of the model.
- Out-of-memory paths and errno: allocation succeeds.
- procps_pids_get, fatal_proc_unmounted and pids_extent_cut: one-stack variants of reap; the open PROCTAB of get is not modelled, and with it a reap between two gets, which share read_something.
- pids_libflags_set and the item tables: an item is known by the way its setter works.
- file2str and read_unvectored: single buffers with simpler bounds than file2strvec.
- simple_nextpid's filter of directory names, PROC_PID lists and the cgroup, cmdline and environ conversions: the finder's results are an input.
- PidsResults.PidsInfo.Fetch: the history kept during a fetch is the subject of PidsHistory, the scan that feeds it that of ReadEither.
- ReadEither.Scan: scans that are abandoned before their end, and LIBPROC_HIDE_KERNEL, are not modelled.
- StatTicks.DeriveUnique: counters are naturals, without the wrap-around of 64-bit words; the same holds of Slabs and DiskNodes, whose deltas are ints in the source.
- StatTicks.NodeHist.MakeNumaHist: speaks of the node slots in use; the source zeroes the spare ones too.
- StatPools.StatInfo.Reap: which record a stack shows is modelled, the values themselves are those of StatTicks.
- diskstats_stacks_fetch, diskstats_stacks_reconfig_maybe and the pools of slabinfo.c: the pool of StatPools with one user.
- Slabs.SlabInfo.Account: the percentage `use`, a float, is left out.
- VmstatPercent.Iterate: an addition of the debt that overflows an int is undefined in C and left open.
- VmstatPercent.Loop: products of deltas that overflow a long long (above 2^56 tics) are undefined in C too; here they are computed without bound.
- vmstat's first line, which shows averages since boot, and its paging columns.
- meminfo.c, proc_vmstat.c and pwcache.c: easier siblings of stat.c and pids.c.
- Escape.EscapeStr: the locale decides its mode once per thread; here that is a parameter.
- AppLogM3.RunAccounts: stat and copy see one snapshot of the file; whether the server accepts a chunk is not modelled, a chunk it refuses is not sent again; glob patterns are left out.
- CaptureProtocol.FullCapture: the heap dump runs in the collector between two receives and the custom commands after them, without a channel; a Cmd once set stays set; Run is one terminating step with any result.
- JStackProtocol.JStackCompletes: the variable err that the goroutines share, and the attempts within one dump, are not modelled; a dump succeeds or fails.
- ExtractGCLogPathFromCmdline, removeDuplicate, health checks, reflection of the configuration, loggers and user interface.
