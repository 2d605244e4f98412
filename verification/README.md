# Verified models of the block layer and of the RDMA user libraries

Dafny models of nine hard pieces of this tree, with proofs: the fork-safe range map of libibverbs,
the FLUSH/FUA sequencer, I/O throttling, two parts of the CFQ scheduler, segment counting, partial
completion, the submission loop, the deadline scheduler, and the ring buffers of librxe.
`dafny verify dfyconfig.toml` checks all of it.

| files | what they model |
|---|---|
| `Pages`, `MemLinks`, `MemBalance`, `MemTree`, `Intervals`, `ForkMap`, `History` | the reference-counted map of address ranges that must not be copied on fork: a red-black tree with parent pointers on the heap, the interval algorithm on top of it, the kernel's flags, rollback, and whole histories of calls |
| `Flush`, `FlushFlags` | the double-buffered protocol for cache flushes, its log, the completion of a request in two steps, and what becomes of the caller's flags |
| `Slices`, `Throttle` | budgets in time slices, and groups that wait in a service tree for their budget |
| `CfqMerge`, `CfqGroups` | queues linked for merging and their reference counts; fairness by virtual disk time |
| `Segments` | the count of hardware segments of a request, and the mapper it must bound |
| `Completion`, `Submission` | ending the first n bytes of a request; turning recursive submission into a loop |
| `Deadline` | two sorted lists for each direction, batches, and bounds on waiting |
| `Ring` | circular buffers between user space and kernel |
| `Ordered` | sequences in key order, shared by the scheduler models |

Conventions. Time is an unbounded integer that does not run backwards. What the source does under a lock is one
step. Search trees of the kernel's library are sequences in key order; the red-black tree of libibverbs is written in
the source itself and is modelled pointer by pointer. Operations that change state are methods of classes; where a
protocol is large or has two sides (`Flush`, `Deadline`, `Ring`) its state is also a value, each step is a function on that value with its own
lemmas, and the methods of `Flush` and `Deadline` are proved to compute those functions. Requests of `Flush` and `Deadline` are identifiers into
maps that the methods reassign.

Where the code and what is said about it differ, the model follows the code:

- Rolling back a refused *release* does not always restore the map. It always does, after one refusal, exactly if
  nowhere in the range the count drops from two to one: `ForkMap.ForkMap.DoforkRange` states both halves, the second
  for a kernel that refuses just such an address. `History.ReleaseLost` is a run of the code in which a count is lost.
- A registration or release of all of the address space, where all of it has count zero or one, changes the map but
  tells the kernel nothing, because the length of the call is zero in 64 bits. In every other case map and flags stay
  in step (`ForkMap.ForkMap.MadviseRange`); `History.RegisterAll` is such a call.
- The wait quoted for the byte limit can be one tick short, and the wait quoted for the operation limit can be too
  short where a 32-bit product wraps. `Slices.BpsWaitExact` and `Slices.IopsWaitExact` state exactly when they are
  long enough; `Slices.BpsWaitAlone` and `Slices.IopsWaitWraps` are bios for which they are not.
- `post_one_send` fills its entry before it looks whether the queue is full, and uses up a sequence number even if
  the post then fails (`Ring.SendQueue.PostOne`).

## Model

| member | source | states |
|---|---|---|
| `Pages.WholePages` | libibverbs-1.1.7/src/memory.c:622-624 | the advised range is the smallest range of whole pages around the caller's bytes, also where the 64-bit sum wraps to zero at the top of the address space |
| `MemTree.RangeTree.Prev` | libibverbs-1.1.7/src/memory.c:192-206 | walking the pointers reaches the node before this one in address order, or nothing if it is the first |
| `MemTree.RangeTree.Next` | libibverbs-1.1.7/src/memory.c:208-222 | walking the pointers reaches the node after this one in address order, or nothing if it is the last |
| `MemTree.RangeTree.RotateRight` | libibverbs-1.1.7/src/memory.c:224-246 | the pointer assignments turn the heap into the rotated tree, touching no other node |
| `MemTree.RangeTree.RotateLeft` | libibverbs-1.1.7/src/memory.c:248-270 | the same for the other side |
| `MemLinks.RotatedShape` | libibverbs-1.1.7/src/memory.c:224-270 | a rotation keeps the parent links, the spans and the in-order sequence of the tree |
| `MemTree.RangeTree.AddStep` | libibverbs-1.1.7/src/memory.c:304-350 | one turn of the loop removes the flaw or moves it up, in each of the six cases |
| `MemTree.RangeTree.AddRebalance` | libibverbs-1.1.7/src/memory.c:300-354 | from a tree whose only flaw is a red node under a red parent the loop ends, and ends in a red-black tree with a black root and the same order |
| `MemTree.RangeTree.FindParent` | libibverbs-1.1.7/src/memory.c:360-367 | the descent ends at the node under which the new start address belongs |
| `MemTree.RangeTree.Add` | libibverbs-1.1.7/src/memory.c:356-380 | the in-order sequence gains exactly the new node, at the place of its start address; search order, parent links, colours and black heights hold again |
| `MemTree.RangeTree.RemoveStep` | libibverbs-1.1.7/src/memory.c:440-506 | one turn of the fix-up loop removes the shortage or moves it up, in each case of the sibling and its children on either side |
| `MemTree.RangeTree.RemoveRebalance` | libibverbs-1.1.7/src/memory.c:437-510 | from a tree with one path short of a black node the fix-up loop ends, and ends in a red-black tree with the same order |
| `MemTree.RangeTree.Remove` | libibverbs-1.1.7/src/memory.c:382-510 | the in-order sequence loses exactly the node, also when its predecessor is spliced into its place, and the tree is red-black again |
| `MemLinks.TreeIsOrder` | libibverbs-1.1.7/src/memory.c:192-270 | following the child pointers of a well-formed tree gives the sequence by which all operations are specified |
| `MemBalance.EvenPaths` | libibverbs-1.1.7/src/memory.c:300-510 | all ways down a red-black tree meet equally many black nodes, and none is more than twice as long as another |
| `Intervals.CanonicalUnique` | libibverbs-1.1.7/src/memory.c:529-603 | two tilings of the address space in which neighbours differ and which give every address the same count are the same tiling |
| `ForkMap.ForkMap.constructor` | libibverbs-1.1.7/src/memory.c:177-187 | the initial map is one range over all addresses with count zero |
| `ForkMap.ForkMap.FindStart` | libibverbs-1.1.7/src/memory.c:512-527 | the descent finds the one range that has the address |
| `ForkMap.ForkMap.MergeRange` | libibverbs-1.1.7/src/memory.c:529-537 | the range goes into its predecessor, which takes its count; nothing else changes |
| `ForkMap.ForkMap.SplitRange` | libibverbs-1.1.7/src/memory.c:539-554 | the range is cut in two with the same count; nothing else changes |
| `ForkMap.ForkMap.GetStartNode` | libibverbs-1.1.7/src/memory.c:556-570 | the map is ready for a pass: only the range that comes next may still equal a neighbour, also if it was merged with its predecessor in advance |
| `ForkMap.ForkMap.CutAtEnd` | libibverbs-1.1.7/src/memory.c:637-642 | what reaches beyond the pass is split off |
| `ForkMap.ForkMap.Advise` | libibverbs-1.1.7/src/memory.c:643-663 | the kernel is told exactly about counts that leave or reach zero, never about addresses before the start of the pass, and nothing at all where the length wraps to zero; a failure means that this call was refused |
| `ForkMap.ForkMap.Visit` | libibverbs-1.1.7/src/memory.c:636-683 | one turn brings the pass to the next range or to its end, or changes nothing but the cut if the kernel refuses |
| `ForkMap.ForkMap.VisitAll` | libibverbs-1.1.7/src/memory.c:636-684 | the loop ends with every range of the pass counted, or stops at the first range the kernel refuses with all before it counted and none after it |
| `ForkMap.ForkMap.Settle` | libibverbs-1.1.7/src/memory.c:686-690 | the last merge mends the only place where neighbours may be equal, and the flags match the counts unless the kernel was told nothing |
| `ForkMap.ForkMap.Pass` | libibverbs-1.1.7/src/memory.c:627-690 | a pass that is not refused adds its increment to exactly the addresses from start to end, leaves a tiling whose neighbours differ, and leaves the flags in step unless its one call would have length 2^64 |
| `ForkMap.ForkMap.UndoNode` | libibverbs-1.1.7/src/memory.c:576-603 | after a refusal the map counts what the pass did before the refused call and nothing else, and neighbours differ again, whichever splits and merges had happened |
| `ForkMap.ForkMap.RollBack` | libibverbs-1.1.7/src/memory.c:665-679 | if no later call is refused, the old map is back exactly if the count before the refused call, once changed, differs from the count at it |
| `ForkMap.ForkMap.AdviseAll` | libibverbs-1.1.7/src/memory.c:626-698 | the call fails exactly if the kernel refuses a call; the first one refused lies in the range, on addresses of one count that is to cross zero; after a single refusal the map has kept the change exactly on the addresses right before that call whose count became equal, and after a second one exactly between the two calls |
| `ForkMap.ForkMap.MadviseRange` | libibverbs-1.1.7/src/memory.c:605-699 | success changes the count of exactly the whole pages by one; the tiling is canonical, and afterwards an address is flagged exactly if its count is positive, except exactly where the one call would be about all of the address space; the result is -1 exactly if the kernel refused a call; what a refusal leaves changed is said exactly; a range without counts that would join is restored after any single refusal, and one with such counts is not restored if the kernel refuses just there |
| `ForkMap.ForkMap.DontforkRange` | libibverbs-1.1.7/src/memory.c:701-709 | a refused registration returns -1; refused once, where nothing was released that was not registered, it leaves ranges, counts and flags as they were |
| `ForkMap.ForkMap.DoforkRange` | libibverbs-1.1.7/src/memory.c:711-719 | a release takes one off the count of exactly the whole pages, or returns -1 if refused; refused once it leaves everything as it was if the count drops from two to one nowhere in the range, and where it does, a kernel that refuses only that address makes the map differ |
| `History.OrderIrrelevant` | libibverbs-1.1.7/src/memory.c:605-699 | after any two histories that register every address equally often on balance the maps are the same |
| `History.MatchedHistory` | libibverbs-1.1.7/src/memory.c:605-699 | a history in which every registered range is released as often, in any order, ends in the single initial range |
| `History.NeverNegative` | libibverbs-1.1.7/src/memory.c:605-699 | after a history no range has a negative count, which is when a refused registration is taken back completely, exactly if no address was released more often than registered |
| `History.ReleaseLost` | libibverbs-1.1.7/src/memory.c:594-679 | two registrations lead to a map with counts two, one and zero; releasing both pages, refused once by the kernel for the second, returns -1 and leaves the first page with one count less |
| `History.RegisterAll` | libibverbs-1.1.7/src/memory.c:656-663 | registering all of the address space in a new map succeeds, counts all of it, and flags no address |
| `Flush.FlushQueue.KickFlush` | linux/block/blk-flush.c:244-273 | a flush is issued exactly if none is in flight, requests wait, and no data is in flight or they have waited long; then the pending list changes and the flush is queued last, otherwise nothing changes |
| `Flush.FlushQueue.MoveOn` | linux/block/blk-flush.c:152-188 | a request that failed or has no step left is over; one whose data is next goes to the head of the dispatch queue and is in flight; one whose flush is next waits last on the pending list, the time of waiting starting with the first one there |
| `Flush.KickedOrderly` | linux/block/blk-flush.c:244-273 | kicking keeps every invariant, and afterwards no request waits for a flush that nothing will issue |
| `Flush.FlushQueue.CompleteSteps` | linux/block/blk-flush.c:144-192 | the steps are recorded once, the request moves on and a flush is issued if it is time; the result says whether the dispatch queue grew |
| `Flush.CompleteSeqOrderly` | linux/block/blk-flush.c:144-192 | completing a step keeps every request in its place, every invariant of the log, and prevents stalls |
| `Flush.NeverTwice` | linux/block/blk-flush.c:94-113 | a request that has data whenever it needs a last flush never needs two flushes in a row |
| `Flush.FlushQueue.CompleteFlush` | linux/block/blk-flush.c:194-229 | the loop over the requests of the flush pushes on each once, although the lists change roles before it and may do so again inside it; of what was there only those requests change, and each that failed is over |
| `Flush.PushedOn` | linux/block/blk-flush.c:208-213 | pushing on one request leaves the others of that flush on their list, before a flush step that the same flush covers |
| `Flush.FlushEndSettled` | linux/block/blk-flush.c:194-229 | after a flush has come back every invariant holds and no request is stalled |
| `Flush.FlushQueue.CompleteData` | linux/block/blk-flush.c:275-285 | completed data moves the request to its last flush or ends it, failed or not, and does not end its bio early; no other request changes |
| `Flush.DataEndSettled` | linux/block/blk-core.c:151-177 | completing the bytes of a request in a flush sequence and later again ends its bio once |
| `Flush.FlushQueue.InsertFlush` | linux/block/blk-flush.c:298-347 | by the flags of the caller and the device: a request that has no data and needs no flush is ended, one with data that needs no flush is queued last, any other enters its flush sequence; all invariants hold |
| `Flush.DataDurable` | linux/block/blk-flush.c:144-273 | a request that ended well and needed its last flush: its data was written, then it joined a list, then a flush was issued, and that very flush came back well |
| `Flush.RunSafe` | linux/block/blk-flush.c:94-347 | in every state of every run from an empty queue: each flush step done was covered by a flush issued after the request joined; a finished request did the steps of its policy in order, or the first ones on an error; its bio was ended once and not before; a flush is in flight exactly if the indices differ; nothing is stalled |
| `Flush.RunEnds` | linux/block/blk-flush.c:94-347 | from any state of any run on, without new requests every call of the driver leaves less work, so the calls are bounded; and where the driver has nothing left to take or to return, every request is over |
| `FlushFlags.RunStory` | linux/block/blk-flush.c:94-192 | in every run the log of each request tells exactly the steps it has done, in order, and the one it is at, which are the first ones of what its flags ask for |
| `FlushFlags.FlagsHonoured` | linux/block/blk-flush.c:94-347 | in every run, for every request and the flags it was handed in with: no flush is done for it that it did not ask for or that the device does not need; its data goes out only after a flush issued after it joined came back well; if it ended well its data was written exactly if it has any, and where FUA has to be emulated a flush was issued after the data was written and came back well |
| `Slices.RenewedAccounted` | linux/block/blk-throttle.c:487-522 | starting a slice anew forgets no more than the time since the first slice allows |
| `Slices.AskedAccounted` | linux/block/blk-throttle.c:686-735 | asking keeps the account, says yes exactly within both budgets, and a no comes with a positive wait for which the slice is kept open |
| `Slices.AskedExact` | linux/block/blk-throttle.c:487-522 | a slice that ran out starts anew for exactly one window with nothing used; one that ends too early for the next window or for the wait is extended to the end of the window it has to reach, and nothing else changes |
| `Slices.AskedAgain` | linux/block/blk-throttle.c:686-735 | asking again in the same tick gives the same answer and changes nothing |
| `Slices.ChargedAccounted` | linux/block/blk-throttle.c:584-674 | what is charged within the rounded-up budget is within the rate plus one window |
| `Slices.TrimmedAccounted` | linux/block/blk-throttle.c:525-582 | trimming takes off no more than the trimmed windows allow, and the slice still lasts a window from now |
| `Slices.TrimExact` | linux/block/blk-throttle.c:525-582 | a trimmed slice lasts one window from now, rounded up, and starts less than a window ago; it keeps its start exactly if the windows gone by allow not a single byte and not a single operation |
| `Slices.TrimKeepsBudget` | linux/block/blk-throttle.c:552-577 | trimming a slice whose past windows were used in full costs at most one byte of the budget at any later time |
| `Slices.TrimKeepsOps` | linux/block/blk-throttle.c:552-577 | and the same for operations |
| `Slices.NewSliceAdmits` | linux/block/blk-throttle.c:487-493 | when a new slice starts a bio goes out at once exactly if one window has room for it |
| `Slices.RateBound` | linux/block/blk-throttle.c:487-735 | in every run, over all renewals, extensions and trims, bytes times HZ are at most bps times the time since the first slice plus one window, and the same for operations |
| `Slices.IopsWaitSuffices` | linux/block/blk-throttle.c:584-632 | at any time from the quoted wait on the operation is within its limit wherever the product fits into 32 bits |
| `Slices.IopsWaitExact` | linux/block/blk-throttle.c:584-632 | after the quoted wait, wrapped or not, the operation is within its limit exactly if the windows begun by then have room for it, and then it is so at any later time |
| `Slices.IopsWaitWraps` | linux/block/blk-throttle.c:620-625 | a run of 5,000,000 bios in one tick, after which one more is told to wait 14 ticks and may not go then |
| `Slices.BpsWaitSuffices` | linux/block/blk-throttle.c:634-674 | at any time after the quoted wait the bytes are within their limit |
| `Slices.BpsWaitExact` | linux/block/blk-throttle.c:634-674 | the quoted wait alone is long enough exactly if the missing bytes take less than a tick, or not a whole number of windows, or fit the budget of those windows |
| `Slices.BpsWaitAlone` | linux/block/blk-throttle.c:660-673 | the first bio of a group, which is told to wait two windows, and may not go then |
| `Slices.AskedLater` | linux/block/blk-throttle.c:686-735 | asked for again after its quoted wait, a bio goes exactly if the slice lasts and has room for the operation, or a new slice has room for all of it in one window |
| `Slices.GoesInTheEnd` | linux/block/blk-throttle.c:584-735 | a bio asked for at its quoted times goes with the fourth asking at the latest, if nothing else goes in between and the 32-bit product does not wrap |
| `Throttle.Group.Ask` | linux/block/blk-throttle.c:686-735 | the answer for the first bio of a direction, with the slice renewed or kept open, and the account kept |
| `Throttle.Group.Pop` | linux/block/blk-throttle.c:782-800 | the first bio leaves, is charged, and the slice is trimmed within the account |
| `Throttle.Group.Charge` | linux/block/blk-throttle.c:737-747 | a bio that goes at once is charged within the account |
| `Throttle.Group.WithinLimits` | linux/block/blk-throttle.c:487-735 | a group that is in account has dispatched no more than its limits allow since its first slice |
| `Throttle.Group.NextDispatch` | linux/block/blk-throttle.c:762-774 | the next dispatch is after the smaller of the waits quoted for the first bios, which is now exactly if one of them can go now |
| `Throttle.Group.ComesBack` | linux/block/blk-throttle.c:686-735 | a first bio that was told to wait can go after that wait, while the slice lasts, exactly if there is room for the operation |
| `Throttle.ServiceTree.First` | linux/block/blk-throttle.c:372-385 | the cached leftmost group or the one looked up is the first of the tree |
| `Throttle.ServiceTree.FirstIsLeast` | linux/block/blk-throttle.c:372-385 | the first group of the tree is due no later than any other |
| `Throttle.ServiceTree.Erase` | linux/block/blk-throttle.c:393-399 | exactly the group leaves; the cache is empty or right, and the count is right |
| `Throttle.ServiceTree.Add` | linux/block/blk-throttle.c:412-447 | the group goes behind exactly those that are due no later; the cache is empty or right, and the count is right |
| `Throttle.Throttler.SendFrom` | linux/block/blk-throttle.c:812-831 | the bios sent are the first ones of the direction in order, and fewer than the maximum only if the next cannot go |
| `Throttle.Throttler.DispatchGroup` | linux/block/blk-throttle.c:802-833 | at most six reads and two writes go, each direction in order, and the totals follow |
| `Throttle.Throttler.Serve` | linux/block/blk-throttle.c:840-858 | the first bio of each direction goes out if it can; after its turn a group is on the tree exactly if bios wait in it, due after the smaller wait quoted to its first bios, and if nothing went it is not due any more |
| `Throttle.Throttler.SelectDispatch` | linux/block/blk-throttle.c:835-864 | at a fixed tick the loop ends after at most 39 bios; of every group and direction what went and what still waits make up what waited, in order; it stops only at the quantum or when no group is due |
| `Throttle.Throttler.AddBio` | linux/block/blk-throttle.c:749-760 | the bio waits last in its direction, the counts follow, and the group is on the tree, where it was if it was there |
| `Throttle.Throttler.Reschedule` | linux/block/blk-throttle.c:762-780 | a group put back on the tree is due after the smaller of its quoted waits, so now only if some first bio can go now |
| `Throttle.Throttler.UpdateDisptime` | linux/block/blk-throttle.c:762-780 | the group is due after the smaller of its quoted waits and in its place in the tree |
| `Throttle.Throttler.ThrottleBio` | linux/block/blk-throttle.c:1155-1198 | a bio goes at once exactly if none waits before it and it is within the limits, is then charged, and leaves the time at which the group is due; otherwise it waits behind the others; if it is the first of its direction the group is due after the smaller of the waits quoted to the first bios, and if not that time stays |
| `Throttle.Throttler.ScheduleNextDispatch` | linux/block/blk-throttle.c:467-485 | work is scheduled exactly if bios wait, the tree is then not empty, and the delay is until the earliest group is due |
| `Throttle.Throttler.NoneOrSome` | linux/block/blk-throttle.c:467-476 | the totals are not zero exactly if some bio waits, and then the tree is not empty |
| `CfqMerge.Acyclic` | linux/block/cfq-iosched.c:2160-2165 | following the links never meets a queue twice |
| `CfqMerge.LinkedThrough` | linux/block/cfq-iosched.c:2176-2185 | linking one end of a chain to another adds its processes to the other queue and to no third one |
| `CfqMerge.CfqData.CountProcessRefs` | linux/block/cfq-iosched.c:2136-2144 | references less allocated requests are the processes whose chain passes through the queue |
| `CfqMerge.CfqData.WalkSafe` | linux/block/cfq-iosched.c:2151-2165 | every queue met from a queue with a process reference still has references |
| `CfqMerge.CfqData.FindRoot` | linux/block/cfq-iosched.c:2160-2165 | the walk ends, meets only queues in use, and finds the end of the chain unless that is the queue to be merged |
| `CfqMerge.CfqData.Link` | linux/block/cfq-iosched.c:2179-2185 | a new link keeps the forest, and the references added are those of the processes that now come through |
| `CfqMerge.CfqData.SetupMerge` | linux/block/cfq-iosched.c:2146-2186 | the link goes to the end of the chain in the direction of fewer processes, or is not made if that would close a circle or no process is left; links stay a forest and counts stay right |
| `CfqMerge.CfqData.PutCooperator` | linux/block/cfq-iosched.c:2683-2702 | exactly the references to the later queues of the chain are given back, none of them freed before |
| `CfqMerge.CfqData.Leave` | linux/block/cfq-iosched.c:2704-2714 | a process that leaves gives back one reference to every queue of its chain |
| `CfqMerge.CfqData.GiveBack` | linux/block/cfq-iosched.c:2657-2681 | of the references too many one less is left and every other count is right; a queue whose last reference goes has no requests |
| `CfqMerge.CfqData.MergeCfqqs` | linux/block/cfq-iosched.c:3432-3441 | moving on takes one reference off the old queue, and the reference to the new one is there already |
| `CfqMerge.CfqData.Split` | linux/block/cfq-iosched.c:3447-3463 | the last process of a queue keeps it, any other leaves |
| `CfqMerge.CfqData.SetRequest` | linux/block/cfq-iosched.c:3490-3520 | the process gets a new queue exactly if it has none or must leave one that others use; otherwise it keeps its queue, or moves on to the one that is to be merged with it; every count is right |
| `CfqMerge.CfqData.NewQueue` | linux/block/cfq-iosched.c:3491-3495 | a new queue has the one reference of its process |
| `CfqMerge.CfqData.Allocate` | linux/block/cfq-iosched.c:3516-3518 | an allocated request holds a reference, and is counted in its direction |
| `CfqMerge.CfqData.PutRequest` | linux/block/cfq-iosched.c:3413-3430 | a freed request gives its reference back, and is not counted any more in its direction |
| `CfqGroups.RunSpread` | linux/block/cfq-iosched.c:974-994 | over any run that serves the least group each time the spread of virtual times stays below the larger of the first spread and the largest scaled charge |
| `CfqGroups.ServiceTime` | linux/block/cfq-iosched.c:544-551 | the time of a group is its service over its weight, less at most one unit for each division |
| `CfqGroups.PairwiseFair` | linux/block/cfq-iosched.c:2292-2308 | the weighted service of any two groups differs by at most twice that bound and one unit for each turn |
| `CfqGroups.GroupTree.Add` | linux/block/cfq-iosched.c:843-889 | the group goes behind exactly those whose time is no later; cache and total weight are right |
| `CfqGroups.GroupTree.Delete` | linux/block/cfq-iosched.c:916-922 | exactly the group leaves; cache and total weight are right |
| `CfqGroups.GroupTree.Choose` | linux/block/cfq-iosched.c:2292-2302 | the group chosen is the first, with the least time, and the smallest time seen is the larger of what it was and that time |
| `CfqGroups.GroupTree.Charge` | linux/block/cfq-iosched.c:990-994 | the group is charged by its weight and is in its new place, with the same groups and total weight |
| `CfqGroups.GroupTree.ServeNext` | linux/block/cfq-iosched.c:2304-2308 | choosing and charging is one turn of a fair run |
| `CfqGroups.GroupTree.ServeAll` | linux/block/cfq-iosched.c:2292-2308 | serving group after group is a fair run, so the weighted service of any two groups stays within the pairwise bound |
| `Segments.GreedyLeast` | linux/block/blk-merge.c:133-169 | no cutting of the data into acceptable segments has fewer segments than the mapper emits entries |
| `Segments.SegmentAccepted` | linux/include/linux/bio.h:117-134 | pieces may be one segment exactly if each begins where the one before ends, together they are not too long, and where there are several all their addresses lie between the same two boundaries and the queue clusters; where bounced pages stand alone, none of several is one |
| `Segments.RecalcSegments` | linux/block/blk-merge.c:12-69 | the count is that of the mapper run with bounced pages on their own, which is the least of all such cuttings, and the recorded sizes grow to those of the first and last segment; without bounced pages it is exactly what the mapper emits |
| `Segments.Recount` | linux/block/blk-merge.c:76-84 | the same for one bio |
| `Segments.Request.constructor` | linux/block/blk-core.c:2535-2550 | a request of one bio has a cutting into as many segments as are counted, and counts as many as the bio |
| `Segments.Request.BackMerge` | linux/block/blk-merge.c:202-250 | the bio is accepted exactly if the sectors together and the segments together are within the limits of the queue; then it comes last, its segments are added to the count, which still is that of a cutting |
| `Segments.Request.FrontMerge` | linux/block/blk-merge.c:252-275 | the bio is accepted exactly if the sectors together and the segments together are within the limits of the queue; then it comes first, its segments are added to the count, which still is that of a cutting |
| `Segments.Request.MergeRequest` | linux/block/blk-merge.c:277-315 | the requests are merged exactly if sectors and segments together are within the limits, one segment less where the last and the first one lie end to end, between the same boundaries, and are short enough together; both requests stay in order even if the merge is refused after their recorded sizes were changed |
| `Segments.MapSg` | linux/block/blk-merge.c:117-169 | the entries, each with its address and length, are those of a cutting of the data into pieces that lie end to end, are not too long and cross no boundary; no such cutting has fewer, and they are no more than are counted |
| `Completion.DropBytes` | linux/block/blk-core.c:2142-2216 | what is left after n bytes is the request without exactly its first n bytes |
| `Completion.DropTwice` | linux/block/blk-core.c:2142-2216 | completing n bytes and then m is completing n + m, for whole sectors |
| `Completion.CoveredTwice` | linux/block/blk-core.c:2142-2155 | and the bios ended in the two steps are, in order, those ended in one |
| `Completion.Request.Update` | linux/block/blk-core.c:2099-2247 | exactly the covered bios are ended in order, the next one has moved on by as many sectors as it lost and the others are as they were, the rest is what dropping the bytes leaves, the request stays well formed, the result is false exactly if nothing is left, and the two error branches cannot be reached |
| `Completion.Request.UpdateTwice` | linux/block/blk-core.c:2099-2247 | two updates leave the same data, length and ended bios as one for all their bytes, and the same sector as long as data is left, for whole sectors |
| `Completion.UpdatedBytes` | linux/block/blk-core.c:2099-2247 | an update takes exactly the first n bytes off, and nothing is left exactly if there were no more |
| `Submission.SameBios` | linux/block/blk-core.c:1641-1680 | the loop handles the same bios as direct recursion would, each as often |
| `Submission.Task.MakeRequest` | linux/block/blk-core.c:1676-1676 | no other make_request function is active, and what it submits only joins the list, in order |
| `Submission.Task.HandleAll` | linux/block/blk-core.c:1671-1680 | the loop ends, handles the bios in the order in which they were accepted, and leaves no list behind |
| `Submission.Task.Submit` | linux/block/blk-core.c:1634-1681 | submitting a bio handles it and all that it leads to, as recursion would |
| `Deadline.WriteServed` | linux/block/deadline-iosched.c:243-325 | once a write waits, fewer than F times (W + 1) dispatches go by without a write, in any run, merges included |
| `Deadline.ReadServed` | linux/block/deadline-iosched.c:243-325 | once the deadline of the first read has passed, fewer than 2F dispatches pass over the first read, in any run with W at least 1, merges included |
| `Deadline.BatchAscends` | linux/block/deadline-iosched.c:204-220 | the request that a batch will go on with is queued in its direction and starts no earlier than the one dispatched |
| `Deadline.StepValid` | linux/block/deadline-iosched.c:84-325 | every call keeps both lists of a direction with the same requests, each in its order, at most one direction with a next request, and that one queued |
| `Deadline.RunValid` | linux/block/deadline-iosched.c:84-325 | every state of every run is so, and every call of it is defined there |
| `Deadline.ChoiceRules` | linux/block/deadline-iosched.c:243-325 | the choice follows the rules of batching, starving and deadlines, stated on the lists before; the lists after it lose exactly the chosen request, the batch goes on with the one directly behind it by sector in its direction only, and batch and passed-over writes are counted |
| `Deadline.DeadlineData.AddRequest` | linux/block/deadline-iosched.c:98-111 | the request is behind exactly those of its direction that start no later, and last by deadline; all others keep their order and the other direction is as it was |
| `Deadline.DeadlineData.RemoveRequest` | linux/block/deadline-iosched.c:116-122 | exactly the request leaves both lists, and a batch that was to go on with it goes on with the one directly behind it by sector |
| `Deadline.DeadlineData.MergedRequest` | linux/block/deadline-iosched.c:154-166 | the request moves to its new place by sector, and nothing else does |
| `Deadline.DeadlineData.MergedRequests` | linux/block/deadline-iosched.c:168-187 | exactly the other request leaves, and the merged one has the earlier deadline of the two in the place of the one it had |
| `Deadline.DeadlineData.MoveRequest` | linux/block/deadline-iosched.c:204-220 | exactly the request leaves its lists and is dispatched, and the batch goes on with the one directly behind it by sector, in its direction only |
| `Deadline.DeadlineData.DispatchRequests` | linux/block/deadline-iosched.c:243-325 | a batch goes on up to its limit; otherwise reads go before writes unless writes were passed over often enough, and the new batch starts with the oldest request of its direction if that has expired or nothing is left of the last batch, and else with the one that was next by sector; exactly that request is dispatched and leaves its lists, and none exactly if none waits |
| `Ring.Queue.EmptyFull` | librxe-1.0.0/src/rxe_queue.h:60-70 | the index tests tell exactly when the buffer is empty and when it holds one entry less than its size |
| `Ring.Queue.Write` | librxe-1.0.0/src/rxe.c:666-670 | filling the next entry alters none that is in use, even in a full buffer |
| `Ring.Queue.AdvanceProducer` | librxe-1.0.0/src/rxe_queue.h:72-76 | the entry filled last is posted behind all others |
| `Ring.Queue.AdvanceConsumer` | librxe-1.0.0/src/rxe_queue.h:78-82 | the entry freed is the oldest one posted and not consumed |
| `Ring.StepConsistent` | librxe-1.0.0/src/rxe_queue.h:55-94 | each single step of either side (filling, testing for full, moving the producer index; testing for empty, copying, moving the consumer index) keeps the two sides consistent, wherever the other one stands |
| `Ring.RunSafe` | librxe-1.0.0/src/rxe_queue.h:55-94 | in every interleaving of the steps of both sides: what was consumed is the first part of what was posted, in order; at most one less than the size is in use; what was copied is the oldest entry not freed |
| `Ring.Queue.Poll` | librxe-1.0.0/src/rxe.c:259-281 | the entries polled are the oldest ones, in order, and fewer than asked for only if none is left, whatever is posted before and after each copy |
| `Ring.SendQueue.PostOne` | librxe-1.0.0/src/rxe.c:649-678 | a request is refused exactly for too many pieces, a short or unaligned atomic, or too much inline data, or else if the queue is full; whatever the other side consumes before each step, success posts the request with its sequence number and a failure posts nothing |
| `Ring.SendQueue.PostList` | librxe-1.0.0/src/rxe.c:705-742 | exactly the requests before the bad one are posted, all of them acceptable, in order, with consecutive sequence numbers, whatever is consumed meanwhile; the result is that of the doorbell if it fails, and else says why the bad one was refused |
| `Ring.RecvQueue.PostOne` | librxe-1.0.0/src/rxe.c:384-426 | a full queue and too many pieces are refused in this order, and anything else is posted, whatever is consumed meanwhile |
| `Ring.RecvQueue.PostList` | librxe-1.0.0/src/rxe.c:744-775 | exactly the requests before the bad one are posted, none with too many pieces, in order, whatever is consumed meanwhile; the result says why the bad one was refused |

## Left out

- Range map: failing memory allocation in a split, page sizes read from `/proc` (a parameter here), and calls before
  `ibv_fork_init`; reference counts are unbounded integers.
- FLUSH/FUA: requests with FUA but without data (the source rules them out), the abort path, the run-queue kicks, and
  requests with several bios; the FLUSH and FUA bits that are left in a request for the driver to see.
- Throttling: unlimited and changing limits, limits of one kind only, draining, statistics, group lifetime, and
  64-bit wrap-around.
- CFQ: idling, think time, seek history, preemption, workload selection within a group, async queues, cgroup moves, the
  out-of-memory queue; the `count` of the group tree, which is not kept up by the code; changing weights.
- Segments: DMA padding and draining, discard and integrity segments, and flags other than those that decide a merge.
- Partial completion: error codes, flags that follow the first bio, and bidirectional requests.
- Submission: what the checks are, and who ends a bio that does not pass; a bio is a finite tree of what it leads to.
- Deadline: finding a request for a front merge, the sector of the head, live changes of settings, and negative
  `writes_starved`.
- Rings: sizes other than powers of two are not excluded by the model; memory barriers and the layout of entries.
- Everything else in the tree: device access, sysfs and ioctl code, marshalling, examples and benchmarks.
