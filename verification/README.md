# pocl-zynq and its HLS designs: a verified model

This project models the parts of the repository where state, aliasing and arithmetic interact, and
proves what they are meant to guarantee. It has four groups of modules.

**The deferred command scheduler of the pocl runtime** (`Runtime`, `Waiting`, `Finish`, `Termination`,
`Programs`, `Recycling`, `ReuseHang`, `LastWaitFirst`, `Ordering`, `Calls`, `RectCalls`, `RefCount`,
`MappingList`, `Mappings`, `DoubleUnmap`, `Transfers`, `Pocl`). A state holds command nodes with their events, in-order queues, the ready list, buffers with
their mappings linked record by record, and memory; atomic actions change it; API calls are runs of
actions. `Pocl.PoclRuntime` is the object that does the same in place, each method proved equal to the
actions. Device operations are arbitrary functions on memory. Proved over all runs: no command starts
before what it waits for, no command is lost or reordered, deferred execution agrees with immediate
execution, the result does not depend on which queues are finished in which order, and reference and
mapping counts are conserved. `clFinish` ends, for arbitrary wait lists, exactly when queue order and
unsatisfied waits form no cycle.

**The intrusive lists** (`SortSpec`, `Lists`, `ListSort`). Heap nodes relinked in place by the macros
of `utlist.h`, and the bottom-up merge sorts: same nodes, ordered, stable, every link restored,
number of passes and comparisons.

**The HLS kernels against the algorithms they speed up** (`Sums`, `NBodySpec`, `NBody`, `Matrices`,
`MatMul`, `MatMulHost`, `Convolution`, `ConvolutionHost`). Floats are reals, `sqrt` is any function
positive on positive arguments, and the sizes fixed by macros are parameters. Kernels keep their static
buffers as class fields and arrays; drivers run on flat memory with moving offsets.

**Arithmetic, file and text cores** (`WorkGroup`, `Bmp`, `BmpFiles`, `OptionNames`, `BuildOptions`).
The work-group search with `size_t` products that wrap at 2^64, BMP files as byte sequences, and the
build-option filter with its growing buffer.

`Common` holds the shared `Option` and the block write used wherever the source calls `memcpy`.

## Where the code does not do what it seems to promise

The model keeps the code's behaviour in each of these cases and states exactly when it is right.

- `clFinish` can hang: an implicit event is released when its command has run, although wait lists of
  commands still queued may name it, and the next command gets it. A command may then wait for one
  behind it (`Recycling.ReuseEndsIff`, `Recycling.ProgramEndsIff`, `ReuseHang.ReusedEventHangs`).
- Rect commands finish their own queue but never look at their wait list (`Calls.RectWaits`,
  `Calls.RectIgnoresItsWaitList`).
- A queued map keeps its buffer reference for ever, and a native kernel that meets a null object keeps
  those taken before it (`RefCount.MappedIsKeptForEver`, `RefCount.NativeFailureLeaks`).
- Two unmaps of one address enqueued before either runs name the same mapping. Counts and list then
  disagree, and if that mapping was the head of several, its second removal closes the list into a ring
  on which a scan for another address never ends (`Mappings.ExtraUnmapIff`, `MappingList.DeleteTwiceIff`,
  `DoubleUnmap.ListBecomesRing`).
- The basic device skips every copy whose source and destination are the same buffer
  (`Transfers.CopyWorksIff`).
- The work-group search multiplies in `size_t`; an oversized group can wrap to an allowed product
  (`WorkGroup.ReallyFitsIff`, `WorkGroup.OversizedGroup`). It also splits a launch that already fits,
  because the test comes after the first split, and its second ragged test of z can never succeed.
- The matrix multiply driver computes the product only if a work item is a whole group
  (`MatMulHost.ProductIff`).
- The kernel of the n-body design moves masses by the velocity in w, which the reference does not
  (`NBodySpec.KernelMatchesReference`).
- The image filter's kernel reads and writes rows of the width it is built for, whatever the image's
  width; for the smallest of the driver's images its last calls write past the allocated cells
  (`ConvolutionHost.InBoundsIff`, `ConvolutionHost.ThreeSizes`).
- The image filter's read-back is shifted against its result: with the 7 by 7 mask the saved image is
  not the correlation (`ConvolutionHost.ReadBackRightIff`, `ConvolutionHost.ReadBackIsShifted`).
- Options are looked up by substring, so a proper prefix of a supported parameter passes as a build
  option, `-cl-std=CL1.` for one, and a very long word overruns the option buffer
  (`BuildOptions.KeptWronglyIff`, `BuildOptions.CutShort`, `BuildOptions.OptionsOverrunIff`).

## Model

| member | source | states |
|---|---|---|
| Runtime.NextKeepsValid | pocl-0.11-zynq/lib/CL/clFinish.c:53-94 | Every atomic action but the reuse of an event keeps the whole scheduler invariant: queues partition the QUEUED commands in creation order, each command waits for its predecessor and only for earlier events, the ready list is closed under waits, COMPLETE is closed under waits. |
| Runtime.NextKeepsLoose | pocl-0.11-zynq/lib/CL/clFinish.c:53-94 | Every atomic action, event reuse included, keeps queues, ready list and status in step: QUEUED means in its queue and SUBMITTED in the ready list, and everything a submitted command still waits for is submitted before it, whatever the wait lists name. |
| Runtime.EnqueueKeepsLoose | pocl-0.11-zynq/lib/CL/pocl_util.c:342-396 | A new command joins its queue without disturbing any other, whatever it waits for. |
| Runtime.StartsAfterItsWaits | pocl-0.11-zynq/lib/CL/clFinish.c:65-94 | Wait safety at one step: when the head of the ready list is about to run, every event in its wait list is COMPLETE, whichever queue it belongs to. |
| Runtime.SubmitKeepsReady | pocl-0.11-zynq/lib/CL/clFinish.c:80-90 | Submitting a head whose waits are all COMPLETE or SUBMITTED keeps the ready list executable from left to right. |
| Runtime.SubmitKeepsStatus | pocl-0.11-zynq/lib/CL/clFinish.c:82-90 | After a submission an event is still QUEUED exactly if its command sits in its queue, and SUBMITTED exactly if it is in the ready list. |
| Runtime.EnqueueKeepsStatus | pocl-0.11-zynq/lib/CL/pocl_util.c:342-396 | A newly queued command joins the invariant: QUEUED, in its queue, waiting only for existing events. |
| Runtime.EnqueueKeepsQueue | pocl-0.11-zynq/lib/CL/pocl_util.c:347-388 | Appending keeps every in-order queue increasing and chained: each command waits for the one before it. |
| Runtime.ExecKeepsReady | pocl-0.11-zynq/lib/CL/clFinish.c:111-281 | After the head of the ready list completes, the rest of the list is still executable in order. |
| Runtime.ExecKeepsStatus | pocl-0.11-zynq/lib/CL/clFinish.c:119-281 | Completing a command keeps COMPLETE closed under wait lists. |
| Finish.NothingStartsEarly | pocl-0.11-zynq/lib/CL/clFinish.c:65-94 | Wait safety over every run from the empty runtime, runs that use events again included. |
| Finish.RunKeepsValid | pocl-0.11-zynq/lib/CL/clFinish.c:53-94 | Over every run in which each command has an event of its own the whole invariant holds. |
| Finish.Drain | pocl-0.11-zynq/lib/CL/clFinish.c:53-91 | The scheduling loop ends in every state without a cycle of queue order and unsatisfied waits, for arbitrary wait lists: its recursion is accepted with the measure (commands queued, number of commands the head at hand transitively needs, an empty queue above all heads); it leaves the target queue empty and touches only status, queues and ready list. |
| Finish.HopDescends | pocl-0.11-zynq/lib/CL/clFinish.c:67-79 | Without cycles, a hop to the queue of an unsatisfied wait lands on a queue whose head needs strictly fewer commands than the head that was left. |
| Waiting.ReachShrinks | pocl-0.11-zynq/lib/CL/clFinish.c:67-79 | In a state without cycles, whatever a command transitively needs itself needs strictly less: the rank behind the termination of the loop. |
| Waiting.ValidIsAcyclic | pocl-0.11-zynq/lib/CL/pocl_util.c:347-368 | While every command has an event of its own, wait lists and in-order queues never form a cycle. |
| Waiting.SubmitKeepsSchedulable | pocl-0.11-zynq/lib/CL/clFinish.c:80-90 | A submission creates no need that was not there, so a state without cycles stays without cycles. |
| Waiting.ExecKeepsSchedulable | pocl-0.11-zynq/lib/CL/clFinish.c:111-281 | Nor does executing the ready list. |
| Waiting.DoKeepsSchedulable | pocl-0.11-zynq/lib/CL/pocl_util.c:342-396 | Nor does any other call make one that queues a command with an event of its own: in any state without cycles, a new command is needed by none. |
| Termination.TurnDescends | pocl-0.11-zynq/lib/CL/clFinish.c:53-91 | One turn of the while loop as written, whatever it meets, lowers the measure and leaves the final result the same when there is no cycle. |
| Termination.DrainIsTurns | pocl-0.11-zynq/lib/CL/clFinish.c:53-91 | The loop run turn by turn, from any point of it, comes to an end, in exactly the state that the specified recursion describes. |
| Termination.DrainFollows | pocl-0.11-zynq/lib/CL/clFinish.c:53-91 | A loop followed turn by turn until its queue is empty has come to what the specified recursion says. |
| Termination.CycleDeadlocks | pocl-0.11-zynq/lib/CL/clFinish.c:62-79 | A command that transitively needs itself belongs to a set of queued commands each of which needs another of the set. |
| Termination.DeadlockHangs | pocl-0.11-zynq/lib/CL/clFinish.c:53-91 | clFinish of a queue that holds a command of such a set never ends: no number of turns empties the queue. |
| Termination.FinishEndsIff | pocl-0.11-zynq/lib/CL/clFinish.c:53-91 | The exact condition, for arbitrary wait lists over queued commands: clFinish ends for every queue iff the union of queue order and unsatisfied waits has no cycle. |
| Recycling.ReuseEndsIff | pocl-0.11-zynq/lib/CL/pocl_mem_management.c:59-84 | In every state without cycles, after any earlier reuses: when a new command gets the event of a finished one, every clFinish still ends iff neither the new command nor any queued one that it has to wait for, directly or not, names that event in its wait list. |
| Recycling.ProgramEndsIff | pocl-0.11-zynq/lib/CL/pocl_mem_management.c:59-84 | Over any program of calls, event reuses and finishes: at every point of the program every clFinish ends iff every reuse met that condition. |
| Recycling.RecycledAcyclicIff | pocl-0.11-zynq/lib/CL/pocl_mem_management.c:59-84 | Handing an event to the newest command closes a cycle iff a command that has to run before the newest, or the newest itself, names it. |
| Recycling.NobodyNamesIff | pocl-0.11-zynq/lib/CL/pocl_util.c:310-396 | That is the condition on the wait list checked before the call. |
| ReuseHang.ReusedEventHangs | pocl-0.11-zynq/lib/CL/clFinish.c:292-293 | A program of the calls a user makes, from the empty runtime: four markers on two queues, one clFinish of the second queue, and one more marker that gets the released event of a finished one; after it clFinish of the first queue never ends. |
| ReuseHang.FinishesThree | pocl-0.11-zynq/lib/CL/clFinish.c:53-94 | What that clFinish does: it hops to the first queue, submits two markers there, hops back, and executes three. |
| Finish.LastUnsatisfied | pocl-0.11-zynq/lib/CL/clFinish.c:67-79 | The inner loop reports readiness exactly when every wait is COMPLETE or SUBMITTED; otherwise it ends at a wait that is neither. |
| Finish.UnsatisfiedIsLast | pocl-0.11-zynq/lib/CL/clFinish.c:67-79 | That wait is the one after whose place in the list every wait is COMPLETE or SUBMITTED: later places overwrite earlier ones. |
| Finish.LastIsOne | pocl-0.11-zynq/lib/CL/clFinish.c:67-79 | There is only one such place, so the queue hopped to is determined by the status of the waits alone. |
| LastWaitFirst.LastWaitRunsFirst | pocl-0.11-zynq/lib/CL/clFinish.c:53-94 | A program on three queues, from the empty runtime: command h on queue 0 waits for f on queue 1 and g on queue 2, in that order. After clFinish of queue 0 memory is h(f(g(empty))): the last wait ran first. |
| LastWaitFirst.FirstWaitWins | pocl-0.11-zynq/lib/CL/clFinish.c:53-94 | So when both write one cell, the value of the first wait remains. |
| LastWaitFirst.DrainsInOrder | pocl-0.11-zynq/lib/CL/clFinish.c:53-91 | The ready list of that clFinish, command by command: the last wait, the first wait, the command that waits. |
| Finish.SubmitDescends | pocl-0.11-zynq/lib/CL/clFinish.c:80-90 | A submission strictly decreases the number of queued commands and keeps the state valid. |
| Finish.DrainIsRun | pocl-0.11-zynq/lib/CL/clFinish.c:53-91 | The loop is a run of submissions, each enabled when it is made. |
| Finish.FinishIsRun | pocl-0.11-zynq/lib/CL/clFinish.c:53-94 | A whole clFinish is a run of enabled submissions followed by executions. |
| Finish.DrainConserves | pocl-0.11-zynq/lib/CL/clFinish.c:80-90 | Conservation: for every queue, its commands in the ready list in order, followed by what stays queued, equal its old content; nothing is lost, duplicated or reordered. |
| Finish.SubmitConserves | pocl-0.11-zynq/lib/CL/clFinish.c:87-89 | The same for one LL_DELETE/LL_APPEND step. |
| Finish.StatusBetweenCalls | pocl-0.11-zynq/lib/CL/clFinish.c:82-94 | Between calls an event is QUEUED exactly when its command is in some queue, and COMPLETE otherwise. |
| Finish.FinishCompletesExactly | pocl-0.11-zynq/lib/CL/clFinish.c:53-94 | An event is COMPLETE after a clFinish iff it was before or the loop submitted its command. |
| Finish.NextAdvances | pocl-0.11-zynq/lib/CL/pocl_cl.h:684-729 | Event status only moves QUEUED, SUBMITTED, COMPLETE (through RUNNING inside one execution), one step at a time. |
| Finish.RunConcat | pocl-0.11-zynq/lib/CL/clFinish.c:53-94 | Runs compose: the run of a concatenation is the run of its parts. |
| Ordering.LazyRefinesEager | pocl-0.11-zynq/lib/CL/clFinish.c:53-94 | For any run with any number of queues in which unordered pending commands commute, the memory once all pending commands have run is that of running every command when it was enqueued. |
| Ordering.NextSettles | pocl-0.11-zynq/lib/CL/clFinish.c:94-281 | Each single action keeps that agreement and keeps every two pending commands ordered or commuting. |
| Ordering.SettleExec | pocl-0.11-zynq/lib/CL/clFinish.c:111-281 | Running a pending command early, out of creation order, leaves the settled memory unchanged when the commands it overtakes commute with it. |
| Ordering.CompleteBefore | pocl-0.11-zynq/lib/CL/clFinish.c:65-94 | Everything that leads by wait lists to completed events is itself complete. |
| Ordering.SettledWhenFinished | pocl-0.11-zynq/lib/CL/clFinish.c:53-94 | When every queue is empty the settled memory is the actual memory. |
| Calls.Confluence | pocl-0.11-zynq/lib/CL/clFinish.c:53-94 | Confluence: if pending commands not ordered by waits commute, any two sequences of clFinish calls that empty all queues end with the same memory, that of creation order. |
| Calls.FinishSettles | pocl-0.11-zynq/lib/CL/clFinish.c:53-94 | One clFinish of any queue does not change the settled memory. |
| Calls.FinishCompletes | pocl-0.11-zynq/lib/CL/clFinish.c:53-94 | A clFinish completes every command of its queue and everything any of them transitively waits for. |
| Calls.CompleteStays | pocl-0.11-zynq/lib/CL/clFinish.c:111-281 | A completed event stays COMPLETE across any clFinish. |
| Calls.CallSettles | pocl-0.11-zynq/lib/CL/clEnqueueReadBuffer.c:63-85 | A whole API call, queued, blocking, finishing or direct, changes the settled memory, in which all that is pending has run, exactly as running its operation at once would. |
| Calls.ReturnsDone | pocl-0.11-zynq/lib/CL/clEnqueueReadBuffer.c:79-85 | When a blocking call returns its command is COMPLETE; it, clFinish and a rect call leave their queue empty. |
| Calls.OneQueueLazyRefinesEager | pocl-0.11-zynq/lib/CL/clEnqueueCopyBufferRect.c:107-139 | On one in-order queue any mix of queued, blocking and rect commands yields, whenever the queue is empty, the memory of immediate execution, provided the host leaves the memory of pending commands alone. |
| Calls.UpToDateOnReturn | pocl-0.11-zynq/lib/CL/clEnqueueReadBuffer.c:79-85 | On one in-order queue, right after any call that blocks, finishes or runs directly, memory itself is that of running every command of the program so far at its call. |
| Calls.OneQueueOrdered | pocl-0.11-zynq/lib/CL/pocl_util.c:347-368 | On one in-order queue any two pending commands are ordered by wait lists. |
| Calls.QueuePrecedes | pocl-0.11-zynq/lib/CL/pocl_util.c:347-368 | Along a queue every command transitively precedes every later one. |
| Calls.StartsAfterAllAsked | pocl-0.11-zynq/lib/CL/pocl_util.c:347-368 | Over every run with fresh events: when a command is about to start, every event its caller told it to wait for and every command that was in its queue before it is COMPLETE. |
| Calls.RectWaits | pocl-0.11-zynq/lib/CL/clEnqueueReadBufferRect.c:97-123 | Rect commands never look at their wait list. In every state without cycles, an event of the list that was not complete is complete when the operation runs if a command of the own queue is or needs it, and is not if some set of queues around the own queue, closed under waits, leaves its queue out; in between, exactly if the loop submitted it. |
| Calls.RectWaitsAtHome | pocl-0.11-zynq/lib/CL/clEnqueueReadBufferRect.c:97-123 | On a queue that waits for no other, an event of the list is complete when the operation runs iff it already was or belongs to that queue. |
| Calls.DrainStaysInside | pocl-0.11-zynq/lib/CL/clFinish.c:67-79 | For any set of queues closed under waits around the target, clFinish leaves every other queue as it was. |
| Calls.FinishTakesPath | pocl-0.11-zynq/lib/CL/clFinish.c:65-91 | A clFinish completes everything that a command it completes transitively needs, by queue order or waits. |
| Calls.RectIgnoresItsWaitList | pocl-0.11-zynq/lib/CL/clEnqueueWriteBufferRect.c:97-123 | A concrete rect call, told to wait for a marker on another queue, that runs its operation and returns while the marker is still QUEUED. |
| RectCalls.RectIsFinishThenRun | pocl-0.11-zynq/lib/CL/clEnqueueCopyBufferRect.c:107-139 | A rect call comes to finishing the queue and running its operation on memory: retaining before and releasing after cancel out, whatever clFinish does to the counts in between. |
| RefCount.NextBalances | pocl-0.11-zynq/lib/CL/clFinish.c:132-156 | Every action, event reuse included, keeps: each buffer count equals user references plus occurrences in commands not completed plus references the code never gives back. |
| RefCount.RunBalances | pocl-0.11-zynq/lib/CL/clFinish.c:132-256 | The same over every run in which users release only what they own and use only buffers that exist; and every mapped buffer keeps the reference its map took. |
| RefCount.QueueingRetains | pocl-0.11-zynq/lib/CL/clEnqueueCopyBuffer.c:90-95 | What queueing takes, kind by kind: one reference to the buffer of a read, write or map; one each to source and destination of a copy, two if they are one buffer; one for each kernel argument and each native memory object that is the buffer; none for unmaps and markers; no other buffer changes. |
| RefCount.RunningReleases | pocl-0.11-zynq/lib/CL/clFinish.c:125-256 | What running gives back: the same, kind by kind, except that a map gives nothing back. |
| RefCount.UsedIsAlive | pocl-0.11-zynq/lib/CL/clReleaseMemObject.c:37-47 | A buffer that a command which has not completed reads, writes, copies from or to, maps, unmaps or has as an argument has a positive count. |
| RefCount.NeverFreedWhileUsed | pocl-0.11-zynq/lib/CL/clReleaseMemObject.c:37-72 | At the end of any lawful run, a buffer that a pending command reads, writes, copies from or to, maps, unmaps or has as an argument has a positive count and had one at every earlier point of the run at which it existed: it was never freed. |
| RefCount.DeadStaysDead | pocl-0.11-zynq/lib/CL/clReleaseMemObject.c:37-72 | A buffer whose count has reached zero never gets a positive count again, whatever lawful action follows. |
| RefCount.MappedIsKeptForEver | pocl-0.11-zynq/lib/CL/clEnqueueMapBuffer.c:76-133 | Once a map of a buffer was queued, the count of the buffer stays positive over every lawful run, unmaps and releases included: the reference the map took is never given back. |
| RefCount.ExecBalances | pocl-0.11-zynq/lib/CL/clFinish.c:132-256 | Executing a command gives back exactly the references its queueing took, repeated arguments counted. |
| RefCount.EnqueueBalances | pocl-0.11-zynq/lib/CL/clEnqueueNDRangeKernel.c:355-386 | Queueing a command keeps the count equation: what QueueingRetains says it takes is what the equation counts for it. |
| RefCount.NativeFailureLeaks | pocl-0.11-zynq/lib/CL/clEnqueueNativeKernel.c:85-102 | A native kernel that fails on a null object leaves the buffers as they were iff the null object is the first. |
| RefCount.BeforeNullIs | pocl-0.11-zynq/lib/CL/clEnqueueNativeKernel.c:85-102 | What a failing native kernel has retained are the objects in front of the first null one. |
| Mappings.RunKeepsMappings | pocl-0.11-zynq/lib/CL/clEnqueueMapBuffer.c:124-133 | Over every run, event reuse included, in which each recorded mapping gets at most one pending unmap, each buffer keeps a well-formed list of exactly the mappings made and not unmapped, as long as the map count plus the pending maps. |
| Mappings.NextKeepsMappings | pocl-0.11-zynq/lib/CL/clEnqueueUnmapMemObject.c:76-86 | Each action keeps that invariant and that the pending unmaps name recorded mappings, no two the same. |
| Mappings.ExecCounts | pocl-0.11-zynq/lib/CL/clFinish.c:189-214 | Executing a map or the unmap of a recorded mapping keeps list, live mappings and count in step. |
| Mappings.EnqueueCounts | pocl-0.11-zynq/lib/CL/clEnqueueMapBuffer.c:127-133 | Recording a mapping adds one list entry and one pending map, and every recorded mapping stays recorded. |
| Mappings.UnmapFindsItsMap | pocl-0.11-zynq/lib/CL/clFinish.c:189-214 | When an unmap runs that was enqueued after its map, the map has run. |
| Mappings.RunKeepsCounts | pocl-0.11-zynq/lib/CL/clFinish.c:189-214 | Over every run with fresh events in which moreover unmaps are enqueued after their maps, by queue order or wait lists, the map count is never negative. |
| Mappings.RunKeepsHistory | pocl-0.11-zynq/lib/CL/clEnqueueMapBuffer.c:175-175 | Over every run at all, the map count is the number of maps that have run minus the number of unmaps that have run. |
| Mappings.UnmappedTwice | pocl-0.11-zynq/lib/CL/clFinish.c:211-213 | Once two unmaps of one mapping have run, list and map count of the buffer cannot agree, whatever else happened. |
| Mappings.ExtraUnmapIff | pocl-0.11-zynq/lib/CL/clEnqueueUnmapMemObject.c:56-86 | From any state in order, queueing an unmap of a recorded mapping and finishing its queue leaves lists and counts in order iff no unmap of that mapping was pending. |
| MappingList.AppendLists | pocl-0.11-zynq/include/utlist.h:412-424 | Appending a new record to a well-formed list of records gives the well-formed list with it at the end. |
| MappingList.DeleteLists | pocl-0.11-zynq/include/utlist.h:441-457 | Deleting a recorded mapping gives the well-formed list without exactly that one, in the old order. |
| MappingList.ListsOnce | pocl-0.11-zynq/include/utlist.h:441-457 | Links determine the content: no links describe two lists. |
| MappingList.ScanFinds | pocl-0.11-zynq/lib/CL/clEnqueueUnmapMemObject.c:56-64 | The scan of a well-formed list ends within its length, with the first record of the address, or without one exactly when no record has it. |
| MappingList.DeleteTwice | pocl-0.11-zynq/include/utlist.h:441-457 | What DL_DELETE does to a record that has just left the list: the rest of the list becomes a ring if the record had been the head of several, and otherwise nothing changes. |
| MappingList.DeleteTwiceIff | pocl-0.11-zynq/lib/CL/clFinish.c:211-212 | So deleting a mapping twice leaves a well-formed list iff it was not the head of several. |
| MappingList.RingScan | pocl-0.11-zynq/lib/CL/clEnqueueUnmapMemObject.c:56-64 | A scan of a ring for an address that none of its records has never ends. |
| DoubleUnmap.BothFindTheFirst | pocl-0.11-zynq/lib/CL/clEnqueueUnmapMemObject.c:56-64 | Two maps of one region, finished: the scans of two following unmaps of the address both stop at the first mapping. |
| DoubleUnmap.ListBecomesRing | pocl-0.11-zynq/lib/CL/clFinish.c:189-214 | The program map, map, clFinish, unmap, unmap, clFinish, from the empty runtime, ends with map count 0 and a list whose one record, the second mapping, is linked to itself, so that a scan for any other address never ends. |
| DoubleUnmap.Finishes | pocl-0.11-zynq/lib/CL/clFinish.c:53-94 | What its two finishes do, to the last link. |
| Pocl.PoclRuntime.constructor | pocl-0.11-zynq/lib/CL/clCreateCommandQueue.c:54-70 | A fresh runtime is the initial state of the model. |
| Pocl.PoclRuntime.CreateCommandQueue | pocl-0.11-zynq/lib/CL/clCreateCommandQueue.c:54-70 | A new empty in-order queue and nothing else changes. |
| Pocl.PoclRuntime.CreateBuffer | pocl-0.11-zynq/lib/CL/clCreateBuffer.c:119-122 | A new buffer with one reference, no mappings and map count 0. |
| Pocl.PoclRuntime.Credit | pocl-0.11-zynq/lib/CL/clRetainMemObject.c:27-33 | Retaining or releasing a list of objects moves each count by its number of occurrences. |
| Pocl.PoclRuntime.CreateCommand | pocl-0.11-zynq/lib/CL/pocl_util.c:310-382 | A fresh node and event; on a non-empty in-order queue the wait list gets the event of the last queued command. |
| Pocl.PoclRuntime.CommandEnqueue | pocl-0.11-zynq/lib/CL/pocl_util.c:384-396 | The node goes to the tail of its queue and its event becomes QUEUED. |
| Pocl.PoclRuntime.UpdateEvent | pocl-0.11-zynq/lib/CL/pocl_cl.h:695-729 | Only the one event changes, and only one step along the status order. |
| Pocl.PoclRuntime.EnqueueBufferCommand | pocl-0.11-zynq/lib/CL/clEnqueueWriteBuffer.c:82-108 | Reads, writes, copies and markers: the object retains, enqueues and, if blocking, finishes. When a blocking call returns its queue is empty and its command COMPLETE. |
| Pocl.PoclRuntime.EnqueueNDRangeKernel | pocl-0.11-zynq/lib/CL/clEnqueueNDRangeKernel.c:355-386 | The retain loop over kernel arguments, null ones skipped, equals one enqueue action. |
| Pocl.PoclRuntime.RetainObjects | pocl-0.11-zynq/lib/CL/clEnqueueNativeKernel.c:85-113 | The loop succeeds iff no object is null, and has retained exactly the objects before the first null one. |
| Pocl.PoclRuntime.EnqueueNativeKernel | pocl-0.11-zynq/lib/CL/clEnqueueNativeKernel.c:54-122 | Success is one enqueue action; failure leaves the retained objects behind and queues nothing. |
| Pocl.PoclRuntime.EnqueueMapBuffer | pocl-0.11-zynq/lib/CL/clEnqueueMapBuffer.c:117-148 | The mapping is recorded at once and the command queued. When a blocking map returns its queue is empty and the map has run. |
| Pocl.PoclRuntime.FindMapping | pocl-0.11-zynq/lib/CL/clEnqueueUnmapMemObject.c:56-64 | The loop over the links returns whenever following them comes to a record with the address or to the end, and returns that; on a well-formed list it is the first record with the address, if any. |
| Pocl.PoclRuntime.EnqueueUnmapMemObject | pocl-0.11-zynq/lib/CL/clEnqueueUnmapMemObject.c:56-88 | For any list on which the scan ends: queues an unmap of the mapping it stops at, the first with the address when the list is well formed, or changes nothing when there is none. |
| Pocl.PoclRuntime.RunRectDirectly | pocl-0.11-zynq/lib/CL/clEnqueueCopyBufferRect.c:115-139 | Retain, finish the queue, run the operation directly, release: in all, the finished state with the operation applied to memory and every count as the finish left it. |
| Pocl.PoclRuntime.CheckWaits | pocl-0.11-zynq/lib/CL/clFinish.c:62-79 | The inner loop over a wait list: ready iff each event is COMPLETE or SUBMITTED, else the hop goes to the queue of the event at the last place that is neither. |
| Pocl.PoclRuntime.SubmitHead | pocl-0.11-zynq/lib/CL/clFinish.c:80-90 | The head becomes SUBMITTED and moves from its queue to the end of the ready list. |
| Pocl.PoclRuntime.FinishAll | pocl-0.11-zynq/lib/CL/clFinish.c:34-97 | The while loop over queues in place ends in every state without a cycle of queue order and waits, and equals the specified finish. |
| Pocl.PoclRuntime.ExecCommands | pocl-0.11-zynq/lib/CL/clFinish.c:100-300 | The list is executed from head to tail; each command starts only with all its waits COMPLETE. |
| Pocl.PoclRuntime.ExecHead | pocl-0.11-zynq/lib/CL/clFinish.c:111-281 | The head of the ready list may run in every state without cycles, and leaves one. |
| Pocl.PoclRuntime.ExecCommand | pocl-0.11-zynq/lib/CL/clFinish.c:119-256 | One command, all its waits COMPLETE: RUNNING, its operation, the buffer effects of its kind with the mapping relinked as DL_DELETE does wherever it stands, COMPLETE. |
| Pocl.PoclRuntime.WaitForEvents | pocl-0.11-zynq/lib/CL/clWaitForEvents.c:27-37 | All listed events end COMPLETE, whatever their queues. |
| Transfers.IndependentCommute | pocl-0.11-zynq/lib/CL/devices/basic/basic.c:443-461 | Two block transfers of which neither writes what the other reads or writes give the same memory in either order. |
| Transfers.IndependentIsHarmless | pocl-0.11-zynq/lib/CL/clEnqueueReadBuffer.c:66-83 | So queueing a transfer meets the commuting condition when it is disjoint from every pending transfer that no wait chain orders before it. |
| Transfers.TransferCells | pocl-0.11-zynq/lib/CL/devices/basic/basic.c:443-461 | A transfer brings cell k of its source to cell k of its destination and changes nothing outside the destination block. |
| Transfers.CopyStaysInside | pocl-0.11-zynq/lib/CL/devices/basic/basic.c:595-603 | So a copy leaves every cell outside its destination block as it was, and allocates and frees nothing. |
| Transfers.CopyWorksIff | pocl-0.11-zynq/lib/CL/devices/basic/basic.c:595-603 | The device copy delivers the source block for every memory iff the buffers differ, the offsets agree or the size is zero: inside one buffer it silently does nothing. |
| Lists.LLAppend | pocl-0.11-zynq/include/utlist.h:307-318 | The null-terminated list then holds the old nodes followed by the new one. |
| Lists.LLDelete | pocl-0.11-zynq/include/utlist.h:320-334 | A present node is taken out, the order of the rest kept; an absent one leaves the list alone. |
| Lists.LLConcat | pocl-0.11-zynq/include/utlist.h:295-305 | The list of the first nodes followed by the second ones. |
| Lists.MoveHead | pocl-0.11-zynq/lib/CL/clFinish.c:87-89 | On the heap: deleting the head of a queue and appending it to the ready list moves exactly that node. |
| Lists.DLAppend | pocl-0.11-zynq/include/utlist.h:412-424 | Appends and keeps every prev link and head.prev == tail. |
| Lists.DLPrepend | pocl-0.11-zynq/include/utlist.h:400-410 | Prepends and keeps every prev link and head.prev == tail. |
| Lists.DLConcat | pocl-0.11-zynq/include/utlist.h:426-439 | Concatenates and keeps every prev link and head.prev == tail. |
| Lists.DLDelete | pocl-0.11-zynq/include/utlist.h:441-457 | Takes out one node at any place, first, last or only one included, and leaves the node its links; deleting that node once more leaves the list alone unless the node had been the head of several, when the end of the list is linked to its beginning. |
| Lists.DLBypass | pocl-0.11-zynq/include/utlist.h:450-456 | The third branch, for a node in the list and for one that has just left it. |
| Lists.Bypassed | pocl-0.11-zynq/include/utlist.h:444-456 | Which link changes make a doubly linked list without its k-th node. |
| SortSpec.SortIsStableSort | pocl-0.11-zynq/include/utlist.h:102-214 | Bottom-up merging keeps exactly the nodes for any comparison; for a total preorder the result is ordered and nodes that tie keep their order. |
| SortSpec.MergeStable | pocl-0.11-zynq/include/utlist.h:130-146 | A merge that takes ties from the left run keeps the order of ties. |
| SortSpec.MergeSorts | pocl-0.11-zynq/include/utlist.h:130-146 | Merging two ordered runs gives an ordered run. |
| SortSpec.PassSortsRuns | pocl-0.11-zynq/include/utlist.h:120-153 | A pass over ordered runs of length w leaves ordered runs of length 2w. |
| SortSpec.PassPermutes | pocl-0.11-zynq/include/utlist.h:120-149 | A pass neither loses nor duplicates a node. |
| SortSpec.PassesIsLog | pocl-0.11-zynq/include/utlist.h:112-154 | The number of passes p is the least p >= 1 with n <= 2^p. |
| SortSpec.CostBound | pocl-0.11-zynq/include/utlist.h:59-59 | At most n comparisons in each pass add up to n times the number of passes. |
| ListSort.Choose | pocl-0.11-zynq/include/utlist.h:131-139 | The next node comes from the left run iff the right one is used up or the comparison is <= 0; at most one comparison. |
| ListSort.Place | pocl-0.11-zynq/include/utlist.h:140-145 | Relinks one node to the tail; no other next link that is still needed changes. |
| ListSort.MergeStep | pocl-0.11-zynq/include/utlist.h:130-146 | One turn of the merge loop on the heap consumes one node of the specified merge. |
| ListSort.MergeRuns | pocl-0.11-zynq/include/utlist.h:129-146 | The inner loop appends the merge of two neighbouring runs, with at most as many comparisons as nodes. |
| ListSort.StepOver | pocl-0.11-zynq/include/utlist.h:122-128 | Finds the second run, min(insize, rest) nodes on. |
| ListSort.PassTurn | pocl-0.11-zynq/include/utlist.h:120-148 | One merge of a pass: what was built and what remains together are still the specified pass. |
| ListSort.MergeAll | pocl-0.11-zynq/include/utlist.h:115-148 | All merges of a pass: the list built is the specified pass, nmerges <= 1 iff no more than two runs were left, at most n comparisons. |
| ListSort.SortPass | pocl-0.11-zynq/include/utlist.h:115-149 | One pass on the heap ends in a well-formed list of the specified pass, doubly linked for DL_SORT. |
| ListSort.SortList | pocl-0.11-zynq/include/utlist.h:102-214 | LL_SORT and DL_SORT terminate with a well-formed list of exactly the specified sort; one cost per pass, none above n, and in all at most n comparisons times the number of passes, which is the least p >= 1 with n <= 2^p: the documented O(n log n). |
| ListSort.SortListStably | pocl-0.11-zynq/include/utlist.h:102-214 | For a total preorder: the original nodes, ordered, stable, all prev links restored for DL_SORT. |
| ListSort.PassAtIsPass | pocl-0.11-zynq/include/utlist.h:120-148 | The pass by positions is the pass by runs. |
| ListSort.MergeAtIsMerge | pocl-0.11-zynq/include/utlist.h:130-146 | The merge by positions is the merge of the two runs. |
| NBodySpec.StepKeepsMomentum | designs/Vivado-hls/nbody/nbody.cpp:53-128 | One kernel step over all bodies leaves sum of mass times velocity unchanged on each axis, for any reciprocal interaction. |
| NBodySpec.StepsKeepMomentum | designs/Vivado-hls/nbody/nbody_tb.cpp:51-56 | And so does any number of steps when no body has a velocity in w. |
| NBodySpec.GravityIsReciprocal | designs/Vivado-hls/nbody/nbody.cpp:81-92 | The softened pull is equal and opposite for every pair of bodies, a body with itself included. |
| NBodySpec.GravityIsFlat | designs/Vivado-hls/nbody/nbody.cpp:81-92 | The pull never has a w component. |
| NBodySpec.GravityIs | designs/Vivado-hls/nbody/nbody.cpp:81-97 | The pull of a body at b on one at a in components: on x, y and z the difference b - a times the mass at b, divided by the cube of r, where r is the root of the three squared differences plus softening squared; nothing in w. |
| NBodySpec.AttractsTowards | designs/Vivado-hls/nbody/nbody.cpp:81-92 | So on every axis a body with mass pulls towards itself: the gain has the sign of the difference, and is zero only where they are level. |
| NBodySpec.StepIs | designs/Vivado-hls/nbody/nbody.cpp:101-124 | One step of any number of bodies, per axis: velocity gains the sum of the pulls times delta, then position gains the new velocity times delta. |
| NBodySpec.TwoBodies | designs/Vivado-hls/nbody/nbody.cpp:53-128 | One step of two bodies in components: each moves by the attraction of the other alone. |
| NBodySpec.Distance | designs/Vivado-hls/nbody/nbody.cpp:86-87 | The softened distance is positive, so the division is defined even for a body with itself. |
| NBodySpec.KernelMatchesReference | designs/Vivado-hls/nbody/nbody_tb.cpp:103-171 | After k > 0 steps the kernel has the reference positions iff no body started with a velocity in w; then velocities agree too. |
| NBodySpec.FlatRunAgrees | designs/Vivado-hls/nbody/nbody_tb.cpp:103-171 | From bodies without velocity in w, kernel and reference agree in everything for every iteration count. |
| NBodySpec.KernelDrifts | designs/Vivado-hls/nbody/nbody.cpp:113-124 | Otherwise the kernel moves the mass by the velocity in w at every step. |
| NBodySpec.ReferenceKeepsMass | designs/Vivado-hls/nbody/nbody_tb.cpp:145-157 | The reference never changes a mass. |
| NBody.LastBodyReached | designs/Vivado-hls/nbody/nbody.cpp:55-102 | The blocked loops reach body n - 1, where results are stored, iff the block size divides n. |
| NBody.Interact | designs/Vivado-hls/nbody/nbody.cpp:76-97 | The statements of the inner loop add to the force exactly that pull, component by component. |
| NBody.MeetBody | designs/Vivado-hls/nbody/nbody.cpp:58-126 | One turn of the two inner loops: the force grows by one pull, and exactly at the last body the new velocity and position are stored. |
| NBody.MeetBlock | designs/Vivado-hls/nbody/nbody.cpp:57-127 | A block of bodies adds its pulls to the force; if it is the last block, the new state is stored. |
| NBody.MeetAll | designs/Vivado-hls/nbody/nbody.cpp:55-128 | Block by block all bodies meet body b, and its new state is stored when the block size divides n; other bodies are untouched. |
| NBody.RunGroup | designs/Vivado-hls/nbody/nbody.cpp:53-130 | All bodies of the group get their new state. |
| NBody.Run | designs/Vivado-hls/nbody/nbody.cpp:46-133 | One kernel call on shared memory: outputs at the output offsets hold the step of the whole system for the group, the rest of memory is unchanged. |
| NBody.Iterate | designs/Vivado-hls/nbody/nbody_tb.cpp:52-55 | One host iteration replaces the system in memory by its step; for two bodies, in the raw cells of memory, each is attracted by the other. |
| NBody.Simulate | designs/Vivado-hls/nbody/nbody_tb.cpp:51-56 | Any number of host iterations is that number of steps. |
| NBody.ReferenceForce | designs/Vivado-hls/nbody/nbody_tb.cpp:122-143 | The inner reference loop sums the pulls of all bodies in x, y and z. |
| NBody.ReferenceBody | designs/Vivado-hls/nbody/nbody_tb.cpp:116-158 | One body: velocity in place, position into the other buffer, mass copied. |
| NBody.RunReference | designs/Vivado-hls/nbody/nbody_tb.cpp:103-171 | The reference with its buffer swaps is the iterated reference step. |
| NBody.SimulationMatchesReference | designs/Vivado-hls/nbody/nbody_tb.cpp:45-56 | Accelerated simulation and reference agree for every iteration count from bodies at rest in w. |
| NBody.SimulationKeepsMomentum | designs/Vivado-hls/nbody/nbody_tb.cpp:45-56 | The accelerated simulation conserves total momentum along every axis. |
| Sums.KicksCancel | designs/Vivado-hls/nbody/nbody.cpp:96-113 | If pairwise weighted kicks are antisymmetric, kicking all bodies leaves the weighted sum unchanged. |
| Sums.AntisymmetricSum | designs/Vivado-hls/nbody/nbody.cpp:96-99 | An antisymmetric double sum is zero. |
| MatMul.MatrixMult.constructor | designs/Vivado-hls/mm/matrix_mult.cpp:35-37 | Cached tile and result row of the right shape. |
| MatMul.MatrixMult.Run | designs/Vivado-hls/mm/matrix_mult.cpp:40-59 | One kernel call: the cached tile is the given one, reloaded only on the flag, and memory changes only at the result offset, to the products of the row with the first w tile columns. |
| MatMul.MatrixMult.LoadTile | designs/Vivado-hls/mm/matrix_mult.cpp:43-44 | Loading replaces the static tile by the rows in memory. |
| MatMul.MatrixMult.ComputeRow | designs/Vivado-hls/mm/matrix_mult.cpp:47-57 | The two loops compute the dot product of the row with each of the first w tile columns. |
| MatMul.DotInTile | designs/Vivado-hls/mm/matrix_mult_tb.cpp:132-134 | Each column of a tile is the column of B it comes from. |
| MatMul.DotUnit | designs/Vivado-hls/mm/matrix_mult.cpp:47-57 | The sum of products of a row with a column that is one at x and zero elsewhere is cell x of the row. |
| MatMul.DotLinear | designs/Vivado-hls/mm/matrix_mult.cpp:47-57 | And it is linear in the column. |
| MatMul.BlocksApart | designs/Vivado-hls/mm/matrix_mult_tb.cpp:150-156 | Different result blocks of C never overlap. |
| MatMulHost.Pack | designs/Vivado-hls/mm/matrix_mult_tb.cpp:132-134 | Packing makes the tile buffer hold columns k*G to k*G+G of B and changes nothing else. |
| MatMulHost.Call | designs/Vivado-hls/mm/matrix_mult_tb.cpp:140-148 | After each call the cached tile is group k although it is loaded only at i = p = 0, and the results lie where the driver expects them. |
| MatMulHost.Scatter | designs/Vivado-hls/mm/matrix_mult_tb.cpp:151-155 | The scattered block of C is the result buffer. |
| MatMulHost.Turn | designs/Vivado-hls/mm/matrix_mult_tb.cpp:140-156 | One turn of the two inner loops on memory. |
| MatMulHost.MultiplyTile | designs/Vivado-hls/mm/matrix_mult_tb.cpp:138-158 | All rows against one tile. |
| MatMulHost.TurnKeeps | designs/Vivado-hls/mm/matrix_mult_tb.cpp:150-156 | A block written earlier survives a later turn, except that block 0 of a single whole tile is renewed. |
| MatMulHost.Multiply | designs/Vivado-hls/mm/matrix_mult_tb.cpp:130-160 | For any A and B every cell of C, by its index in memory, ends as row i of A times column k*G + c of B, or, for a single tile wider than W beyond its first block, as what the unused result buffer held; A and B are untouched. If W equals G, cell (i, j) of C is row i of A times column j of B. |
| MatMulHost.OutIsProduct | designs/Vivado-hls/mm/matrix_mult_tb.cpp:130-160 | The first block of every tile is always the product with column k*G + c. |
| MatMulHost.IdentityProduct | designs/Vivado-hls/mm/matrix_mult_tb.cpp:168-175 | The product that results are compared with has, against the identity, the cells of A. |
| MatMulHost.ProductIff | designs/Vivado-hls/mm/matrix_mult_tb.cpp:165-180 | The program computes A * B for all matrices iff the work item size equals the group size. |
| MatMulHost.NotProductWhenLess | designs/Vivado-hls/mm/matrix_mult_tb.cpp:153-156 | Concrete matrices for which a smaller work item size gives a wrong C. |
| Convolution.WindowIsCorrelation | designs/Vivado-hls/if/image_filtering_new.cpp:59-74 | After i + H_mask lines, the kernel sum at column j is the 2D correlation of the clamped image centred at (i, j), although the kernel sums columns first and its lines may be longer than the image rows. |
| Convolution.StreamedShifts | designs/Vivado-hls/if/image_filtering_new.cpp:50-53 | Shifting the line buffer and reading row t turns the last rows streamed by time t into those at t + 1. |
| Convolution.NothingStreamed | designs/Vivado-hls/if/image_filtering_new.cpp:19-20 | The zero line buffer is the buffer before the first row. |
| Convolution.SquareTransposed | designs/Vivado-hls/if/image_filtering_new.cpp:61-66 | A double sum may be taken in either order. |
| Convolution.ClampIsNearest | designs/Vivado-hls/if/if_tb.cpp:62-63 | The four clamping tests give the index of the image that is nearest, and no other. |
| Convolution.ImageFilter.constructor | designs/Vivado-hls/if/image_filtering_new.cpp:19-20 | The global buffers start as zeros. |
| Convolution.ImageFilter.Shift | designs/Vivado-hls/if/image_filtering_new.cpp:50-53 | Every line buffer row moves up by one in place. |
| Convolution.ImageFilter.ReadLine | designs/Vivado-hls/if/image_filtering_new.cpp:50-54 | The line buffer drops its oldest row and gains the row in memory. |
| Convolution.ImageFilter.Accumulate | designs/Vivado-hls/if/image_filtering_new.cpp:60-66 | The two mask loops compute the window sum of one column. |
| Convolution.ImageFilter.Filter | designs/Vivado-hls/if/image_filtering_new.cpp:56-72 | The column loop writes all window sums and leaves the tail of the output buffer. |
| Convolution.ImageFilter.Apply | designs/Vivado-hls/if/image_filtering_new.cpp:50-76 | One call shifts, reads, filters and writes one row; memory changes only at the output offset. |
| ConvolutionHost.PadCell | designs/Vivado-hls/if/if_tb.cpp:59-64 | A padded cell is the image cell whose row and column are nearest to its own, half a mask up and left. |
| ConvolutionHost.PadRow | designs/Vivado-hls/if/if_tb.cpp:58-67 | One padded row, cell by cell: the image cell in the nearest row and nearest column; so left of the image its first column repeats and right of it the last. |
| ConvolutionHost.Pad | designs/Vivado-hls/if/if_tb.cpp:57-67 | The input region holds the padded image: every cell of it, by its index in memory, equals the image cell in the nearest row and nearest column. |
| ConvolutionHost.PaddedRepeats | designs/Vivado-hls/if/if_tb.cpp:57-67 | Rows that are padded image rows are, by index in memory, repetitions of the nearest image cells. |
| ConvolutionHost.Step | designs/Vivado-hls/if/if_tb.cpp:76-81 | Call t takes its line into the line buffer, and memory changes only where the call writes its block: the filtered row and the untouched tail of the output buffer, as wide as the kernel is built for. |
| ConvolutionHost.ReadsPadded | designs/Vivado-hls/if/if_tb.cpp:57-81 | Every call of the driver reads padded image cells only, its own row and, in a wider kernel, the start of the next. |
| ConvolutionHost.FilterImage | designs/Vivado-hls/if/if_tb.cpp:57-82 | The whole driver, for any image no wider than the kernel whose calls stay in bounds: padded input intact, one output row per call, and output row i + H_mask - 1 is row i of the 2D correlation for every pixel. |
| ConvolutionHost.InBoundsIff | designs/Vivado-hls/if/if_tb.cpp:52-81 | The calls stay inside the allocated cells iff the kernel width plus the mask width is at most a padded row, or two padded rows when the mask height is odd. |
| ConvolutionHost.ThreeSizes | designs/Vivado-hls/if/if_tb.cpp:11-36 | Of the three image sizes of the driver, 1920x1080 and 1024x576 stay in bounds under the kernel width of 1920; with 240x135 the calls write past the end. |
| ConvolutionHost.ReadBack | designs/Vivado-hls/if/if_tb.cpp:86-90 | The read-back loop takes row i + H_mask/2 from column W_mask/2 on. |
| ConvolutionHost.FilterAndSave | designs/Vivado-hls/if/if_tb.cpp:57-91 | The whole program: each saved pixel is the cell of the filtered rows that the read-back index names. |
| ConvolutionHost.ReadBackIsShifted | designs/Vivado-hls/if/if_tb.cpp:86-90 | So the saved pixel is the correlation H_mask - 1 - H_mask/2 rows higher and half a mask further right, wherever that lies inside the image. |
| ConvolutionHost.ReadBackRightIff | designs/Vivado-hls/if/if_tb.cpp:86-90 | For every size of image, mask and kernel whose calls stay in bounds: the saved image is the correlation for all images and masks iff the mask has at most two rows and either one column, or more over an image one column wide that the mask cannot leave. |
| ConvolutionHost.ReadBackBreaks | designs/Vivado-hls/if/if_tb.cpp:86-90 | In every other case an image, a mask and a pixel for which the saved value is wrong. |
| Matrices.BlitRow | designs/Vivado-hls/if/if_tb.cpp:66-66 | Writing one whole row of flat memory replaces that row and no other. |
| WorkGroup.FindLocalSize | pocl-0.11-zynq/lib/CL/clEnqueueNDRangeKernel.c:150-218 | The search terminates for all positive sizes, at the first size after at least one split whose wrapped volume fits; each local size divides its global size; dimensions are given up in the order the comments in the loop announce; a launch larger than one item is always split. |
| WorkGroup.SplitOnce | pocl-0.11-zynq/lib/CL/clEnqueueNDRangeKernel.c:153-214 | The branches as written, the repeated z test included, make one split. |
| WorkGroup.SplitDivides | pocl-0.11-zynq/lib/CL/clEnqueueNDRangeKernel.c:156-213 | A split keeps every local size a positive divisor of its global size. |
| WorkGroup.SplitsInOrder | pocl-0.11-zynq/lib/CL/clEnqueueNDRangeKernel.c:153-213 | x is halved out before y is touched and y before z; a halved size stays a multiple of the preferred size; y is dropped only when z is 1 or y is ragged and z is not; a z that is a multiple is dropped only once y is one too or is 1; x goes last. |
| WorkGroup.SplitsShrink | pocl-0.11-zynq/lib/CL/clEnqueueNDRangeKernel.c:150-218 | Every split that is not already one item makes progress. |
| WorkGroup.HalvedKeepsMultiple | pocl-0.11-zynq/lib/CL/clEnqueueNDRangeKernel.c:148-171 | A dimension that was only halved is still a multiple of the preferred size. |
| WorkGroup.ReallyFitsIff | pocl-0.11-zynq/lib/CL/clEnqueueNDRangeKernel.c:217-218 | The chosen size truly fits the device iff no size met on the way overflows 64 bits while its wrapped volume passes the test. |
| WorkGroup.ReallyFits | pocl-0.11-zynq/lib/CL/clEnqueueNDRangeKernel.c:217-218 | It truly fits whenever the volume after the first split is below 2^64. |
| WorkGroup.OversizedGroup | pocl-0.11-zynq/lib/CL/clEnqueueNDRangeKernel.c:217-246 | A launch of 2^33 by 2^32 items, on a device that prefers multiples of 8 and allows groups of 4096, is accepted with a group of 2^64 items. |
| WorkGroup.Launch | pocl-0.11-zynq/lib/CL/clEnqueueNDRangeKernel.c:106-246 | The outcome and local size of a launch: the first fitting split when no local size is given, the given one otherwise, and the checks on it. In an accepted launch groups times local sizes are the caller's own global sizes in the dimensions used, and 1 beyond. With no local size given, neither CL_INVALID_WORK_GROUP_SIZE check nor a division by zero can be reached; CL_INVALID_WORK_ITEM_SIZE is returned iff a dimension exceeds its limit; a zero global size is rejected. |
| WorkGroup.CheckIs | pocl-0.11-zynq/lib/CL/clEnqueueNDRangeKernel.c:230-246 | The checks written out: which outcome comes of which of wrapped product, item limits of the dimensions used, zero sizes and divisibility, earlier checks first. |
| WorkGroup.GroupsTile | pocl-0.11-zynq/lib/CL/clEnqueueNDRangeKernel.c:301-307 | The group counts of an accepted launch times the local sizes are the global sizes. |
| WorkGroup.ItemLimitsPreventWrap | pocl-0.11-zynq/lib/CL/clEnqueueNDRangeKernel.c:230-242 | If the per-dimension limits multiply to less than 2^64, every accepted launch truly fits the device. |
| WorkGroup.ItemsArePlaced | pocl-0.11-zynq/lib/CL/clEnqueueNDRangeKernel.c:301-307 | Every (group, local id) has a global id in range and is recovered from it. |
| WorkGroup.PlacesAreTaken | pocl-0.11-zynq/lib/CL/clEnqueueNDRangeKernel.c:301-307 | Every global id in range belongs to exactly one (group, local id): the numbering is a bijection, as section 3.2 of OpenCL 1.2 says. |
| Bmp.StrideIsLeast | designs/Vivado-hls/if/bmpfuncs.cpp:57-60 | The row stride is the least multiple of four that holds a row. |
| Bmp.FieldIs | designs/Vivado-hls/if/bmpfuncs.cpp:25-31 | A field holding the four bytes of a number, lowest first and negative ones in two's complement, reads as that number. |
| Bmp.HeaderIs | designs/Vivado-hls/if/bmpfuncs.cpp:99-104 | Bytes 10 to 13 are where the pixels begin, 18 to 21 the width and 22 to 25 the height. |
| Bmp.StoredPicture | designs/Vivado-hls/if/bmpfuncs.cpp:57-72 | Reading the stored rows back gives the picture, top row first. |
| Bmp.StoredHeader | designs/Vivado-hls/if/bmpfuncs.cpp:25-53 | A stored file has the offset, width and height of its reference file, if the pixel data start after those fields. |
| Bmp.RestoredRow | designs/Vivado-hls/if/bmpfuncs.cpp:62-72 | Storing what was read puts every pixel byte back where it was. |
| Bmp.RestoredFile | designs/Vivado-hls/if/bmpfuncs.cpp:62-72 | The stored file is the original up to the end of its rows iff the original padding repeated the last pixel of each row. |
| Bmp.StackRow | designs/Vivado-hls/if/bmpfuncs.cpp:62-72 | Row k in file order is row h - 1 - k of the picture. |
| Bmp.PictureCell | designs/Vivado-hls/if/bmpfuncs.cpp:126-157 | Pixel j of row i from the top is byte offset + (h - 1 - i) * stride + j of the file. |
| Bmp.StoredCell | designs/Vivado-hls/if/bmpfuncs.cpp:62-72 | A stored picture byte by byte: pixel (i, j) at that place, and the last pixel of the row again in its padding. |
| BmpFiles.StoreImage | designs/Vivado-hls/if/bmpfuncs.cpp:6-78 | The written file is the reference header followed by the rows bottom-up, converted and padded; byte by byte, each is the truncation of the pixel of the buffer that belongs there. |
| BmpFiles.WriteRow | designs/Vivado-hls/if/bmpfuncs.cpp:63-71 | One row of converted pixels, then its last pixel as padding. |
| BmpFiles.ToByte | designs/Vivado-hls/if/bmpfuncs.cpp:64-64 | A pixel value is truncated to the byte at or just below it, and values between -1 and 0 become 0. |
| BmpFiles.ReadImage | designs/Vivado-hls/if/bmpfuncs.cpp:83-173 | The float image holds the picture of the file, top row first, with the sizes of its header: pixel (i, j) is byte offset + (h - 1 - i) * stride + j. |
| BmpFiles.ReadRows | designs/Vivado-hls/if/bmpfuncs.cpp:134-146 | Sequential reading with the padding thrown away gives the rows in file order. |
| BmpFiles.FlipRows | designs/Vivado-hls/if/bmpfuncs.cpp:149-157 | The in-place flip reverses the rows, exactly, for odd and even heights. |
| BmpFiles.FlipPair | designs/Vivado-hls/if/bmpfuncs.cpp:152-156 | One turn exchanges two rows and touches nothing else. |
| BmpFiles.Convert | designs/Vivado-hls/if/bmpfuncs.cpp:165-169 | Every byte becomes the real of the same value. |
| BmpFiles.SavedPixels | designs/Vivado-hls/if/bmpfuncs.cpp:64-64 | Conversion to bytes and back is the identity on a picture iff its pixels are whole numbers from 0 to 255. |
| BmpFiles.SaveThenLoad | designs/Vivado-hls/if/bmpfuncs.cpp:57-169 | readImage of what storeImage wrote returns the same pixels iff they are whole numbers from 0 to 255. |
| BmpFiles.LoadThenSave | designs/Vivado-hls/if/bmpfuncs.cpp:57-169 | storeImage of what readImage returned reproduces the file up to the end of its rows iff its padding repeats the last pixel of each row. |
| BuildOptions.NextToken | pocl-0.11-zynq/lib/CL/clBuildProgram.c:162-162 | The next word at or after the saved position, or none: what strtok_r with a space returns. |
| BuildOptions.TokensOfJoin | pocl-0.11-zynq/lib/CL/clBuildProgram.c:228-230 | Re-tokenising words that were each followed by a space gives back the words. |
| BuildOptions.FilterIsIdempotent | pocl-0.11-zynq/lib/CL/clBuildProgram.c:163-232 | Filtering what was kept keeps all of it. |
| BuildOptions.FilterDropsOnlyUnsupported | pocl-0.11-zynq/lib/CL/clBuildProgram.c:169-186 | An accepted list is the input in order with only not-yet-supported parameters left out. |
| BuildOptions.VerdictIff | pocl-0.11-zynq/lib/CL/clBuildProgram.c:169-186 | The verdict on one option that starts like an option of the front end, exactly: kept iff it is a prefix of a supported parameter, dropped iff only of an unsupported one, rejected otherwise. |
| BuildOptions.KeptWronglyIff | pocl-0.11-zynq/lib/CL/clBuildProgram.c:169-173 | Every parameter is kept, and a word that is none is kept iff it is a proper prefix of one. |
| BuildOptions.DefinesAreKept | pocl-0.11-zynq/lib/CL/clBuildProgram.c:187-211 | A word longer than two characters that begins with -D or -I is kept. |
| BuildOptions.LoneTakesNext | pocl-0.11-zynq/lib/CL/clBuildProgram.c:202-231 | A lone -D or -I is kept together with the word after it, whatever that is, and at the end of the string has none to take. |
| BuildOptions.OthersAreRejected | pocl-0.11-zynq/lib/CL/clBuildProgram.c:166-216 | A word that begins with none of -cl, -w, -g, -D and -I makes the build fail. |
| BuildOptions.ParametersAreKept | pocl-0.11-zynq/lib/CL/clBuildProgram.c:169-173 | Each of the twelve parameters is kept by itself. |
| BuildOptions.FilterSplits | pocl-0.11-zynq/lib/CL/clBuildProgram.c:163-232 | But for a lone -D or -I a word is judged by itself: the list is kept, or rejected, word by word. |
| BuildOptions.CutShort | pocl-0.11-zynq/lib/CL/clBuildProgram.c:169-173 | For instance -cl-std=CL1. is kept, which is no parameter. |
| OptionNames.ListedIff | pocl-0.11-zynq/lib/CL/clBuildProgram.c:169-173 | strstr finds a word that starts like an option in a list of options, each followed by a space, iff it is a prefix of one of them. |
| OptionNames.ParametersListed | pocl-0.11-zynq/lib/CL/clBuildProgram.c:44-56 | The parameter string is the list of its twelve options. |
| BuildOptions.GrowthSuffices | pocl-0.11-zynq/lib/CL/clBuildProgram.c:218-227 | One growth of 256 leaves room for word, space and terminator iff the need is within size + 256, and i stays below size for every word of at most 255 characters. |
| BuildOptions.LongOption | pocl-0.11-zynq/lib/CL/clBuildProgram.c:187-201 | A single -D or -I word overruns the buffer iff it is longer than 766 characters. |
| BuildOptions.OptionsOverrunIff | pocl-0.11-zynq/lib/CL/clBuildProgram.c:163-232 | For any option string: the buffer overruns iff one of the words written is longer than what is left where it comes plus one growth. |
| BuildOptions.SizeIsTight | pocl-0.11-zynq/lib/CL/clBuildProgram.c:218-227 | What is left: as long as all words fit, the size is 512 plus growths of 256, at least what is used, and no growth came before it was needed. |
| BuildOptions.OptionBuffer.Strcat | pocl-0.11-zynq/lib/CL/clBuildProgram.c:229-230 | The NUL-terminated text grows by the argument. |
| BuildOptions.OptionBuffer.Append | pocl-0.11-zynq/lib/CL/clBuildProgram.c:218-230 | Grow, copy and append: strlen + 1 == i is kept and the text is extended by word and space, or the overrun is reported exactly when there is no room. |
| BuildOptions.Turn | pocl-0.11-zynq/lib/CL/clBuildProgram.c:163-232 | One turn of the loop, with its continues, its second fetch for a lone -D or -I and its error exits, is one step of the specified process. |
| BuildOptions.FilterOptions | pocl-0.11-zynq/lib/CL/clBuildProgram.c:155-236 | The loop in place gives the outcome of the specified process on the words of the string. |
| BuildOptions.ProcessIsFilter | pocl-0.11-zynq/lib/CL/clBuildProgram.c:163-232 | With words of at most 255 characters the buffer never overruns and holds exactly the kept options, each followed by a space; rejection and a dangling -D or -I are reported as such. |
| BuildOptions.FilteredAgain | pocl-0.11-zynq/lib/CL/clBuildProgram.c:155-236 | For such words the resulting string re-tokenises to the kept options, and filtering it again yields the same string. |

## Left out

- Event reuse in the ordering theorems: termination, wait safety, conservation, reference counts and mapping lists cover runs that use events again; deferred against immediate execution, confluence and the sign of the map count are about runs in which every command has an event of its own.
- User events, barriers and out-of-order queues: a user event has no queue to hop to, `exec_commands` has no barrier case, and `clFinish` aborts on out-of-order queues.
- Image commands (read, write, map, fill) and `CL_MEM_USE_HOST_PTR`: their retains and releases are not paired within the modelled files.
- Locks, and `POCL_IMPLICIT_FINISH` of debug builds: each API call is atomic.
- Argument validation (null handles, contexts, bounds, empty wait lists) and out-of-memory paths, except where they change state: they only add early returns.
- Event pointers of rect commands: they update an event the caller passed in, which no queue ever holds.
- Profiling times, event callbacks, reference counts of queues, kernels, events and contexts, and sub-buffers.
- Map failure: a device that cannot place the mapping (`host_ptr` NULL) takes the error exit, which records no mapping but keeps the retain taken before.
- Pocl.PoclRuntime.FinishAll: queues and ready list are sequences here; that moving a node between the two lists on the heap is this step is `Lists.MoveHead`.
- Transfers.IndependentCommute: host and device memory are distinct, so the device's test for a host address equal to the device address does not arise; overlapping `memcpy` is read as simultaneous.
- LL_PREPEND, the searches, circular lists and the VS2008 variants of `utlist.h`: easier than what is proved; integer overflow of `_ls_insize` is not modelled.
- ListSort.SortList: one method stands for both macros, with a flag for the prev links.
- NBody.Run: arithmetic is exact; IEEE rounding, which makes the order of summation visible, is not modelled, here or in the other kernels.
- MatMulHost.ProductIff: the golden triple loop appears as the mathematical product, not as a loop.
- Convolution.ImageFilter.Accumulate: the mask is a two-dimensional array here and a flat one in the source.
- WorkGroup.Launch: kernel argument checks, compilation, caching on disk and argument copies are not part of this model; offsets are not wrapped.
- BmpFiles.ReadImage: truncated files (reads past the end), negative sizes and sizes whose product overflows `int` are outside the model.
- BmpFiles.StoreImage: pixels outside (-1, 256), for which C leaves the conversion undefined, are outside the model.
- BuildOptions.NextToken: the words are slices of the string; that strtok_r overwrites delimiters in its private copy is not modelled.
- The rest of `clBuildProgram`, `clCreateKernel` and LLVM, SHA1 and cache directory calls: foreign calls and I/O.
- Black-Scholes: its content is exp, log and sqrt. The Linux drivers, `cl2vhls_pocl`, query functions, samplers and example hosts: one-branch code or foreign interfaces.
