# Verified models of the C programs in this blog

Six of the C programs in this repository have real invariants. This project models each of them in Dafny, in the
form the source has (records updated in place become classes and arrays, loops stay loops), and proves what the
programs are for.

**The copy-stack coroutine runtime** (`codes/aco_httpd/lib`). Many coroutines take turns on one byte region. A
resume copies the owner's live bytes to its private buffer, copies the resumed coroutine's bytes back, and
switches registers. `AcoSpec` is the machine on values; `AcoInvariant` shows what every operation keeps and
exactly when one aborts; `AcoRefinement` shows that no run can be told apart from a run on a machine where every
coroutine has a stack of its own; `AcoAccounting` says what the statistics count. `AcoRuntime` has the records,
the arrays and the register moves, each method proved to do one step of the machine on the records it touches,
and `AcoLocality` shows that these records are all a step depends on. `AcoMachine` puts them together: any number of
coroutines on any number of stacks, where each call is one step of the machine on all of them. `ShareStackLayout`, `SaveBuffer` and `Words`
are the arithmetic underneath: page rounding with its assertions, the window for the stack pointer, and the
doubling loop with its wrapping shift.

A coroutine's own execution is one operation, `CoRun`: any stack pointer inside the region, any bytes above it and
below it, any registers. The bytes of a save buffer beyond the valid size are not part of the machine's state.

**The thread pool** (`codes/apue/threadpool`). `PoolProtocol` has a program counter for each worker, each caller of
`add_task` and the caller of `release_thread_poll`; a step is one statement of one of them, a wait may end
spuriously, and a signal may wake several waiters. `PoolSafety` and `PoolLiveness` prove safety, termination and
draining. `TaskList` is the linked list behind the queue, and `PoolThreads` carries out every run of the protocol on
that list.

**The non-blocking relay** (`codes/apue/io-multiply-server`). `RelaySpec` is the loop on values, `RelayProperties`
what it keeps and what each turn does to every stream, `RelayClient` the loop on two arrays and four cursors. The kernel's answers are parameters: it
reports only events that were asked for, a read gives between one byte and what it was given room for, a write
takes at most what it was given, and any call may fail or would block.

**Parent-linked trees** (`codes/algorithm`). `ParentTree` says which pointers a tree shape stands for and what
rotations and exchanges do to shapes; `TreeSurgery` has the assignments of `leftRotate`, `rightRotate` and
`swap_heap_node` in their order, on linked nodes.

**The directory counters** (`codes/apue/timec`). A directory is a datatype of entries with flags for whether it
opens and gives a stream. `DirTree` compares the three ways of counting, `DirReads` says which entries each walk
reads and counts them by type, `DirWalks` has the three programs, one of
them over a linked list that grows while it is read.

**The coroutine server** (`codes/aco_httpd/main.c`), a client of the runtime. `ConnectionSpec` follows connections
from accept to free, `ConnectionProperties` proves their life cycle, `ConnectionServer` is the event loop. A record
is known by a number that is never given out again, so a use after free is visible in the model; in the event loop it
is an object that the kernel's table and the batch of events point at.

Where a promise fails in the code, the code is kept as it is, a concrete input shows the failure, and a lemma says
exactly when the promise holds:

- A task whose `add_task` has yet to lock the mutex when release is called can be left unrun
  (`PoolLiveness.InFlightAddIsStranded`, `PoolLiveness.ReleaseDrainsIff`).
- The relay may end with received bytes unprinted (`RelayProperties.StopMayLoseBytes`, `RelayProperties.StopPrintsAllIff`).
- `duclinkfd` ends its whole walk at a directory that gives no stream, where `ducfd` goes on
  (`DirTree.WalksMayDiffer`, `DirTree.WalksAgreeIff`).
- A refused unregistration frees a connection that is still registered
  (`ConnectionProperties.RefusedUnregistrationFaults`, `ConnectionProperties.FaultIffRefused`).
- A refused registration leaves a connection that is never closed or freed
  (`ConnectionProperties.RefusedRegistrationStrands`, `ConnectionProperties.AcceptedIsReleasableIff`).
- A save larger than half the address range makes the buffer's growth loop abort from a power-of-two capacity
  (`SaveBuffer.PowerOfTwoGrowthAborts`); below that it never does (`SaveBuffer.GrowthSuffices`).
- From another capacity such a save can leave one that is not the initial one doubled, because a bit was shifted out
  (`SaveBuffer.WrappedGrowthIsNoDoubling`, `SaveBuffer.GrowthIsDoublingIff`, `AcoAccounting.CapacityIsInitialDoubled`).

In `head_sort.c`, line 87 writes a field `min` that the struct (line 14) declares as `max`; the model has one root
field. In `main.c`, line 140 can never be reached with an interrupted call, because line 135 has already taken it as
an error; and line 146 tests for a negative result where `set_non_blocking` (`codes/aco_httpd/utils.c`, lines 10-18)
gives zero or a positive error number, so such a client gets a record and a coroutine like any other. The model
follows the code.

## Model

| member | source | states |
|---|---|---|
| `AcoRefinement.RunRefinesPrivateStacks` | `codes/aco_httpd/lib/aco.c:394-508` | Any run of create, resume, yield, exit, destroy and coroutine execution that does not abort is, step for step, a run of the machine in which every coroutine owns a private stack; both end in corresponding states |
| `AcoRefinement.ResumeRestoresWhatYieldLeft` | `codes/aco_httpd/lib/aco.h:215-219` | Whatever runs between a yield and the next resume of the same coroutine, on whatever stacks, the coroutine continues with the registers, return address and every byte above its stack pointer that it left |
| `AcoRefinement.StepCommutes` | `codes/aco_httpd/lib/aco.c:394-508` | One operation: abstracting after the step equals stepping after the abstraction |
| `AcoRefinement.PRunLeavesAlone` | `codes/aco_httpd/lib/aco.h:215-219` | With private stacks a suspended coroutine is not touched by what others do; the reference half of the refinement |
| `AcoRefinement.AcquireMovesNothing` | `codes/aco_httpd/lib/aco.c:399-504` | The two copies of a resume are invisible: every coroutine keeps its private stack, registers and end flag |
| `AcoRefinement.EvictMovesNothing` | `codes/aco_httpd/lib/aco.c:400-462` | Copying the owner out leaves everyone's private stack as it was |
| `AcoRefinement.TakeOverMovesNothing` | `codes/aco_httpd/lib/aco.c:463-500` | Copying a coroutine back leaves everyone's private stack as it was, and its assertion does not fire |
| `AcoRefinement.ResumeCommutes` | `codes/aco_httpd/lib/aco.c:394-508` | A resume that does not abort only loads the coroutine's registers, as far as private stacks can tell |
| `AcoRefinement.CoRunCommutes` | `codes/aco_httpd/lib/aco.c:505-507` | Arbitrary writes below the protector word change the running coroutine's private stack and nobody else's |
| `AcoRefinement.ExitCommutes` | `codes/aco_httpd/lib/aco.h:239-246` | An exit ends one coroutine and gives up its stack; no other private stack changes |
| `AcoRefinement.DestroyCommutes` | `codes/aco_httpd/lib/aco.c:510-523` | Destroying a coroutine removes it and changes no other coroutine |
| `AcoRefinement.RunSplit` | `codes/aco_httpd/lib/aco.c:394-508` | Runs compose: a run of two parts is the second part run from the state the first leaves, and aborts where either does |
| `AcoRefinement.RunKeepsProtector` | `codes/aco_httpd/lib/aco.c:294-297` | No run, with any saves and restores in it, changes a byte from the protector word upwards |
| `AcoRefinement.ReachableOwnership` | `codes/aco_httpd/lib/aco.c:457-507` | In every state a run from fresh share stacks reaches, a stack is owned by nobody or by a live coroutine created on it, and the running coroutine owns its stack |
| `AcoInvariant.StepKeepsInv` | `codes/aco_httpd/lib/aco.c:394-523` | Every operation keeps the invariant (an owner is a live coroutine bound to that stack, the running coroutine owns its stack, buffers hold what the stack pointer says), and an operation aborts if and only if it resumes an ended coroutine or evicts an owner whose stack pointer is outside the window or whose buffer growth runs out of bits |
| `AcoInvariant.SaveOutEffect` | `codes/aco_httpd/lib/aco.c:401-458` | What a save leaves: exactly the bytes from the stack pointer to the return slot, a buffer that holds them, the counters, and a stack without an owner; and exactly when it aborts |
| `AcoInvariant.CopyInEffect` | `codes/aco_httpd/lib/aco.c:465-500` | The restore-time assertion never fails for a coroutine a save has parked, and afterwards its live bytes are on the stack again and the word above them is unchanged |
| `AcoInvariant.AcquireKeepsInv` | `codes/aco_httpd/lib/aco.c:399-504` | Taking over a stack ends with the resumed coroutine as owner in a valid state, or aborts exactly when the old owner cannot be evicted |
| `AcoInvariant.ExitKeepsInv` | `codes/aco_httpd/lib/aco.h:239-246` | The ownership assertion of an exit never fires, and no stack is left with an ended owner |
| `AcoInvariant.DestroyKeepsInv` | `codes/aco_httpd/lib/aco.c:510-523` | Destroy never leaves a stack owned by a coroutine that is gone |
| `AcoInvariant.CreateKeepsInv` | `codes/aco_httpd/lib/aco.c:320-381` | A new coroutine has 64 bytes of buffer for a zero request and the request otherwise, nothing saved, three zero statistics, its entry point and the top of its stack; every other coroutine and every stack stays as it was, and the invariant holds |
| `AcoInvariant.CoRunKeepsInv` | `codes/aco_httpd/lib/aco.c:505-507` | Any stack use inside the region keeps the invariant |
| `AcoInvariant.YieldKeepsInv` | `codes/aco_httpd/lib/aco.h:215-219` | A yield keeps the invariant; the coroutine stays owner of its stack |
| `AcoLocality.SwitchIsLocal` | `codes/aco_httpd/lib/aco.c:394-523` | A resume, yield, exit or destroy made on the part of the machine that holds one stack, the coroutine and the stack's owner is the step of the whole machine, and aborts exactly when that does |
| `AcoMachine.Machine.Resume` | `codes/aco_httpd/lib/aco.c:394-508` | On all records at once, any number of coroutines on any number of stacks with their buffers apart: the resume is the step of the machine on the value of all of them, keeps the buffers apart, and aborts exactly when the step does |
| `AcoMachine.Machine.Yield` | `codes/aco_httpd/lib/aco.h:215-219` | The same for a yield of the running coroutine |
| `AcoMachine.Machine.Exit` | `codes/aco_httpd/lib/aco.h:239-246` | The same for its exit, which never aborts |
| `AcoMachine.Machine.Destroy` | `codes/aco_httpd/lib/aco.c:510-523` | The same for destroying a coroutine that is not running |
| `AcoMachine.Machine.Create` | `codes/aco_httpd/lib/aco.c:320-381` | Creating one among any number: the machine's step on all records, the fields of the new record (64 bytes for a zero request, the request otherwise, nothing saved, zero statistics), and a buffer that no other record has |
| `AcoMachine.Machine.CoRun` | `codes/aco_httpd/lib/aco.c:505-507` | The same for what the running coroutine writes below the return slot |
| `AcoRefinement.RunExtends` | `codes/aco_httpd/lib/aco.c:394-508` | A run goes on with any step that does not abort, so the calls of a program on these records make a run |
| `AcoRuntime.Thread.Resume` | `codes/aco_httpd/lib/aco.c:394-508` | On records and byte arrays: answers whether it aborts as the machine does, and otherwise leaves the records in the state of one machine step |
| `AcoRuntime.Thread.Yield` | `codes/aco_httpd/lib/aco.h:215-219` | The records after a yield are those of the machine's switch to the main coroutine |
| `AcoRuntime.Thread.Exit` | `codes/aco_httpd/lib/aco.h:239-246` | Does not abort, and leaves the records in the state of the machine's exit |
| `AcoRuntime.Thread.Destroy` | `codes/aco_httpd/lib/aco.c:510-523` | The stack is disowned if the coroutine owned it and otherwise left as it is; the record is left without a buffer |
| `AcoRuntime.Thread.Acosw` | `codes/aco_httpd/lib/acosw.S:96-123` | From the word at the stack pointer and the address above it: slots 0 to 7 of the record switched from hold the caller's registers, and the processor holds those of the record switched to |
| `AcoRuntime.Coroutine.SaveOut` | `codes/aco_httpd/lib/aco.c:403-458` | The owner's half of a resume on arrays: check, growth, copy, counters, disowning |
| `AcoRuntime.Coroutine.CopyIn` | `codes/aco_httpd/lib/aco.c:463-500` | The resumed half on arrays: check, copy to below the return slot, counters, ownership |
| `AcoRuntime.Coroutine.Grow` | `codes/aco_httpd/lib/aco.c:423-435` | The buffer is replaced only when too small, and its capacity is the one the doubling loop yields |
| `AcoRuntime.Coroutine.constructor` | `codes/aco_httpd/lib/aco.c:320-381` | The fields of a new record: entry point, initial stack pointer, a buffer of 64 bytes or of the size asked for, nothing saved, zero statistics |
| `AcoRuntime.ShareStack.constructor` | `codes/aco_httpd/lib/aco.c:285-297` | The three layout fields, and the protector written just above the stack and nowhere else |
| `AcoAccounting.StatisticsCountCopies` | `codes/aco_httpd/lib/aco.c:438-456` | Over any run: the save and restore counters count the copies, the maximum is the largest size copied, and saves exceed restores by one exactly while a live coroutine that is not the owner has bytes parked |
| `AcoAccounting.CapacityIsBounded` | `codes/aco_httpd/lib/aco.c:419-435` | Over any run, on a stack of any size: the capacity never shrinks, holds the largest save, and if it grew is below twice that |
| `AcoAccounting.CapacityStaysIff` | `codes/aco_httpd/lib/aco.c:419-435` | Over any run the capacity stays what it was if and only if no save needs more |
| `AcoAccounting.NewCapacityStaysIff` | `codes/aco_httpd/lib/aco.c:367-376` | From its creation on, over any run: the buffer still has 64 bytes (or the size asked for) if and only if no save needed more, and the three statistics are the largest copy and the numbers of copies since |
| `AcoAccounting.CapacityIsInitialDoubled` | `codes/aco_httpd/lib/aco.c:423-435` | Over any run the capacity is the initial one times a power of two if and only if such a multiple fits the word and holds the largest save |
| `AcoAccounting.HalfRangeStackDoubles` | `codes/aco_httpd/lib/aco.c:370-375` | So it always is on a stack of at most half the address range, whatever the initial capacity |
| `AcoAccounting.AloneNeverCopies` | `codes/aco_httpd/lib/aco.c:399-400` | A coroutine alone on its share stack is never copied, whatever else runs |
| `AcoAccounting.StepAccounts` | `codes/aco_httpd/lib/aco.c:436-498` | One operation changes a coroutine's counters and capacity by exactly the bytes it copies out or back |
| `ShareStackLayout.MappedSize` | `codes/aco_httpd/lib/aco.c:210-254` | For every request, page size and word width: it aborts on a page size that is no power of two; otherwise the length is one guard page plus the request (2 MiB for zero, at least 4096 bytes) rounded up to whole pages, or, if and only if that does not fit the word, an overflow assertion aborts. No other assertion can fail |
| `ShareStackLayout.AddGuardAndRound` | `codes/aco_httpd/lib/aco.c:236-252` | In the branch for more than one page the mask and division assertions hold, and an overflow assertion aborts exactly when the guard page and the rounded request do not fit the word |
| `ShareStackLayout.RoundUpIs` | `codes/aco_httpd/lib/aco.c:239-250` | Rounding up gives the one multiple of the page size in the half-open range of one page from the request |
| `ShareStackLayout.WindowKeepsCopiesInside` | `codes/aco_httpd/lib/aco.c:403-422` | On all three architectures: a stack pointer that passes the save-time assertion keeps both copies inside the region and off the protector word, makes the restore-time assertion true, and the initial stack pointer is 0, 8 and 4 bytes below a multiple of 16 on aarch64, x86_64 and i386 (on x86_64 what section 3.2.2 of the System V AMD64 ABI asks) |
| `ShareStackLayout.TopByArchitecture` | `codes/aco_httpd/lib/aco.c:283-299` | In numbers for each architecture: the sizes accepted, the limit, and that the initial stack pointer is the highest place with that alignment that leaves the protector room below the highest multiple of 16 under two words |
| `ShareStackLayout.WindowIsTight` | `codes/aco_httpd/lib/aco.c:403-418` | Conversely, a stack pointer the assertion rejects is within 16 bytes of leaving the region |
| `Words.PowerOfTwoTest` | `codes/aco_httpd/lib/aco.c:228-228` | The mask test is zero exactly for powers of two |
| `Words.WrapIsRemainder` | `codes/aco_httpd/lib/aco.c:205-207` | The wrapped sum that the overflow assertions and the shift compute is the sum modulo the word |
| `Words.AndLowMask` | `codes/aco_httpd/lib/aco.c:240-240` | Masking with a power of two minus one is the remainder |
| `Words.AndHighMask` | `codes/aco_httpd/lib/aco.c:241-241` | Masking with the complement rounds down to a multiple |
| `SaveBuffer.EnsureCapacity` | `codes/aco_httpd/lib/aco.c:423-435` | The loop with its wrapping shift terminates and computes the specified capacity or the abort |
| `SaveBuffer.GrowthSuffices` | `codes/aco_httpd/lib/aco.c:423-435` | A capacity that comes back holds the request and, if it grew, is below twice the request; up to half the address range growth never aborts and is a doubling |
| `SaveBuffer.GrowthIsDoublingIff` | `codes/aco_httpd/lib/aco.c:426-432` | The new capacity is the old one times a power of two if and only if such a multiple fits the word and holds the request |
| `SaveBuffer.WrappedGrowthIsNoDoubling` | `codes/aco_httpd/lib/aco.c:427-431` | It need not be: in every word of at least four bits a capacity of 11 can grow, past a bit shifted out, to a larger one that is no multiple of 11 |
| `SaveBuffer.PowerOfTwoGrowthAborts` | `codes/aco_httpd/lib/aco.c:427-428` | From a power-of-two capacity such as the default, growth aborts if and only if the request exceeds half the address range |
| `SaveBuffer.GrownFromOutcome` | `codes/aco_httpd/lib/aco.c:426-432` | The loop aborts if and only if no shifted capacity is both non-zero and large enough |
| `SaveBuffer.ShlClearsLowBits` | `codes/aco_httpd/lib/aco.c:427-428` | Shifting as often as the word has bits leaves zero, which bounds the loop |
| `SaveBuffer.OptimizedMemcpy` | `codes/aco_httpd/lib/aco.c:151-157` | Fast path or not, the destination has the source's bytes in the range and is otherwise unchanged |
| `SaveBuffer.ShortAlignedMemcpy` | `codes/aco_httpd/lib/aco.c:53-148` | Loading every 16-byte block before the first is stored, and then copying the last eight bytes, copies the whole range and nothing else |
| `PoolSafety.ReachableIsSafe` | `codes/apue/threadpool/main.c:170-229` | In every reachable state: a queued task has an active worker, a signal still to come, or was added after the last worker had exited; nobody waits once the broadcast is done; a worker about to take finds a task unless it is to exit; nobody is about to exit over a queued task; one thread is inside the mutex |
| `PoolSafety.StepKeepsInv` | `codes/apue/threadpool/main.c:153-229` | Each step of any thread, spurious wakeups and multiple wakeups included, keeps mutual exclusion, the workers' positions, no lost wakeup and the conservation of tasks |
| `PoolSafety.NoLostWakeupKept` | `codes/apue/threadpool/main.c:176-180` | No step leaves a queued task with every worker waiting or exited, some of them waiting, and no signal to come |
| `PoolSafety.ConservedKept` | `codes/apue/threadpool/main.c:187-202` | A task handed over is in the queue, in one worker's hands or run, in one of these places and once |
| `PoolLiveness.ReleaseDrainsIff` | `codes/apue/threadpool/main.c:153-168` | Once release is called, the queue is always empty at the moment it returns if and only if every add had got hold of the mutex when it was called and, in a pool without workers, no task is queued or about to be |
| `PoolLiveness.ReleaseDrains` | `codes/apue/threadpool/main.c:153-168` | In a run that calls release only when every add has locked the mutex: a queued task always has an active worker or a signal to come, and when release returns all workers have exited, the queue is empty and every task was run exactly once |
| `PoolLiveness.RunIsBounded` | `codes/apue/threadpool/main.c:170-205` | Every run is finite: its length is at most the initial measure plus five for each spurious wakeup |
| `PoolLiveness.StepPays` | `codes/apue/threadpool/main.c:153-229` | Each step but a spurious wakeup lowers the measure, and that one raises it by four |
| `PoolLiveness.Progress` | `codes/apue/threadpool/main.c:153-229` | No deadlock: until release has returned some thread has a step that is not a spurious wakeup |
| `PoolLiveness.ReleaseCompletes` | `codes/apue/threadpool/main.c:153-168` | From every reachable state there is a run without spurious wakeups in which release returns |
| `PoolLiveness.AllJoinWithout` | `codes/apue/threadpool/main.c:160-163` | While an add has yet to lock the mutex, the other threads can bring release past its last join without it |
| `PoolLiveness.InFlightAddIsStranded` | `codes/apue/threadpool/main.c:181-186` | The rule is needed: with an add still on its way when release is called, a concrete run ends with the task queued and nobody to run it |
| `TaskList.TaskQueue.Add` | `codes/apue/threadpool/main.c:214-227` | The list afterwards is the old one with the task at the end, linked both ways |
| `TaskList.TaskQueue.TakeLast` | `codes/apue/threadpool/main.c:187-195` | The last task comes out, the rest is linked both ways, and no node of the list or either end points at the task any more |
| `TaskList.TaskQueue.OutsideIsUnreachable` | `codes/apue/threadpool/main.c:187-195` | Nothing in a list that is linked both ways points at a task that is not one of its nodes |
| `PoolThreads.Threads.Run` | `codes/apue/threadpool/main.c:170-229` | Every run of the protocol, carried out on the linked list: in each of its states the list holds exactly the queued tasks in order, every adder's task not yet added is unlinked, and each worker's variable holds its task |
| `PoolThreads.Threads.StartTask` | `codes/apue/threadpool/main.c:198-202` | Whenever a worker makes its write outside the mutex, whatever adds and removals came since it took its task, nothing in the list points at that task |
| `PoolThreads.Threads.Push` | `codes/apue/threadpool/main.c:214-227` | The adder's critical section on the list is the protocol's step; the task was not in the list |
| `PoolThreads.Threads.Take` | `codes/apue/threadpool/main.c:181-195` | The worker's critical section on the list is the protocol's step: it exits or holds the task last added |
| `TaskList.AddThenTake` | `codes/apue/threadpool/main.c:187-227` | Adding and taking gives back the task just added and the list as it was |
| `RelayProperties.RunConserves` | `codes/apue/io-multiply-server/no_blocking_tcp_client.c:104-293` | At every loop head of every run, bytes read from standard input are those sent followed by those in the buffer, and bytes received are those printed followed by those in the other buffer; cursors stay ordered and meet only at the base; the write side has been shut down exactly when standard input has ended and all of it is sent |
| `RelayProperties.HalfCloseIsFinal` | `codes/apue/io-multiply-server/no_blocking_tcp_client.c:168-178` | The write side is shut down at most once, only after the end of standard input and after every byte of it was sent, and nothing is sent or read from standard input afterwards |
| `RelayProperties.NoWriteAfterHalfClose` | `codes/apue/io-multiply-server/no_blocking_tcp_client.c:237-264` | One turn after the half-close sends nothing and does not shut down again |
| `RelayProperties.ReadsAskForBytes` | `codes/apue/io-multiply-server/no_blocking_tcp_client.c:121-129` | Every read asks for at least one byte, so a result of zero is the end of the stream |
| `RelayProperties.PollIsNeverEmpty` | `codes/apue/io-multiply-server/no_blocking_tcp_client.c:115-140` | Once connected, every poll asks for at least one event, and for the socket's whenever there is something to send |
| `RelayProperties.StopPrintsAllIff` | `codes/apue/io-multiply-server/no_blocking_tcp_client.c:216-230` | A turn that ends the loop leaves everything received printed if and only if the cursors of the buffer for it meet at the loop head, before the poll |
| `RelayProperties.StoppedRunPrintsAllIff` | `codes/apue/io-multiply-server/no_blocking_tcp_client.c:104-293` | Every run that ends the loop has such a last loop head, and prints everything if and only if they meet there |
| `RelayProperties.StopMayLoseBytes` | `codes/apue/io-multiply-server/no_blocking_tcp_client.c:216-230` | It need not be empty: a concrete permitted run ends with a received byte unprinted |
| `RelayClient.Client.Turn` | `codes/apue/io-multiply-server/no_blocking_tcp_client.c:104-293` | One turn on the arrays and cursors, with the events it asks for, is one iteration of the machine, whose effect on every stream is `RelayProperties.TurnDoes`, under any permitted answers of the kernel |
| `RelayClient.Client.Loop` | `codes/apue/io-multiply-server/no_blocking_tcp_client.c:104-293` | The loop is the machine's run, for which `RelayProperties.RunConserves` and `RelayProperties.CanDrain` hold |
| `RelayClient.Client.ServeSocket` | `codes/apue/io-multiply-server/no_blocking_tcp_client.c:186-268` | Finishing the connection, or reading in preference to writing, on the arrays; the effect is `RelayProperties.SocketEffect` |
| `RelayClient.Client.Events` | `codes/apue/io-multiply-server/no_blocking_tcp_client.c:106-140` | Before the connection stands: the socket's two events and no other. After it: standard input unless it has ended or its buffer is full, the socket's input unless that buffer is full, each output exactly when there are bytes for it |
| `RelayProperties.TurnDoes` | `codes/apue/io-multiply-server/no_blocking_tcp_client.c:143-291` | What one turn does to each stream, for every answer of the kernel: exactly the bytes typed and delivered are read; when the write is answered with n, exactly the first n of the bytes waiting and just typed are sent, and likewise printed; the connection stands once its outcome is good; and exactly when the loop stops or the program dies |
| `RelayProperties.SocketEffect` | `codes/apue/io-multiply-server/no_blocking_tcp_client.c:186-268` | The socket's block alone: it connects, reads, or sends the first n of what is waiting, and ends in the cases given |
| `RelayProperties.TurnShutsDown` | `codes/apue/io-multiply-server/no_blocking_tcp_client.c:168-262` | After a turn the write side has been shut down exactly if it was before, or standard input has ended and the turn leaves nothing to send |
| `RelayProperties.CanDrain` | `codes/apue/io-multiply-server/no_blocking_tcp_client.c:104-293` | From every state of a running relay some run that the kernel permits connects, sends all of standard input and prints all that was received, and then the write side is shut down if standard input has ended |
| `RelayProperties.CanConnect` | `codes/apue/io-multiply-server/no_blocking_tcp_client.c:108-114` | Before the connection stands, a poll that reports its good outcome is permitted, and the turn connects |
| `RelayProperties.WhatFitsIsPermitted` | `codes/apue/io-multiply-server/no_blocking_tcp_client.c:106-143` | No answer is ruled out by the model if it reports events that the loop has a use for, reads at least one byte and at most the room left, and writes at most what is waiting by then |
| `TreeSurgery.TreeObject.LeftRotate` | `codes/algorithm/overflow_uint64.c:20-45` | The pointers afterwards represent the rotated tree: children, back-links and root, in any tree and at any node; without a right child nothing changes |
| `TreeSurgery.TreeObject.RightRotate` | `codes/algorithm/overflow_uint64.c:48-73` | The same for the mirror image |
| `TreeSurgery.TreeObject.RotateThereAndBack` | `codes/algorithm/overflow_uint64.c:20-73` | Left at a node and then right at the child that came up restores every pointer of every node |
| `ParentTree.RotationsKeepOrder` | `codes/algorithm/overflow_uint64.c:20-73` | Both rotations keep the in-order sequence of nodes, hence search-tree order |
| `ParentTree.RotationsInvert` | `codes/algorithm/overflow_uint64.c:20-73` | On trees: rotating back gives the original |
| `ParentTree.RotateLeftKeepsNodes` | `codes/algorithm/overflow_uint64.c:20-45` | The node set is kept and no node occurs twice |
| `ParentTree.RotateRightKeepsNodes` | `codes/algorithm/overflow_uint64.c:48-73` | The same for the right rotation |
| `ParentTree.RotateLeftLinks` | `codes/algorithm/overflow_uint64.c:25-44` | The three pointers of every node after the rotation, from those before: four nodes at most change |
| `ParentTree.RotateRightLinks` | `codes/algorithm/overflow_uint64.c:53-72` | The same for the right rotation, by mirror image |
| `ParentTree.Place` | `codes/algorithm/overflow_uint64.c:13-17` | In a tree every child's parent pointer leads back, every node but the root is one child of its parent, and depth grows by one |
| `TreeSurgery.TreeObject.SwapHeapNode` | `codes/algorithm/head_sort.c:56-92` | A parent and its direct child, left or right, at the root or below: the pointers afterwards represent the tree with the two exchanged, root pointer included |
| `TreeSurgery.TreeObject.SwapPointers` | `codes/algorithm/head_sort.c:60-91` | The assignments in their order, on the linked nodes: afterwards each node has the links of the node whose place it holds, with the two names exchanged |
| `ParentTree.ExchangeMovesOnlyTwo` | `codes/algorithm/head_sort.c:55-92` | Exchanging keeps the shape and every other node's position, and puts the two in each other's position of the in-order sequence |
| `ParentTree.ExchangeLinks` | `codes/algorithm/head_sort.c:65-91` | The links of every node in the exchanged tree |
| `ParentTree.ExchangeKeepsNodes` | `codes/algorithm/head_sort.c:60-63` | The same nodes are in the tree afterwards |
| `DirTree.WalksAgreeIff` | `codes/apue/timec/duclinkfd.c:66-73` | The list walk and the recursive walk give the same seven counters if and only if the list walk abandons nothing that would be counted; they do whenever each directory reached gives a stream |
| `DirTree.RecursionIsListAndAbandoned` | `codes/apue/timec/duclinkfd.c:58-140` | Each counter of the recursive walk is the list walk's plus what the directories left on the list would have given |
| `DirTree.WalksMayDiffer` | `codes/apue/timec/duclinkfd.c:66-73` | They can differ: a directory without a stream ends the whole list walk, and a file in the next is not counted |
| `DirTree.PathWalkAddsTwo` | `codes/apue/timec/duc.c:55-99` | Where every listing that can be read has its two dot entries, the walk by path gives the same counters, except two more directories for each directory it opens |
| `DirWalks.WalkDescriptors` | `codes/apue/timec/ducfd.c:53-108` | The recursive program: each of the seven counters grows by the number of entries of its type among those read, each opened subdirectory's right after its own; and by what `DirTree` counts |
| `DirWalks.WalkList` | `codes/apue/timec/duclinkfd.c:58-140` | The program over the growing linked list: each of the seven counters grows by the number of entries of its type in the listings read one after the other, up to one without a stream; and by what `DirTree` counts |
| `DirWalks.ReadListing` | `codes/apue/timec/duclinkfd.c:75-125` | One listing: each counter grows by the number of entries of its type, and the subdirectories that open are appended in order at the end of the list |
| `DirWalks.WalkPaths` | `codes/apue/timec/duc.c:34-101` | The program by path: the same for the entries it reads, with each dot entry counted as a directory; and by what `DirTree` counts |
| `DirReads.RecursionReads` | `codes/apue/timec/ducfd.c:53-108` | The recursive count of a kind is the count of that kind in the sequence of entries the walk reads |
| `DirReads.ListReads` | `codes/apue/timec/duclinkfd.c:58-140` | The same for the worklist |
| `DirReads.PathReads` | `codes/apue/timec/duc.c:34-101` | The same by path, dot entries included |
| `ConnectionProperties.ConnectionsAreOwned` | `codes/aco_httpd/main.c:89-104` | Over every run in which no unregistration is refused: no event leads to a freed record or an ended coroutine, every registration and every pending event belongs to a live connection, and an ended one has had its descriptor closed, address freed, coroutine destroyed and record freed exactly once |
| `ConnectionProperties.FaultIffRefused` | `codes/aco_httpd/unix_kqueue.c:63-74` | The next batch can lead to a freed record if and only if some unregistration has been refused |
| `ConnectionProperties.RefusedUnregistrationFaults` | `codes/aco_httpd/unix_kqueue.c:67-70` | The smallest such run: one client, its hang-up, a refusal, one more event |
| `ConnectionProperties.DanglingIff` | `codes/aco_httpd/main.c:97-102` | A run leaves a freed record registered exactly when it began with one or some unregistration in it was refused |
| `ConnectionProperties.StepKeepsInv` | `codes/aco_httpd/main.c:89-104` | Every poll, accept loop and event keeps the invariant on records, descriptors, registrations and the pending batch, and a record is freed while registered exactly when an unregistration is refused |
| `ConnectionProperties.AcceptAllKeepsInv` | `codes/aco_httpd/main.c:117-168` | An accept loop keeps it too, whichever of its calls fail, and leaves no freed record registered that was not before |
| `ConnectionProperties.AcceptAllTakes` | `codes/aco_httpd/main.c:117-168` | The accept loop takes every client before the first answer that is none, however many: each gets the next number, a live record with its descriptor, and a registration exactly when that was taken; no other record, descriptor or registration changes |
| `ConnectionProperties.AcceptableIff` | `codes/aco_httpd/main.c:117-125` | The answers an accept loop may get are exactly those whose descriptors are new and all different |
| `ConnectionProperties.ConnectedIsWatched` | `codes/aco_httpd/main.c:152-164` | A new connection is live under a number not used before, and events can reach it if and only if its registration was taken |
| `ConnectionProperties.UnwatchedIsNeverReleased` | `codes/aco_httpd/main.c:162-164` | A connection whose registration was refused is never resumed, closed or freed, in any run |
| `ConnectionProperties.ReleasableIffRegistered` | `codes/aco_httpd/main.c:95-102` | Some run closes, frees and destroys all that a live connection has if and only if the kernel holds its registration |
| `ConnectionProperties.AcceptedIsReleasableIff` | `codes/aco_httpd/main.c:162-164` | For a connection just accepted, that is if and only if its registration was taken |
| `ConnectionProperties.RefusedRegistrationStrands` | `codes/aco_httpd/main.c:162-164` | The smallest run that leaves one behind: a client whose registration is refused |
| `ConnectionServer.EventLoop.Turn` | `codes/aco_httpd/main.c:79-107` | One turn of the endless loop over records that the kernel's table points at: a poll, then each event of the batch in order, is a run of the machine |
| `ConnectionServer.EventLoop.HandleClient` | `codes/aco_httpd/main.c:96-102` | The event's record is resumed, and destroyed and freed if its coroutine ended; a record freed before is a fault |
| `ConnectionServer.EventLoop.HandleAccept` | `codes/aco_httpd/main.c:117-168` | The accept loop's effect on records, descriptors and registrations for any sequence of answers; every record it makes is new |
| `ConnectionServer.EventLoop.ClientRoutine` | `codes/aco_httpd/main.c:171-210` | From one resumption to the next yield or the end: if all answers up to an empty socket with a written reply are bytes or interruptions, nothing changes and the client stays; if they lead to the end of the stream, an error or a reply that fails, the coroutine has ended, and the descriptor is closed and unregistered, exactly when that is taken |
| `ConnectionProperties.EventDoes` | `codes/aco_httpd/main.c:171-210` | A live client's event, by the answers alone: bytes and interruptions up to an empty socket with a written reply leave the server as it was but for the event; up to an end, an error or a failed reply, this record ends with everything given up once, or with its descriptor kept when the unregistration is refused, and no other record changes |
| `ConnectionProperties.RepliesOrHangsUp` | `codes/aco_httpd/main.c:176-207` | Each resumption comes to exactly one of the two, decided by the first answer that is neither bytes nor an interruption |
| `ConnectionServer.EventLoop.PollDelete` | `codes/aco_httpd/unix_kqueue.c:63-74` | Refused, it gives nothing up and the descriptor stays registered and open; taken, the descriptor is neither registered nor open, this record is closed and its address freed once more, and every other record, descriptor and registration is as before |

## Left out

- The runtime on i386 and aarch64: registers and steps are x86_64 only, slots 0 to 7; the layout arithmetic covers all three architectures.
- Floating-point control state in `acosw.S`; on aarch64, line 143 stores it through the wrong record.
- Resume from a coroutine that is not the main one, share stacks used by several threads, destroying the running coroutine, and destroying a share stack.
- `mmap`, `mprotect`, the guard-page fault and failing allocation in the runtime: an allocation returns fresh memory at a base address; `p->arg` and valgrind hooks.
- AcoRuntime.Thread.Acosw: the `call` that enters it, which writes the return address below the caller's stack pointer, is part of the execution before it; for a coroutine that word lies in the bytes `CoRun` leaves below the stack pointer.
- SaveBuffer.ShortAlignedMemcpy: the nine cases of the switch are one loop over as many blocks, and a register is a sequence of 16 bytes.
- PoolSafety.NoLostWakeupKept: also allows that all workers have exited, which happens when an add locks the mutex after that; `ReachableIsSafe` says that the queue then holds nothing else, and `PoolLiveness.ReleaseDrains` that it does not happen in runs that keep the rule.
- A share stack without a guard page: its size is the clamped request.
- In the pool: failing `pthread_create` and `malloc`, `delivery_signal_to_thread`, and the use of freed memory by a call of `add_task` still on its way when the pool is freed; such a call only strands its task here. The number of `add_task` calls in a run is fixed but arbitrary, and tasks return.
- In the relay: the messages printed, the time-out's length and the socket's setup.
- `max_heapify` and `build_max_heap`: unfinished in the source; the recursion follows the node that has just moved up, and the comparison can be handed a null pointer.
- In the directory programs: the string handling of `duc.c`, entries that change during a walk, overflow of the counters, `malloc` failing in the list walk, and descriptors closed twice.
- In the server: failing `malloc` and the `sockaddr` and record that every accept loop leaks when it ends because nothing is waiting (lines 141 to 143); a socket that stays blocking because line 146 does not notice, whose reads may then wait. The coroutine switch itself is the subject of the runtime's modules.
- ConnectionProperties.FaultIffRefused: says nothing of what happens after the first event on a freed record; such a state is final in the model.
- `unix_epoll.c`, `parse_http.c`, the `select`, `poll` and kqueue servers, the C++ and Python examples and the posts: smaller bookkeeping or documents.
