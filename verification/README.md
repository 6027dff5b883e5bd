# XERIS protocols and image tools in Dafny

XERIS is a nanokernel. Secretariats call each other through dispatches, a scheduler takes the processor from one
dispatch and gives it to another, and transactions on shared accounts are optimistic: a dispatch that was overtaken
is rolled back when it is resumed. Host programs lay out and relocate the image that the target boots from. This
project models those mechanisms and proves what they promise, over every run, every schedule and every input. Where
the code does not keep a promise, a theorem says exactly when it does.

## The components

- **TX$ transactions** (`TxAccount`, `TxMachine`, `TxWitness`). The three critical sections of TX$ and XS$'s check are
  methods on the account and the transaction file. `TxMachine` interleaves two lanes over them: a transaction body is
  any sequence of small steps on the current ledger, the event slip and the lane's registers, and XS$ may preempt before
  each. Runs are serializable in commit order on three conditions: every commit adds one to `com`, fewer than 65536
  commits fall into any one suspension, and nobody enters while the sixteen-bit semaphore is full. `TxWitness` has, for
  each condition, a run from the start that keeps the other two and loses an update. The commit adds one to the register
  pair r23:r22. The comment at `OPSEC/tx/m/avr/m5.S:226-229` means that pair to hold `com`, but nothing reloads it after
  the executive returns, so the model takes whatever it holds.
- **The RDC helping queue** (`RdcQueues`, `RdcLedger`, `RdcProtocol`, `RdcActors`). `RdcLedger` has the double-buffered
  ledgers and the linked cards in place, with bodies of `txp` and `txe` that are cut short at any statement.
  `RdcProtocol` lets submitters and agents execute each other's cards in any interleaving; `RdcActors` takes the same
  steps on the ledgers in memory.
- **OS$ and XS$** (`Dispatches`, `Scheduler`, `Days`, `Commissions`, `Xs`, `XsLock`). The end-of-day accounting, the
  in-place sorting of four strands and their splicing into one schedule, the turns that schedule gives within a day, the
  phases of a dispatch over many days, the executor that fills in its dispatch file while days end around it, and the
  lock that is handed over across context switches: the control flow of `opsec_xs`, `opsec_xdm`, `checktx` and
  `new_exec`, with a timer that calls `opsec_xs` again at any point. OS$ marks as scheduled every dispatch but the first
  on its strand, so that one keeps its code for the day.
- **SIPLEX** (`IntMailbox`, `ShotQueues`, `Shots`, `SiplexPools`). The double-buffered interrupt mailbox, drained while
  interrupts keep posting, the shot queues as linked lists, and sabots passing between the pools and the executors;
  `SiplexPools` takes the same steps on the linked queues.
- **CDD$** (`Cdd`). Nested calls between secretariats whose desks may do anything: a tree of writes, calls and kicks.
- **Image tools** (`NibbleTrie`, `Packages`, `ImageFile`, `Layout`, `Manchain`, `Reloc`, `Cathex`). `NibbleTrie` is a
  trie of index blocks in an array of words, of any depth, with pointers in bytes or words and leaves of one size or of
  any. On it stand the register of secretariats in `ImageFile`, in one image with the partitions that each registration
  loads, and the message chain of `Manchain`. `Packages` says what a package's commissions make of each word of the
  image and of its header, and which are carried out; `ImageFile` changes one image in place over any sequence of
  registrations and is proved to do that and no more. `Reloc` follows a relocation through the packager and the
  simulator, and `Cathex` is the Intel HEX writer and reader of Intel's Hexadecimal Object File Format Specification.

`Basics` has the machine integers. State that the source changes in place is a class whose methods change it in place;
protocols whose steps interleave are state machines over values, and where both exist the methods are proved to take
the machine's steps.

## Where the code falls short of its promise

- `IdleSemaphoreIsLeakCount`, `EveryLeakCountIsReached`: a lane that is rolled back after the lane below it has
  committed leaves the semaphore one too high for good; with no transaction open it counts such rollbacks, up to any
  value.
- `StaleRegisterLosesUpdates`, `LongSuspensionLosesUpdates`, `FullSemaphoreLosesUpdates`: runs from the start that lose
  committed increments.
- `TxeRolledBack`, `TxeRetried`: `txe` marks the front card committed before TX$ has swapped the ledgers. A body that is
  rolled back behind its ninth and last statement, and only then, leaves the card unexecuted.
- `Refused`, `TxpThenRefused`: an early return of `txp` swaps in a ledger that was not copied. That does no harm exactly
  when both ledgers name the same ends, and so never right behind a `txp`, whose card is lost.
- `YieldsIff`, `DayEndsIff`: an eight-bit claim never exceeds a contract of 255, and a day of 65535 slots never ends.
- `PromotedInTime`, `MissedInWindow`: a sideline counter of 65535 wraps. With a deadline above the mark a dispatch has
  one only while its executor stands between writing that deadline and clearing the counter
  (`SIPLEX/STARLINE/AVR5/core/exec.c:157-163`); elsewhere `ReachablePromotedInTime` holds. The guard on the contract
  bump in `OPSEC/os/os_eod.c:85` compares an eight-bit contract with at least 0xff00 and so never fails; contracts wrap.
- `ClaimsLockUnlessIdle`: the comment at `OPSEC/xs/xs.c:111-113` leaves executors' claims alone; the code locks those of
  the emergency and the operational executor.
- `DryRunIff`: an executor's dry run for the client whose certificate is in force is taken for a transaction event.
- `DeskRestoredUnless`: the desk number of a call to secretariat 0 is saved at `OPSEC/cdd/cdd.c:261` after line 225 has
  replaced it, so it is not restored.
- `TextStacksIffEven`: an odd `.data` section is counted one word short, and the next allocation overlaps it.
- `TranslatesIffKept`: a relocation is right exactly when the packager loses nothing of the symbol and its addend. It
  drops negative addends, halves EXE values, and takes an OP symbol of zero for one at OP_MIN.
- `ModTranslatesIff`: of an address among the instructions that points into EXE, a positive addend arrives halved.
- `LooksAtThreeBits`: a jump or call is told by three bits of its first word, so other instructions are taken for one.
- `PutsByteIff`: an eight-bit relocation puts low bytes at even addresses and high bytes at odd ones, wherever it is.
- `RefusedStillLinks`: the test for a taken number at `xtools/atri8/sim.c:451` asks whether a function exists. A second
  package for FLATLINE or ATRIA is loaded and commissioned, takes over OPSEC's jump, and is refused after that.

## Model

| member | source | states |
|---|---|---|
| TxAccount.TxEnter | OPSEC/tx/m/avr/m5.S:126-165 | Entry raises the semaphore and records it and the commit count in the transaction file, in sixteen bits. |
| TxAccount.TxCommit | OPSEC/tx/m/avr/m5.S:192-269 | Commit lowers a non-zero semaphore, swaps the two ledgers, clears the mark, and clears the count or sets it from the registers. |
| TxAccount.TxRollback | OPSEC/tx/m/avr/m5.S:316-355 | Rollback puts the semaphore back to the recorded mark and takes the commit count as the new target. |
| TxAccount.CheckTx | OPSEC/xs/xs.c:160-172 | The resume check passes if and only if both count and semaphore are as recorded. |
| TxMachine.StepKeepsInv | OPSEC/tx/m/avr/m5.S:43-67 | Every guarded step keeps: two open lanes have neighbouring marks, only the later starter passes the check, and a lane not overtaken has done exactly its own work. |
| TxMachine.CommitsAreIsolated | OPSEC/tx/m/avr/m5.S:167-229 | At every commit of a guarded run the semaphore is the lane's mark and at least one, no other lane has started or committed since it (re)started, and the ledger published is its own body's work over the ledger then current. |
| TxMachine.RunKeepsSerialized | OPSEC/tx/m/avr/m5.S:167-262 | Over every guarded run the current ledger stays the serial outcome of the transactions committed so far. |
| TxMachine.GuardedRunsAreSerializable | OPSEC/tx/m/avr/m5.S:43-67 | Whatever the preemptions and rollbacks, the final ledger is that of the committed transactions executed one by one in commit order. |
| TxMachine.OverrunAcceptedIff | OPSEC/xs/xs.c:150-170 | The check accepts an overtaken lane exactly when the other lane was above it and is gone and the count is back at its target. |
| TxMachine.FreshLaneSurvives | OPSEC/xs/xs.c:150-170 | Resuming a lane that was not overtaken never rolls it back. |
| TxMachine.OverrunAcceptedIffFullTurn | OPSEC/tx/m/avr/m5.S:218-246 | With `com` reloaded, an overtaken lane is wrongly accepted exactly when the other lane has committed a multiple of 65536 times from above it. |
| TxMachine.ShortSuspensionsAreGuarded | OPSEC/tx/m/avr/m5.S:218-246 | Fewer than 65536 commits during any one suspension satisfy the guard on resumption. |
| TxMachine.ReloadedRunsAreSerializable | OPSEC/tx/m/avr/m5.S:218-262 | With `com` reloaded, short suspensions and no entry on a full semaphore every run is serializable. |
| TxMachine.FloorCountsLeaks | OPSEC/tx/m/avr/m5.S:334-350 | The value the semaphore returns to grows by one for each rollback of a lone lane that was above a committed one, and by nothing else. |
| TxMachine.IdleSemaphoreIsLeakCount | OPSEC/tx/m/avr/m5.S:200-216 | With no transaction open the semaphore is the number of such rollbacks, hence zero exactly when there was none. |
| TxWitness.EveryLeakCountIsReached | OPSEC/tx/m/avr/m5.S:334-350 | For every n up to 0xfffe a run that keeps all conditions ends with no transaction open, n leaking rollbacks and a semaphore of n. |
| TxWitness.StaleRegisterLosesUpdates | OPSEC/tx/m/avr/m5.S:226-246 | A run from the start in which r23:r22 holds 0xffff at one commit, all other conditions kept, ends with both of two committed increments lost. |
| TxWitness.LongSuspensionLosesUpdates | OPSEC/tx/m/avr/m5.S:218-246 | A run from the start with `com` reloaded and 65536 commits during one suspension loses two increments. |
| TxWitness.FullSemaphoreLosesUpdates | OPSEC/tx/m/avr/m5.S:130-146 | A run from the start fills the semaphore by leaks, enters once more, and loses two increments, although `com` is reloaded and suspensions are short. |
| RdcLedger.Rdc.constructor | f/rdc/ctl.c:108-127 | After initialisation every dispatch card is in the free queue, in order, and the transaction queue is empty. |
| RdcLedger.Rdc.Publish | OPSEC/tx/m/avr/m5.S:254-262 | The swap publishes the event ledger: its chains become the queues. |
| RdcLedger.PopDispatch | f/rdc/tx.c:165-180 | A pop hands over the first card of a queue, or none, and the remaining ends chain the rest. |
| RdcLedger.PushDispatch | f/rdc/tx.c:182-201 | A push chains the card behind the last; cut short, it leaves the queue of the unswapped ledger intact. |
| RdcLedger.ExecuteOn | f/rdc/tx.c:156-203 | Executing a card on a pair of queues has the effect of its operation on the one it names and leaves the other, and until then the pair it was copied from, as it was. |
| RdcLedger.Rdc.TxpBody | f/rdc/tx.c:91-114 | Cut short at any statement, the body leaves the current ledger's transaction queue as it was; completed, the event ledger has the card behind it. |
| RdcLedger.Rdc.Txp | f/rdc/tx.c:91-114 | A committed `txp` appends exactly its card and changes neither dispatch queue. |
| RdcLedger.Rdc.TxpRolledBack | f/rdc/tx.c:91-114 | A rolled back `txp` changes no queue. |
| RdcLedger.Rdc.TxeBody | f/rdc/tx.c:117-207 | Cut short at any statement, the current ledger reads as before although links and cards are shared; completed, the event ledger has the front card executed. |
| RdcLedger.Rdc.TxeFront | f/rdc/tx.c:154-206 | The front card's part of the body: it changes the event ledger alone, and marks the card by its last statement. |
| RdcLedger.Rdc.Txe | f/rdc/tx.c:117-207 | A committed `txe` removes the front transaction card, applies its push or pop to its queue and marks it, or does nothing on an empty queue. |
| RdcLedger.Rdc.TxeRolledBack | f/rdc/tx.c:117-207 | A rolled back `txe` changes no queue, and the front card keeps its order exactly unless all nine statements had been executed. |
| RdcLedger.Rdc.TxeRetried | f/rdc/tx.c:203-207 | Retried to its commit, it executes the front card once, or not at all exactly when the rollback came behind the ninth statement. |
| RdcLedger.Rdc.Refused | f/rdc/tx.c:40-86 | From any state, a `txp` that returns before it copies the ledger leaves the queues standing if and only if both ledgers name the same four pairs of ends. |
| RdcLedger.Rdc.TxpThenRefused | f/rdc/tx.c:40-86 | Behind a `txp`, whatever the queue, it takes the ledger back to before that `txp`, whose card is lost from it. |
| RdcProtocol.StepKeepsInv | f/rdc/sub.c:59-122 | The transaction queue holds exactly the cards of the waiting actors, each once, in the order of their commits. |
| RdcProtocol.RunsAreSequential | f/rdc/agt.c:58-157 | Whoever executes whose card, queues and results are those of executing the cards one by one in `txp` commit order. |
| RdcProtocol.StepConserves | f/rdc/agt.c:160-250 | No step loses or doubles a dispatch card among queues, shots and hands. |
| RdcProtocol.EveryCardInOnePlace | f/rdc/ctl.c:111-120 | In every run each dispatch card is in exactly one place. |
| RdcProtocol.PushesAreFresh | f/rdc/sub.c:103-122 | A card that is about to be pushed is in no queue, in no shot and in nobody else's hands. |
| RdcProtocol.SubmittedUntilFreed | f/rdc/sub.c:103-122 | In every run a dispatch card is in service exactly from when its submitter fills it in until an executive agent gives it back unconfirmed: then it is on its way into the dispatch queue, in it, with a lead agent, in a shot or with an executive agent, and never free; otherwise it is free, with a submitter or on its way back. |
| RdcProtocol.CardGoes | f/rdc/agt.c:129-219 | From each stage a step takes a card to the next alone: from free to a submitter, from a lead agent to a shot or back to the queue, from an executive agent to the dispatch queue if confirmed and to the free one if not. |
| RdcProtocol.OneStage | f/rdc/ctl.c:111-120 | A card is always at exactly one of these stages. |
| RdcProtocol.QueuesAreFifo | f/rdc/tx.c:117-207 | In every run both queues give their cards out in the order in which they had them and then got them. |
| RdcProtocol.KeyThroughEnds | f/rdc/sub.c:79-81 | A card at position p is committed and out of the queue after p + 1 executions by anyone, whatever is pushed behind it. |
| RdcProtocol.CommittedStays | f/rdc/agt.c:92-95 | A committed card stays committed until its owner leaves its loop. |
| RdcActors.Desk.constructor | f/rdc/ctl.c:108-127 | After initialisation the ledgers in memory match the machine's start. |
| RdcActors.Desk.Begin | f/rdc/sub.c:60-73 | Pushing a pop order in memory is the machine's step, and the machine's invariants hold after it. |
| RdcActors.Desk.Key | f/rdc/sub.c:79-81 | So is `txe`, by whoever keys through, on whoever's card is at the front. |
| RdcActors.Desk.PutBack | f/rdc/agt.c:129-151 | So is every push of a dispatch card, which its holder alone has: to the free queue if it is left unconfirmed, and else to the dispatch queue. |
| RdcActors.Desk.QuietStep | f/rdc/agt.c:104-127 | The other steps leave memory matching as it is. |
| RdcActors.Desk.PushIsHeld | f/rdc/sub.c:103-122 | That each dispatch card is in one place means in memory that one about to be pushed is in no queue and no other waiting card pushes it. |
| Dispatches.Dispatch.CloseDay | OPSEC/os/os_eod.c:40-120 | One dispatch at the end of a day: every accounting field by its branch, and no schedule link. |
| Dispatches.CloseDays | OPSEC/os/os_eod.c:31-122 | The walk closes the day of every dispatch of the binder exactly once and leaves the binder as it was. |
| Dispatches.StatusNamesStrand | OPSEC/os/os.c:91-96 | After it, every status at most DS_EXEC_IDLE names one of the four strands. |
| Scheduler.Insert | OPSEC/os/os.c:117-162 | Insertion in place keeps the strand linked and by falling priority, with the one dispatch added at the place its priority and the head's decide, ties included. |
| Scheduler.Sort | OPSEC/os/os.c:70-168 | After stage 1 each strand has exactly the dispatches whose codes name it, sorted, and all but the openers are marked scheduled. |
| Scheduler.Take | OPSEC/os/os.c:73-168 | One round of stage 1 puts the dispatch on the strand its code names and no other, and marks it unless it opened the strand. |
| Scheduler.Splice | OPSEC/os/os.c:172-194 | The splice loop ends, and links all strands in order from the first full one; it closes the last on itself exactly when it alone is full. |
| Scheduler.OpsecOs | OPSEC/os/os.c:30-211 | From any dispatches of which one is schedulable, the schedule has each schedulable one once, by their codes: expedite and the emergency executor first, then approach and the operational one, then promoted and the idle one, then slack, and by falling priority in each class; its links close on its head exactly when all is slack; and every one of them is marked scheduled but the first of its class in the binder. |
| Scheduler.ScheduleIsByClass | OPSEC/os/os.c:91-102 | The strands' numbers order the classes of codes as the schedule is to have them. |
| Scheduler.MarkByClass | OPSEC/os/os.c:104-168 | Which dispatches stage 1 marks, by the classes of the codes before them. |
| Scheduler.FlatIsSchedule | OPSEC/os/os.c:34-49 | Sorted strands laid end to end are the schedule that the codes call for. |
| Scheduler.SuccessorIsCyclic | OPSEC/xs/xs.c:125-130 | The rule "nx_sched, else sched" is the cyclic successor, also where the schedule is closed on its head. |
| Days.PhaseOfDay | OPSEC/os/os_eod.c:71-117 | The status, deadline, contract and claim that any day closes with, in closed form from the deadline at the start. |
| Days.ExpediteDays | OPSEC/os/os_eod.c:81-91 | Expedite is exactly the last min(deadline, dllimt) days. |
| Days.NeverBackwards | OPSEC/os/os_eod.c:71-117 | No day closes in an earlier phase than the one before. |
| Days.SidelineCountsWaits | OPSEC/os/os_eod.c:62-104 | After any days the sideline counter is, in sixteen bits, how many of them the dispatch waited behind others since it was last promoted, and its priority is what it was. |
| Days.ExecutorsKeepTheirs | OPSEC/os/os_eod.c:42-56 | Days take an executor's priority, and nothing else. |
| Days.PromotedInTime | OPSEC/os/os_eod.c:62-104 | A dispatch that keeps joining strands behind others is promoted within prothr days if and only if its sideline counter does not start at 65535 (or prothr is zero). |
| Commissions.StepKeepsInv | SIPLEX/STARLINE/AVR5/core/exec.c:156-176 | While its deadline is at or above the mark a dispatch has waited fewer than prothr days, unless its executor stands between the new deadline and the cleared counter. |
| Commissions.ReachablePromotedInTime | OPSEC/os/os_eod.c:62-104 | In every life of a lane, with days ending between any two statements of its executor, a dispatch not in that window is promoted within prothr days. |
| Commissions.FilledInIsReleased | SIPLEX/STARLINE/AVR5/core/exec.c:150-180 | A shot found and filled in runs with the priority and contract written, a full deadline and no days waited; its claim is left alone. |
| Commissions.MissedInWindow | SIPLEX/STARLINE/AVR5/core/exec.c:157-163 | A life that reaches the window with a full counter, and then waits prothr days without a promotion. |
| Xs.DayInClosedForm | OPSEC/xs/xs.c:100-131 | After any slots of a day, all claims and whose turn it is: dispatch i first has its contract and one slots, in order, then each has one in a fixed cycle; refused marshals count as no slot. |
| Xs.TimedStep | OPSEC/xs/xs.c:106-131 | One slot takes that closed form on by one, or by none where the next zone is not ready. |
| Xs.FullContractNeverYields | OPSEC/xs/xs.c:49-106 | A dispatch with a contract of 255 slots is never switched out that day. |
| Xs.YieldsIff | OPSEC/xs/xs.c:49-106 | Any other is, after finitely many ready slots. |
| Xs.UnlockedClaimsCount | OPSEC/xs/xs.c:49-106 | A claim that is not locked counts the slots of its dispatch in eight bits, and no others. |
| Xs.ClaimsLockUnlessIdle | OPSEC/xs/xs.c:106-119 | Every claim on the schedule is locked but the idle executor's. |
| Xs.DayEndsIff | OPSEC/xs/xs.c:50-58 | The n-th call of a day is the first to find its slots used up if and only if n is sslots + 1 and sslots is below 65535. |
| Xs.Opcon.SlotWithinDay | OPSEC/xs/xs.c:48-131 | A call within a day takes claims, tick and active dispatch on by exactly one slot and changes no term. |
| Xs.Opcon.Slots | OPSEC/xs/xs.c:48-131 | All calls of a day from its morning on, whatever zones are ready, leave claims and active dispatch as the abstract day has them, up to the call that ends it. |
| Xs.Opcon.SlotAtDayEnd | OPSEC/xs/xs.c:58-97 | A call at the end of a day charges the active dispatch, leaves every account as the end of day and the marking say, clears the head's claim, and starts the new schedule at its head unless the head's zone is not ready. |
| Xs.Opcon.DayStarts | OPSEC/xs/xs.c:77-86 | A new schedule without claims, started at its head, is the morning from which the closed form counts. |
| XsLock.StepKeepsInv | OPSEC/xs/xs.c:45-182 | With calls at any point of any call, and a free_xs that asks nobody: the lock is set exactly while one call of the running lane owes its release, those above it got no lock, and every lane switched out waits in opsec_xdm or new_exec. |
| XsLock.EveryTakeIsReleasedOnce | OPSEC/xs/xs.c:45-138 | Each take is followed by one release and nothing else: by the same lane, by its checktx before a rollback, or after one switch by the lane switched to, in its own old call, in checktx, or in new_exec. |
| XsLock.StepKeepsSeeds | SIPLEX/STARLINE/AVR5/m/mexec.S:52-76 | new_exec makes exactly the first release of every lane but the one cranked at boot. |
| XsLock.LockHasOneOwner | OPSEC/xs/m/avr/m5.S:41-108 | In every run the lock is set exactly between a take and its release, and the running lane alone is then inside a call that owes one. |
| XsLock.LockIsNeverLost | OPSEC/xdm/xdm.c:32-50 | While it is set, the code that runs releases it within a number of steps that its stack gives, across a switch, unless calls keep coming. |
| XsLock.StayingCall | OPSEC/xs/xs.c:94-172 | A call that stays releases the lock itself, unless there is a transaction that does not pass: then checktx does, and rolls the lane back. |
| XsLock.LeavingCall | OPSEC/xs/xs.c:100-138 | A call that yields is switched out exactly when the next zone is ready; with nothing to schedule it releases the lock at once. |
| IntMailbox.MailboxConserves | SIPLEX/STARLINE/AVR5/core/int.c:232-345 | For every interleaving, accepted messages are those delivered, then those left in the drained queue, then those in the queue in use; outside a drain the other queue is clear. |
| IntMailbox.DroppedIffFull | OPSEC/int/m/avr/m5.S:255-307 | A message to be queued is dropped exactly when the queue in use holds nine; the designated timer's is never queued. |
| IntMailbox.SignalledIff | OPSEC/int/m/avr/m5.S:262-284 | Over every run the preemption signal is set by message 1 of the interrupt that the low byte of the designated timer names, and by nothing else. |
| IntMailbox.AcceptedArePosted | OPSEC/int/m/avr/m5.S:255-307 | What is accepted over a run is some of the other messages posted, in their order. |
| IntMailbox.StepKeepsInv | SIPLEX/STARLINE/AVR5/core/int.c:240-340 | Every post and every step of the supervisor keeps both queues filled without gaps and the sequences balanced. |
| IntMailbox.Mailbox.PostMsg | OPSEC/int/m/avr/m5.S:241-290 | The posting code takes exactly the machine's step, in place. |
| IntMailbox.Mailbox.SwitchQueue | SIPLEX/STARLINE/AVR5/m/assist.S:410-442 | Switching the queue pointers is the machine's swap. |
| IntMailbox.Mailbox.constructor | SIPLEX/STARLINE/AVR5/core/int.c:62-73 | Initialisation clears both queues and puts the first in use. |
| IntMailbox.Mailbox.CheckQueue | SIPLEX/STARLINE/AVR5/core/int.c:269-273 | A queue whose first slot is empty has nothing pending anywhere. |
| IntMailbox.Mailbox.DeliverOne | SIPLEX/STARLINE/AVR5/core/int.c:323-340 | One message becomes a shot on the interrupt service queue and its slot is cleared. |
| IntMailbox.Mailbox.DrainQueue | SIPLEX/STARLINE/AVR5/core/int.c:283-340 | The drain loop, with interrupts before each message, delivers all of the drained queue in order and clears it. |
| IntMailbox.Mailbox.Supervise | SIPLEX/STARLINE/AVR5/core/int.c:232-345 | A call is a run of the machine, and delivers every message that was accepted before it. |
| ShotQueues.Queue.Pop | SIPLEX/STARLINE/AVR5/m/assist.S:164-237 | Takes the first sabot of a queue, or none, and keeps head and tail null together. |
| ShotQueues.Queue.Put | SIPLEX/STARLINE/AVR5/m/assist.S:248-298 | Links one sabot in behind all others. |
| ShotQueues.InitPools | SIPLEX/STARLINE/AVR5/core/init.c:256-292 | The loop links all sabots, with a free shot on each of the first, and cuts them into the magazine and the shells. |
| Shots.SabotsArePartitioned | SIPLEX/STARLINE/AVR5/core/exec.c:107-224 | In every run each sabot of the pool is in exactly one queue or hand, once, and nothing else is anywhere. |
| Shots.ShotsAreAsTheirPool | SIPLEX/STARLINE/AVR5/core/init.c:256-292 | In every run magazine shots are free, queued shots and those just fetched hot, shots in flight marked as fired, and no shot is on two sabots; each queue has only shots of the intent that it is for. |
| Shots.ExecutorNeverRecovers | SIPLEX/STARLINE/AVR5/core/exec.c:107-224 | The executor's branches for a shot that is not hot and for a private shot are never taken; a shot that has been fired goes back to its feeder, hot, if it is cyclic, and any other is freed and goes to the magazine. |
| Shots.LeasesFireAsIntended | SIPLEX/STARLINE/AVR5/core/exec.c:182-224 | Over every run a hot shot that is not cyclic is fired at most once before its sabot is drawn again, and not at all exactly while it is still hot; a cyclic one is never freed. |
| Shots.DrawnForItsQueue | SIPLEX/STARLINE/AVR5/core/route.c:27-51 | A lease is refused exactly if there is no queue for its intent, and else is drawn for that queue; an interrupt's shot is for the interrupt queue. |
| Shots.PoolsAreFifo | SIPLEX/STARLINE/AVR5/m/assist.S:164-298 | Over every run each pool gives its sabots out in the order in which it had them and then got them. |
| Shots.StepKeepsInv | SIPLEX/STARLINE/AVR5/desks/subdesk.c:94-160 | Leases, interrupt shots and executor steps keep every shot as its place demands. |
| SiplexPools.Siplex.Draw | SIPLEX/STARLINE/AVR5/desks/subdesk.c:94-145 | A lease in place is refused or takes a sabot from the magazine exactly as the machine does. |
| SiplexPools.Siplex.Prime | SIPLEX/STARLINE/AVR5/desks/subdesk.c:150-154 | Priming in place is the machine's step: the shot is hot, with the intent that was asked for. |
| SiplexPools.Siplex.Feed | SIPLEX/STARLINE/AVR5/core/exec.c:107-114 | Looking into a feeder in place is the machine's step. |
| SiplexPools.Siplex.Fire | SIPLEX/STARLINE/AVR5/core/exec.c:116-180 | So is judging a shot, which fires exactly the hot ones. |
| SiplexPools.Siplex.Land | SIPLEX/STARLINE/AVR5/core/exec.c:182-223 | So is what becomes of it afterwards, and where it goes. |
| SiplexPools.Siplex.PutBack | SIPLEX/STARLINE/AVR5/m/assist.S:248-298 | Putting a sabot back relinks its queue and leaves every other pool in memory as the machine has it. |
| Cdd.CallContinues | OPSEC/cdd/cdd.c:36-409 | For every finite tree of calls, whatever the desks do, a call that returns has restored the certificate in force, and all that ran was cleared, stamped by its immediate caller, and under its own certificate. |
| Cdd.RunContinues | OPSEC/cdd/cdd.c:380-385 | So does the rest of any desk's code. |
| Cdd.DeskRuns | OPSEC/cdd/cdd.c:364-407 | The log of a desk's work is exactly what the work asks for, in order to its end or the dispatch's: every call is made, and the secretariat that it returns is called unless in an event. |
| Cdd.CallRuns | OPSEC/cdd/cdd.c:208-407 | A call leaves the log of the desk it reaches, of its own event, or nothing, by conditions on the certificates and the case file alone; the desk finds what was sent, under its caller's stamp. |
| Cdd.StoppedTellsWhy | OPSEC/cdd/cdd.c:60-146 | A call that a first check stops says which, and changes nothing else; only excursion ends the dispatch. |
| Cdd.RefusedTellsWhy | OPSEC/cdd/cdd.c:160-345 | A call refused later says why: no account, no telemetry commissioner, ATRIA's answer, or no clearance. |
| Cdd.ReturnedAsSent | OPSEC/cdd/cdd.c:186-407 | After a call the desk number is as it went out, and the commissioner's stamp is gone. |
| Cdd.DryRunLoads | OPSEC/cdd/cdd.c:243-300 | A dry run loads the client's certificate, if it has one, and calls nobody. |
| Cdd.EntersIffCleared | OPSEC/cdd/cdd.c:326-362 | A desk is entered if and only if the call is for a certified secretariat whose upstream level the caller has, or brings telemetry to the commissioner. |
| Cdd.ReportsReachTelcom | OPSEC/cdd/cdd.c:208-241 | A report sent to secretariat 0 is converted and always gets through to a certified commissioner. |
| Cdd.DeskRestoredUnless | OPSEC/cdd/cdd.c:225-261 | The caller's desk number is back after every call that passes the first checks, except one to secretariat 0 that gets as far as the register. |
| Cdd.DryRunIff | OPSEC/cdd/cdd.c:147-155 | An executor's call is a dry run unless it names the certificate in force. |
| Cdd.Super.OpsecCdd | OPSEC/cdd/cdd.c:36-409 | The call in place, with its certificate copies pushed and popped around recursive calls, leaves exactly the state that the reference definition gives. |
| Cdd.Super.OwnEvent | OPSEC/cdd/cdd.c:149-190 | So does a call to oneself, run as a transaction event. |
| Cdd.Super.Transfer | OPSEC/cdd/cdd.c:208-362 | So does a call to another secretariat, with every refusal. |
| Cdd.Super.Execute | OPSEC/cdd/cdd.c:364-407 | The desk sees the stamp of its immediate caller; afterwards certificate and desk number are back, and the stamp is wiped towards the commissioner. |
| Cdd.Super.Desk | OPSEC/cdd/cdd.c:380-385 | A desk's code has been executed in place to its end, with all the calls that `DeskRuns` says it makes. |
| ImageFile.Image.Session | xtools/atri8/sim.c:439-466 | Over any sequence of registrations behind OPSEC's, successful or not: exactly those jobs are accepted whose number nobody had, whose sizes fit and whose commissions all apply; the header and every earlier word but an empty index are what the commissions carried out make of them; no record is lost; each accepted job has its record, its partitions, its .data and every word of its text in place at the end. Accepted packages lie behind all that was there and in order, in the image and in operational memory, and register and table stay where they are. Every interrupt has the last handler asked for. |
| ImageFile.Image.AllApart | xtools/atri8/sim.c:1000-1132 | No word of the image belongs to two texts, overlays, the trap, the interrupt service table, index blocks or records, and no byte within OP_MIN and OP_MAX to two partitions. |
| ImageFile.Image.Registration | xtools/atri8/sim.c:1190-1568 | So for one package, the first included: when it is accepted, how many commissions are carried out, and what becomes of header, words, register, spans and partitions. OPSEC's, if it declares its two jumps, leaves an image that all others can follow. Behind it all interrupts link to the trap. |
| ImageFile.Image.Pull | xtools/atri8/sim.c:1164-1187 | Walking the index blocks answers what the register has for a number, or that it has none. |
| ImageFile.Image.IndicesHoldAddresses | xtools/atri8/sim.c:1060-1127 | An index of the register is the byte address of its node, or zero. |
| ImageFile.Image.Register | xtools/atri8/sim.c:987-1162 | A fresh number gets exactly its record and no other answer changes; a registered one is refused and no word changes; a bad interrupt number is reported after the record is in. New nodes lie behind the image, which grows by exactly the words they need; earlier words change only where an index was empty, or in slots. |
| ImageFile.Image.InitRegister | xtools/atri8/sim.c:1000-1053 | The first registration sets up an empty register, and a service table all of whose slots link to the trap. |
| ImageFile.Image.StoreSisr | xtools/atri8/sim.c:1139-1158 | Storing an interrupt entry changes its five bytes and no other, and no answer of the register. |
| ImageFile.Image.Load | xtools/atri8/sim.c:1292-1516 | A package is loaded exactly when its overlays and partitions fit; they then lie apart from all placed before, and the image stays so if and only if .data is even; a failed load takes no image words, and no load changes an answer of the register. |
| ImageFile.Image.PlaceBoth | xtools/atri8/sim.c:1386-1520 | .data and .bss are placed one behind the other, exactly when they end in time. |
| ImageFile.Image.Commit | xtools/atri8/sim.c:1573-1690 | A commission is carried out or refused by the word at its endpoint, and then makes of every word of the image and of the header what is defined for it, and nothing else; no answer of the register changes. |
| ImageFile.Image.CommitAll | xtools/atri8/sim.c:1521-1548 | A package's commissions are carried out in order up to the first that is refused, and that is what has become of every word and of the header. |
| ImageFile.Image.PatchMod | xtools/atri8/sim.c:1806-1925 | A relocated word, or half of one, is patched in place, or refused without a partition, and the image stays whole. |
| ImageFile.Image.LinkAddress | xtools/atri8/sim.c:2555-2593 | Two instructions of ATRIA's text get the byte address of the register or of the table. |
| ImageFile.SessionRelocates | xtools/atri8/sim.c:1573-1690 | At the end of a session every relocation of every accepted package, unless another commission patches its words, is the moved address exactly when the packager has kept all of it; and instructions linked to the register or the table load the addresses these then have. |
| ImageFile.HandlersStand | xtools/atri8/sim.c:2434-2485 | After a session each interrupt has the last handler that one asked for: in its entry the flags 0x7f, where the handler then lies, and the office; an interrupt that none asked for has what it had. |
| ImageFile.TrapsAreSet | xtools/atri8/sim.c:1035-1041 | Before that every entry has the trap for its handler, and no flags and no office. |
| Packages.AcceptedAre | xtools/atri8/sim.c:1573-2460 | Which commissions are carried out, by the instruction at their endpoint, the partition of their symbol, and the number of the package. |
| ImageFile.RefusedStillLinks | xtools/atri8/sim.c:449-460 | A package for FLATLINE or ATRIA whose last commission is its desk takes over OPSEC's jump, even if its number is taken. |
| Packages.WordElsewhere | xtools/atri8/sim.c:1573-1700 | Commissions change no word outside the package's own text, OPSEC's two jumps and the service table. |
| Packages.OpenThrough | xtools/atri8/sim.c:2507-2551 | What later registrations may write grows by the jumps that a package declares in its own text, and by nothing else. |
| Packages.SameThrough | xtools/atri8/sim.c:1573-1700 | What commissions make of a package's own words does not depend on what was linked in the image before. |
| Packages.OneTouches | xtools/atri8/sim.c:1573-1700 | A word that one commission alone patches ends up as that one makes it. |
| ImageFile.Image.LinkJump | xtools/atri8/sim.c:2351-2408 | Linking FLATLINE or ATRIA gives OPSEC's jump their dispatch desk as its target and keeps its operation. |
| ImageFile.PackageStays | xtools/atri8/sim.c:1060-1127 | What changes only at empty indices, OPSEC's jumps and the table keeps every package's text, data and partitions, but for jumps that a core package declares in its own text. |
| NibbleTrie.FilledOn | xtools/atri8/sim.c:1060-1127 | Changes confined to empty indices and slots stay confined over successive registrations. |
| NibbleTrie.Follow | xtools/atri8/sim.c:1173-1181 | Along a path, a zero index means nothing is registered below, any other leads to the next node. |
| NibbleTrie.GrowKeepsTrie | xtools/atri8/sim.c:1060-1127 | A block or leaf put behind all words in use and linked keeps all nodes apart and linked by path. |
| NibbleTrie.GrowAddsEntry | xtools/atri8/sim.c:1118-1128 | It adds no entry but its own and changes none. |
| NibbleTrie.OutsideTrie | xtools/atri8/sim.c:1292-1297 | Words changed outside all nodes change neither the trie nor what it says. |
| Layout.TextStacksIffEven | xtools/atri8/sim.c:1430-1443 | Text and overlay stay below what is counted for them if and only if .data has an even number of bytes. |
| Layout.PartitionsAdjoin | xtools/atri8/sim.c:1386-1520 | .data comes first and .bss right behind it, each with one byte more than its extent. |
| Layout.TextAdjoins | xtools/atri8/sim.c:1292-1384 | The overlay comes right behind the text, with a word for every two bytes of .data. |
| Layout.StackedIsDisjoint | xtools/atri8/sim.c:439-466 | Spans placed one behind the other share no address. |
| Reloc.RelocationTranslates | xtools/atri8/pack.c:1941-2072 | A patched pair of instructions loads the symbol and addend moved with their partition, or their two's complement, modulo 2^16. |
| Reloc.TranslatesIffKept | xtools/atri8/pack.c:1996-2072 | It does so if and only if the packager keeps all: for every symbol and addend, each partition and all six forms, by a condition on their parity and sign. |
| Reloc.NegativeAddendIsDropped | xtools/atri8/pack.c:2054-2072 | A negative addend is dropped: the pair loads the symbol alone. |
| Reloc.ZeroSymbolIsAtOpMin | xtools/atri8/pack.c:2006-2020 | An operational symbol of value zero is taken for one at OP_MIN. |
| Reloc.OnlyImmediateChanges | xtools/atri8/sim.c:2195-2198 | Patching replaces the immediate and keeps operation and register. |
| Reloc.PatchImmediate | xtools/atri8/sim.c:1928-2202 | The patch in place: which instructions are taken, and that the sixteen-bit steps yield the half of the moved address. |
| Reloc.ImmediatesAre | xtools/atri8/sim.c:1942-1971 | An immediate is patched in ANDI, CPI, LDI, ORI, SBCI and SUBI instructions, in all of them and no others. |
| Reloc.EncodedIs | xtools/atri8/sim.c:2195-2198 | It is the immediate of the instruction that is read and replaced, and its register stays. |
| Reloc.JumpsAre | xtools/atri8/sim.c:2212-2215 | Every JMP and CALL is taken for one, its 22-bit target is read whole, and another takes its place. |
| Reloc.PatchJump | xtools/atri8/sim.c:2204-2322 | A jump or call in EXE without an annex gets the 22-bit target moved by the EXE offset and keeps its operation; all else is refused. It then reaches its symbol and addend exactly when halving the one and dropping the other loses nothing of 23 bits. |
| Reloc.OnlyTargetChanges | xtools/atri8/sim.c:2302-2318 | The target's high bits are spread over the first word without touching the operation. |
| Reloc.PatchMod | xtools/atri8/sim.c:1806-1925 | An address among the instructions is patched in place, whole or by its low or high byte, in sixteen-bit steps, and refused without a partition. |
| Reloc.ModTranslatesIff | xtools/atri8/pack.c:2054-2072 | It is the moved address if and only if the packager keeps all, where in EXE a positive addend is kept by half. |
| Reloc.PutsByteIff | xtools/atri8/sim.c:1902-1916 | An eight-bit relocation changes its byte, to the half it names, and no other, exactly when low bytes are at even addresses and high bytes at odd ones. |
| Cathex.WriteHex | xtools/cathex/cathex.c:252-303 | Prints memory as data records of sixteen bytes, the last of what remains, and an end record. |
| Cathex.KnownRecord | xtools/cathex/cathex.c:266-298 | Three data bytes as a record, character by character. |
| Cathex.RecordsSumToZero | xtools/cathex/cathex.c:271-297 | The bytes of every record, checksum included, sum to zero modulo 256. |
| Cathex.LoadHex | xtools/cathex/cathex.c:84-249 | A printed file brings back bytes 0 to its extent, returns the extent, finds every checksum good and touches nothing else. |
| Cathex.LoadData | xtools/cathex/cathex.c:156-215 | Data bytes and checksum of a record: bytes go to consecutive addresses and no others, and the checksum of a printed record is found good. |
| Cathex.LoadLine | xtools/cathex/cathex.c:107-240 | A printed data record puts its data in place and has a good checksum; the end record ends the file. |
| Cathex.ScanHex4 | xtools/cathex/cathex.c:132-166 | Scanning undoes printing for addresses, whole and by halves. |
| Manchain.Chain.AddNew | xtools/manchain/manchain.c:111-220 | A string under indices that have none is put in with its ^n and ^l expanded and is what lookup then shows; indices that have one keep it; no other answer changes, and earlier words change only where an index was empty. |
| Manchain.Chain.Lookup | xtools/manchain/manchain.c:222-291 | Walking the blocks and copying out bytes up to the closing zero, 120 at most, shows what was put in. |
| Manchain.Chain.AllApart | xtools/manchain/manchain.c:173-212 | Index blocks and strings share no word and lie below the counter in the first word. |
| Manchain.Chain.constructor | xtools/manchain/manchain.c:66-71 | A new file has an empty first block and no strings. |
| Manchain.Expand | xtools/manchain/manchain.c:128-150 | The scan in place is the recursive definition of the expansion. |
| Manchain.TextReadsBack | xtools/manchain/manchain.c:202-208 | A text packed two bytes to a word with its closing zero, or cut off behind 1024 bytes, reads back from any of its bytes on. |
| Manchain.ScanShowsPieces | xtools/manchain/manchain.c:128-150 | In any text exactly the escapes are replaced: ^n by a carriage return and a line feed, ^l by two line feeds. |
| Manchain.EveryTextHasPieces | xtools/manchain/manchain.c:128-150 | Every text is made of such pieces. |
| Manchain.WholeLineIsShown | xtools/manchain/manchain.c:111-220 | Of a line that is kept whole its display is shown, up to 120 bytes. |
| Manchain.Chain.PathSpells | xtools/manchain/manchain.c:151-172 | The path of a string spells its indices, the first before the second. |

## Left out

- More than two lanes on one account: the target has two, and with three the clearing of `com` at a semaphore of zero
  lets a stale lane pass.
- The stack frame of a transaction between the executive's return and the commit's critical section, and all other
  register and stack detail.
- Interleavings inside a helper's `txe` body between marking a card and the swap: `RdcLedger.Rdc.TxeRolledBack` shows
  what a rollback there does, `RdcProtocol` takes each committed `txp` and `txe` as one step.
- The case files that travel with dispatch cards through the RDC queues.
- opsec_os with no schedulable dispatch: its splice loop would index past the strands.
- OpsecOs: the heads and tails of the strands, local arrays in the source, are sequences that are replaced.
- checktx inside XS$ calls: `TxMachine` models it; the slots of `Xs` do not call it.
- XsLock.StepKeepsInv: what a call computes on its way is any choice of branches here, and is in `Xs` itself.
- The executor's search along its feeders and its idle loop, the dispatch file it fills in, and the case file it clears.
- shotpriv: the route it needs is never granted.
- The reset branch of the interrupt supervisor for a queue end that is neither of the two; the model has only the two.
- Interrupt nesting, the kill mask, and the interrupt service routines themselves.
- Cdd.Super.OpsecCdd: zone checks are inputs of each call, soft preemption is left out, a rolled back event counts as
  its last attempt, and a dry run for which ATRIA has no certificate leaves the one in force.
- sim_pull_srf before the first registration, which reads the words at address zero as an index block.
- ImageFile.Image.Register: requires that the words it needs fit the image and the record's pointer sixteen bits; the
  source tests neither.
- ImageFile.Image.Commit: requires endpoints within the package's text, an interrupt number within the table and a
  jump into EXE that is not negative; the source does not test them.
- ImageFile.Image.Session: requires that every .data section is even, see `Layout.TextStacksIffEven`, and room for all
  of the jobs.
- The fields of a registration file that commissions fill in: the record is an input of the registration.
- The tickets and tags by which packager and simulator talk, and the transfer of overlays board by board.
- sscanf on text with white space, signs or a 0x prefix, and bytes that a file puts beyond the memory map.
- A file of manchain used with one index and with two; what printf reads behind a full buffer of 120 bytes; and a file
  that is full, for which `Manchain.Chain.AddNew` requires room.
- The claim in `Commissions`: no day's end depends on it.
- l/track, f/man, FLATLINE, drivers and copy helpers: input and output, or copies of one line.
