# libvm: protocols and algorithms above the OS calls

libvm is an operating-system portability layer. Most of it forwards to the OS; this project
models the parts that have protocols and algorithms of their own, and proves what they keep.
The OS below them is a small abstract state: open handles, a byte sequence with a position,
who holds a mutex, which waiters sleep on a condition.

| file | models |
|---|---|
| `Runs.dfy`, `Census.dfy` | schedules of a step function and their invariants; counting clients by program point |
| `Conditions.dfy` | where threads stand around a mutex with a condition variable |
| `Event.dfy` | the condition-variable event of `src/vm_event_linux32.c` |
| `Semaphore.dfy` | the condition-variable semaphore of `src/vm_semaphore_linux32.c` |
| `ThreadWin32.dfy` | the shared thread handle of `src/vm_thread_win32.c` |
| `ThreadLinux.dfy` | the thread of `src/vm_thread_linux32.c`, composed with the event of `Event.dfy` |
| `TempFiles.dfy` | the registry of temporary files in `src/vm_file_win32.c` |
| `CStrings.dfy` | C strings in character buffers |
| `Lines.dfy`, `NewLines.dfy`, `Tokens.dfy` | what reading lines, translating newlines and splitting into tokens should do |
| `TextFile.dfy` | the buffered readers and writers of `src/vm_file_win32.c` against those specifications |
| `Channels.dfy` | the channel table of `src/vm_socket_linux32.c` |
| `ReadySet.dfy` | `vm_socket_select` and `vm_socket_next` |
| `ManySockets.dfy` | many socket handles over one system |
| `FileName.dfy` | building and splitting file names in `src/vm_file.c` |

`dafny verify dfyconfig.toml` checks the project.

## How it is built

The four synchronisation modules are state machines. A state holds the fields of the C
structure, a program counter for every client, and counters of what has happened; a step is
what one thread does between two points where another may run. Mutexes need no state of their
own where a critical section is one step. A waiter on a condition is blocked, woken (or out of
time) but not yet back in the mutex, or running again, so a newcomer may take the mutex before
a woken waiter. Roles say which client may call what, and whether the platform wakes threads
unasked (`spurious`); a timeout is a step that may happen at any time. Every sequence of
actions is a schedule, because an action that is not possible leaves the state as it is; the
theorems are about all sequences and any number of clients. Several of them say what the last
action of some kind decides (`Runs.LastWordDecides`), for the state of an event, for what a
wait returns, and for the channels of a socket. A class mirrors each C structure,
and every method of it is proved to take exactly one step of the machine, so that the theorems
are about the code.

The registry is a heap of entries with `next` and `prev`, owned by a `Registry` whose ghost
sequences say what the list is; the theorems about histories say what the list means. The
readers, the translation and the file names are methods with the loops of the source, working
on arrays, proved against functions on sequences; the theorems are about those functions. The
socket table follows the same plan with a run-level theorem on top.

Several plausible claims are false of the code. For each there is a lemma with a concrete
schedule or input, and one with `Iff` in its name, or an exact bound, that says when the claim
holds:

- one signal can release two waiters (`SignalRound`, `OneOkPerSignalIff`), though not three unless
  threads are woken unasked (`OksBoundedIff`);
- a timed wait can swallow a signal (`TimedWaitSwallowsSignal`, `NeverSwallowsIff`);
- a semaphore's count can fall below 0, after which it is dead for good
  (`CountFallsThatFar`, `SemaphoreCanDie`, `NeverNegativeIff`), and it can lose a wake-up
  (`NoLostWakeUpIff`);
- on Linux a thread can be joined once per client, and a wait for it can return early
  (`EverybodyJoins`, `JoinedOnceIffOneClient`, `ReturnsTooEarly`, `WaitReturnsOnlyAfterExitIff`);
- asking on Linux whether a thread is valid can block until it ends (`ProbeWokenUnasked`,
  `IsValidNeverWaitsIff`);
- the text of a last line without a newline is a C string only by luck
  (`LastLineIsNotString`, `LastLineIsStringIff`);
- a comma hides the rest of its line from the token reader (`CommaHidesToken`,
  `TokensAreWordsIff`);
- of a file that was new or longer than now when it was opened, the size recorded then is wrong:
  the token reader stops early (`NewFileHidesToken`, `AllTokensFoundIff`) or goes on for ever
  (`RoundAtEnd`, `SearchEndsIff`, `ReadingEndsIff`), and the last line can be stored with NULL
  returned (`LastFails`, `NoReadFailsIff`);
- a token longer than the buffer loses a character (`LongTokenLosesCharacter`,
  `TokenIsKeptIff`);
- a descriptor in two slots is reported for one of them only
  (`SharedDescriptorIsReportedOnce`, `DrainIsReadyIff`), and the ACCEPT mask can bring about
  READ reports (`TalkerIsReported`, `OnlyAskedIff`); no run leads to the former as long as the
  system hands out no open descriptor (`NoDescriptorTwice`);
- a file name loses its dot or its suffix for some buffer sizes (`DotIsLost`, `SuffixIsLost`,
  `MadeIsJoinedIff`);
- making a file name can write beyond the nchars slots it is told of (`PathWritesOneMore`,
  `SuffixWritesAnyNumber`, `WritesStayInIff`), and so can taking one apart
  (`SplittersWriteOneMore`, `SplittersStayInIff`);
- "a/b" has no path, "a.c" no suffix, and "a.b/c" a base name of negative length (`ShortNames`,
  `PathIsFrontIff`, `SuffixIsEndIff`, `DotInFrontOfSlash`, `CountedIsNegativeIff`).

The documentation of `vm_file_getsuffix` (`src/vm_file.c:73-74`) promises the suffix after the
last dot; the code does not deliver it when the dot is at index 0 or 1, and the model follows
the code. The comment above `vm_event_timed_wait` (`src/vm_event_linux32.c:157`) says that it
does not block; it does, and the model follows the code.

## Model

| member | source | states |
|---|---|---|
| `Event.ManualHighMeansNobodyBlocked` | src/vm_event_linux32.c:57-200 | over every schedule of signal, reset, pulse, wait and timed_wait, whoever may do what and with or without spurious wake-ups, a manual-reset event that is high has no waiter on its condition |
| `Event.NewlyBlockedOnlyWhenLow` | src/vm_event_linux32.c:140-146 | the only step that puts a client on the condition reads 0 under the mutex; a manual 0-to-1 step leaves nobody on it |
| `Event.AutoHighWithSleeperHasResetter` | src/vm_event_linux32.c:57-200 | over every schedule, an auto-reset event that is high in front of a sleeping waiter has a waiter in flight whose next step with the mutex resets it |
| `Event.AutoOksAreBounded` | src/vm_event_linux32.c:65-81 | without spurious wake-ups the waits that return OK number at most twice the 0-to-1 signals plus the pulses plus one for an event created high |
| `Event.AutoOkBoundIsAttained` | src/vm_event_linux32.c:144-151 | that bound is exact: for every number of signals and pulses and either initial state there is a schedule that attains it, since the wait tests the state with an if |
| `Event.OksBoundedIff` | src/vm_event_linux32.c:65-151 | over all schedules that bound holds exactly if the platform does not wake threads unasked or nobody waits |
| `Event.HighIffSignalledLast` | src/vm_event_linux32.c:57-200 | over every schedule an event is high exactly if the last operation to have its say was a signal, or none had it and the event was created high: resets and pulses leave it low, waits on an auto-reset event as well, whatever they return, and waits on a manual-reset event have no say |
| `Event.NobodyPassesAfterReset` | src/vm_event_linux32.c:85-132 | after a reset or a pulse with no signal since, every wait that takes the mutex goes to sleep, in every schedule and for both kinds |
| `Event.NotifyWakes` | src/vm_event_linux32.c:65-78 | a pulse, or a signal that finds the event low, leaves nobody asleep on a manual-reset event and one client fewer on an auto-reset event |
| `Event.SleepersAreReleased` | src/vm_event_linux32.c:108-132 | so it lets every sleeping wait of a manual-reset event return OK, and one of an auto-reset event, whatever happens before they get the mutex |
| `Event.WokenReturnsOk` | src/vm_event_linux32.c:144-150 | a wait that has been woken returns OK when it gets the mutex, whatever has become of the event |
| `Event.ReturnsOkIff` | src/vm_event_linux32.c:135-200 | for manual-reset and auto-reset events without spurious wake-ups: over every schedule a wait returns OK exactly if it found the event high, or a signal or pulse has woken it and this is the first time since that it gets the mutex |
| `Event.FailsIff` | src/vm_event_linux32.c:158-200 | over every schedule a wait returns anything else exactly if just that ended its sleep and this is the first time since that it gets the mutex |
| `Event.SleepsIff` | src/vm_event_linux32.c:144-145 | a client goes to sleep exactly if its wait finds the event low, and with a time limit exactly if it asked for one |
| `Event.OnlyWaitsFail` | src/vm_event_linux32.c:57-132 | no call is ever refused, and signals, resets and pulses return OK |
| `Event.CountsAreObserved` | src/vm_event_linux32.c:57-200 | the counts in these theorems are those of somebody who watches the clients and the flag |
| `Event.OnlySleepersWait` | src/vm_event_linux32.c:57-200 | only sleep without a time limit keeps a client inside a call from going on |
| `Event.SignalRound` | src/vm_event_linux32.c:144-148 | one signal releases two waiters when a newcomer takes the mutex before the woken one |
| `Event.OneOkPerSignalIff` | src/vm_event_linux32.c:144-148 | over all schedules each setting of an auto-reset event and each pulse lets at most one wait return OK, exactly unless two clients may wait and one may signal, or a client may wait and the platform wakes threads unasked |
| `Event.NobodyOvertakes` | src/vm_event_linux32.c:140-151 | the safe half: with one waiter, or nobody who signals, no wait overtakes a woken one |
| `Event.Overtake` | src/vm_event_linux32.c:144-148 | the other half: for all other roles a schedule with more OK waits than settings and pulses |
| `Event.NeverSwallowsIff` | src/vm_event_linux32.c:180-194 | over all schedules every setting of an auto-reset event is still there, or was taken by a wait that returned OK, or cleared by a reset or a pulse, exactly if nobody may signal while another client may wait with a time limit |
| `Event.AutoSignalsAreAccountedFor` | src/vm_event_linux32.c:57-200 | whoever may do what, the only other way for a setting to go is a timed wait that did not return OK |
| `Event.TimedWaitSwallowsSignal` | src/vm_event_linux32.c:180-194 | a timed wait whose time is up clears a later signal and returns TIMEOUT: the signal reaches nobody |
| `Event.VmEvent.constructor` | src/vm_event_linux32.c:41-54 | the state is 1 for any nonzero argument |
| `Event.VmEvent.Enter` | src/vm_event_linux32.c:140-142 | entering a call before the mutex is taken takes exactly the Call step |
| `Event.VmEvent.NotifyCond` | src/vm_event_linux32.c:71-74 | broadcast for manual-reset, at most one waiter for auto-reset |
| `Event.VmEvent.SignalLocked` | src/vm_event_linux32.c:65-78 | the locked part of signal takes exactly the Lock step: notify only on 0-to-1 |
| `Event.VmEvent.ResetLocked` | src/vm_event_linux32.c:91-101 | the locked part of reset takes exactly the Lock step |
| `Event.VmEvent.PulseLocked` | src/vm_event_linux32.c:114-127 | the locked part of pulse takes exactly the Lock step: notify whatever the state, end low |
| `Event.VmEvent.WaitLocked` | src/vm_event_linux32.c:140-151 | a wait or timed_wait that gets the mutex takes exactly the Lock step: go to sleep, or consume and return |
| `Event.VmEvent.WaitResumed` | src/vm_event_linux32.c:166-197 | a wait that gets the mutex back takes exactly the Resume step: consume without testing the state, whatever woke it |
| `Semaphore.CountIsConserved` | src/vm_semaphore_linux32.c:59-172 | in every interleaving count is the initial count plus successful posts minus successful waits |
| `Semaphore.OneConsumerIsSafe` | src/vm_semaphore_linux32.c:59-172 | one consumer, any number of producers, no spurious wake-ups: count stays at least 0, a sleeping consumer means it is 0, a woken one means it is at least 1 |
| `Semaphore.NeverNegativeIff` | src/vm_semaphore_linux32.c:113-117 | count stays at least 0 over all schedules exactly unless there are two consumers and a producer, or spurious wake-ups and a consumer |
| `Semaphore.NewcomerOvertakes` | src/vm_semaphore_linux32.c:113-117 | the schedule that takes count to -1: a newcomer takes the token of a woken waiter, which decrements without looking again |
| `Semaphore.NegativeCountIsFinal` | src/vm_semaphore_linux32.c:67-67 | with everybody outside and count below 0 no post and no wait succeeds ever again, since every call begins with 0 <= count |
| `Semaphore.SemaphoreCanDie` | src/vm_semaphore_linux32.c:59-172 | whenever the roles allow it some schedule leaves the semaphore at -1 in every continuation |
| `Semaphore.CountFallsAtMost` | src/vm_semaphore_linux32.c:59-172 | count never falls further below 0 than there are consumers |
| `Semaphore.CountFallsThatFar` | src/vm_semaphore_linux32.c:113-117 | whoever can make count negative at all can make it fall exactly that far |
| `Semaphore.NoLostWakeUpIff` | src/vm_semaphore_linux32.c:164-165 | tokens never lie in front of a sleeper with nobody on the way, over all schedules, exactly if every producer has at most one consumer besides itself |
| `Semaphore.RolesHold` | src/vm_semaphore_linux32.c:59-172 | only consumers are ever inside a wait and only producers inside a post |
| `Semaphore.ReturnsOkIff` | src/vm_semaphore_linux32.c:59-151 | over every schedule without spurious wake-ups a wait of any of the three kinds returns OK exactly if it found the count other than 0, or a post has woken it and this is the first time since that it gets the mutex |
| `Semaphore.FailsIff` | src/vm_semaphore_linux32.c:59-151 | over every schedule a wait returns anything else exactly if it was a try_wait that found 0, which is a TIMEOUT, or just that ended its sleep and this is the first time since that it gets the mutex |
| `Semaphore.SleepsIff` | src/vm_semaphore_linux32.c:74-86 | a client goes to sleep exactly if its blocking wait finds 0, and with a time limit exactly if it asked for one |
| `Semaphore.RefusedIff` | src/vm_semaphore_linux32.c:160-170 | a call is refused exactly if the count is below 0, and a post that is not returns OK |
| `Semaphore.CountsAreObserved` | src/vm_semaphore_linux32.c:59-172 | a wait takes a token exactly if it returns OK, and a post adds one: the counts in these theorems are those of somebody who watches the clients |
| `Semaphore.PostWakes` | src/vm_semaphore_linux32.c:164-165 | a post that finds 0 leaves one client fewer asleep, and nothing else wakes anybody but the client it is about |
| `Semaphore.WokenReturnsOk` | src/vm_semaphore_linux32.c:113-117 | a wait that has been woken returns OK when it gets the mutex, whatever the count is by then |
| `Semaphore.OnlySleepersWait` | src/vm_semaphore_linux32.c:59-172 | only sleep without a time limit keeps a client inside a call from going on |
| `Semaphore.VmSemaphore.constructor` | src/vm_semaphore_linux32.c:43-55 | the count is the given one |
| `Semaphore.VmSemaphore.Enter` | src/vm_semaphore_linux32.c:67-70 | the unlocked test that opens every call takes exactly the Call step: NOT_INITIALIZED when count is below 0 |
| `Semaphore.VmSemaphore.PostLocked` | src/vm_semaphore_linux32.c:160-170 | the locked part of post takes exactly the Lock step: signal only if the count was 0 |
| `Semaphore.VmSemaphore.WaitLocked` | src/vm_semaphore_linux32.c:108-119 | a wait or timedwait that gets the mutex takes exactly the Lock step: sleep on 0, else decrement |
| `Semaphore.VmSemaphore.WaitResumed` | src/vm_semaphore_linux32.c:84-93 | a wait that gets the mutex back takes exactly the Resume step: decrement only if it was woken |
| `Semaphore.VmSemaphore.TryWaitLocked` | src/vm_semaphore_linux32.c:135-146 | the locked part of try_wait takes exactly the Lock step: TIMEOUT on 0, else decrement |
| `ThreadWin32.HandleIsSafe` | src/vm_thread_win32.c:177-201 | for any clients and interleaving after one creation: i_wait_count is the number of clients inside vm_thread_wait, no NULL or closed handle is ever waited on, queried or closed, the handle is closed at most once and only after the thread ended, and stays open while anybody is inside |
| `ThreadWin32.WaitReturnsOnlyAfterTermination` | src/vm_thread_win32.c:177-201 | vm_thread_wait returns only if the thread has terminated or was never created |
| `ThreadWin32.ValidityNeverReturns` | src/vm_thread_win32.c:48-76 | the answers of vm_thread_is_valid never go back from 0 to 1, and 0 means terminated or never created |
| `ThreadWin32.IsValidAnswersZeroIff` | src/vm_thread_win32.c:48-76 | in every reachable state vm_thread_is_valid answers 0 exactly if the thread has terminated or was never created, and closes the handle exactly if it has terminated, nobody waits and the handle is open |
| `ThreadWin32.WaitGoesOnIff` | src/vm_thread_win32.c:177-201 | in every reachable state a client that calls vm_thread_wait is counted in exactly if there is a handle, sleeps on it until exactly when the thread has terminated, and then counts itself out |
| `ThreadWin32.CountsAreObserved` | src/vm_thread_win32.c:48-201 | the counts in these theorems are those of somebody who watches the clients and the handle |
| `ThreadWin32.QuietHandleIsClosedIffUsed` | src/vm_thread_win32.c:57-68 | with nobody inside vm_thread_wait, the handle of a created thread is NULL if and only if somebody waited or was told that the thread is over |
| `ThreadWin32.WaitersAlwaysGetOut` | src/vm_thread_win32.c:177-201 | from every reachable state with the thread ended there is a continuation in which everybody has left, and if anybody ever waited the handle has been closed exactly once |
| `ThreadWin32.VmThread.constructor` | src/vm_thread_win32.c:99-155 | one creation, which may fail |
| `ThreadWin32.VmThread.CloseHandle` | src/vm_thread_win32.c:64-65 | close and clear the handle |
| `ThreadWin32.VmThread.Enter` | src/vm_thread_win32.c:183-187 | test under the mutex and register: exactly the EnterWait step |
| `ThreadWin32.VmThread.Leave` | src/vm_thread_win32.c:191-199 | the last one out closes the handle: exactly the LeaveWait step |
| `ThreadWin32.VmThread.IsValid` | src/vm_thread_win32.c:48-76 | exactly the IsValid step, with the answer it records |
| `ThreadLinux.ExitSignalLatches` | src/vm_thread_linux32.c:21-34 | the exit event is high exactly once the worker has signalled it, and then it stays high with nobody asleep on it in every continuation |
| `ThreadLinux.WaitCountAndJoins` | src/vm_thread_linux32.c:172-195 | over every schedule i_wait_count is the number of registered waiters, the worker is joined only after it ended, is_valid drops exactly then, and there are no more joins than clients |
| `ThreadLinux.WaitReturnsOnlyAfterExitIff` | src/vm_thread_linux32.c:172-195 | over all schedules vm_thread_wait returns only if the worker has signalled its end or was never created, exactly if the thread was never created, or the platform does not wake threads unasked, or one client at most uses it |
| `ThreadLinux.HonestReturns` | src/vm_thread_linux32.c:172-195 | without spurious wake-ups that holds for any number of clients |
| `ThreadLinux.SingleReturns` | src/vm_thread_linux32.c:188-192 | a client alone with the thread joins the worker itself, whatever woke it |
| `ThreadLinux.ReturnsTooEarly` | src/vm_thread_linux32.c:184-193 | the schedule that fails: of two registered clients one is woken unasked and returns with the worker running |
| `ThreadLinux.ClientsAlwaysGetOut` | src/vm_thread_linux32.c:51-70 | from every reachable state with the worker ended there is a continuation in which every client has left its call, and if anybody was registered the worker has been joined |
| `ThreadLinux.ValidityNeverReturns` | src/vm_thread_linux32.c:51-70 | over every schedule the answers of vm_thread_is_valid never go back from 0 to 1, and 0 means that the worker has ended or was never created |
| `ThreadLinux.EndIsToldUnlessOthersWait` | src/vm_thread_linux32.c:51-70 | over every schedule vm_thread_is_valid, called when the worker has signalled its end, answers 0 exactly if the worker has been joined, and 1 only if another client is registered or joining |
| `ThreadLinux.LoneClientIsTold` | src/vm_thread_linux32.c:51-70 | so a client alone gets 0 then, and the worker has been joined, once |
| `ThreadLinux.IsValidNeverWaitsIff` | src/vm_thread_linux32.c:57-67 | over all schedules vm_thread_is_valid goes on to vm_thread_wait only when the worker is over, exactly if the thread was never created, or the platform does not wake threads unasked, or nobody uses it |
| `ThreadLinux.ProbeWokenUnasked` | src/vm_thread_linux32.c:60-63 | the schedule that fails: a probe that is woken unasked goes on to wait for a worker that is running |
| `ThreadLinux.OneHolderAtMost` | src/vm_thread_linux32.c:57-68 | over every schedule the mutex is held by one client at most, during a probe or a join, and meanwhile nobody registers, leaves or probes |
| `ThreadLinux.JoinedOnceIffOneClient` | src/vm_thread_linux32.c:178-191 | is_valid is tested before the mutex is taken: for any set of clients, with or without spurious wake-ups, the worker is joined at most once over all schedules exactly if it was never created or at most one client uses the handle |
| `ThreadLinux.EverybodyJoins` | src/vm_thread_linux32.c:178-191 | for any set of clients a schedule in which each of them joins the same worker |
| `ThreadLinux.VmThread.constructor` | src/vm_thread_linux32.c:73-114 | one creation with a manual-reset event that is low |
| `ThreadLinux.VmThread.EnterSignal` | src/vm_thread_linux32.c:29-30 | the worker, its function done, calls vm_event_signal |
| `ThreadLinux.VmThread.SignalExitEvent` | src/vm_thread_linux32.c:30-30 | the worker signals the exit event: exactly the WorkerSignal step |
| `ThreadLinux.VmThread.TestBeforeWait` | src/vm_thread_linux32.c:178-178 | the unlocked test of is_valid in vm_thread_wait |
| `ThreadLinux.VmThread.RegisterWaiter` | src/vm_thread_linux32.c:180-184 | register under the mutex and call vm_event_wait |
| `ThreadLinux.VmThread.TestBeforeProbe` | src/vm_thread_linux32.c:57-57 | the unlocked test of is_valid in vm_thread_is_valid |
| `ThreadLinux.VmThread.BeginProbe` | src/vm_thread_linux32.c:59-60 | take the mutex and call vm_event_timed_wait, keeping the mutex |
| `ThreadLinux.VmThread.AfterEvent` | src/vm_thread_linux32.c:60-66 | what a client does when its call on the event has returned: a successful probe goes on to vm_thread_wait, a failed one to the answer |
| `ThreadLinux.VmThread.EventTaken` | src/vm_thread_linux32.c:184-184 | the part of the event call that needs the mutex of the event is the event step of the client and no other |
| `ThreadLinux.VmThread.EventResumed` | src/vm_thread_linux32.c:184-184 | the same for a client that has been woken |
| `ThreadLinux.VmThread.LeaveWait` | src/vm_thread_linux32.c:186-193 | count out under the mutex; whoever brings the count to 0 goes on to join |
| `ThreadLinux.VmThread.JoinWorker` | src/vm_thread_linux32.c:190-193 | join, clear is_valid and give the mutex back |
| `ThreadLinux.VmThread.EndWait` | src/vm_thread_linux32.c:63-63 | vm_thread_wait returns to the client, or to vm_thread_is_valid if that called it |
| `ThreadLinux.VmThread.AnswerValidity` | src/vm_thread_linux32.c:68-68 | is_valid is read once more and returned: exactly the Answer step, with the answer it records |
| `TempFiles.OpenAfterIsOpen` | src/vm_file_win32.c:185-219 | the list of a history of creations and closes holds exactly the files created and not closed since, each once |
| `TempFiles.OpenAfterIsNewestFirst` | src/vm_file_win32.c:71-83 | and holds them newest first |
| `TempFiles.WithoutMembers` | src/vm_file_win32.c:137-155 | removing one file keeps the others, all distinct |
| `TempFiles.NotClosedIsOpen` | src/vm_file_win32.c:137-155 | a file that was never closed is open exactly if it was created as a temporary one |
| `TempFiles.Registry.AddEntry` | src/vm_file_win32.c:71-83 | the entry becomes the head of a list in which next and prev mirror each other |
| `TempFiles.Registry.Unlink` | src/vm_file_win32.c:99-123 | cutting entry i keeps next and prev mirrored and leaves all others in order |
| `TempFiles.Registry.RemoveEntry` | src/vm_file_win32.c:87-133 | the walk finds the entry, unlinks it and gives its memory back |
| `TempFiles.Registry.DeleteByHandle` | src/vm_file_win32.c:137-155 | deletes the path of the first entry with the handle and unlinks that entry; otherwise changes nothing |
| `TempFiles.Registry.Release` | src/vm_file_win32.c:494-505 | closes the handle, deletes and unlinks if temporary, and gives the file object back |
| `TempFiles.Registry.Fclose` | src/vm_file_win32.c:490-509 | keeps the list equal to the open temporary files of the history, and the handles closed and paths deleted equal to those of the files that the history closes, in order; answers 1 exactly for a file |
| `TempFiles.Registry.CloseFirst` | src/vm_file_win32.c:168-170 | one round of the drain loop closes and frees the first file and entry |
| `TempFiles.Registry.DeleteAll` | src/vm_file_win32.c:159-175 | although every close unlinks and frees the current entry, the walk only follows live entries, ends, empties the list, and closes every handle and deletes every path once, in list order, and gives all memory back |
| `TempFiles.Registry.Open` | src/vm_file_win32.c:208-212 | the new file is marked temporary and linked |
| `TempFiles.Registry.CreateFile` | src/vm_file_win32.c:186-219 | on success the new file and entry are in front, on any failure list and history are as before |
| `Lines.LineLenIff` | src/vm_file_win32.c:619-626 | what a reader taking one character at a time takes is characterised in both directions: through the first newline or null, or n characters, or to the end |
| `Lines.ReadsPartition` | src/vm_file_win32.c:602-669 | the pieces taken by successive reads and the remainder concatenate to the text, whatever the limits |
| `Lines.ReadsReachTheEnd` | src/vm_file_win32.c:602-669 | at most as many pieces are nonempty as characters are consumed, and as many reads with limits of at least 1 as there are characters reach the end |
| `Lines.ReadSucceedsIff` | src/vm_file_win32.c:635-664 | a read that is told of the end when it gets there returns the buffer exactly if anything was left |
| `Lines.NoReadFailsIff` | src/vm_file_win32.c:511-524 | a recorded size beyond the end: whatever the limits, no read that stores something fails, exactly if that size is not beyond the end, or there is nothing to read, or the text ends with a newline or null |
| `Lines.AllSucceed` | src/vm_file_win32.c:635-664 | the half in which all reads that store something succeed |
| `Lines.LastFails` | src/vm_file_win32.c:657-664 | the other half: limits for which the last line is stored and NULL returned |
| `Lines.LineIsString` | src/vm_file_win32.c:628-630 | a line whose newline fits below the limit is delivered as a C string |
| `Lines.LimitHasNoTerminator` | src/vm_file_win32.c:628-630 | at the limit no terminator is within it |
| `Lines.LastLineIsNotString` | src/vm_file_win32.c:659-664 | "ab" read into a buffer of five x comes out as the C string "abx" |
| `Lines.LastLineIsStringIff` | src/vm_file_win32.c:659-664 | at the end of the file without a newline the terminator is put one slot too far: the buffer holds the text as a C string exactly if one slot was left or the slot in between held a null already |
| `TextFile.VmFile.Fread` | src/vm_file_win32.c:561-574 | any nonempty prefix of the rest that fits, nothing only at the end |
| `TextFile.VmFile.CopyChunk` | src/vm_file_win32.c:621-627 | copies one chunk up to a stop character or the limit, which is stored too |
| `TextFile.VmFile.EndLine` | src/vm_file_win32.c:629-633 | adds a terminator behind a newline if there is room |
| `TextFile.VmFile.FillString` | src/vm_file_win32.c:619-658 | the loop over chunks ends at the character that ends the string, or at the end of the file, and says how far the last chunk goes beyond |
| `TextFile.VmFile.EndText` | src/vm_file_win32.c:659-664 | the string at the end of the file |
| `TextFile.VmFile.Fgets` | src/vm_file_win32.c:602-669 | for every way the reads cut the file into chunks: the buffer holds exactly the line of the one-character reader, slots from nchar on are untouched, the position is just behind that line, and the answer is as specified |
| `TextFile.VmFile.ReadLines` | src/vm_file_win32.c:602-669 | one call of vm_file_fgets for each limit, for any recorded size: what the calls store, put together, and what is left are the contents, exactly the calls specified succeed, and enough calls reach the end; if the size is not beyond the end, as many calls succeed as store something |
| `TextFile.VmFile.ReadPieces` | src/vm_file_win32.c:602-669 | the calls themselves |
| `TextFile.VmFile.ReadPiece` | src/vm_file_win32.c:602-669 | one of them |
| `NewLines.ExpandLength` | src/vm_file_win32.c:681-714 | the translation has \|s\| plus the number of newlines characters and with its terminator fits the buffer that is allocated |
| `NewLines.ExpandConcat` | src/vm_file_win32.c:689-699 | the translation distributes over concatenation, and so does the newline count |
| `NewLines.CollapseExpand` | src/vm_file_win32.c:689-699 | dropping one CR before each newline gives every string back |
| `NewLines.ExpandInjective` | src/vm_file_win32.c:689-699 | different texts have different translations |
| `NewLines.NewlinesArePreceded` | src/vm_file_win32.c:691-694 | every newline of a translation has a CR in front |
| `TextFile.CountNewlines` | src/vm_file_win32.c:681-687 | counts the newlines |
| `TextFile.ExtCpy` | src/vm_file_win32.c:689-699 | writes exactly the translation, terminated, within the buffer |
| `TextFile.VmFile.Fwrite` | src/vm_file_win32.c:714-717 | writes some prefix at the position, growing the file at its end |
| `TextFile.OverwriteAt` | src/vm_file_win32.c:714-717 | every character ends up where it was written, all others stay, and the file is as long as it was or as the writing got |
| `TextFile.VmFile.PutTranslated` | src/vm_file_win32.c:714-718 | translates into a buffer of its own and writes some prefix of that |
| `TextFile.VmFile.Fputs` | src/vm_file_win32.c:701-722 | for text and binary files: some prefix of what should be written is, the position is behind it, and the answer is 1 exactly if it is all |
| `TextFile.PutsConcat` | src/vm_file_win32.c:701-722 | two texts put one after the other leave the file and position that their concatenation would leave |
| `Tokens.TokensUpToAreScanned` | src/vm_file_win32.c:944-1035 | the tokens found by repeatedly reading a line and seeking back are those of one pass over the characters of the lines that are read |
| `Tokens.AllTokensIsScan` | src/vm_file_win32.c:944-1035 | read to the end of the text they are those of one pass over all of it |
| `Tokens.TokensUpToAreOfPart` | src/vm_file_win32.c:976-1009 | with any recorded size the tokens are all those of the text up to the first line that ends at that size or further |
| `Tokens.TokensUpToArePrefix` | src/vm_file_win32.c:976-1009 | and all tokens are these, followed by those of the text behind that line |
| `Tokens.AllTokensFoundIff` | src/vm_file_win32.c:511-524 | so reading all tokens finds all there are exactly if there is none behind that line |
| `Tokens.NewFileHidesToken` | src/vm_file_win32.c:336-350 | of a file that was new when it was opened only the first line is read: no token of "\nb\n" |
| `Tokens.SearchEndsIff` | src/vm_file_win32.c:987-1009 | the loop that looks for a token ends exactly if the recorded size is not beyond the end or there is a token |
| `Tokens.ReadingEndsIff` | src/vm_file_win32.c:987-1009 | calling it until it finds none ends exactly if the recorded size is not beyond the end |
| `Tokens.TokensAreWordsIff` | src/vm_file_win32.c:963-970 | the tokens are all words between delimiters, without the blanks in front, exactly if nothing but delimiters and blanks follows the first comma or CR of any line |
| `Tokens.TokensAreWords` | src/vm_file_win32.c:944-1035 | for text without comma and CR the tokens are exactly the text split at spaces and newlines, in order, where tabs in front of a word are passed over |
| `Tokens.WordComesFirst` | src/vm_file_win32.c:954-970 | spaces and tabs in front of a word are passed over, and the word is the first token if a space, comma, newline or CR ends it; the others are those of what follows |
| `Tokens.CommaDropsLine` | src/vm_file_win32.c:963-970 | what follows a comma or CR that ends no word is not looked at up to the end of the line |
| `Tokens.CommaHidesToken` | src/vm_file_win32.c:963-970 | "a,b" yields the token "a" only: what follows a comma on a line is never returned |
| `Tokens.LongTokenLosesCharacter` | src/vm_file_win32.c:987-989 | of a word longer than the buffer the first 8191 characters are the token, and the next one is in no token |
| `Tokens.TokenIsKeptIff` | src/vm_file_win32.c:988-1014 | the token of a line is found whole, and the position is right behind it, exactly if the line is shorter than the buffer and holds no null character |
| `Tokens.LookIs` | src/vm_file_win32.c:954-970 | first token of a line: behind the blanks, up to the next delimiter, and none exactly if that is nothing |
| `Tokens.PassedHasNoToken` | src/vm_file_win32.c:986-1009 | passing whole lines without a token in front does not change the next token |
| `Tokens.SearchIsOver` | src/vm_file_win32.c:986-1014 | a token in the line reached is the next token of the text, and a line without one that ends at the recorded size or further means that there is none |
| `Tokens.TokenEndsAtDelimiter` | src/vm_file_win32.c:1012-1030 | where lines are short, reading a token leaves the position in front of a delimiter, and the text can be read on from there |
| `Tokens.NextAfterBlank` | src/vm_file_win32.c:954-960 | a leading blank moves the position and nothing else |
| `TextFile.VmFile.GetToken` | src/vm_file_win32.c:944-974 | finds the first token of the line in the buffer and remembers the character its terminator replaces |
| `TextFile.VmFile.TakeLine` | src/vm_file_win32.c:988-998 | the next line is in the buffer, without its last character if that is a null or the line fills the buffer |
| `TextFile.VmFile.TokenInNextLine` | src/vm_file_win32.c:988-1008 | one round: the next line is taken, and its token found if it has one |
| `TextFile.VmFile.RoundAtEnd` | src/vm_file_win32.c:987-1009 | at the end of the file a round leaves the position where it is, and if the recorded size is further on the loop goes round again |
| `TextFile.VmFile.FindToken` | src/vm_file_win32.c:987-1009 | the loop stops at the first line with a token, or at the first that ends at the recorded size or further |
| `TextFile.VmFile.GetFileToken` | src/vm_file_win32.c:976-1035 | for any recorded size with which the search ends: the next token of the file, with the position moved just behind it; found if and only if there is one |
| `TextFile.VmFile.OneToken` | src/vm_file_win32.c:976-1035 | one call gives the first of the tokens specified and leaves the others, or finds none exactly if there are none |
| `TextFile.VmFile.ReadTokens` | src/vm_file_win32.c:976-1035 | calls until none is found return exactly the tokens of the lines up to the recorded size, and end |
| `Channels.OpenIsInTable` | src/vm_socket_linux32.c:228-328 | after every run of accept, read, write and close on an initialised handle a descriptor has been opened once more than closed if a slot holds it and equally often if none does, and no two slots hold the same one |
| `Channels.CloseIsFinal` | src/vm_socket_linux32.c:321-328 | vm_socket_close after any run leaves every descriptor closed as often as opened, and nothing called later changes the handle |
| `Channels.AcceptTakesLowestFreeSlot` | src/vm_socket_linux32.c:239-254 | a positive answer is the lowest free slot of 1 to 20, which was free; all other slots are as before |
| `Channels.AcceptFailsIff` | src/vm_socket_linux32.c:232-253 | exactly when accept answers -1; a call that accepts nothing changes no slot in use |
| `Channels.AcceptAnswersZeroIff` | src/vm_socket_linux32.c:232-237 | and exactly when it answers 0 |
| `Channels.TransferKeepsIff` | src/vm_socket_linux32.c:259-310 | a read or write answers what the system does and keeps the channel exactly if that is at least one byte; otherwise, at the end of the connection too, the descriptor is closed and the slot free |
| `Channels.InUseIffNotClosedSince` | src/vm_socket_linux32.c:228-328 | over every run a slot is in use exactly if it was given a connection, or is slot 0, and has not been closed since, by a close of the channel or the handle or a transfer of less than one byte |
| `Channels.NothingAcceptedWithoutListener` | src/vm_socket_linux32.c:281-282 | once channel 0 is closed, for instance by a failed transfer on it, no run opens anything again |
| `Channels.SlotsAreDistinct` | src/vm_socket_linux32.c:239-254 | a table with every descriptor at most once has no descriptor in two slots |
| `Channels.Socket.constructor` | src/vm_socket_linux32.c:56-75 | a handle around one new descriptor, all other slots free |
| `Channels.Socket.SystemClose` | src/vm_socket_linux32.c:314-315 | only a descriptor that is open may be closed |
| `Channels.Socket.CloseChannel` | src/vm_socket_linux32.c:312-319 | closes the descriptor of the slot if there is one, and frees the slot |
| `Channels.Socket.Close` | src/vm_socket_linux32.c:321-328 | closes every slot, last to first |
| `Channels.Socket.LowestFree` | src/vm_socket_linux32.c:239-243 | the lowest free slot from 1 on, or 21 |
| `Channels.Socket.Accept` | src/vm_socket_linux32.c:228-256 | exactly the accept step, with its answer |
| `Channels.Socket.Read` | src/vm_socket_linux32.c:259-286 | exactly the transfer step: a result below 1 closes the channel |
| `Channels.Socket.Write` | src/vm_socket_linux32.c:288-310 | exactly the transfer step: a result below 1 closes the channel |
| `ReadySet.WantedIff` | src/vm_socket_linux32.c:128-169 | a descriptor is in a set exactly if some slot holds it whose flags and masks call for it |
| `ReadySet.ChannelIsAskedIff` | src/vm_socket_linux32.c:128-169 | on a channel with a descriptor of its own: what each bit of the masks and flags asks for, in both directions |
| `ReadySet.ClosedHandleAddsNothing` | src/vm_socket_linux32.c:131-132 | a handle whose channel 0 is closed adds nothing, whatever its other channels hold |
| `ReadySet.Mark` | src/vm_socket_linux32.c:137-139 | FD_SET keeps maxsd the maximum of both sets |
| `ReadySet.CollectChannels` | src/vm_socket_linux32.c:134-168 | adds exactly the descriptors one handle calls for |
| `ReadySet.Collect` | src/vm_socket_linux32.c:123-171 | for any handles and masks the sets are exactly the wanted ones and maxsd is their maximum, or -1 exactly if both are empty |
| `ReadySet.Select` | src/vm_socket_linux32.c:121-177 | the sets end up within the wanted ones; the answer is the number of bits, or -1 on a failed system call |
| `ReadySet.SlotsIff` | src/vm_socket_linux32.c:183-189 | the slots walked are all slots of the table |
| `ReadySet.SlotsAreOrdered` | src/vm_socket_linux32.c:183-185 | in lexicographic order |
| `ReadySet.ReadyIff` | src/vm_socket_linux32.c:191-221 | the reports due are exactly the ready (handle, channel, direction) triples; ACCEPT is exactly channel 0 of a TCP server, ready to be read |
| `ReadySet.ReadyIsSorted` | src/vm_socket_linux32.c:191-221 | they are strictly ordered, read before write in one slot, hence each is there once |
| `ReadySet.NextLeavesTheRest` | src/vm_socket_linux32.c:193-212 | clearing the bit of the first report leaves exactly the other reports due |
| `ReadySet.DrainIsReadyIff` | src/vm_socket_linux32.c:179-226 | calling next until it returns 0 reports every ready triple in order exactly if no ready descriptor is in two slots |
| `ReadySet.DrainCountsBits` | src/vm_socket_linux32.c:179-226 | it reports as many times as there were bits, shared descriptors or not |
| `ReadySet.DrainedBitsDiffer` | src/vm_socket_linux32.c:193-212 | a bit is reported at most once, shared descriptors or not |
| `ReadySet.SharedDescriptorIsReportedOnce` | src/vm_socket_linux32.c:191-212 | two slots with one descriptor: only the first is reported |
| `ReadySet.SelectThenDrain` | include/vm_socket.h:108-114 | after select, draining reports as often as select counted, and every ready triple exactly if no ready descriptor is in two slots |
| `ReadySet.ReportsAnswerMasks` | src/vm_socket_linux32.c:134-140 | a report was asked for by its mask, or it is READ on channel 0 of an open client or datagram socket under the ACCEPT mask |
| `ReadySet.OnlyAskedIff` | src/vm_socket_linux32.c:134-140 | with no descriptor in two slots, every report was asked for, whatever becomes ready, exactly unless ACCEPT without READ is given to an open socket that does not listen |
| `ReadySet.TalkerIsReported` | src/vm_socket_linux32.c:134-140 | the input that fails: such a socket is reported as READ |
| `ReadySet.NextChannel` | src/vm_socket_linux32.c:185-222 | the first channel of one handle that is ready, with its bit cleared |
| `ReadySet.NextHandle` | src/vm_socket_linux32.c:183-224 | the first handle with such a channel |
| `ReadySet.FirstReady` | src/vm_socket_linux32.c:183-224 | the first slot that is ready has the first of all reports due |
| `ReadySet.Next` | src/vm_socket_linux32.c:179-226 | the first report due, with exactly its bit cleared, or 0 exactly if none is due |
| `ReadySet.DrainAll` | include/vm_socket.h:112-114 | vm_socket_next called until it returns 0 gives exactly the drained reports |
| `ManySockets.NoDescriptorTwice` | src/vm_socket_linux32.c:121-226 | after every run of set-ups, accepts, reads, writes and closes on any number of handles, where the system hands out no descriptor that is open, no descriptor is in two slots of all their tables |
| `ManySockets.EverythingIsReported` | src/vm_socket_linux32.c:179-226 | so after every such run, whatever becomes ready, draining reports every ready triple in order |
| `FileName.RoundTrip` | src/vm_file.c:27-129 | path of length at least 2 and no dot, base and suffix without dot and slash, nchars at least 2\|path\|+\|base\|+\|suffix\|+4: the name is path/base.suffix, nothing is written outside nchars slots, and the three parts come back |
| `FileName.ExtentOfJoined` | src/vm_file.c:94-104 | with that much room \|path\|+\|base\|+\|suffix\|+4 slots of the buffer are written |
| `FileName.WritesStayInIff` | src/vm_file.c:108-129 | for parts present or absent, exactly when nothing is written outside of nchars slots: by the lengths of the parts that fit and the room left, which counts as huge once it is negative |
| `FileName.PathWritesOneMore` | src/vm_file.c:94-104 | a path "p" in 2 slots: a third slot is written |
| `FileName.SuffixWritesAnyNumber` | src/vm_file.c:99-123 | "ppp" and "b" in 6 slots: every suffix is appended in full, however long |
| `FileName.MadeIsJoinedIff` | src/vm_file.c:94-129 | the name is path/base.suffix exactly if path and base fit and the room left, from which the path length is taken off twice, is as an unsigned number above the suffix length and not -1 |
| `FileName.MadeOfTwoIff` | src/vm_file.c:108-129 | of two parts the name is path/base, path.suffix or base.suffix exactly if that fits with a terminator |
| `FileName.MadeOfOneIff` | src/vm_file.c:108-129 | a single part is the name exactly if it fits or is empty, a suffix with its dot exactly if there is room for both |
| `FileName.DotIsLost` | src/vm_file.c:99-100 | with 5 characters of room "p", "b", "s" become "p/bs" |
| `FileName.SuffixIsLost` | src/vm_file.c:115-115 | with 6 they become "p/b" |
| `FileName.PartsComeBackIff` | src/vm_file.c:27-92 | of path/base.suffix the base always comes back, the path exactly if its length is not 1, the suffix exactly if it is empty or not all there is |
| `FileName.NothingMadeIff` | src/vm_file.c:108-128 | exactly when nothing is put into the buffer and the code looks in front of it |
| `FileName.PathIsFrontIff` | src/vm_file.c:32-33 | the path is what is in front of the last slash exactly if that is not character 1, and empty exactly if there is none or it is one of the first two characters |
| `FileName.SuffixIsEndIff` | src/vm_file.c:82-84 | the suffix is what follows the last dot exactly if that is not one of the first two characters or nothing follows, and otherwise empty |
| `FileName.ShortNames` | src/vm_file.c:32-33 | the path of "a/b" and the suffix of "a.c" are empty |
| `FileName.SplittersStayInIff` | src/vm_file.c:27-92 | the three functions that take a name apart stay within nchars slots exactly if the path is shorter than that, the base name not just as long, and the suffix shorter |
| `FileName.WholeIff` | src/vm_file.c:66-90 | how much of a base name or suffix that does not fit is kept, and exactly when it is whole |
| `FileName.BaseIsMiddle` | src/vm_file.c:43-65 | the base name is what stands between the last slash and the first dot behind it, whatever else follows |
| `FileName.SplittersWriteOneMore` | src/vm_file.c:27-92 | of "ab/ab.ab" and 2 each of them writes a third slot |
| `FileName.CountedIsNegativeIff` | src/vm_file.c:60-60 | the length vm_file_getbasename computes is negative exactly if there is a dot in front of the last slash |
| `FileName.DotInFrontOfSlash` | src/vm_file.c:60-60 | of "a.b/c" it is -2 |
| `FileName.AddParm` | src/vm_file.c:94-104 | one use of the macro takes exactly one AddPart step |
| `FileName.PutDot` | src/vm_file.c:116-123 | the separator in front of the suffix becomes a dot |
| `FileName.StripSlash` | src/vm_file.c:127-128 | the last separator goes |
| `FileName.AddSuffixAndStrip` | src/vm_file.c:115-128 | dot, suffix and the last separator |
| `FileName.WritePath` | src/vm_file.c:108-112 | the path if it fits, and nothing written beyond it, its separator and the terminator |
| `FileName.WriteBase` | src/vm_file.c:113-114 | the same for the base name |
| `FileName.MakeFileName` | src/vm_file.c:108-129 | the buffer holds exactly the name specified, for parts present or absent, and no slot behind those counted by Extent is written |
| `FileName.GoBack` | src/vm_file.c:32-32 | the backward scans stop one before the last such character, or at 0 |
| `FileName.GetPath` | src/vm_file.c:27-37 | the path part, cut at nchars with the terminator where the whole path would end, and no slot behind that written |
| `FileName.FindLastSlash` | src/vm_file.c:48-55 | slash after slash from the front ends at the last one |
| `FileName.FindBase` | src/vm_file.c:43-65 | where the base name is and how long, between the last slash and the first dot |
| `FileName.GetBaseName` | src/vm_file.c:42-71 | that, cut to nchars - 1 characters if longer than nchars, and no slot behind written |
| `FileName.CopyTail` | src/vm_file.c:85-90 | copies up to nchars characters, at least one, and terminates |
| `FileName.GetSuffix` | src/vm_file.c:76-92 | what follows the last dot, cut to nchars characters, and no slot behind written |

## Left out

- Thin wrappers over the OS: mutexes, Windows events and semaphores, shared objects, directories, clocks, registry, counters. There is no logic above the call.
- The timeval arithmetic of `src/vm_time_win32.c`: its laws are easy members beside the others.
- The `_cvt` conversions, `vm_file_fscanf` and `vm_file_fprintf`: foreign code pages and library formatting.
- The memory-mapped files of the repository: a rounding formula and handle plumbing.
- NULL arguments, invalid file handles, and events and semaphores that were never initialised: the checks at the head of each function return an error and change nothing.
- Destroying or re-creating an event, a semaphore or a thread while others use it; one creation per run.
- Deadlines: a timeout is a step that may happen at any time once a client sleeps. Failures of the condition variable other than a timeout are modelled the same way.
- Integer width of counters: `count`, `i_wait_count` and the positions are unbounded.
- Memory ordering of the unlocked reads (`state`, `count`, `is_valid` tested before the mutex is taken): each is one atomic step.
- Fairness: what some schedule can do and what every schedule keeps is proved, not that a schedule is ever completed by the scheduler.
- ThreadWin32.VmThread.constructor: one creation per run, so not the branch that waits for an earlier thread.
- Semaphore.OneConsumerIsSafe: assumes no spurious wake-ups, because NeverNegativeIff shows that they break it.
- Event.AutoOksAreBounded: assumes no spurious wake-ups, because OksBoundedIff shows that they break it whenever anybody waits.
- Event.ReturnsOkIff: assumes no spurious wake-ups, which would be a third reason.
- Semaphore.ReturnsOkIff: as Event.ReturnsOkIff.
- TempFiles: the entry that `tempfile_create_file` neither links nor frees when the file cannot be opened is allocated and dropped; addresses are not reused after they are given back; a file object is closed at most once by its user.
- Disk files only: reading from stdin and writing to stdout or stderr go to the C library.
- TextFile.VmFile.Fread: a read that fails before the end of the file is not modelled; it would look like the end.
- TextFile.VmFile.GetFileToken: the text ends with a newline or null, because a last line without one leaves the reader with whatever its buffer held, see LastLineIsNotString; and the search ends, see SearchEndsIff.
- TextFile.VmFile.FindToken: as GetFileToken.
- TextFile.VmFile.OneToken: as ReadTokens.
- TextFile.VmFile.ReadTokens: text as for GetFileToken, and a recorded size that is not beyond the end, without which it does not end, see ReadingEndsIff.
- TextFile.VmFile.TakeLine: text as for GetFileToken.
- TextFile.VmFile.TokenInNextLine: text as for GetFileToken.
- Tokens.AllTokensIsScan: text whose lines end with a newline, hold no null character and are shorter than the buffer; other lines lose a character to the reader, see TokenIsKeptIff.
- Tokens.TokensUpToAreScanned: text of such lines.
- Tokens.TokensUpToAreOfPart: text of such lines.
- Tokens.TokensUpToArePrefix: text of such lines.
- Tokens.AllTokensFoundIff: text of such lines.
- Tokens.TokensAreWordsIff: text of such lines.
- Tokens.TokensAreWords: text of such lines.
- Tokens.TokenEndsAtDelimiter: text of such lines.
- Tokens.NextAfterBlank: text of such lines.
- TextFile.VmFile.GetToken: only the call with a line, not the one with NULL that continues the last line, because the file reader always starts on a fresh line.
- Characters are single bytes; the wide-character build is not modelled.
- Channels.Socket.constructor: a successful `vm_socket_init`; address lookup, bind, listen, connect and multicast membership, and the returns when they fail, are not modelled. Results of accept, recv and send are arbitrary answers, except that accept gives no descriptor that is open. Peer addresses are not part of the model.
- Descriptors of 1024 and above, which do not fit into an fd_set.
- ReadySet.Next: always asks for index, channel and type; with a NULL pointer the value is not stored.
- Channels.Socket.CloseChannel: the caller passes a slot number in range, as the source does not test it.
- FileName.MakeFileName: all characters together can be counted by an Ipp32u; the buffer is as large as what is written to it, which nchars alone does not ensure, see WritesStayInIff; and not the case in which nothing is put into the buffer, see NothingMadeIff.
- FileName.MadeIsJoinedIff: all characters together can be counted by an Ipp32u, and nchars is an Ipp32s that is not negative.
- FileName.NothingMadeIff: as MadeIsJoinedIff.
- FileName.WritesStayInIff: as MadeIsJoinedIff.
- FileName.GetBaseName: not the names with a dot in front of the last slash, where the length comes out negative, see CountedIsNegativeIff, and not a limit of 0 for a base name that is not empty, where it becomes -1; the buffer as for GetPath.
- FileName.GetPath: the buffer is as large as what is written to it, see SplittersStayInIff.
- FileName.GetSuffix: as GetPath.
