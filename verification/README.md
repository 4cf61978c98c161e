# Verified model of co

`co` is a C++ base library: coroutines scheduled over several threads, synchronisation between
them, and the codecs and containers the rest of the library is built from. This project models
its most intricate parts in Dafny and proves what they are for.

Three styles are used. Code that changes an object or a buffer step by step is a class or a method
with the same fields, branches and loops, proved against a specification function; the properties
are then proved about that function. Protocols between threads are machines: a state, a datatype of
actions (one action is one access to data another thread can see), a guard and an effect, and
theorems about every run. Where the code does not keep a property on all inputs, the code is kept and
the exact condition is proved.

| file | what it models |
|---|---|
| `EventRace.dfy` | signals against the timer checker, over all interleavings of schedulers and signalling threads |
| `EventProgress.dfy` | that a signal or the timer can always wake whoever is suspended |
| `CoEvent.dfy` | `co::Event` as an object: wait, timed wait, signal |
| `CoMutex.dfy` | `co::Mutex` as an object, and all coroutines and schedulers around one mutex |
| `Wakeup.dfy` | the flag, the pipe and the task queue that wake a scheduler |
| `SharedStack.dfy` | one stack for all coroutines of a scheduler, with the pool of coroutine ids |
| `Timers.dfy` | the timer multimap with its hint, and the time a scheduler may sleep |
| `EventMap.dfy` | the packed mirror of the kernel's epoll table |
| `JsonText.dfy`, `JsonLayout.dfy` | both JSON printers, and how they lay out a document |
| `JsonParse.dfy`, `JsonUnicode.dfy`, `JsonGrammar.dfy` | the JSON parser, its escapes against the definition of UTF-8, and the grammar it accepts |
| `JsonRoundTrip.dfy` | the round trip from printer to parser |
| `Itoa.dfy`, `Atoi.dfy`, `Decimal.dfy` | integers to text by a table of packed words, and back |
| `Grisu.dfy`, `Prettify.dfy` | digit generation for doubles and the layout of the digits |
| `FlagInt.dfy`, `FlagNumber.dfy` | integer flags with the units k, m, g, t, p, and the numerals they are read from |
| `Base64.dfy`, `Md5.dfy` | the codec of RFC 4648 section 4; the streaming digest of RFC 1321 with the block function left open |
| `Path.dfy`, `RFind.dfy`, `LruMap.dfy` | `path::clean`, reverse search in strings, the LRU cache |

What the proofs found, each stated as an if-and-only-if or with a concrete run:

- A signal that detached a coroutine's entry and has not visited it yet can hit the coroutine's next
  wait (`EventRace.DisciplineIsExact`), which can end in the erasure of a dead timer
  (`EventRace.UndisciplinedFaults`). Without such a new wait every run is safe.
- One failed write into the wakeup pipe leaves the flag up for ever, and then wakeups are lost
  (`Wakeup.WakeupsSafeIffWritesSucceed`).
- A sleeping time of 2^31 ms or more makes `epoll_wait` block without a limit
  (`Timers.WakesInTimeIff`, `Timers.Oversleep`).
- A batch of reported events is handled with the coroutine ids it was made with, so a coroutine that
  unregisters another one lets the loop resume that one for nothing (`EventMap.BatchHitsIff`).
- Deleting interest changes the mirror before the kernel is asked, so the two agree exactly if the
  kernel accepts (`EventMap.Epoll.DelEvRead`, `EventMap.ExactIff`); and where the kernel refuses to
  drop a descriptor, nothing is registered on it again (`EventMap.OrphanStays`).
- The table of powers of ten in `DigitGen` has ten entries, and the last step of the fraction loop can
  read behind them; which inputs do is exact (`Grisu.DigitGen`, `Grisu.PastTableAt`).
- JSON text is read back exactly if no key contains a quote and no string a NUL
  (`JsonRoundTrip.RoundTrip`).
- A flag holding the greatest value of a 64-bit type is refused when `errno` is still `ERANGE` from
  an earlier call, and `to_uint64` takes negative numbers, and some numbers with units, for others
  (`FlagInt.FlagRoundTrip`, `FlagInt.Uint64Exact`, `FlagInt.MinusOneMisjudged`).
- Searching for one character from the right stops at the first NUL (`RFind.RFindSub`, `RFind.MissesBehindNul`).

To verify everything: `dafny verify dfyconfig.toml`.

## Model

| member | source | states |
|---|---|---|
| EventRace.StepKeeps | src/co/impl/co.cc:49-103 | Every enabled step of every coroutine, signaller and scheduler keeps the invariant that places each wait's entry and timer, as long as no wait starts while a signal still holds an unvisited entry of that coroutine |
| EventRace.VisitKeeps | src/co/impl/co.cc:93-102 | A compare-and-swap that finds S_wait finds the very wait whose entry the signal detached |
| EventRace.CheckTimerKeeps | src/co/impl/scheduler.cc:167-178 | The visit of the timer checker, whichever of the three states it finds, removes the timer once and wins only over S_wait |
| EventRace.RunReadyKeeps | src/co/impl/scheduler.cc:135-142 | A ready timer task deletes its timer exactly when the checker has not removed it yet, and resumes a suspended coroutine |
| EventRace.RunTimedOutKeeps | src/co/impl/scheduler.cc:146-158 | A coroutine on the timed-out list is suspended and has no other resumption under way |
| EventRace.EnqueueKeeps | src/co/impl/scheduler.h:128-131 | An entry that is queued never meets another entry of the same coroutine in the map of ready timer tasks |
| EventRace.RunsAreSafe | src/co/impl/co.cc:85-103 | In every disciplined run no dead timer is erased, nothing but a suspended coroutine is resumed, and no signal hits a later wait |
| EventRace.ReturnedWait | src/co/impl/co.cc:63-83 | A wait that has returned was resumed exactly once, its timer left the multimap exactly once, and it answered false iff the timer checker won the state change |
| EventRace.AtMostOnce | src/co/impl/scheduler.cc:135-187 | At every moment of a run a wait has been resumed at most once and its timer removed at most once |
| EventRace.NeverLost | src/co/impl/co.cc:49-103 | A suspended wait somebody won has exactly one resumption under way; one nobody won is where a signal and its timer will find it |
| EventProgress.SwapTakesAll | src/co/impl/co.cc:85-92 | After the swap no wait of the event is in the table, each one that was is in the hands of the signal, and all other waits are unchanged |
| EventProgress.SignalWakes | src/co/impl/co.cc:85-103 | From every state of a disciplined run, every coroutine suspended on an event is resumed, once and by the signal, after the swap and the visit of its entry as far as they are still to come, with nothing else but steps of those already under way |
| EventProgress.TimerWakes | src/co/impl/scheduler.cc:145-187 | Every coroutine suspended in a wait with a timer is resumed once without any signal, after at most one visit of its own timer |
| EventProgress.Drive | src/co/impl/scheduler.cc:82-165 | A scheduler gets to every part of its loop whatever it is doing, by steps of the coroutines it runs, while a suspended coroutine stays as it is or is resumed |
| EventRace.IdleIsInit | src/co/impl/scheduler.h:84-87 | In every disciplined run a coroutine outside of waits is in S_init, as the pool asserts when it reuses one |
| EventRace.DisciplineIsExact | src/co/impl/co.cc:85-103 | A new wait is safe from every outstanding visit iff no signal holds an unvisited entry of the coroutine |
| EventRace.UndisciplinedFaults | src/co/impl/co.cc:85-103 | A concrete schedule that breaks the discipline ends with a dead timer being erased |
| CoEvent.EventImpl.Enter | src/co/impl/co.cc:63-73 | A wait sets S_wait and adds exactly its own entry to the table |
| CoEvent.EventImpl.Leave | src/co/impl/co.cc:75-83 | After a timeout the coroutine's entry is gone; the state is S_init and the answer is whether it was not a timeout |
| CoEvent.EventImpl.Signal | src/co/impl/co.cc:85-103 | One signal empties the table, turns exactly the waiters still in S_wait to S_ready and gives each one entry in the right queue of its own scheduler |
| CoEvent.EventImpl.Visit | src/co/impl/co.cc:93-102 | One visit extends the effect of the signal by exactly one entry |
| CoEvent.SignalWakes | src/co/impl/co.cc:93-102 | Coroutine by coroutine: exactly those in the table that still wait become S_ready and get one entry in the right queue of their own scheduler; nobody else comes or goes |
| CoMutex.MutexImpl.TryLock | src/co/impl/co.cc:142-145 | Succeeds iff the lock was free and takes it |
| CoMutex.MutexImpl.Lock | src/co/impl/co.cc:147-160 | Takes a free lock, otherwise queues the caller behind everybody else, who must then yield |
| CoMutex.MutexImpl.Unlock | src/co/impl/co.cc:162-173 | Frees the lock iff nobody waits, otherwise hands it to the first in the queue with the lock kept taken |
| CoMutex.StepKeeps | src/co/impl/co.cc:142-173 | Every step keeps: one owner or one hand-over in flight, everybody else who called lock in the queue once |
| CoMutex.RunReadyKeeps | src/co/impl/scheduler.cc:127-133 | The new owner among the ready tasks is suspended when its scheduler gets to it, even if it got the lock before it yielded |
| CoMutex.MutualExclusion | src/co/impl/co.cc:125-173 | In every run at most one coroutine owns the lock, and a free lock has an empty queue and nobody blocked |
| CoMutex.FirstComeFirstServed | src/co/impl/co.cc:147-173 | In every run those resumed as owners are those made to wait, in the order of their lock calls, except for the one the lock is being handed to and the queue, who stand next in that order |
| CoMutex.LineStep | src/co/impl/co.cc:147-173 | In every step whoever is made to wait stands at the end of the line, and whoever is resumed as owner stood at its head |
| CoMutex.CallsAnswered | src/co/impl/co.cc:142-160 | A free lock is owned at once by whoever calls lock or try_lock; a taken one puts lock at the end of the line and leaves try_lock without effect |
| CoMutex.NobodyIsForgotten | src/co/impl/co.cc:147-173 | Whoever is blocked is in the queue once while somebody owns the lock, or is the owner with its wakeup held by one running unlocker or queued once on its own scheduler |
| CoMutex.LockComes | src/co/impl/co.cc:147-173 | The i-th in line owns the lock after a continuation without newcomers, and then exactly those behind it are left in line |
| CoMutex.EverybodyGetsIt | src/co/impl/co.cc:147-173 | Every coroutine that waits for the lock in some run can become its owner |
| Wakeup.StepKeeps | src/co/impl/epoll.h:82-91 | Every step other than a failed write keeps the explanation of the flag, the edge of the pipe and the visibility of tasks |
| Wakeup.NoWakeupIsLost | src/co/impl/scheduler.cc:82-117 | In every run whose writes succeed: a loop blocked with a queued task has an announced byte or a producer about to write, and the flag is up iff exactly one of byte, writer, resetting loop holds it |
| Wakeup.TasksTakenInOrder | src/co/impl/scheduler.h:118-142 | In every run the tasks taken followed by the tasks queued are the tasks of its push actions, in their order: none lost, doubled or reordered |
| Wakeup.TasksAreTaken | src/co/impl/scheduler.cc:82-117 | As long as writes succeed, the steps of those under way come to an end in whatever order they are taken, and then every task pushed has been taken and the loop sleeps with the flag down |
| Wakeup.FailedWriteWedges | src/co/impl/epoll.h:85-90 | A write that fails leaves the flag up with no byte, no writer and no loop that will reset it |
| Wakeup.WedgedForever | src/co/impl/epoll.cc:8-24 | No continuation ever takes the flag down again |
| Wakeup.WakeupsSafeIffWritesSucceed | src/co/impl/epoll.h:82-91 | From any reachable state on, no wakeup can be lost iff no write has failed so far |
| SharedStack.Copool.Pop | src/co/impl/scheduler.h:83-96 | The pool hands out a cleared coroutine whose id nobody uses, and leaves all others as they are; the first id is 0 |
| SharedStack.Copool.Push | src/co/impl/scheduler.h:98-100 | Only the recycled id becomes available |
| SharedStack.Scheduler.Jump | src/co/impl/scheduler.cc:31-36 | A yield leaves the coroutine's bytes between its stack pointer and the top; a finished coroutine leaves no context |
| SharedStack.Scheduler.Restore | src/co/impl/scheduler.cc:61-64 | The saved bytes are back where they were, up to the stack top |
| SharedStack.Scheduler.SaveStack | src/co/impl/scheduler.h:308-311 | Exactly the bytes between the stack pointer and the top are saved |
| SharedStack.Scheduler.Resume | src/co/impl/scheduler.cc:48-74 | A new coroutine starts from its closure, a suspended one goes on from the bytes of its last yield; afterwards its bytes are saved or its id is given back |
| SharedStack.Scheduler.ResumeSuspended | src/co/impl/scheduler.cc:60-73 | Resuming on the shared stack is one step of the machine with a private stack for every coroutine |
| SharedStack.Scheduler.StartTask | src/co/impl/scheduler.cc:119-125 | Starting a task, on a new or a recycled coroutine with an id other than 0, is one step of that machine |
| SharedStack.Scheduler.RunSchedule | src/co/impl/scheduler.cc:48-74 | Any schedule of starts and resumes ends with exactly the private stacks of the machine |
| SharedStack.OthersDoNotMatter | src/co/impl/scheduler.cc:38-74 | Whatever other coroutines do in between, a coroutine has the bytes it would have had running alone on its own inputs |
| Timers.TimerManager.AddTimer | src/co/impl/scheduler.h:157-159 | The new timer goes behind all timers with the same or an earlier deadline; order, distinctness and hint stay valid |
| Timers.TimerManager.AddIoTimer | src/co/impl/scheduler.h:161-163 | The hinted insertion goes as close to the hint as the order allows and moves the hint to the new timer |
| Timers.TimerManager.DelTimer | src/co/impl/scheduler.h:165-168 | Exactly the given timer goes, and a hint on it steps to its successor or the end |
| Timers.TimerManager.Sweep | src/co/impl/scheduler.cc:171-178 | The loop visits exactly the timers due, in deadline order |
| Timers.TimerManager.CheckTimeout | src/co/impl/scheduler.cc:167-187 | Exactly the due timers are removed, their coroutines reported unless S_ready, their states S_init, a due hint moved to the first timer left, and the remaining time returned |
| Timers.SweepIsFilter | src/co/impl/scheduler.cc:172-178 | With one timer per coroutine the report is the due coroutines not yet S_ready, in deadline order |
| Timers.HintIsBetween | src/co/impl/scheduler.h:161-163 | The hinted position lies between the bounds for the deadline, for every hint, and none between them is closer to the hint |
| Timers.SchedulerTimers.AddTimer | src/co/impl/scheduler.h:253-266 | Adding a timer keeps the sleeping time below every pending deadline |
| Timers.SchedulerTimers.AddIoTimer | src/co/impl/scheduler.h:268-274 | So does adding an I/O timer |
| Timers.SchedulerTimers.DelTimer | src/co/impl/scheduler.h:276-279 | So does deleting one |
| Timers.SchedulerTimers.Check | src/co/impl/scheduler.cc:146-147 | After a check, counted from the clock of that check, the sleeping time reaches past no pending timer |
| Timers.WakesInTimeIff | src/co/impl/epoll.h:59-61 | Counted from the last check, the loop wakes in time for every pending timer iff the sleeping time is below 2^31, whether a check or a timer added after it set that time |
| Timers.Oversleep | src/co/impl/scheduler.h:253-266 | A timer of 2^31 ms on a scheduler without any is not woken for |
| Timers.SleepsWithoutTimers | src/co/impl/scheduler.cc:167-187 | Without any timer the loop sleeps without a limit |
| EventMap.Epoll.AddEvRead | src/co/impl/epoll.cc:68-84 | Also after earlier refusals an existing reader stays; a new one is stored beside the writer, in the entry and the kernel alike, iff the kernel accepts and does not watch the descriptor without an entry; an exact mirror stays exact |
| EventMap.Epoll.AddEvWrite | src/co/impl/epoll.cc:86-102 | The same for the writer |
| EventMap.Epoll.AddEvent | src/co/impl/epoll.h:37-39 | Success means the wanted direction is registered for the new or the earlier coroutine, the other direction as before; failure changes nothing, in the entry or the kernel |
| EventMap.Epoll.DelEvRead | src/co/impl/epoll.cc:104-123 | The reader goes and the writer stays, also after earlier refusals; the entry is exact iff the kernel accepts, or there was no reader and it was exact before |
| EventMap.Epoll.DelEvWrite | src/co/impl/epoll.cc:125-145 | The writer goes and the reader stays, also after earlier refusals; the entry is exact iff the kernel accepts, or there was no writer and it was exact before |
| EventMap.Epoll.DelEvent | src/co/impl/epoll.h:45-55 | Both directions go, also after earlier refusals; the entry is exact iff the kernel accepts, or there was nothing and it was exact before |
| EventMap.ExactIff | src/co/impl/epoll.cc:68-145 | After any operations, refused or not, the entry of a descriptor is what the kernel has iff the last operation that changed the entry was accepted; the kernel always watches all that the entry says |
| EventMap.OrphanStays | src/co/impl/epoll.cc:77-83 | A descriptor without an entry that the kernel still watches, as a refused deletion leaves it, stays so whatever is tried: every later registration on it is refused |
| EventMap.ResumesTheRegistered | src/co/impl/epoll.h:71-80 | Whatever shift is taken, the reader is resumed iff reading or only an error is reported, the writer iff writing or only an error is |
| EventMap.ReportsReachTheirCoroutines | src/co/impl/scheduler.cc:92-109 | A report for a registered descriptor names exactly the coroutines registered for the reported directions when it was made, and is never taken for the pipe |
| EventMap.Epoll.HandleBatch | src/co/impl/scheduler.cc:92-109 | The loop resumes, in order, the coroutines of the reports as they were made, while entries and kernel change as the resumed coroutines change them, refusals included; each resume hits its registration or not as stated, and an entry is exact at the end iff the last change of it was accepted |
| EventMap.BatchHitsIff | src/co/impl/scheduler.cc:92-109 | Each resume of a batch finds its coroutine still registered for what was reported iff that registration stood at the start and no coroutine resumed before it in the batch took it away, or its owner was the first to be registered behind the last removal |
| EventMap.SurvivesIffKept | src/co/impl/epoll.cc:68-145 | After any operations on the table, with whatever the kernel answers, a coroutine is registered iff its registration was not taken away, or it was the first to be registered since |
| EventMap.BatchCanMiss | src/co/impl/scheduler.cc:104-105 | A reader that gives up the write interest of its descriptor makes the loop resume the writer although it is not registered any more |
| JsonText.PrintString | src/json.cc:114-149 | A string is copied or escaped, with the cut at a NUL that strpbrk and the escaping imply |
| JsonText.PrintCompact | src/json.cc:107-192 | The compact printer appends the text of the value |
| JsonText.PrintPretty | src/json.cc:287-361 | The pretty printer appends the indented text of the value, for every indent |
| JsonLayout.ArrayLines | src/json.cc:287-361 | Every element of an array stands on a line of its own, indented by its depth, and the closing bracket by one less |
| JsonLayout.ObjectLines | src/json.cc:287-361 | So does every member of an object |
| JsonLayout.CompactIsTight | src/json.cc:107-192 | The compact text has nothing between the tokens |
| JsonParse.ReadToken | src/json.cc:537-573 | The token loop finds the same constant, number or failure as the specification |
| JsonParse.ReadString | src/json.cc:434-477 | Chunks, escapes and unicode sequences add up to the specified string, or fail with it |
| JsonUnicode.Utf8Encodes | src/json.cc:411-430 | The bytes written for a code point are its encoding by the definition of UTF-8, with its payload bits and the least length |
| JsonUnicode.EncodesOnce | src/json.cc:411-430 | No code point has two encodings |
| JsonUnicode.UnitReads | src/json.cc:366-430 | Backslash, u and four hex digits that are no high surrogate are read as the UTF-8 bytes of their value |
| JsonUnicode.PairReads | src/json.cc:386-409 | A high and a low surrogate are read as the bytes of the code point they stand for together |
| JsonUnicode.LoneHighFails | src/json.cc:386-408 | A high surrogate with no low one behind it is an error |
| JsonUnicode.NoDigitsFails | src/json.cc:366-384 | So is backslash and u without four hex digits |
| JsonUnicode.ShortEscapes | src/json.cc:446-466 | The eight short escapes stand for their characters, and no others are accepted |
| JsonParse.ReadObject | src/json.cc:580-639 | The object loop returns the members, or the failure, of the recursive specification, and terminates on the text left |
| JsonParse.ReadArray | src/json.cc:641-675 | The array loop returns the elements, or the failure, of the recursive specification, and terminates on the text left |
| JsonParse.ParseFrom | src/json.cc:677-703 | The whole parser returns what the specification says, with nothing but white space behind the value |
| JsonGrammar.ParseIff | src/json.cc:677-703 | The parser returns v exactly if the grammar derives v from the text: it accepts no other text and gives no other value |
| JsonGrammar.ValueIsRead | src/json.cc:580-675 | Whatever the grammar derives at a position is read there with that value, up to its end |
| JsonGrammar.ReadIsValue | src/json.cc:580-675 | Whatever is read at a position the grammar derives there |
| JsonGrammar.KeyIff | src/json.cc:479-488 | A key is read as exactly the characters up to the next quote, cut at a NUL |
| JsonGrammar.TokenIff | src/json.cc:537-573 | A token is read as exactly the constant or number its text up to the next delimiter denotes |
| JsonRoundTrip.EscapedParses | src/json.cc:118-149 | Reading the escaped form of any string gives the string back |
| JsonRoundTrip.RawNulFails | src/json.cc:114-117 | A string printed raw with a NUL in it cannot be read |
| JsonRoundTrip.StringParses | src/json.cc:434-477 | A printed string is read as the string cut at its first NUL, or not at all |
| JsonRoundTrip.ValueParses | src/json.cc:580-675 | A value printed anywhere in a text, in any style, is read as its cut form and the reader stops at its end |
| JsonRoundTrip.DocumentParses | src/json.cc:677-703 | Parsing the text of an array or object with plain keys gives its cut form, for either printer and every indent |
| JsonRoundTrip.RoundTrip | src/json.cc:677-703 | Parsing what was printed gives the value back iff keys hold no quote and strings no NUL, for every nesting, either printer and every indent |
| JsonRoundTrip.ReadKeysPlain | src/json.cc:479-488 | Every value the parser returns has keys without quotes |
| Itoa.InitItoaTable | src/fast.cc:23-40 | Entry i holds the digits of i padded to four and, in its spare bits, how many of them count |
| Itoa.U32ToA | src/fast.cc:135-162 | Exactly the canonical decimal of v is written, with its length returned and nothing else touched |
| Itoa.U64ToA | src/fast.cc:164-210 | Exactly the canonical decimal of v is written from the words of the table, with its length returned and nothing else touched |
| Itoa.I64ToA | include/co/fast.h:46-50 | The same with a sign, also for the least value |
| Itoa.I32ToA | include/co/fast.h:40-44 | The same for 32 bits |
| Atoi.FastAtoi | src/json.cc:490-535 | The wrapping accumulation and its overflow tests return the number of the digits or refuse them |
| Atoi.AtoiOfText | src/json.cc:490-535 | On the text of an integer it succeeds iff the number lies in [-2^63, 2^64 - 1], and is the identity on int64 |
| Atoi.AtoiOfCanonical | src/json.cc:490-535 | On every canonical digit string, alone or behind a +, it succeeds iff the number is below 2^64, behind a - iff it is at most 2^63, and returns the number in 64 bits |
| Grisu.GrisuRound | include/co/__/dtoa_milo.h:234-241 | The last digit is lowered as long as that comes closer and stays within delta, and never below 0 |
| Grisu.NearestUnits | include/co/__/dtoa_milo.h:234-241 | What GrisuRound leaves is a decimal of the interval nearest to the value: none of the same unit is nearer |
| Grisu.CountDecimalDigit32 | include/co/__/dtoa_milo.h:243-255 | The result is the length of the decimal text of n: the k with 10^(k-1) <= n < 10^k |
| Grisu.IntegerDigits | include/co/__/dtoa_milo.h:265-290 | The integer loop keeps digits and remainder adding up to the number, without overflow, in at most ten characters |
| Grisu.FractionDigits | include/co/__/dtoa_milo.h:293-312 | So does the fraction loop, with delta scaled without overflow, in at most 21 characters of both loops together, and it ends after exactly as many digits as bring the scaled remainder below the scaled delta |
| Grisu.DigitGen | include/co/__/dtoa_milo.h:257-313 | The digits and exponent denote a number within delta below the upper bound, no decimal with a larger exponent lies inside, all characters are digits, there are at most 21 of them, no step overflows, and the power table is read behind its tenth entry iff the remainder exceeds delta and nine more digits do not bring it below; unless it is, and as long as W lies within delta, no decimal in the interval with the same exponent is nearer to W |
| Grisu.PastTableAt | include/co/__/dtoa_milo.h:309 | With f = 2^63 + 2^29, e = -60 and delta = 2^10 the table is read behind its end |
| Prettify.WriteExponent | include/co/__/dtoa_milo.h:345-368 | Exactly the signed decimal of K is written, a NUL behind it, and what stands before is untouched |
| Prettify.Prettify | include/co/__/dtoa_milo.h:370-410 | The in-place shifts leave exactly the layout for the digits and exponent, with its length and a NUL behind it |
| Prettify.LayoutDenotes | include/co/__/dtoa_milo.h:370-410 | In all five layouts the text denotes exactly digits * 10^k |
| Prettify.LayoutForm | include/co/__/dtoa_milo.h:370-410 | An exponent is written exactly if more than 21 digits would stand before the point or more than five zeros follow it; otherwise there is exactly one point, among digits |
| FlagInt.IntToString | src/flag.cc:77-90 | The loop prints the specified reduction and unit |
| FlagInt.FlagTextDenotes | src/flag.cc:77-90 | For every integer the printed text is a number with unit that denotes it; what stands before a unit is at least 1024 times smaller |
| FlagInt.Int64Exact | src/str.cc:263-291 | to_int64 returns the number denoted iff it is an int64, and refuses everything else, save for errno left over at the two extreme readings |
| FlagInt.Uint64Exact | src/str.cc:293-322 | On every text, signed or not, to_uint64 is right about value and overflow iff the text is not misjudged: the greatest value with errno left over, a number with a unit within reach of 2^64 or equal to 2^63, or a negative number that is taken for its distance from 2^64 |
| FlagInt.MinusOneMisjudged | src/str.cc:293-322 | to_uint64 reads "-1" as 2^64 - 1 |
| FlagInt.LargeUnitMisjudged | src/str.cc:293-322 | to_uint64 reads 2^63 with a k behind it as 0 |
| FlagNumber.NumeralIsRead | src/str.cc:263-322 | Blanks, a sign, a prefix 0x or 0 and digits are read as the number they denote in base 16, 8 or 10, up to the first character that is no digit |
| FlagNumber.NoNumeral | src/str.cc:263-322 | Without a digit nothing is read |
| FlagNumber.UnitLetters | src/str.cc:241-261 | The letters k, m, g, t, p of either case stand for the powers of 1024, and no other character is a unit |
| FlagInt.FlagRoundTrip | src/flag.cc:50-69 | For every integer type and value, what is printed is read back as that value, unless errno is ERANGE and the value is the greatest of a 64-bit type: then it is refused |
| FlagInt.Flag.SetValue | src/flag.cc:50-69 | The flag takes the value its type's conversion returns and keeps the old one when the text is refused |
| FlagInt.Flag.GetValue | src/flag.cc:92-105 | The flag is printed by its value |
| FlagInt.Flag.Restore | src/flag.cc:50-105 | Setting a flag from the text of another of its type copies the value, with the errno condition exact |
| Base64.EncodeBytes | src/hash/base64.cc:25-62 | The shifts and masks write the encoding by 24-bit groups, in exactly the 4 * ceil(n / 3) characters the string is sized to |
| Base64.ShiftsAreSextets | src/hash/base64.cc:37-44 | The shifts cut three bytes into their four sextets |
| Base64.AlphabetIsRfc | src/hash/base64.cc:3-23 | The symbols are the alphabet of RFC 4648 in its order, and the decoder knows exactly these |
| Base64.DecodeText | src/hash/base64.cc:64-123 | The decoder returns what the specification says or fails with it, and writes at most n * 3 / 4 bytes |
| Base64.WrappedDecodes | src/hash/base64.cc:64-123 | Decoding undoes encoding with any line break of at most two characters behind any quads |
| Base64.RoundTrip | src/hash/base64.cc:25-123 | Decoding undoes encoding iff the input is not empty |
| Md5.Md5Context.Update | src/hash/md5.cc:218-250 | An update extends the message by its data: counters, buffer and registers all stand for it |
| Md5.Md5Context.Finish | src/hash/md5.cc:252-299 | The digest of the message padded as RFC 1321 says, and a wiped context |
| Md5.Md5Context.Body | src/hash/md5.cc:91-206 | The block loop folds the open block function over all whole blocks |
| Md5.CounterMeaning | src/hash/md5.cc:222-227 | hi * 2^29 + lo is the byte count modulo 2^61 |
| Md5.LengthField | src/hash/md5.cc:268-277 | The eight length bytes are the bit count modulo 2^64, little endian |
| Md5.PaddingIsRfc | src/hash/md5.cc:252-279 | The padded message is the message, a one bit, the fewest zero bits and the bit count modulo 2^64, low bytes first, in whole blocks |
| Md5.PaddedParts | src/hash/md5.cc:252-279 | The padding in two parts, with a block of its own for the first where the length has no room, is the padding of RFC 1321 |
| Md5.Md5Context.PadFirst | src/hash/md5.cc:252-266 | After the 0x80, and a block of zeros where needed, the context stands for the message with the first part of the padding |
| Md5.Md5Context.PadLast | src/hash/md5.cc:266-279 | Zeros, the two counter words and the last block complete the fold over the padded message |
| Md5.HashChunks | src/hash/md5.cc:218-299 | Any sequence of updates gives the digest of the concatenation |
| Md5.InitialBytes | src/hash/md5.cc:208-216 | The initial registers have the bytes RFC 1321 lists, in its order |
| Md5.OutputBytes | src/hash/md5.cc:281-296 | The four registers go out in their order, low bytes first |
| Path.CleanInPlace | src/path.cc:5-51 | The loop with its three indices writes the path normalised by an element stack, never past the input length |
| Path.ElementsJoin | src/path.cc:5-51 | The elements of a path are what stands between its slashes |
| Path.SamePlace | src/path.cc:5-51 | From every directory the cleaned path leads where the path leads, and is rooted iff the path is |
| Path.SameCleanIff | src/path.cc:5-51 | Two paths are cleaned to the same one iff both or none are rooted and they lead to the same place from every directory |
| Path.Idempotent | src/path.cc:5-51 | Cleaning twice is cleaning once |
| Path.JoinCleaned | include/co/path.h:24-27 | The first of two joined parts may be cleaned beforehand |
| Path.Shortest | src/path.cc:5-51 | No path that is rooted or not like s and leads to the same place from every directory is shorter than the cleaned one |
| RFind.FillTable | src/fastring.cc:79-80 | The table holds the leftmost position of every byte |
| RFind.NoneAbove | src/fastring.cc:86-89 | Every alignment that a shift skips is a mismatch |
| RFind.RFindText | src/fastring.cc:72-91 | The greatest position where sub occurs, or none iff there is none |
| RFind.RFindSub | src/fastring.cc:68-70 | The same for every C string, with one character searched up to the first NUL; right for the whole text iff that character does not occur behind a NUL |
| RFind.MissesBehindNul | src/fastring.cc:68-70 | An a behind a NUL is not found |
| LruMap.LruMap.FindKey | include/co/lru_map.h:33-41 | A found key becomes the last used, by moving its own list node |
| LruMap.LruMap.InsertKey | include/co/lru_map.h:44-57 | A key that exists is left alone; a new one is the last used, and beyond the capacity the last of the list goes from all three containers |
| LruMap.LruMap.EraseKey | include/co/lru_map.h:59-70 | The key goes from all three containers, the others keep their order |
| LruMap.LruMap.ClearAll | include/co/lru_map.h:72-76 | All three containers are empty |
| LruMap.OrderIsLastUse | include/co/lru_map.h:33-76 | After any sequence of operations the list is ordered by last use and within the capacity, so only the key found or inserted longest ago is evicted |
| LruMap.ContentsAfter | include/co/lru_map.h:33-76 | After every history, an operation changes exactly the key it is for; a new key gets its value, and from a full cache exactly the key used longest ago goes |

## Left out

- EventRace.RunsAreSafe: holds under the discipline on new waits, which the code does not enforce; EventRace.DisciplineIsExact shows it is needed.
- EventProgress.SignalWakes: clocks and fair scheduling are not modelled, so a continuation that resumes the coroutine is shown, not a time bound; which timers are due is left open to the checker (its order is in Timers).
- Wakeup.NoWakeupIsLost: read errors of the pipe other than EAGAIN and EINTR, and epoll_wait itself failing, are not modelled.
- CoMutex.StepKeeps: unlocking by anybody but the owner is not modelled.
- SharedStack.Scheduler.Resume: the context-switch assembly is the step "control moves and the stack may be rewritten"; stack overflow, and the main context itself, are not modelled.
- EventMap.ReportsReachTheirCoroutines: one scheduler owns each descriptor although the table is static; closing a descriptor without deleting it first is not modelled.
- EventMap.Epoll.HandleBatch: a coroutine runs from its resume to its yield without another thread changing the table.
- Grisu.DigitGen: does not state that the result is the closest or shortest decimal overall, which Grisu2 does not promise; what stands behind the tenth entry of the powers table is arbitrary, so the digits hold for whatever is read there.
- Prettify.Prettify: takes the digits and exponent as given; the rounding of a double into an upper bound and a distance (`DiyFp`, cached powers) is left out.
- JsonRoundTrip.RoundTrip: the text codec of doubles is a parameter assumed to read back what it writes; top-level values other than arrays and objects are not printed for parsing.
- JsonText.PrintPretty: indents are natural numbers without the overflow of int.
- FlagInt.Int64Exact: texts are C strings without a NUL, and the C library's strtoll and strtoull are modelled from their definition with base 0.
- Base64.DecodeText: the source looks at the byte before an empty text; whatever that byte is, it then fails, as the model does.
- Md5.Md5Context.Body: the 64 rounds of one block are a function parameter.
- The protocols between threads are machines rather than objects shared by threads: update in place under a lock is one step, and memory ordering weaker than sequential consistency is not modelled.
- kqueue and Windows branches, sockets, hooks and DNS: platform calls.
- HTTP, RPC and TCP servers and clients, the log thread, the task scheduler thread, file system, time and stack-trace wrappers: input and output around the parts modelled.
- Flag files and command lines, strings, bools and doubles as flags: no arithmetic to prove.
- `fastring::match` and the other string functions: their patterns have no clear specification, or are one loop each.
- JSON reference counts and the allocator of values: values are datatypes here.
- Hash functions other than MD5, hexadecimal printing, `swap` of two caches: easy next to what is modelled.
