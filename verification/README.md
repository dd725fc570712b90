# CACAO: locking, exact arithmetic and containers

This project models four self-contained parts of the CACAO virtual machine and proves what they
promise, for all inputs, all runs and all reachable states.

- **Monitors** (`Monitor*.dfy`, `Lockword.dfy`, `LockHashtable.dfy`, `ThreadList.dfy`). The thin/fat
  lock protocol is a transition system over any number of threads, objects and lock records. Every
  shared read, write, compare-and-swap and mutex operation is one step; the steps of all threads
  interleave freely. The specification is the re-entrant monitor with wait sets of sections 17.1 and
  17.2 of the Java Language Specification, Java SE 7 edition. The encoding of lockwords, the table of
  lock records and the thread lists are modelled separately, as classes.
- **fdlibm** (`Sqrt.dfy`, `Fmod.dfy`, `FloorCeil.dfy`, `RemPio2.dfy`, `RemPio2Value.dfy`, over
  `Bits.dfy`, `Ieee.dfy` and `Words.dfy`). The routines work on pairs of 32-bit words with manual carries. A finite double is a
  whole number of units of 2^-1074, so all statements are about integers.
- **HashTable** (`HashTable.dfy`, `TableSpec.dfy`, `Probe.dfy`, `Util.dfy`). Open addressing with
  tombstones and perturbed probing, compared with a finite map.
- **AVL tree** (`Avl.dfy`, `AvlSpec.dfy`). Insertion in place with stored balances, proved against
  insertion into a tree value, for every comparator that is a total preorder.

`dafny verify dfyconfig.toml` checks everything.

## How the monitor proof is organised

`MonitorModel` gives each thread a program counter and each operation a function from the state and
the counter to the next state. `MonitorInv` states the invariant: facts about the shared state, facts
about each thread that depend only on its own counter, and for each thread and object the balance
between the depth in the lockword or record and the successful enters minus exits. `MonitorFrames`
and `MonitorSteps` show that each step keeps it: the stepping thread re-establishes its own part, and
what it changes for the others is bounded by a guarantee under which their parts are stable.
`MonitorTheorems`, `MonitorRefinement`, `MonitorOutcomes`, `MonitorSafety`, `MonitorWait`, `MonitorOrder`,
`MonitorInterrupt`, `MonitorProgress` and `MonitorReuse` draw the conclusions. `MonitorCalls` is about whole
calls, from the call to the return: what the abstract monitor sees of each. `MonitorFinish` and
`MonitorAlone` are about calls coming to their end, and say exactly when another thread has to move first.

The transition system reuses thread objects as `thread_new` does: the object of any finished thread may
be reset at any time, whether or not a contender is inside its `flc_lock`. The assertion at lock.cpp
line 703 can fail because of that, and nothing holds after it has failed. So the theorems about runs say
what holds up to the first state in which that assertion fails (`Upheld`), which is where a build with
assertions stops. When it fails is settled on its own in `MonitorReuse`: exactly if a contender can be
overtaken in a certain way, and never in runs in which thread objects are reused with a free `flc_lock`.

Two histories are kept beside the state of the program: successful enters minus successful exits of
each thread on each object, and the outcome of the last operation of each thread. A lockword is either
`Thin(index, count)` or `Fat(record)` here; `Lockword` shows that the encoded words behave so.

## Where the code and its documentation differ

- `next_power_of_two` is documented as the smallest power of two not below its argument. For 0 and for
  arguments above 2^63 it returns 0; `Util.NextPowerOfTwo` states both halves.
- A thread object is reused while a contender may still hold its `flc_lock`: `thread_new` resets
  `flc_bit` without that lock. A contender between its store to the bit and its second look at the
  lockword does not notice. If the new thread takes the very monitor before that look, the contender
  queues with the bit clear and the assertion at line 703 fails. `MonitorReuse.FailsExactly` says that
  the assertion can fail if and only if this can happen. What `thread_new` could check:
  `MonitorReuse.GuardedNeverFails` covers contenders whose object has a fat lock or one about to be
  inflated, or no contender at all because the `flc_lock` is free; `MonitorReuse.ReuseFails` shows the
  failure for contenders whose object is unlocked, or held thin by an idle thread. What is left are
  objects held thin by a thread in the middle of another operation: there it depends on whether that
  thread ever lets go.
- `lock_record_wait` is meant to report an interruption or to leave the flag set. It reads the flag at
  line 1085 and clears it at line 1086, and `threads_thread_interrupt` does not exclude the waiting
  thread from there: an interruption in between is lost. `MonitorWait.InterruptLostExactly` says that
  this is the only way to lose one, and `MonitorInterrupt.InterruptLost` is a run in which it happens.
- `pre_compute_thinlock` takes any 32-bit index, but shifts on 32 bits. `Lockword.IndexFitsExactly`
  says for which indices the word decodes back.

## Model

| member | source | states |
|---|---|---|
| `MonitorSteps.RunInv` | src/threads/lock.cpp:591-977 | the invariant of the protocol holds in every state of every run up to the first failure of the assertion at line 703; thread objects are reused without their flc_lock |
| `MonitorSteps.StepKeepsInv` | src/threads/lock.cpp:658-1205 | every step of every thread keeps the invariant, whatever the other threads are doing, unless it makes the assertion at line 703 fail |
| `MonitorSteps.StepKept` | src/threads/lock.cpp:658-1205 | the part of the invariant about the stepping thread is re-established, and its changes are within what the other threads tolerate |
| `MonitorSteps.RecycleKeepsInv` | src/threads/thread.cpp:266-345 | the reuse of a finished thread keeps the invariant, with or without a contender inside its flc_lock |
| `MonitorTheorems.MutualExclusion` | src/threads/lock.cpp:786-977 | at most one thread is inside a monitor; the lockword or record names it; between operations the encoded depth is its successful enters minus exits |
| `MonitorRefinement.StepRefinesMonitor` | src/threads/lock.cpp:786-1205 | each step leaves every monitor alone or performs one action of a re-entrant monitor with a wait set on the object of the current operation: lock, unlock, begin a wait, take one thread out of the wait set, take the monitor back at the depth given up |
| `MonitorRefinement.RunRefinesMonitor` | src/threads/lock.cpp:786-1205 | every run refines the re-entrant monitor with a wait set, which starts free and empty |
| `MonitorRefinement.WaitSetExact` | src/threads/lock.cpp:990-1018 | while a thread owns a record, the wait set of the object is the waiters of the record that are not signaled |
| `MonitorCalls.EnterLocksOnce` | src/threads/lock.cpp:786-862 | in every run, an enter acts on the monitor exactly once between the call and the return: it locks it, once deeper |
| `MonitorCalls.ExitUnlocksOnce` | src/threads/lock.cpp:900-977 | in every run, an exit that is not refused acts on the monitor exactly once: it unlocks it by one |
| `MonitorCalls.WaitWaitsOnce` | src/threads/lock.cpp:1041-1153 | in every run, a wait that is not refused acts on the monitor exactly twice: it gives it up completely and joins the wait set, and later takes it back as deep as it was |
| `MonitorCalls.NotifyNotifiesOnce` | src/threads/lock.cpp:1170-1259 | in every run, a notify that is not refused is, from the call to the return, one action of the owner on the monitor: it takes one thread out of the wait set unless that is empty; notify-all empties it |
| `MonitorCalls.NotifyReachesFirst` | src/threads/lock.cpp:1170-1259 | of the waiters of a fat lock at the call, a notify signals the first that is not signaled, and no other; notify-all all of them; the list stays the same |
| `MonitorCalls.WaitReports` | src/threads/lock.cpp:1041-1094 | every wait that is not refused looks at its flags before it returns, so that the statements about the report apply to all of them |
| `MonitorOutcomes.OutcomeExact` | src/threads/lock.cpp:900-977 | exit, wait and notify fail exactly for threads that are not inside; each successful enter and exit is counted once; an enter always succeeds, and only a wait can report an interruption |
| `MonitorSafety.NoLostWaiter` | src/threads/lock.cpp:658-716 | until the assertion at line 703 fails, a queued contender is in the list of its owner, whose bit is set, and the owner still owns the object or has to notify first |
| `MonitorSafety.MustNotify` | src/threads/lock.cpp:729-767 | in every run, a thread that has to notify stays in that operation, with that obligation, until its list is empty |
| `MonitorSafety.FatForever` | src/threads/lockword.cpp:44-63 | a fat lockword never changes again |
| `MonitorSafety.InflationLegal` | src/threads/lock.cpp:743-754 | whoever inflates owns the lock; the mutex of the record is free when it is entered; the count is copied before the word is set; an enter inflates only at count 255, and notify_flc_waiters only for a queued contender of the object |
| `MonitorSafety.FattenedBy` | src/threads/lockword.cpp:44-63 | a lock becomes fat only by an inflation of its object by its owner |
| `MonitorSafety.NothingLeftBehind` | src/threads/lock.cpp:729-767 | a thread that is done with its obligation to notify has an empty list and its FLC bit cleared |
| `MonitorSafety.ThinRecordFree` | src/threads/lock.cpp:591-595 | while a lockword is thin, only its owner in the middle of an inflation is inside the mutex of its record |
| `MonitorSafety.NotifierOwns` | src/threads/lock.cpp:736-754 | the other objects in the list of a notifying thread are owned by it while their locks are thin |
| `MonitorSafety.AssertionsNeverFail` | src/threads/lock.cpp:821-861 | until the assertion at line 703 fails, the other assertions of the protocol, in lock.cpp, lockword.hpp and lockword.cpp, hold |
| `MonitorSafety.WaitersExact` | src/threads/lock.cpp:990-1018 | the waiters of a record are, once each, the threads between registration and removal |
| `MonitorSafety.WaitReleasesAndRestores` | src/threads/lock.cpp:1041-1094 | in every state, a thread between giving the monitor up and taking it back is not inside it, and while it reports it is inside as deep as its enters minus exits |
| `MonitorWait.NotifyOutcome` | src/threads/lock.cpp:1179-1205 | from the moment a notify begins to walk the waiters to its return they stay the same, and it has signaled the first one that was not signaled and no other; notify-all has signaled all |
| `MonitorOrder.WaitersInOrder` | src/threads/lock.cpp:990-1018 | in every run, while a thread waits, whoever begins to wait after it stands behind it |
| `MonitorOrder.StepOrder` | src/threads/lock.cpp:990-1018 | a step adds its thread at the end of a list of waiters, takes it out of its place with the others in order, or leaves the list alone |
| `MonitorModel.WithoutCuts` | src/threads/lock.cpp:1012-1018 | removal takes out the one entry and keeps the order of the others |
| `MonitorWait.WaitOutcome` | src/threads/lock.cpp:1080-1094 | a wait that was notified at any time reports no interruption and keeps the flag; another reports one exactly if the flag was set when read, and leaves it set exactly if an interruption came after it was cleared |
| `MonitorWait.InterruptLostExactly` | src/threads/lock.cpp:1084-1089 | an interruption of a wait is neither reported nor kept if and only if it arrives between the read that found the flag clear and the store, in a wait that was not notified, and no other follows |
| `MonitorInterrupt.InterruptDropped` | src/threads/lock.cpp:1085-1086 | every thread that has read its flag as clear loses an interruption that arrives before the store |
| `MonitorInterrupt.InterruptLost` | src/threads/lock.cpp:1041-1094 | a run from the initial state in which that happens |
| `MonitorProgress.FlcHolderNeverBlocks` | src/threads/lock.cpp:675-767 | a thread inside an flc_lock always has a protocol step of its own, and each such step leaves the lock or less to do |
| `MonitorProgress.FlcLockReleased` | src/threads/lock.cpp:675-767 | whatever the others do, a thread moves fewer than 6 times inside the flc_lock of another, and fewer than 10 n + 3 times inside its own with n contenders queued |
| `MonitorFinish.StepAdvances` | src/threads/lock.cpp:658-1259 | every step of a thread that nobody stands in the way of ends its operation or strictly shrinks a bound on the steps it still needs |
| `MonitorAlone.Finishes` | src/threads/lock.cpp:658-1259 | from every point of every operation, such a thread, alone, returns within that bound, with the outcome that `MonitorOutcomes` specifies |
| `MonitorAlone.CallReturnsExactly` | src/threads/lock.cpp:786-1259 | a thread that has called an operation returns from it alone if and only if, for an enter, the monitor is free or its own, and, if it has to run notify_flc_waiters, no other thread is inside its flc_lock |
| `MonitorAlone.EnterAlone` | src/threads/lock.cpp:786-862 | then an enter, on a thin or a fat lock, ends after at most 10 n + 14 steps with the depth one larger, n being the number of queued contenders |
| `MonitorAlone.ExitAlone` | src/threads/lock.cpp:900-977 | then an exit ends after at most 10 n + 7 steps, with the depth one smaller, or refused exactly for a thread that is not the owner |
| `MonitorAlone.NotifyAlone` | src/threads/lock.cpp:1170-1259 | a notify always ends, after as many steps as there are waiters and 3 more, refused exactly for a thread that is not the owner |
| `MonitorAlone.WaitAlone` | src/threads/lock.cpp:1041-1153 | a wait that is woken ends after at most 10 n + 25 steps at the same depth, refused exactly for a thread that is not the owner |
| `MonitorAlone.WaitEndsAlone` | src/threads/lock.cpp:1066-1094 | a thread that is away in a wait returns within 9 steps once the monitor is free, at the depth that it gave up |
| `MonitorAlone.StuckForever` | src/threads/lock.cpp:729-733 | a thread that has to notify while another is inside its flc_lock never returns alone |
| `MonitorAlone.ContenderQueues` | src/threads/lock.cpp:675-708 | a contender that finds the lock still held ends up asleep, outside the flc_lock, at the front of the list of the holder, whose bit is set |
| `MonitorAlone.ContenderRetries` | src/threads/lock.cpp:675-716 | a contender that finds that the holder has let go tries again and leaves bit and list as they were |
| `MonitorAlone.ContendersWoken` | src/threads/lock.cpp:729-767 | a thread with the obligation to notify, alone, wakes every contender in its list before it returns |
| `MonitorReuse.FailsExactly` | src/threads/lock.cpp:675-703 | after any state of any run in which the assertion at line 703 has not failed, it can fail if and only if a contender is about to queue on a thread without FLC bit, or a state can be reached in which a thread without FLC bit owns the monitor that a contender of it is about to look at again |
| `MonitorReuse.ReuseSound` | src/threads/thread.cpp:342-345 | the reuse of a finished thread clears its FLC fields and flags and changes nothing else; by itself it breaks neither the invariant nor the assertion, and overlooks no contender |
| `MonitorReuse.GuardedNeverFails` | src/threads/lock.cpp:675-703 | the assertion holds in every state of every run in which each reused thread has only contenders, between their two looks, whose object has a fat lock or one about to be inflated |
| `MonitorReuse.FreeLockGuards` | src/threads/thread.cpp:342-345 | a free flc_lock is enough for that |
| `MonitorReuse.ReuseFails` | src/threads/thread.cpp:342-345 | for every contender between its two looks at an object that is unlocked or held thin by an idle thread, there is a continuation after the reuse in which its assertion fails |
| `MonitorReuse.ReuseRace` | src/threads/thread.cpp:342-345 | such a situation is reachable from the initial state |
| `Lockword.ThinDecodes` | src/threads/lockword.hpp:96-171 | for indices below 2^22 and every count the thin word decodes to its index and count and is not the unlocked word |
| `Lockword.IndexFitsExactly` | src/threads/lockword.hpp:96-99 | a precomputed word decodes back if and only if the index is below 2^22 |
| `Lockword.IndexLost` | src/threads/lockword.hpp:96-99 | index 2^23 gives the unlocked word |
| `Lockword.ThinWordsDistinct` | src/threads/lockword.hpp:96-99 | equal thin words have equal indices and counts |
| `Lockword.ThinIsNotFat` | src/threads/lockword.hpp:102-111 | no thin word is a fat word |
| `Lockword.CountSteps` | src/threads/lockword.hpp:198-213 | one step of the count is the protocol's increment or decrement of the decoded word |
| `Lockword.Lockword.IsThinLock` | src/threads/lockword.hpp:102-111 | the shape bit tells thin words from fat ones |
| `Lockword.Lockword.GetThinLockWithoutCount` | src/threads/lockword.hpp:156-159 | for every word, thin or fat, the word without its count equals a thread's precomputed word exactly if that thread owns the thin lock |
| `Lockword.Lockword.GetThinLockCount` | src/threads/lockword.hpp:162-165 | the count of the decoded word |
| `Lockword.Lockword.GetThinLockThreadIndex` | src/threads/lockword.hpp:168-171 | the owner of the decoded word |
| `Lockword.Lockword.GetFatLock` | src/threads/lockword.hpp:174-177 | the record of the decoded word |
| `Lockword.Lockword.Lock` | src/threads/lockword.hpp:132-138 | the swap succeeds exactly on the unlocked word and then stores the owner with count 0 |
| `Lockword.Lockword.Unlock` | src/threads/lockword.hpp:144-147 | the stored word is the one that decodes to the unlocked lock, from which the swap succeeds |
| `Lockword.Lockword.IncreaseThinLockCount` | src/threads/lockword.hpp:198-204 | increments the decoded count and nothing else |
| `Lockword.Lockword.DecreaseThinLockCount` | src/threads/lockword.hpp:207-213 | decrements the decoded count and nothing else |
| `Lockword.Lockword.Inflate` | src/threads/lockword.cpp:44-63 | hands the count over and installs the record; a fat word stays |
| `LockHashtable.PushOk` | src/threads/lock.cpp:442-446 | a record pushed onto the chain of its hash leaves every record in its chain and nowhere else |
| `LockHashtable.CutOk` | src/threads/lock.cpp:493-512 | taking a record out of the middle or the front of its chain leaves all others in place |
| `LockHashtable.MoveChain` | src/threads/lock.cpp:294-305 | the inner loop of the growth relinks the records of one chain, each once |
| `LockHashtable.MoveAll` | src/threads/lock.cpp:291-306 | after the growth every record is in the chain of its hash modulo the new size |
| `LockHashtable.LockHashtable.Grow` | src/threads/lock.cpp:265-316 | growth to 2n + 1 slots keeps the function from objects to records |
| `LockHashtable.LockHashtable.Lookup` | src/threads/lock.cpp:419-427 | the loop finds the record of the object, exactly if there is one |
| `LockHashtable.LockHashtable.Get` | src/threads/lock.cpp:397-461 | the record in a fat lockword; otherwise the record of the object in the table: two gets return the same record, a new object gets a new record and no other changes |
| `LockHashtable.LockHashtable.Remove` | src/threads/lock.cpp:474-524 | exactly the record of the object leaves the table |
| `LockHashtable.Predecessor` | src/threads/lock.cpp:504-511 | the search for the preceding record succeeds |
| `ThreadList.ThreadList.GetFreeThread` | src/threads/threadlist.cpp:138-153 | the first free thread with its index, or none with an index that no thread has |
| `ThreadList.ThreadList.NewThread` | src/threads/thread.cpp:266-345 | the first free thread object with its index, or a new one with a new index, in neither list; whatever it held before: new, not interrupted, not signaled, FLC bit clear, FLC list, link and object NULL, internal as asked, its precomputed word; nothing else changes |
| `ThreadList.ThreadList.AddToActiveThreadList` | src/threads/threadlist.hpp:111-124 | appends to the active list; a Java thread adds one to the started and the active threads, and the peak is the larger of the old peak and the active threads |
| `ThreadList.ThreadList.RemoveFromActiveThreadList` | src/threads/threadlist.hpp:126-137 | removes from the active list and keeps the counters exact |
| `ThreadList.ThreadList.ReleaseThread` | src/threads/threadlist.cpp:282-293 | the thread is the last free one and not active, and nothing else about it or the other threads changes |
| `ThreadList.ThreadList.GetThreadByIndex` | src/threads/threadlist.cpp:224-243 | the active, started thread with the index, exactly if there is one |
| `ThreadList.ThreadList.ThinLocksDistinct` | src/threads/lockword.hpp:96-99 | while fewer than 2^22 indices are in use, different threads have different stored words, and different thin-lock words at every count |
| `Sqrt.Normalize` | src/fdlibm/e_sqrt.c:118-131 | the argument equals the significand times the power of two of m, for subnormal arguments too |
| `Sqrt.HighLoop` | src/fdlibm/e_sqrt.c:138-154 | the first loop finds the high bits of the root and keeps the exact remainder |
| `Sqrt.LowLoop` | src/fdlibm/e_sqrt.c:156-171 | the second loop finds the low 32 bits; carries and borrows lose nothing |
| `Sqrt.BitByBit` | src/fdlibm/e_sqrt.c:138-171 | q:q1 is the integer square root of the scaled significand, and the remainder is zero exactly if the root is exact |
| `Sqrt.Round` | src/fdlibm/e_sqrt.c:173-185 | an inexact root is rounded up exactly if it is odd, with the carry out of q1 |
| `Sqrt.Assemble` | src/fdlibm/e_sqrt.c:186-190 | half the rounded root plus the exponent, where a carry lands in the exponent |
| `Sqrt.RootIsNearest` | src/fdlibm/e_sqrt.c:173-190 | the rounded integer root is nearer to the real root than any other double; no halfway case exists |
| `Sqrt.RootOfPositive` | src/fdlibm/e_sqrt.c:118-192 | the nearest double to the square root of every positive finite double |
| `Sqrt.SquareRoot` | src/fdlibm/e_sqrt.c:101-192 | the nearest double, and the special values for NaN, infinities, zeros and negative arguments |
| `Fmod.Ilogb` | src/fdlibm/e_fmod.c:56-72 | the exponent of the leading one, for subnormal operands too |
| `Fmod.Significand` | src/fdlibm/e_fmod.c:74-98 | the aligned significand has the value of the operand |
| `Fmod.ShiftSubtract` | src/fdlibm/e_fmod.c:100-112 | the loop computes the shifted significand modulo the divisor, and the running remainder stays below twice the divisor |
| `Fmod.SubnormalWords` | src/fdlibm/e_fmod.c:124-134 | the shift of a subnormal result drops only zero bits |
| `Fmod.Encode` | src/fdlibm/e_fmod.c:114-136 | the double with the value of the remainder and the sign of the first operand |
| `Fmod.RemainderOfLarger` | src/fdlibm/e_fmod.c:56-137 | the exact remainder if the first operand is the larger |
| `Fmod.Remainder` | src/fdlibm/e_fmod.c:40-138 | for finite operands the exact remainder with the sign of x; NaN for the exceptional operands; x for an infinite y |
| `FloorCeil.RoundHigh` | src/fdlibm/s_floor.c:51-58 | the fraction is cleared in the bit pattern, after one unit has been added for rounding away from zero |
| `FloorCeil.RoundLow` | src/fdlibm/s_floor.c:62-76 | the same for fractions in the low word, with the carry into the high word |
| `FloorCeil.RoundedValue` | src/fdlibm/s_floor.c:51-76 | the rounded pattern is that of an integer next to x, also if the significand overflows into the exponent |
| `FloorCeil.Floor` | src/fdlibm/s_floor.c:42-78 | the greatest integer not above x, with the sign bit of x |
| `FloorCeil.Ceil` | src/fdlibm/s_ceil.c:42-77 | the least integer not below x, with the sign bit of x |
| `FloorCeil.FloorIsGreatest` | src/fdlibm/s_floor.c:42-78 | no integer lies between floor(x) and x |
| `FloorCeil.FloorUnique` | src/fdlibm/s_floor.c:42-78 | the specification of floor determines the bit pattern |
| `FloorCeil.CeilIsNegatedFloor` | src/fdlibm/s_ceil.c:42-77 | ceil(x) and -floor(-x) are the same bit pattern |
| `RemPio2.Products` | src/fdlibm/k_rem_pio2.c:186-189 | the chunks are the convolution of the digits, and exact |
| `RemPio2Value.SetUp` | src/fdlibm/k_rem_pio2.c:181-183 | f holds the digits of 2/pi that are used, and zeros in front of them |
| `RemPio2Value.ProductSplit` | src/fdlibm/k_rem_pio2.c:186-189 | the chunks are the middle of the product of x and f: above them are whole multiples of the weight of the place before the first chunk, and below them less than nx units of the last chunk but one |
| `RemPio2Value.UnitOfChunks` | src/fdlibm/k_rem_pio2.c:178-180 | the exponent q0 that the code computes puts 1 where it is in the product, when x[0] is worth 2^e0 and digit i of 2/pi 2^(-24(i+1)) |
| `RemPio2Value.IntegerStages` | src/fdlibm/k_rem_pio2.c:176-236 | from x, e0 and the digits of 2/pi: their product, with 1 at the place that e0 and the number of digits used determine, is n + g modulo 8 with 0 <= g < 1/2, or n - g with 0 < g <= 1/2 if ih > 0, up to a loss of at most 2^(26-24 jk) for each digit of x but the first |
| `RemPio2.Distill` | src/fdlibm/k_rem_pio2.c:193-198 | distillation preserves the value of the chunks, with digits of 24 bits |
| `RemPio2.SplitLow` | src/fdlibm/k_rem_pio2.c:200-212 | for negative q0 the integer part modulo 8 and the fraction; ih tells whether the fraction is at least one half |
| `RemPio2.SplitHigh` | src/fdlibm/k_rem_pio2.c:200-211 | for q0 = 0, 1, 2 the same, with the top bits of the top digit |
| `RemPio2.Complement` | src/fdlibm/k_rem_pio2.c:215-223 | the carry chain computes the complement of the digits |
| `RemPio2.MaskTop` | src/fdlibm/k_rem_pio2.c:224-231 | the mask on the top digit makes the complement one modulo 1 |
| `RemPio2.RoundUp` | src/fdlibm/k_rem_pio2.c:214-236 | the fraction is replaced by one minus the fraction, for every sign of q0 |
| `RemPio2.Reduce` | src/fdlibm/k_rem_pio2.c:191-236 | the value is n + g modulo 8 with 0 <= g < 1/2, or n - g with 0 < g <= 1/2 if ih > 0 |
| `Util.NextPowerOfTwo` | src/toolbox/util.hpp:41-61 | the least power of two not below n for 1 <= n <= 2^63, and 0 for all other arguments |
| `Util.IsPowerOfTwo` | src/toolbox/util.hpp:63-65 | true exactly for 0 and the powers of two |
| `Util.FastModulo` | src/toolbox/util.hpp:72-77 | the remainder, for powers of two |
| `Probe.SingleCycle` | src/toolbox/hashtable.hpp:253 | i -> 5i + 1 reaches every residue modulo 2^k from every start in fewer than 2^k steps |
| `Probe.PerturbEnds` | src/toolbox/hashtable.hpp:254 | the perturbation is zero after 13 steps |
| `Probe.ProbeVisitsAll` | src/toolbox/hashtable.hpp:222-255 | the probe sequence of every hash code visits every slot within capacity + 13 steps |
| `TableSpec.EmptyEndsSearch` | src/toolbox/hashtable.hpp:232-240 | an empty slot on the probe path of a key proves that it is absent |
| `TableSpec.StoreOk` | src/toolbox/hashtable.hpp:327-340 | storing at the position found keeps every entry reachable on its path and the table a map |
| `TableSpec.DeleteOk` | src/toolbox/hashtable.hpp:383-390 | a tombstone keeps every other entry reachable |
| `TableSpec.EmptySlot` | src/toolbox/hashtable.hpp:463-465 | fewer occupied and deleted entries than slots leave an empty one |
| `HashTable.HashTable.Search` | src/toolbox/hashtable.hpp:222-255 | the probing loop ends, and finds the key or a place for it |
| `HashTable.HashTable.Rehash` | src/toolbox/hashtable.hpp:480-506 | the copying loop builds a table of the same map without tombstones |
| `HashTable.HashTable.GrowTable` | src/toolbox/hashtable.hpp:470-528 | the capacity becomes the least power of two that is large enough, the tombstones go, and the map stays |
| `HashTable.HashTable.Find` | src/toolbox/hashtable.hpp:215-259 | occupied exactly for the keys of the map; below the threshold the table stays, from there on it grows, and afterwards a slot is empty, from capacity 0 upwards |
| `HashTable.HashTable.UpdateAt` | src/toolbox/hashtable.hpp:327-340 | the map is updated at the key, and both counters stay exact |
| `HashTable.HashTable.Insert` | src/toolbox/hashtable.hpp:273-297 | an absent key is added, a present one keeps its value |
| `HashTable.HashTable.Update` | src/toolbox/hashtable.hpp:310-340 | the key has the new value |
| `HashTable.HashTable.Remove` | src/toolbox/hashtable.hpp:383-402 | the key is gone and nothing else changes |
| `HashTable.HashTable.Clear` | src/toolbox/hashtable.hpp:407-414 | the empty map, in the same array |
| `HashTable.HashTable.Reserve` | src/toolbox/hashtable.hpp:419-424 | room for n entries, same map |
| `HashTable.HashTable.SetLoadFactor` | src/toolbox/hashtable.hpp:431-437 | the map and the array stay |
| `AvlSpec.InsertBalanced` | src/toolbox/avl.cpp:205-308 | every stored balance is the difference of the heights and in range; growth is reported exactly if the height increased |
| `AvlSpec.InsertAdds` | src/toolbox/avl.cpp:205-308 | for every total preorder the tree stays ordered and gains exactly the element; insertion aborts exactly for an equal one |
| `AvlSpec.InsertKeeps` | src/toolbox/avl.cpp:205-340 | both together, with the number of entries |
| `AvlSpec.SizeBound` | src/toolbox/avl.cpp:205-308 | a tree of height h has at least Fib(h + 2) - 1 nodes |
| `AvlSpec.LogarithmicHeight` | src/toolbox/avl.cpp:362-378 | the height is logarithmic in the number of nodes |
| `AvlSpec.LookupExact` | src/toolbox/avl.cpp:350-385 | for every total preorder a search finds an equal element exactly if there is one |
| `Avl.RotateLeftAt` | src/toolbox/avl.cpp:116-131 | the links of two nodes are rewritten to the left rotation of the tree |
| `Avl.RotateRightAt` | src/toolbox/avl.cpp:146-161 | the links of two nodes are rewritten to the right rotation of the tree |
| `Avl.AdjustBalanceAt` | src/toolbox/avl.cpp:170-196 | the balances after a double rotation |
| `Avl.RebalanceAt` | src/toolbox/avl.cpp:259-300 | the nodes stand for the rebalanced tree |
| `Avl.InsertAt` | src/toolbox/avl.cpp:205-308 | the nodes stand for the tree with the element, and the result tells whether it grew; a duplicate changes nothing |
| `Avl.AvlTree.Add` | src/toolbox/avl.cpp:317-340 | the tree stays a balanced search tree with the element added; it aborts exactly for a duplicate |
| `Avl.AvlTree.Find` | src/toolbox/avl.cpp:350-385 | the element is found exactly if it was inserted, in a logarithmic number of rounds |

## Left out

- Weak memory: the steps are sequentially consistent, as the barriers at lock.cpp lines 682 and 923-926 are meant to ensure.
- Fair scheduling: the code does not promise that a thread is let in while others keep taking the monitor, and the model does not say so.
- Mutexes and condition variables: entering a mutex is a step that is possible while it is free; a wait may return at any time.
- The lookup in the table of lock records under its mutex is one step of the protocol; the loops are in `LockHashtable`.
- Overflow of `lr->count`, of the table size and entry counter of the lock records, of `_last_index` and of the entry counter of the AVL tree beyond 32 bits.
- Removal of lock records of dead objects, as a step of the protocol: it is modelled on the table only.
- Statistics, JVMTI hooks, debug output, critical sections of the garbage collector and finalizers.
- `flc_list` is a sequence instead of a list linked through `flc_next`; `flc_tail` is not read by the protocol and is not modelled.
- A thread that ends holds no monitor; detaching a thread that does is not modelled.
- The stores of `thread_new` to a reused object are one step: the list is empty already, so that only the store to `flc_bit` matters to a contender.
- LockHashtable.LockHashtable.Get: records are addresses and their fields maps, and the new address is a parameter.
- ThreadList.ThreadList.NewThread: only the fields used by the lists and the locks.
- `src/fdlibm/e_sqrt.c` line 127: the shift by 32 for i = 0 is taken as its intended value 0.
- `huge + x > 0.0` in floor and ceil and the `one - tiny` tests in sqrt are taken as their round-to-nearest outcomes; the inexact flag, NaN payloads and other rounding modes are not modelled.
- RemPio2.Reduce: the recomputation and the floating-point tail of `__kernel_rem_pio2`, and the trigonometric kernels, need facts about pi and rounding errors.
- The comparison of a tombstone with the key in `HashTable::find` is taken as false, as `NameValuePair` makes it; iterators and the load factors 0 and 100 and above are not modelled.
- HashTable.HashTable.Find: a table of 2^63 slots cannot grow, which the assertion on the capacity excludes.
- The comparator of an AVL tree is a pure function of the addresses of its elements; `avl_dump` is not modelled.
