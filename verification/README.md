# CPU scheduling simulator: verified model of the scheduling engine

The program simulates six classical CPU scheduling disciplines over a fixed
set of process records (`pid`, `arrival`, `burst`, `priority`, `waiting`,
`turnaround`, `remaining`) in integer simulated time:

- first-come-first-served, shortest-job-first and priority scheduling, each a
  `qsort` with its own comparator followed by one sweep that runs every record
  to completion in sorted order (`NonPreemptive`, `Sorting`, `Comparators`);
- preemptive shortest-remaining-time-first and preemptive priority, which
  step the clock one tick at a time and give each tick to the eligible record
  with the smallest key (`Preemptive`);
- round-robin with a quantum of 3, which cycles over the records in array
  order (`RoundRobin`);
- the running totals of `evaluate` (`Metrics`).

A record is a value (`Processes.Process`); every scheduler is a method that
updates an `array<Process>` in place, as the C functions update their
`Process *` arrays. Each method is proved against specification functions,
and the properties of those functions are proved as lemmas:

- after a non-preemptive schedule, the array is the sweep of a sorted
  permutation of its input. Every record waits a non-negative time and has
  `turnaround == waiting + burst`. Each starts at the later of its arrival and
  its predecessor's end, and no two runs overlap;
- the preemptive scan picks an eligible record with the minimal key, ties going
  to the lowest index. Each loop iteration either runs that record for one tick
  or only advances the clock. The array ends exactly as the ghost function
  `Preemptive.Run` gives: those iterations repeated until every record has
  completed. So every record ends finished, in place, with its fixed fields
  intact;
- a round-robin turn lasts `min(remaining, 3)`. A pass advances the clock by
  exactly the service it grants. A pass that grants nothing changes nothing.
  Records already complete are never touched again. The array, the final
  clock and whether the loop hangs are exactly what `RoundRobin.RrFrom`
  gives: passes repeated until every record has completed or a pass is a
  fixed point;
- the turnaround total equals the waiting total plus the burst total.

The record generator's guarantees (`create_processes`, myCode.cpp:57-68) are
`Processes.Generated`. The schedulers require only what they need from them:
`Processes.Pending` (`remaining == burst >= 1`) for the tick- and quantum-driven
ones, and for the preemptive ones a key below `INT_MAX`.

Points where the code's behaviour is easy to misread:

- the sort is `qsort`, which is not stable. Records whose comparator keys tie
  may end in any order, so only a sorted permutation is stated;
- round-robin has no idle-time advance (see Findings);
- round-robin grants a record whose `remaining` equals the quantum its whole
  remaining service in one turn, because `remaining > TIME_QUANTUM` is false
  then. For P1 (arrival 0, burst 5) and P2 (arrival 1, burst 3), P2 runs
  3..6; `RoundRobin.RoundRobinTwoProcesses` states the whole schedule;
- the code keeps no timeline (Gantt chart), so none is modelled;
- nothing rejects an empty process set.

## Model

| member | source | states |
|---|---|---|
| `Processes.GeneratedIsPending` | myCode.cpp:57-68 | every record `create_processes` fills is pending (`remaining == burst >= 1`) with `remaining` and `priority` below `INT_MAX`, so it meets the schedulers' preconditions |
| `Processes.Complete` | myCode.cpp:114-117 | completing a record at time `now` sets `remaining` to 0, makes `arrival + turnaround == now` and `turnaround == waiting + burst`, and changes no fixed field |
| `Processes.IdleAwaitsArrival` | myCode.cpp:111-121 | when a record is unfinished but none is eligible at `t`, some record arrives after `t`: an idle clock has somewhere to go |
| `Processes.CountDone` | myCode.cpp:101-117 | the number of completed records lies in 0..n; it is n exactly when every `remaining` is 0 and 0 exactly when none is |
| `Comparators.CompareFcfs` | myCode.cpp:30-34 | negative, zero or positive exactly as the first record arrives earlier than, together with, or later than the second |
| `Comparators.CompareSjf` | myCode.cpp:37-44 | negative, zero or positive exactly as (burst, arrival) of the first is lexicographically smaller than, equal to, or greater than that of the second |
| `Comparators.ComparePriority` | myCode.cpp:47-54 | negative, zero or positive exactly as (priority, arrival) of the first is lexicographically smaller than, equal to, or greater than that of the second |
| `Comparators.LeTotal` | myCode.cpp:30-54 | any two records are comparable under each comparator |
| `Comparators.LeTransitive` | myCode.cpp:30-54 | "may precede" under each comparator is transitive |
| `Comparators.LeSameJob` | myCode.cpp:30-54 | the comparators read only fields no scheduler writes |
| `Sorting.SortInPlace` | myCode.cpp:72 | after `qsort`, the array is a permutation of its old contents, non-decreasing by the comparator |
| `NonPreemptive.Finish` | myCode.cpp:73-81 | the sweep of a non-empty prefix ends no earlier than its last record's arrival plus burst |
| `NonPreemptive.FinishMonotone` | myCode.cpp:73-81 | with non-negative bursts, sweeping a longer prefix never ends earlier |
| `NonPreemptive.Start` | myCode.cpp:75-77 | a record starts no earlier than its arrival and no earlier than the end of the records before it |
| `NonPreemptive.Swept` | myCode.cpp:78-80 | the swept record keeps its fixed fields and `remaining`, has `arrival + waiting` equal to its start and `turnaround == waiting + burst` |
| `NonPreemptive.FinishStep` | myCode.cpp:79 | the sweep of the first i+1 records ends when record i ends: its start plus its burst |
| `NonPreemptive.Sweep` | myCode.cpp:73-81 | every record of the array gets the waiting and turnaround times of the sweep of the array's old contents, in order |
| `NonPreemptive.ScheduledSorted` | myCode.cpp:71-82 | after sort and sweep, the array is sorted by the policy's comparator |
| `NonPreemptive.ScheduledTimes` | myCode.cpp:78-80 | after sort and sweep, every record has `waiting >= 0` and `turnaround == waiting + burst` |
| `NonPreemptive.ScheduledStarts` | myCode.cpp:73-79 | the first record starts at max(0, arrival); every later record at max(end of its predecessor, its arrival) |
| `NonPreemptive.ScheduledNoOverlap` | myCode.cpp:73-81 | with non-negative bursts, every record ends no later than any later record starts |
| `NonPreemptive.ScheduleFcfs` | myCode.cpp:71-82 | the array is the sweep of a permutation of its input sorted by arrival |
| `NonPreemptive.ScheduleSjf` | myCode.cpp:85-96 | the array is the sweep of a permutation of its input sorted by (burst, arrival) |
| `NonPreemptive.SchedulePriority` | myCode.cpp:126-137 | the array is the sweep of a permutation of its input sorted by (priority, arrival) |
| `Preemptive.BestIsChoice` | myCode.cpp:105-110 | the scan over the first n records yields -1 exactly when none of them is eligible, and otherwise the index the selection rule names among them |
| `Preemptive.ChoiceSpec` | myCode.cpp:103-110 | the scan over all records yields -1 exactly when no record is eligible, and otherwise an eligible record with minimal key, strictly below that of every eligible record before it |
| `Preemptive.PickNext` | myCode.cpp:103-110 | returns -1 exactly when no record is eligible; otherwise an eligible record whose key is minimal among eligible records and strictly below that of every eligible record before it; it is the scan's choice `Choice` |
| `Preemptive.ChoiceUnique` | myCode.cpp:103-110 | at most one index satisfies the selection rule |
| `Preemptive.Tick` | myCode.cpp:112-118 | one tick of service lowers `remaining` by one; on reaching 0 the record ends at `now` with `turnaround == waiting + burst`, otherwise its times are untouched |
| `Preemptive.TickTracked` | myCode.cpp:111-118 | serving an eligible record for one tick keeps it consistent: `remaining` in 0..burst, service fitted after its arrival, completed times non-negative and consistent |
| `Preemptive.NextOutcome` | myCode.cpp:102-122 | from records none of which is owed negative service, with one unfinished, an iteration either lowers the total service owed or changes nothing while a record has yet to arrive |
| `Preemptive.Run` | myCode.cpp:102-122 | iterating from any records owed non-negative service always ends, with as many records, all completed |
| `Preemptive.RunStep` | myCode.cpp:102-122 | while a record is unfinished, the loop's outcome from a state is its outcome from the state one iteration later, one tick on |
| `Preemptive.Step` | myCode.cpp:103-121 | one iteration advances the clock by one, picks the scan's choice, leaves the array as `Next` gives (that record run for one tick, or nothing changed when no record is eligible) and keeps `completed` equal to the number of completed records |
| `Preemptive.NextTracked` | myCode.cpp:111-121 | an iteration keeps every record consistent and every key below `INT_MAX` |
| `Preemptive.StepOutcome` | myCode.cpp:102-122 | on a consistent state with a record unfinished, an iteration keeps every record consistent, is one step of `Run`, and either lowers the owed service or waits for a record that has yet to arrive, so the loop terminates |
| `Preemptive.RunPreemptive` | myCode.cpp:100-122 | from pending records with keys below `INT_MAX`, the array ends as `Run` from time 0 gives it: every record finished (`remaining == 0`, `waiting >= 0`, `turnaround == waiting + burst`) at its own index with `pid`, `arrival`, `burst` and `priority` unchanged |
| `Preemptive.SchedulePsjf` | myCode.cpp:99-123 | the array ends as `Run` with the key `remaining` gives it, every record finished in place |
| `Preemptive.SchedulePpriority` | myCode.cpp:140-164 | the array ends as `Run` with the key `priority` gives it, every record finished in place |
| `Preemptive.RunTwoAlone` | myCode.cpp:111-118 | once one of two records has completed, the other runs tick after tick from any instant it is eligible and completes `remaining` ticks later |
| `Preemptive.NextTwo` | myCode.cpp:103-121 | on two records an iteration runs the first when it is eligible and its key is not larger than an eligible second's, else the second if eligible, else nothing |
| `Preemptive.RunTwoIsRun` | myCode.cpp:102-122 | on two records, `Run` agrees with the scan-free reference `RunTwo` |
| `Preemptive.PsjfPreemptsForShorterArrival` | myCode.cpp:99-123 | P1 (arrival 0, burst 6) and P2 (arrival 2, burst 2): P2 preempts P1 at 2 and completes at 4 with waiting 0; P1 completes at 8 with waiting 2 |
| `Preemptive.PpriorityPreemptsForHigherPriority` | myCode.cpp:140-164 | P1 (arrival 0, burst 3, priority 2) and P2 (arrival 1, burst 1, priority 1): P2 preempts P1 at 1 and completes at 2 with waiting 0; P1 completes at 4 with waiting 1 |
| `RoundRobin.Grant` | myCode.cpp:172-182 | a turn lasts min(remaining, 3) units and lowers `remaining` by as much; a record it completes ends at the turn's end with `turnaround == waiting + burst` |
| `RoundRobin.PassFrom` | myCode.cpp:171-184 | a pass keeps the number of records and never moves the clock back |
| `RoundRobin.PassWork` | myCode.cpp:171-184 | a pass advances the clock by exactly the total service it grants |
| `RoundRobin.PassIdle` | myCode.cpp:170-185 | a pass leaves the clock unchanged exactly when no record is eligible at its start, and then it changes no record either |
| `RoundRobin.PassTracked` | myCode.cpp:171-184 | a pass keeps every record consistent (`remaining` never negative, completed times consistent and non-negative) and never touches a completed record again |
| `RoundRobin.RoundRobinPass` | myCode.cpp:171-184 | the `for` loop computes the pass, and `completed` ends equal to the number of completed records (so never above n) |
| `RoundRobin.PassOwing` | myCode.cpp:171-184 | a pass never leaves a record owed negative service |
| `RoundRobin.RrFrom` | myCode.cpp:170-185 | repeating passes from records owed non-negative service either completes every record, or reaches a state with a record unfinished at which the pass changes neither records nor clock |
| `RoundRobin.RrIdleFrom` | myCode.cpp:170-185 | repeating passes, with one idle tick after a pass that grants nothing, always completes every record |
| `RoundRobin.PassOutcome` | myCode.cpp:170-185 | with a record unfinished, a pass keeps every record consistent; a pass that moves the clock lowers the owed service, and both loops continue from the state it leaves; one that does not changes nothing, some record has yet to arrive, `RrFrom` stops there and `RrIdleFrom` continues one tick later |
| `RoundRobin.ScheduleRr` | myCode.cpp:167-186 | the array, the final clock and `stalled` are what `RrFrom` from time 0 gives: either every record finishes, or the loop reaches a state with a record unfinished at which the pass is a fixed point, so the C loop never ends |
| `RoundRobin.ScheduleRrIdleAdvance` | myCode.cpp:167-186 | with an idle tick after a pass that grants nothing, the array ends as `RrIdleFrom` from time 0 gives it: every record finished with its fixed fields unchanged |
| `RoundRobin.RoundRobinStallsBeforeFirstArrival` | myCode.cpp:170-185 | a set `create_processes` can produce (one process arriving at time 1) on which `schedule_rr` reaches its fixed point at time 0; with the idle tick the process runs 1..2 |
| `RoundRobin.RoundRobinTwoProcesses` | myCode.cpp:170-185 | P1 (arrival 0, burst 5) and P2 (arrival 1, burst 3): P2 completes at 6 with waiting 2, P1 at 8 with waiting 3, and the loop ends at 8 |
| `RoundRobin.RoundRobinSkipsLateArrival` | myCode.cpp:170-185 | P1 and P3 (arrival 0, burst 1) and P2 (arrival 2, burst 1): the first pass skips P2 and runs P3 1..2; P2 runs 2..3 in the second pass; waiting times 0, 0 and 1 |
| `Metrics.Evaluate` | myCode.cpp:204-208 | the loop yields the sums of `waiting` and of `turnaround` over the array |
| `Metrics.TotalsBalance` | myCode.cpp:204-208 | when every record has `turnaround == waiting + burst`, the turnaround total is the waiting total plus the burst total |

## Findings

| source | as written | input that shows it | evidently intended | confidence | as-written member | corrected member |
|---|---|---|---|---|---|---|
| myCode.cpp:170-185 | `schedule_rr` only advances `current_time` when it grants a record a turn. If a whole pass finds no record that has arrived and still needs service, the `while` loop repeats that same pass forever. | one process with pid 1, arrival 1, burst 1, priority 1: at time 0 nothing is eligible | after a pass that grants nothing, advance the clock by one tick and retry | not executed; the fixed point is proved | `RoundRobin.ScheduleRr`, `RoundRobin.RoundRobinStallsBeforeFirstArrival` | `RoundRobin.ScheduleRrIdleAdvance` |

## Left out

- `RoundRobin.ScheduleRr`: where the C loop would spin forever, the model stops and returns `stalled`, together with a proof that the pass is a fixed point there. Dafny requires every loop to terminate.
- `Preemptive.RunPreemptive`, `Preemptive.SchedulePsjf`, `Preemptive.SchedulePpriority`: a key equal to `INT_MAX` is never selected, because the scan starts from that value and compares with `<`. Such a record would make the C loop run forever, so the methods require keys below `INT_MAX`. `create_processes` never produces such keys.
- The schedulers also require `remaining == burst >= 1`. With a zero burst, the C `completed` counter of the preemptive loops and of round-robin never reaches n.
- `qsort` internals: `Sorting.SortInPlace` is given a body, a functional insertion sort copied back into the array. Only its sorted-permutation contract is used.
- The order `qsort` gives records whose keys tie is not modelled, since `qsort` is not stable.
- C `int` overflow in the subtracting comparators and in the clocks is not modelled. The fields are small and Dafny integers are unbounded.
- `evaluate`'s floating-point averages and `printf` are not modelled, only the integer totals. For n = 0 the C divides by zero; the model's totals are 0.
- `execute_process` and the `pthread_create`/`pthread_join`/`sleep` loops are not modelled: they are wall-clock pacing and output, not scheduling.
- `create_processes` is not modelled as code: it uses `rand`, `srand` and `time`. Its postcondition is the predicate `Processes.Generated`.
- `main` is not modelled: input, allocation, copying the base set into six arrays, and table printing.
