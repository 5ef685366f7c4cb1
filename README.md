# csp_scheduler: a verified model of the allocation core

This project models the logic of the csp_scheduler repository, a small
scheduler for a co-working space, and proves properties of that model.

- **Reservation allocation** (`complexe_scheduler.py`). The `Scheduler` class
  builds a constraint problem from a list of reservations.
  - A reservation is *fixed* when it is accepted or bound to a formation. It
    goes straight into `scheduled_assignments` with its requested place.
  - Every other reservation is *pending*. It becomes a solver variable over
    the 28 places. It gets one conflict constraint per fixed reservation
    already recorded, and one pairwise constraint per later pending
    reservation.
  - `solve` writes the first solution the solver returns back into the
    schedule.
- **Time-slot and room assignment** (`scheduler.py`). Each request's domain
  is its (day, slot, room) triples, with slots in order of preference.
  Requests with different names must get different triples. The script
  keeps the first solution of least total slot rank.
- **Request normalisation** (`request_handler.py` and its copy
  `prototype/request_handler.py`). It covers `parse_days`, the preference to
  time-slot table, and, in the prototype, the choice of reader by file
  suffix. The two copies share this logic, so one model covers both.

Files:

- `reservations.dfy`: the allocation model as values. It has instants, the
  half-open overlap test, the partition, the variables, the constraints as
  tagged data, their meaning, the merge, and the theorems about them.
- `reservation_scheduler.dfy`: the `Scheduler` class. Its methods build
  `scheduled`, the variables and the constraints step by step, and are
  proved to build exactly the values of `reservations.dfy`.
- `timetable.dfy`: `scheduler.py`. It has the slot ranking, the domain
  loops, the pair loop, the score and the best-solution loop.
- `keysort.dfy`: Python's `sorted(…, key=…)` for small integer keys.
- `request_handler.dfy`: normalisation of requests.
- `strings.dfy`: the Python `str` operations used (`split`, `strip`,
  `lower`, `endswith`, `str(int)`, `int(str)`).
- `sequences.dfy` and `wrappers.dfy`: generic helpers, and `Option` and
  `Result`.

Where the code does less than its own comments say, the model follows the
code:

- Rejected reservations are not excluded. The comment at
  complexe_scheduler.py:53 speaks only of auto-approving accepted and
  formation reservations, and the test at :54 sends everything else,
  rejected rows included, to the solver as a pending variable
  (`Reservations.RejectedIsPending`).
- The requested place is not a hard preference, although the comment at
  complexe_scheduler.py:43 calls it "their preference/request". Every domain
  is the full list of 28 places (:66, `Reservations.DomainIgnoresRequestedPlace`).
- The floor preference that the comments at complexe_scheduler.py:117-124
  describe is not implemented. The only strategy is one solver call, and the
  first solution is taken (:134-135).
- The comment at complexe_scheduler.py:69 says a pending reservation cannot
  conflict with a fixed one, but it is only guarded against fixed
  reservations listed *before* it: the `scheduled_assignments` loop at :86
  sees only those. `Reservations.FixedConstraintsExactly` states this, and
  `Reservations.LaterFixedIsNotGuarded` shows that a later fixed reservation
  can be double-booked.
- The comment at complexe_scheduler.py:103 says two pending reservations on
  one place must not overlap, but the lambdas at :104-106 read the loop
  variables late (see "## Findings").

The solver library (`python-constraint`) is not modelled. Its solutions are a
parameter: a sequence of maps from variable names to values. A solver
solution assigns exactly the problem's variables within their domains and
passes every constraint as the solver calls it. For the program as shipped
that is `Reservations.SolvesAsRun` with the last pair's intervals
(`Reservations.LastPairIntervals`), because the pairwise lambdas are late
bound. Theorems stated with `Reservations.Solves`, the intended meaning of
every constraint, such as `Reservations.SolvedScheduleHasNoDoubleBooking`,
are about the corrected program. The guard against earlier fixed
reservations binds its values correctly and also holds as run
(`Reservations.PendingClearOfEarlierFixedAsRun`). An instant is a day number times 1440
plus the minute of the day. This is the order `datetime` comparison gives
for one `%Y-%m-%d %H:%M` stamp.

## Model

| member | source | states |
|---|---|---|
| Reservations.ParseTimeSlotOrder | complexe_scheduler.py:16-18 | Instants compare by day first, then by time of day; distinct (day, time) pairs give distinct instants |
| Reservations.ParseTimeSlot | complexe_scheduler.py:16-18 | `_parse_time_slot` maps a day and a time of day to one instant; `Reservations.InstantParts` recovers both parts from it and `Reservations.ParseTimeSlotOrder` gives its order |
| Reservations.InstantParts | complexe_scheduler.py:16-18 | An instant gives back its day (dividing by 1440) and its time of day (the remainder) |
| Reservations.DoTimesOverlap | complexe_scheduler.py:20-22 | `max(start1, start2) < min(end1, end2)` holds exactly when both intervals are non-empty and each starts before the other ends |
| Reservations.OverlapSymmetric | complexe_scheduler.py:20-22 | The overlap test does not depend on the order of the two intervals |
| Reservations.TouchingIntervalsDoNotOverlap | complexe_scheduler.py:20-22 | Half-open semantics: an interval ending where the other starts does not overlap it, in either order |
| Reservations.AllAvailablePlaces | complexe_scheduler.py:26-36 | The place list has 28 entries: 1 to 25 at positions 0 to 24, then 101, 102 and 103 in that order, and nothing else |
| Reservations.IndexById | complexe_scheduler.py:14 | `_reservations_by_id` holds every row's id, and each id maps to a row carrying that id |
| Reservations.IndexByIdAt | complexe_scheduler.py:14 | With unique ids, each row is found under its own id |
| Reservations.FixedList | complexe_scheduler.py:53-61 | The fixed reservations are exactly the rows that are accepted or have a truthy formation id |
| Reservations.IsFixed | complexe_scheduler.py:54 | A row is fixed when its status is "accepted" or its formation id is truthy (present and non-empty); `Reservations.Partition` and `Reservations.RejectedIsPending` state what follows for the lists |
| Reservations.Truthy | complexe_scheduler.py:54 | `or formation_id`: a missing or empty formation id is false, any other is true; `Reservations.IsFixed` and `Reservations.RejectedIsPending` use it |
| Reservations.PendingList | complexe_scheduler.py:63-67 | The pending reservations are exactly the other rows; fixed and pending together account for every row |
| Reservations.FixedListIsFilter | complexe_scheduler.py:53-61 | The fixed list is the rows filtered by the auto-approval test, in input order |
| Reservations.PendingListIsFilter | complexe_scheduler.py:63-67 | The pending list is the rows filtered by the negated test, in input order |
| Reservations.FixedListInOrder | complexe_scheduler.py:40-61 | The fixed list picks the fixed rows at strictly increasing positions of the input, and every fixed row is picked |
| Reservations.PendingListInOrder | complexe_scheduler.py:40-67 | The pending list picks the pending rows at strictly increasing positions of the input, and every pending row is picked: `pending_reservation_ids` is in row order |
| Sequences.FilterInOrder | complexe_scheduler.py:40-67 | A filter keeps every accepted element, at strictly increasing positions of its input |
| Reservations.Ids | complexe_scheduler.py:67 | `pending_reservation_ids` lists the pending reservations' ids position by position |
| Reservations.FixedEntries | complexe_scheduler.py:53-61 | After the partition loop, `scheduled_assignments` has a key for every fixed row and no other key |
| Reservations.FixedEntriesAt | complexe_scheduler.py:55-60 | A fixed row's entry holds its requested place, its parsed start and end, and status "scheduled" |
| Reservations.FixedEntry | complexe_scheduler.py:55-60 | The entry of a fixed row: its requested place, its parsed start and end, and "scheduled"; `Reservations.FixedEntriesAt` states that each fixed id gets it |
| Reservations.Start | complexe_scheduler.py:50 | The instant a row starts, its day and start time through `_parse_time_slot`; `Reservations.ParseTimeSlotOrder` orders such instants |
| Reservations.End | complexe_scheduler.py:51 | The instant a row ends, its day and end time through `_parse_time_slot` |
| Reservations.Partition | complexe_scheduler.py:53-67 | An id is a key of the fixed entries exactly when its row is fixed, and a pending id exactly when it is not; a fixed entry copies place and times verbatim |
| Reservations.FixedAndPendingDisjoint | complexe_scheduler.py:53-67 | With unique ids, no id is both fixed and pending |
| Reservations.RejectedIsPending | complexe_scheduler.py:54-67 | A rejected row without a formation is pending and gets a variable over the full place list |
| Reservations.PartitionStep | complexe_scheduler.py:40-90 | One turn of the partition loop takes its state after `i` rows to the state after `i + 1` rows |
| Reservations.FixedRowStep | complexe_scheduler.py:53-61 | A fixed row adds its entry and its id and changes nothing else the loop builds |
| Reservations.PendingRowStep | complexe_scheduler.py:63-90 | A pending row adds its id, one variable over the place list, and one conflict per fixed reservation before it |
| Reservations.VarNameRoundTrip | complexe_scheduler.py:138 | `int('res_{id}_place'.split('_')[1]) == id` for every integer id, negative ids included |
| Reservations.VarNameInjective | complexe_scheduler.py:66 | Two ids give the same variable name exactly when they are equal |
| Reservations.VarName | complexe_scheduler.py:66 | `f'res_{res_id}_place'`; `Reservations.VarNameRoundTrip` decodes it back to the id and `Reservations.VarNameInjective` keeps distinct ids apart |
| Reservations.DecodeVarName | complexe_scheduler.py:138 | `int(var_name.split('_')[1])`, with no value where Python raises; `Reservations.VarNameRoundTrip` states that it inverts `Reservations.VarName` |
| Reservations.Variables | complexe_scheduler.py:63-67 | There is one variable per pending reservation, in input order, named after its id, each with the full place list as domain |
| Reservations.DomainIgnoresRequestedPlace | complexe_scheduler.py:63-66 | Every variable belongs to a pending reservation, and its domain is the 28 places whatever place was requested |
| Reservations.VariableNamesDecode | complexe_scheduler.py:137-138 | The variable names decode back to the pending ids, in order |
| Reservations.ConflictsWith | complexe_scheduler.py:86-90 | Pending `r` gets one conflict per fixed reservation before it, in insertion order, each holding `r`'s and that entry's intervals |
| Reservations.FixedConflictBuilt | complexe_scheduler.py:86-90 | A conflict is built for each pending row against each fixed row listed before it |
| Reservations.FixedConflictOnlyEarlier | complexe_scheduler.py:86-90 | Every conflict built pairs a pending row with a fixed row listed before it |
| Reservations.LastRowConflict | complexe_scheduler.py:86-90 | A conflict added for the last row pairs it with an earlier fixed row |
| Reservations.FixedConstraintsExactly | complexe_scheduler.py:86-90 | The conflicts are exactly one per (pending row, earlier fixed row) pair, both directions |
| Reservations.FixedConstraints | complexe_scheduler.py:86-90 | The fixed conflicts the partition loop adds, row by row; `Reservations.FixedConstraintsExactly` characterises them as one per (pending row, earlier fixed row) pair |
| Reservations.FixedConflictMeaning | complexe_scheduler.py:70-84 | A conflict rejects a place exactly when it is the fixed place and the pending interval overlaps the fixed one |
| Reservations.ConflictWith | complexe_scheduler.py:70-84 | The conflict the factory builds for a pending row and a fixed entry, with the values bound at the call; `Reservations.FixedConflictMeaning` states what it rejects |
| Reservations.PairWith | complexe_scheduler.py:97-108 | The pairwise constraint for two pending rows, over their two variables and their own intervals; `Reservations.Allows` reads those, `Reservations.AllowsAsRun` the last pair's |
| Reservations.PairRow | complexe_scheduler.py:96-108 | The inner pair loop adds for the `i`-th pending reservation one constraint per later one, in order, with both intervals |
| Reservations.PairRowsContain | complexe_scheduler.py:95-96 | Every pair i < j of pending reservations with `i` among the first rows has its constraint |
| Reservations.PairRowsOnlyOrdered | complexe_scheduler.py:95-96 | Every constraint of the first rows is the one of a pair i < j, returned as witnesses |
| Reservations.PairConstraintsExactly | complexe_scheduler.py:95-108 | A constraint is a pairwise one exactly when it belongs to a pair i < j of pending reservations |
| Reservations.PairRowsCount | complexe_scheduler.py:95-96 | The first `n` rows hold n·(2·p − n − 1)/2 constraints for `p` pending reservations |
| Reservations.PairConstraintsCount | complexe_scheduler.py:95-96 | There are p·(p − 1)/2 pairwise constraints, one per unordered pair |
| Reservations.PairConstraints | complexe_scheduler.py:95-108 | The pairwise constraints the pair loop adds, row by row; `Reservations.PairConstraintsExactly` gives one per pair i < j and `Reservations.PairConstraintsCount` counts p·(p − 1)/2 |
| Reservations.BuiltConstraints | complexe_scheduler.py:82-108 | Every `addConstraint` call in order: the fixed conflicts, then the pairwise constraints; `ReservationScheduler.Scheduler.CreateSchedulingProblem` builds exactly this list |
| Reservations.ThreePairs | complexe_scheduler.py:95-96 | Three pending reservations give the pairs (a, b), (a, c), (b, c) in that order |
| Reservations.ThreePendingProblem | complexe_scheduler.py:40-108 | For three pending rows the built constraints are just those three pairs |
| Reservations.PendingThenFixedProblem | complexe_scheduler.py:40-90 | A pending row followed by a fixed one gives one variable and no constraint |
| Reservations.Allows | complexe_scheduler.py:82-84 | The intended meaning of one constraint: a fixed conflict rejects the fixed place while the intervals overlap (`Reservations.FixedConflictMeaning`); a pairwise constraint rejects one common place while its own two intervals overlap |
| Reservations.Solves | complexe_scheduler.py:131 | A solution assigns exactly the variables, each a value of its domain, and every constraint allows it under the intended meaning; `Reservations.SolvedScheduleHasNoDoubleBooking` is proved for it |
| Reservations.LastPairIntervals | complexe_scheduler.py:97-101 | The intervals the loop variables hold after the pair loop: those of the last two pending reservations (`ReservationScheduler.ScopeAfterRows`) |
| Reservations.AllowsAsRun | complexe_scheduler.py:104-106 | The meaning as run: fixed conflicts as intended, every pairwise constraint with the last pair's intervals (`Reservations.AsRunPairIgnoresItsOwnIntervals`) |
| Reservations.SolvesAsRun | complexe_scheduler.py:131 | `Reservations.Solves` with the as-run meaning; `Reservations.LateBindingAdmitsDoubleBooking` and `Reservations.AsRunStricterWhenLastPairOverlaps` relate the two |
| Reservations.SolvedIds | complexe_scheduler.py:137-139 | The ids written back are those known ids whose variable the solution names |
| Reservations.Merge | complexe_scheduler.py:137-145 | The merged keys are the old keys plus the solved ids; a solved id gets its solved place and its own interval; every other entry is kept |
| Reservations.PendingEntry | complexe_scheduler.py:140-145 | The entry `solve` writes back for a pending row: the assigned place, the re-parsed start and end, and "scheduled"; `Reservations.Merge` states where it is written |
| Reservations.DoneIds | complexe_scheduler.py:137-145 | The ids written back once only some names are left are the known ids whose name is no longer left |
| Reservations.WriteBackStep | complexe_scheduler.py:140-145 | Writing back one name extends the merge by exactly that id |
| Reservations.WriteBackDone | complexe_scheduler.py:137 | Once every name is handled, the ids written back are all those the solution names |
| Reservations.SolutionNamesKnown | complexe_scheduler.py:138-139 | Every name of a solution of the built variables decodes to an id of `_reservations_by_id` |
| Reservations.SolutionCoversPending | complexe_scheduler.py:137-139 | A solution of the built variables names every pending id's variable, with a listed place |
| Reservations.SolvedIdsArePending | complexe_scheduler.py:137-138 | The ids `solve` writes back are exactly the pending ids |
| Reservations.SolutionNameIsPending | complexe_scheduler.py:137-138 | Every name assigned is the variable name of a pending reservation, whose position is returned |
| Reservations.SolvedSchedule | complexe_scheduler.py:137-146 | The schedule `solve` returns for a solution of the built problem: the fixed entries merged with every pending id; `Reservations.SolvedScheduleHasNoDoubleBooking` states its keys, its kept entries and the absence of double bookings |
| Reservations.PendingPairApart | complexe_scheduler.py:104-106 | Under the intended meaning, two distinct pending reservations on one place do not overlap |
| Reservations.PendingClearOfEarlierFixed | complexe_scheduler.py:82-90 | A pending reservation on the place of an earlier fixed one does not overlap it |
| Reservations.PendingClearOfEarlierFixedAsRun | complexe_scheduler.py:70-90 | As run, too: a solution every built constraint allows under the as-run meaning gives a pending row a place, and never the place of an earlier fixed row at an overlapping time |
| Reservations.SolvedScheduleHasNoDoubleBooking | complexe_scheduler.py:137-145 | The merged schedule has exactly the fixed and pending ids and keeps every fixed entry. Every pending id gets a listed place. Under the intended meaning, no two pending entries on one place overlap, and no pending entry overlaps an earlier fixed one on its place |
| Reservations.ScheduledPairApart | complexe_scheduler.py:104-106 | The same non-overlap for two pending ids, as seen through `_reservations_by_id` |
| Reservations.ScheduledClearOfFixed | complexe_scheduler.py:82-90 | The same guard for a pending row against an earlier fixed row, as seen through the schedule's entries |
| Reservations.LaterFixedIsNotGuarded | complexe_scheduler.py:86-90 | For a pending row followed by a fixed one, the problem has no constraint, and putting the pending row on the fixed place solves it. The merge books both on one place |
| Reservations.LaterFixedSolves | complexe_scheduler.py:86-90 | The same two rows: one pending id, no constraint, and the fixed place is a solution |
| Reservations.LaterFixedMerged | complexe_scheduler.py:137-145 | The merge for those two rows writes the pending row on the fixed place and keeps the fixed entry |
| Reservations.AsRunPairIgnoresItsOwnIntervals | complexe_scheduler.py:104-108 | As run, a pairwise constraint rejects a common place exactly when the last pair's intervals overlap, whatever its own pair |
| Reservations.AsRunIgnoresPairsWhenLastApart | complexe_scheduler.py:95-108 | As run, when the last two pending reservations do not overlap, any assignment that clears the fixed conflicts solves the problem |
| Reservations.LateBindingAdmitsDoubleBooking | complexe_scheduler.py:104-108 | Take three pending reservations where the first two overlap and the last two do not. One place for all three is a solution as run, but not under the intended meaning |
| Reservations.LateBindingExample | complexe_scheduler.py:104-108 | A concrete instance: 09:00-12:00 and 10:00-13:00 on day 1, plus 09:00-10:00 on day 2, all on place 1, is accepted as run and rejected as intended |
| Reservations.AsRunStricterWhenLastPairOverlaps | complexe_scheduler.py:104-108 | When the last pair does overlap, every solution as run is an intended solution |
| ReservationScheduler.ScopeAfterRows | complexe_scheduler.py:97-101 | The loop variables hold a pair's intervals once a row of two or more pending reservations has run, and after the whole loop they hold the last pair's |
| ReservationScheduler.Intervals | complexe_scheduler.py:97-101 | The four instants one pair turn computes for `res_id1` and `res_id2`; `ReservationScheduler.ScopeAfterRows` states which pair they hold after the loop |
| ReservationScheduler.Scheduler.constructor | complexe_scheduler.py:5-14 | A new scheduler keeps the rows, indexes them by id, and starts with an empty schedule and an empty problem |
| ReservationScheduler.Scheduler.CreateSchedulingProblem | complexe_scheduler.py:24-127 | `scheduled` becomes the fixed entries. The variables become the pending variables. The constraints become the fixed conflicts followed by the pairwise constraints. The pairwise lambdas' scope holds the last pair |
| ReservationScheduler.Scheduler.AddReservations | complexe_scheduler.py:40-90 | The partition loop leaves the fixed entries, the pending ids in input order, the pending variables and the fixed conflicts |
| ReservationScheduler.Scheduler.AddReservation | complexe_scheduler.py:53-90 | One turn for one row changes the loop state as the partition describes |
| ReservationScheduler.Scheduler.AddFixedConflicts | complexe_scheduler.py:86-90 | The conflicts for one pending row, one per fixed entry so far, in insertion order, are appended |
| ReservationScheduler.Scheduler.AddPairConstraints | complexe_scheduler.py:95-108 | The pair loop appends exactly the pairwise constraints and leaves the last pair in scope |
| ReservationScheduler.Scheduler.AddPairRow | complexe_scheduler.py:96-108 | One row of the pair loop appends that row's constraints and moves the scope to its last pair |
| ReservationScheduler.Scheduler.Solve | complexe_scheduler.py:129-148 | With no solution, `None` and the schedule unchanged. Otherwise the schedule is the merge of the first solution, and that schedule is returned |
| ReservationScheduler.ScheduleReservations | complexe_scheduler.py:173-176 | With no pending reservation the solver has no variable and so gives no solution. Building then solving gives `None` exactly when there is no solution. Otherwise it gives the merged schedule of the first solution, which names every pending id |
| Strings.NatToString | complexe_scheduler.py:66 | `str(n)` of a natural number is a non-empty run of digits |
| Strings.IntToString | complexe_scheduler.py:66 | `str(i)` is non-empty and holds only digits and a minus sign |
| Strings.DigitsOfNat | complexe_scheduler.py:138 | The digits of `n` denote `n` |
| Strings.ParseIntToString | complexe_scheduler.py:138 | `int(str(i)) == i` for every integer |
| Strings.ParseInt | complexe_scheduler.py:138 | `int(s)` on an optionally signed run of digits, and no value where Python raises; `Strings.ParseIntToString` states that it inverts `str` |
| Strings.Join | request_handler.py:18 | `sep.join(parts)`; `Strings.Split` and `Strings.SplitJoin` state that it and `split` undo each other |
| Strings.Split | request_handler.py:18 | `split(',')` gives one piece more than there are commas, no piece holds a comma, and joining the pieces gives the input back |
| Strings.SplitPrefix | request_handler.py:18 | Splitting a comma-free prefix glued to `t` extends the first piece of `t` |
| Strings.SplitJoin | request_handler.py:18 | Comma-free pieces are recovered by splitting their join |
| Strings.TrimLeft | request_handler.py:18 | `lstrip()` removes only leading whitespace, and the result does not start with whitespace |
| Strings.TrimRight | request_handler.py:18 | `rstrip()` removes only trailing whitespace, and the result does not end with whitespace |
| Strings.Strip | request_handler.py:18 | `strip()` is no longer than its input and neither starts nor ends with whitespace |
| Strings.StripSlice | request_handler.py:18 | `strip()` is a slice of its input, and everything cut off on either side is whitespace |
| Strings.IsSpace | request_handler.py:18 | The characters `str.isspace` accepts, which `strip()` removes; `Strings.TrimLeft`, `Strings.TrimRight` and `Strings.StripSlice` are stated over it |
| Strings.LowerChar | request_handler.py:18 | Lowercasing one character maps an ASCII upper-case letter (A to Z) 32 code points up and keeps anything else |
| Strings.Lower | request_handler.py:18 | `lower()` keeps the length and lowercases each character in place, so no upper-case letter is left |
| Strings.EndsWith | prototype/request_handler.py:6-8 | `s.endswith(suffix)`: the last characters of `s` are `suffix`; `RequestHandler.ReaderFor` states the dispatch built on it |
| KeySort.WithKey | scheduler.py:20 | The run of elements with key `r` holds only elements of key `r` |
| KeySort.KeysBelowBlocks | scheduler.py:20 | The blocks below `n` hold only elements whose key is below `n` |
| KeySort.KeysBelowBlocksSorted | scheduler.py:20 | The blocks below `n` are ordered by key |
| KeySort.WithKeyCount | scheduler.py:20 | An element occurs in the run of key `r` as often as in the input if its key is `r`, and not at all otherwise |
| KeySort.KeysBelowBlocksCount | scheduler.py:20 | An element occurs in the blocks below `n` as often as in the input if its key is below `n`, and not at all otherwise |
| KeySort.SortByKeyPermutes | scheduler.py:20 | With every key below the bound, the sort is a permutation of its input |
| KeySort.SortByKeySorts | scheduler.py:20 | With every key below the bound, the sort is ordered by key, is a permutation, and keeps the length |
| KeySort.SortByKey | scheduler.py:20 | `sorted(s, key=key)` for keys below a bound: the elements of key 0, then of key 1, and so on, each in input order; `KeySort.SortByKeySorts` states that it is ordered and a permutation |
| Timetable.IndexOf | scheduler.py:20 | `list.index(x)` finds the first position of `x`, and finds none exactly when `x` is absent |
| Timetable.RankOf | scheduler.py:20 | A ranked slot's key is its position among the six slots of the ranking |
| Timetable.RankInjective | scheduler.py:20 | Two ranked slots have the same key exactly when they are the same slot |
| Timetable.RankZero | scheduler.py:37 | Only "9-11" has rank 0 |
| Timetable.FirstUnranked | scheduler.py:20 | There is no unranked slot exactly when every slot is ranked; otherwise the first unranked one's position is returned |
| Timetable.SlotKey | scheduler.py:20 | The total key is below 6 exactly for ranked slots |
| Timetable.SortByRankSorts | scheduler.py:20 | Sorting ranked slots orders them by rank and is a permutation |
| Timetable.SortByRank | scheduler.py:20 | The sort of ranked slots by their ranking position; `Timetable.SortByRankSorts` states that it is ordered by rank and a permutation |
| Timetable.SortSlots | scheduler.py:20 | A missing slot list cannot be iterated. An unranked slot gives the `index` error for the first one. Otherwise sorting succeeds, orders the slots by rank and keeps every slot |
| Timetable.TableSlotsRanked | request_handler.py:23-28 | Every slot list of the preference table is ranked, so sorting it succeeds |
| Timetable.RoomRow | scheduler.py:21-22 | The room loop appends one triple per room, in room order |
| Timetable.DayBlock | scheduler.py:20-22 | One day contributes two triples per slot |
| Timetable.DayBlockAt | scheduler.py:20-22 | Within a day, slot `t` with room `k` sits at position 2·t + k |
| Timetable.LayoutLength | scheduler.py:19-22 | A domain has (number of days) × (number of slots) × 2 triples |
| Timetable.LayoutIndex | scheduler.py:19-22 | Day `d`'s block starts right after the triples of the days before it |
| Timetable.LayoutAt | scheduler.py:19-22 | The triple (day `d`, slot `t`, room `k`) sits at position (d·n + t)·2 + k for n slots: day by day, then slot by slot, Room1 before Room2 |
| Timetable.DayBlockMembers | scheduler.py:20-22 | A triple is in a day's block exactly when it has that day, one of the slots and one of the two rooms |
| Timetable.LayoutMembers | scheduler.py:19-22 | A triple is in the domain exactly when its day, slot and room are among the request's |
| Timetable.DomainSlotsRanked | scheduler.py:19-22 | Every triple of a domain built from ranked slots has a ranked slot |
| Timetable.Layout | scheduler.py:19-22 | The nested day, slot and room loops as one sequence; `Timetable.LayoutLength`, `Timetable.LayoutAt` and `Timetable.LayoutMembers` state its length, its order and its contents |
| Timetable.DomainOf | scheduler.py:15-22 | The `valid_slots` of a request: empty without days, else the sort's error or the layout of the sorted slots; `Timetable.ValidSlots` computes it by the loops |
| Timetable.AppendRooms | scheduler.py:21-22 | The room loop appends the row of one day and slot to what was there |
| Timetable.AppendDay | scheduler.py:20-22 | The slot loop for one day appends that day's block |
| Timetable.ValidSlots | scheduler.py:15-22 | No day gives the empty domain. Otherwise a failing sort gives its error, and a successful sort gives the day-by-day layout of the sorted slots |
| Timetable.TurnError | scheduler.py:19-24 | One turn of the loop fails exactly when the request's slots cannot be sorted or an earlier request has its name; the sort comes first |
| Timetable.BuildVariables | scheduler.py:14-24 | The loop goes through exactly when every domain can be built and the names are distinct, and then there is one (name, domain) pair per request, in order. A failure is the error of the first request whose turn fails: the sort's error, or `addVariable` refusing a duplicate name |
| Timetable.NoOverlap | scheduler.py:27-28 | `no_overlap` is false exactly when the two triples agree on room, day and slot |
| Timetable.NoOverlapPairs | scheduler.py:30-33 | The pair loop adds the ordered name pairs of the requests, row by row |
| Timetable.PairRowComplete | scheduler.py:31-33 | For every `b < j`, the request `b` with a different name is in `req1`'s row over the first `j` requests, at the position returned; with `j` all the requests, that is every partner the inner loop meets |
| Timetable.PairRowSound | scheduler.py:31-33 | Every pair of `req1`'s row is `req1` with a request of a different name |
| Timetable.OrderedPairsComplete | scheduler.py:30-33 | Every ordered pair of requests with different names has a constraint, at the position returned |
| Timetable.OrderedPairsSound | scheduler.py:30-33 | Every constraint belongs to an ordered pair of requests with different names |
| Timetable.OrderedPairsMembers | scheduler.py:30-33 | The constraints are exactly the ordered pairs of requests with different names |
| Timetable.PairRowFor | scheduler.py:31-33 | The pairs the inner loop adds for `req1` over the first `j` requests; `Timetable.PairRowComplete` and `Timetable.PairRowSound` characterise them |
| Timetable.OrderedPairs | scheduler.py:30-33 | The pairs of the first `i` rows of the outer loop; `Timetable.OrderedPairsMembers` characterises them as the ordered pairs of different names |
| Timetable.AcceptsAt | scheduler.py:33 | A solution the constraints accept satisfies each one of them |
| Timetable.PairHolds | scheduler.py:27-33 | One `no_overlap` constraint holds when both names are assigned and their triples differ; `Timetable.AcceptedSolutionsSeparate` draws the consequence |
| Timetable.Accepts | scheduler.py:30-33 | A solution passes every constraint of the list; `Timetable.AcceptsAt` picks out any one of them |
| Timetable.AcceptedSolutionsSeparate | scheduler.py:30-33 | An accepted solution gives any two requests with different names different triples |
| Timetable.Score | scheduler.py:36-39 | `evaluate_solution` lies between 0 and 5 per request |
| Timetable.ScoreZero | scheduler.py:36-39 | The score is 0 exactly when every request gets slot "9-11" |
| Timetable.DomainSolutionsCover | scheduler.py:36-39 | A solution drawn from the domains covers every request with a ranked slot, so it can be scored |
| Timetable.Scores | scheduler.py:50 | One score per solution, in order |
| Timetable.KeepIsLeast | scheduler.py:52-54 | The kept score is at most `sys.maxsize` and at most the score of every solution seen |
| Timetable.KeepNone | scheduler.py:41-42 | With no solution kept the score is still `sys.maxsize`; with one kept it is below |
| Timetable.KeepIsFirstLeast | scheduler.py:52-54 | A kept solution is one of those seen, its score is the kept score, and every solution before it scored strictly more: the first least one is kept |
| Timetable.KeepFindsOne | scheduler.py:52-54 | Once a solution below `sys.maxsize` has been seen, one is kept |
| Timetable.Keep | scheduler.py:41-54 | What the loop keeps after each solution: it starts from no solution and `sys.maxsize`, and replaces the kept one only on a strictly lower score; the `Keep` lemmas state that this is the first least one |
| Timetable.SolutionsFound | scheduler.py:41-54 | After at least one solution has been scored, a best solution exists |
| Timetable.SelectBest | scheduler.py:41-54 | The loop checks every solution and ends with the best solution and score as the first-least choice describes |
| RequestHandler.ParseDays | request_handler.py:15-18 | "all" gives the seven day codes mon to sun. Anything else gives one day per comma piece (comma count + 1), and day k is piece k with `strip().lower()` applied, so it has no comma, upper-case letter or surrounding whitespace |
| RequestHandler.CleanPiece | request_handler.py:18 | `strip().lower()` of a piece is a slice of the piece, lowercased, where everything cut off is whitespace; the result is clean and no longer than the piece |
| RequestHandler.StripIsSpacedSlice | request_handler.py:18 | `strip().lower()` of a piece is the lowercasing of a slice of the piece whose cut-off parts are whitespace |
| RequestHandler.CleanPieceUnique | request_handler.py:18 | Any slice that cuts off only whitespace and neither starts nor ends with whitespace is the one `strip()` keeps, so `CleanPiece` is its lowercasing |
| RequestHandler.PaddedPiece | request_handler.py:18 | A word with one space on each side cleans to the word lowercased |
| RequestHandler.PaddedDays | request_handler.py:15-18 | Two space-padded words around one comma, such as " Mon , Tue ", parse to the two words lowercased |
| RequestHandler.LowerOfStripIsClean | request_handler.py:18 | Stripping then lowercasing a comma-free piece leaves a clean day code |
| RequestHandler.LowerKeepsEnds | request_handler.py:18 | Lowercasing keeps a string free of whitespace at either end |
| RequestHandler.LowerKeepsSpace | request_handler.py:18 | Lowercasing neither creates nor removes whitespace |
| RequestHandler.StripOfTrimmed | request_handler.py:18 | A string without whitespace at either end is its own `strip()` |
| RequestHandler.CleanPieceOfClean | request_handler.py:18 | A clean day code is its own `strip().lower()` |
| RequestHandler.SplitWithoutComma | request_handler.py:18 | A comma-free string splits into itself alone |
| RequestHandler.ParseDaysOfJoin | request_handler.py:15-18 | Joining clean day codes with commas and parsing gives them back, unless the join is "all" |
| RequestHandler.ParseDaysIdempotent | request_handler.py:15-18 | Parsing the comma join of the parsed days gives the same days, unless the join is "all" |
| RequestHandler.UpperAllIsOneDay | request_handler.py:16-18 | The "all" test is case-sensitive and comes before lowercasing, so "ALL" gives the one day "all" |
| RequestHandler.TimeSlots | request_handler.py:23-28 | The table has the four names morning, afternoon, evening and all; every list has at least two slots; "all" is the morning, afternoon and evening slots without the last evening one |
| RequestHandler.SlotsForPref | request_handler.py:31-36 | A missing preference becomes "all" and is lowercased. There is a value exactly when the name is a key of the table, and then it is that key's slots |
| RequestHandler.LowerIdempotent | request_handler.py:34 | Lowercasing twice is lowercasing once |
| RequestHandler.SlotsIgnoreCase | request_handler.py:34-35 | The lookup gives the same result for a name and its lower-case form |
| RequestHandler.MissingPrefIsAllButLateEvening | request_handler.py:27-35 | A missing preference gives the five slots 9-11 to 5-7, without 7-9 |
| RequestHandler.CapitalisedMorning | request_handler.py:24-35 | "Morning" gives ["9-11", "11-1"] |
| RequestHandler.UnknownPrefHasNoSlots | request_handler.py:35 | A name that is not a key in any case gives no value |
| RequestHandler.Normalise | request_handler.py:18-36 | An empty weekday cell anywhere raises the `AttributeError` of `split` on a float. Otherwise every row keeps its name, gets its parsed days and its looked-up slots, and no row is added or lost |
| RequestHandler.NormalisedHaveDays | request_handler.py:15-20 | When normalisation succeeds, every request has at least one day code |
| RequestHandler.ReaderFor | prototype/request_handler.py:6-11 | ".csv" picks the CSV reader, otherwise ".xlsx" or ".xls" picks the Excel reader, and any other path is refused with the `ValueError` message |
| RequestHandler.LoadRequests | prototype/request_handler.py:4-35 | An unsupported suffix fails with its `ValueError` message before any row is read; otherwise the result is the normalisation of the rows, as in `handle`, empty-cell error included |

## Left out

- The solver library (`Problem`, `addVariable`, `addConstraint`, `getSolutions`, `getSolutionIter`) is foreign code with an unknown enumeration order. Its solutions are a parameter, and "the first solution" is whichever the sequence holds first.
- `datetime.strptime`: format validation and calendar dates are library behaviour. A day is a day number and a time is a minute of the day.
- The wall-clock cut-off at scheduler.py:43-44 and 58-60 only ends the solution loop early. That is the same as passing a shorter sequence of solutions.
- The progress counter print at scheduler.py:62-64 and all printing (scheduler.py:66-73, complexe_scheduler.py:130-132, 178-189) are output only.
- ReservationScheduler.ScheduleReservations: the `if solution:` truthiness test before printing (complexe_scheduler.py:178) is left out. The sample data at complexe_scheduler.py:151-170 is not proved about.
- Timetable.SelectBest: the `if best_solution:` test at scheduler.py:66 only chooses what to print, and is left out with the printing.
- Timetable.BuildVariables: models `addVariable` refusing a duplicate name (scheduler.py:24), but not the library's other checks on a variable, such as refusing an empty domain.
- RequestHandler.Normalise: an empty weekday cell is modelled, because it makes `parse_days` raise, and an empty preference cell is a missing preference. Other non-text cells are not: a numeric name, weekday or preference cell.
- ReservationScheduler.Scheduler.Solve: takes the solutions as given. With no pending reservation the problem has no variable, and python-constraint's `getSolutions` then returns no solution, so `solve` returns `None` (complexe_scheduler.py:147-148). A caller matching the library must pass the empty sequence in that case; passing the single empty solution gives the fixed schedule instead.
- Pandas I/O (`read_csv`, `read_excel`, `apply`, `drop`, `to_dict`) is left out. The rows are given as a sequence, and the dropped columns are simply absent from `Request`. existing_schedule_handler.py is not part of this model.
- `places_config` (complexe_scheduler.py:7) is stored and never used, and the commented-out handicap constraint (complexe_scheduler.py:110-115) does not run. Neither is modelled.
- Strings.Lower: lowercases ASCII letters only, not the full Unicode case mapping of Python's `lower()`.
- Strings.LowerChar: maps only ASCII A to Z; the other Unicode upper-case letters that Python's `lower()` changes are kept as they are.
- Strings.ParseInt: accepts an optional sign followed by digits. `int()`'s surrounding whitespace and underscores are not modelled; they never occur in a variable name.
- ReservationScheduler.Scheduler.CreateSchedulingProblem: requires unique reservation ids, which excludes every shape of repeated id. The source behaves differently for each. Two pending rows with one id make `addVariable` (complexe_scheduler.py:66) raise `ValueError` on the second. Two fixed rows with one id run without error, and the later row's entry silently replaces the earlier one at complexe_scheduler.py:55-60. A fixed and a pending row with one id also run without error. `solve` then overwrites the fixed entry at complexe_scheduler.py:140-145, taking the times of whichever row `_reservations_by_id` kept, which is the last one (complexe_scheduler.py:14). None of these outcomes is modelled; only the last-wins map itself is.
- ReservationScheduler.Scheduler.Solve: requires every name of the first solution to decode to a known id. Otherwise the source raises `ValueError` or `KeyError`, which is not modelled. A solution of the built problem always meets this (`Reservations.SolutionNamesKnown`).
- Timetable.Score: requires every request to be assigned a ranked slot. Otherwise the source raises `KeyError` or `ValueError`, which is not modelled. A solution drawn from the domains always meets this (`Timetable.DomainSolutionsCover`).
- Timetable.SelectBest: requires every solution to be scorable, as `Timetable.Score` does.
- Timetable.SolutionsFound: additionally requires fewer than `sys.maxsize / 5` requests, so that every score is below `sys.maxsize`.
- Timetable.LayoutAt: states the position of each triple; the length of the domain is stated by `Timetable.LayoutLength`.
- KeySort.SortByKeySorts: stability (equal keys keep their input order) holds by construction but is not stated as a lemma.
- Python integers are unbounded, and so are the model's; there is no wrap-around to model.

## Findings

| source | as written | input that shows it | evidently intended | confidence | as-written member | corrected member |
|---|---|---|---|---|---|---|
| complexe_scheduler.py:104-106 | The pairwise lambda closes over the loop variables `res1_start_dt` … `res2_end_dt`, which Python binds late. When the solver calls it, every pairwise constraint reads the intervals of the last pair built | Three pending reservations on day 1 09:00-12:00, day 1 10:00-13:00 and day 2 09:00-10:00, all given place 1: the last pair does not overlap, so every pairwise constraint accepts, and the first two are double-booked | Each pairwise constraint rejects a common place only when its own two intervals overlap, as the fixed-conflict factory at complexe_scheduler.py:70-84 does for its values | not executed | Reservations.LateBindingExample | Reservations.SolvedScheduleHasNoDoubleBooking |

The as-written meaning is `Reservations.AllowsAsRun` and `Reservations.SolvesAsRun`, evaluated with the intervals the class keeps in `pairScope`. `Reservations.LateBindingAdmitsDoubleBooking` states the discrepancy for any three such reservations. The corrected meaning is `Reservations.Allows` and `Reservations.Solves`, in which each constraint reads the intervals it was built with; the no-double-booking theorem is proved for it.
