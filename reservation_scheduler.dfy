/**
 * The `Scheduler` class of complexe_scheduler.py: the partition loop of
 * `create_scheduling_problem`, which fills `scheduled_assignments` and the
 * solver problem step by step, the pair loop after it, and `solve`, which
 * writes the first solution back. The solver problem is represented by its
 * variables and its constraints; the solutions the solver enumerates are a
 * parameter of `solve`.
 */
module ReservationScheduler {
  import opened Wrappers
  import opened Strings
  import opened Reservations
  import opened Sequences

  /** The four intervals a pairwise lambda reads for pending `a` listed before `b`. */
  function Intervals(a: Reservation, b: Reservation): (int, int, int, int)
  {
    (Start(a), End(a), Start(b), End(b))
  }

  /**
   * What the variables `res1_start_dt`, ..., `res2_end_dt` hold once rows
   * `0..a-1` of the pair loop are done: the intervals of the last pair built,
   * or nothing when no pair has been built yet.
   */
  function ScopeAfterRows(p: seq<Reservation>, a: nat): (scope: Option<(int, int, int, int)>)
    requires a <= |p|
    ensures scope.Some? <==> a > 0 && |p| >= 2
    ensures a == |p| && |p| >= 2 ==> scope == Some(LastPairIntervals(p))
  {
    if a == 0 || |p| < 2 then None
    else Some(Intervals(p[if a - 1 <= |p| - 2 then a - 1 else |p| - 2], p[|p| - 1]))
  }

  class Scheduler {
    const reservations: seq<Reservation>
    /** `_reservations_by_id`. */
    const byId: map<int, Reservation>
    /** `scheduled_assignments`. */
    var scheduled: map<int, Entry>
    /** The variables added to the solver problem, in the order they were added. */
    var variables: seq<Variable>
    /** The constraints added to the solver problem, in the order they were added. */
    var constraints: seq<Constraint>
    /** The intervals every pairwise lambda reads when the solver calls it (the loop variables they close over). */
    var pairScope: Option<(int, int, int, int)>

    constructor (reservationsData: seq<Reservation>)
      ensures reservations == reservationsData && byId == IndexById(reservationsData)
      ensures scheduled == map[] && variables == [] && constraints == [] && pairScope == None
    {
      reservations := reservationsData;
      byId := IndexById(reservationsData);
      scheduled := map[];
      variables := [];
      constraints := [];
      pairScope := None;
    }

    /**
     * `create_scheduling_problem`: fixed reservations go straight into
     * `scheduled`; every other one gets a variable over the full place list
     * and one conflict constraint per fixed entry already in `scheduled`;
     * then every pair of pending reservations gets a pairwise constraint.
     */
    method CreateSchedulingProblem()
      requires UniqueIds(reservations) && byId == IndexById(reservations)
      requires scheduled == map[] && variables == [] && constraints == []
      modifies this
      ensures scheduled == FixedEntries(reservations)
      ensures variables == Variables(reservations)
      ensures constraints == BuiltConstraints(reservations)
      ensures pairScope == if |PendingList(reservations)| >= 2 then Some(LastPairIntervals(PendingList(reservations))) else None
    {
      var pendingIds := AddReservations();
      PendingById(reservations);
      AddPairConstraints(pendingIds, PendingList(reservations));
    }

    /** The partition loop over the rows; the pending ids come back in input order. */
    method AddReservations() returns (pendingIds: seq<int>)
      requires UniqueIds(reservations) && byId == IndexById(reservations)
      requires scheduled == map[] && variables == [] && constraints == []
      modifies `scheduled, `variables, `constraints
      ensures scheduled == FixedEntries(reservations)
      ensures pendingIds == Ids(PendingList(reservations))
      ensures variables == Variables(reservations)
      ensures constraints == FixedConstraints(reservations)
    {
      var rs := reservations;
      var places := AllAvailablePlaces();
      pendingIds := [];
      var fixedIds: seq<int> := [];  // the keys of `scheduled`, in insertion order
      assert rs[..0] == [];
      for i := 0 to |rs|
        invariant PartitionedUpTo(rs, i, scheduled, fixedIds, pendingIds, variables, constraints)
      {
        PartitionLookups(rs, i);
        ghost var scheduled0, fixedIds0, pendingIds0, variables0, constraints0 := scheduled, fixedIds, pendingIds, variables, constraints;
        fixedIds, pendingIds := AddReservation(rs[i], places, fixedIds, pendingIds, FixedList(rs[..i]));
        PartitionStep(rs, i, scheduled0, fixedIds0, pendingIds0, variables0, constraints0, scheduled, fixedIds, pendingIds, variables, constraints);
      }
      assert rs[..|rs|] == rs;
    }

    /**
     * One turn of the partition loop, for row `r`: a fixed row adds its entry
     * to `scheduled`; any other adds its variable and one conflict per fixed
     * entry so far. `fixed` are the fixed reservations whose ids `fixedIds`
     * lists, in the insertion order of `scheduled`.
     */
    method AddReservation(r: Reservation, places: seq<int>, fixedIds: seq<int>, pendingIds: seq<int>, ghost fixed: seq<Reservation>)
      returns (fixedIds': seq<int>, pendingIds': seq<int>)
      requires places == AllAvailablePlaces()
      requires r.id in byId && byId[r.id] == r
      requires |fixedIds| == |fixed|
      requires forall k :: 0 <= k < |fixedIds| ==> fixedIds[k] in scheduled && scheduled[fixedIds[k]] == FixedEntry(fixed[k])
      modifies `scheduled, `variables, `constraints
      ensures RowAdded(r, fixed, old(scheduled), fixedIds, pendingIds, old(variables), old(constraints),
                       scheduled, fixedIds', pendingIds', variables, constraints)
    {
      fixedIds', pendingIds' := fixedIds, pendingIds;
      if r.requestStatus == "accepted" || Truthy(r.formationId) {
        scheduled := scheduled[r.id := Entry(r.placeId, ParseTimeSlot(r.day, r.startTime), ParseTimeSlot(r.day, r.endTime), "scheduled")];
        fixedIds' := fixedIds + [r.id];
      } else {
        variables := variables + [Variable(VarName(r.id), places)];
        pendingIds' := pendingIds + [r.id];
        AddFixedConflicts(r, fixedIds, fixed);
      }
    }

    /**
     * The loop over `scheduled_assignments` for pending `r`: one conflict per
     * fixed entry so far, in insertion order; `fixed` are the fixed
     * reservations whose ids `fixedIds` lists.
     */
    method AddFixedConflicts(r: Reservation, fixedIds: seq<int>, ghost fixed: seq<Reservation>)
      requires r.id in byId && byId[r.id] == r
      requires |fixedIds| == |fixed|
      requires forall k :: 0 <= k < |fixedIds| ==> fixedIds[k] in scheduled && scheduled[fixedIds[k]] == FixedEntry(fixed[k])
      modifies `constraints
      ensures constraints == old(constraints) + ConflictsWith(r, fixed)
    {
      for k := 0 to |fixedIds|
        invariant constraints == old(constraints) + ConflictsWith(r, fixed)[..k]
      {
        var details := scheduled[fixedIds[k]];
        var current := byId[r.id];
        var currentStart := ParseTimeSlot(current.day, current.startTime);
        var currentEnd := ParseTimeSlot(current.day, current.endTime);
        constraints := constraints + [FixedConflict(r.id, currentStart, currentEnd, details.placeId, details.startTime, details.endTime)];
        assert ConflictsWith(r, fixed)[..k + 1] == ConflictsWith(r, fixed)[..k] + [ConflictWith(r, FixedEntry(fixed[k]))];
      }
      assert ConflictsWith(r, fixed)[..|fixedIds|] == ConflictsWith(r, fixed);
    }

    /**
     * The pair loop over the pending ids `pendingIds` of the reservations
     * `pending`: one constraint per pair, row by row; `pairScope` ends up
     * holding the last pair's intervals.
     */
    method AddPairConstraints(pendingIds: seq<int>, ghost pending: seq<Reservation>)
      requires pendingIds == Ids(pending)
      requires forall k :: 0 <= k < |pending| ==> pending[k].id in byId && byId[pending[k].id] == pending[k]
      modifies `constraints, `pairScope
      ensures constraints == old(constraints) + PairConstraints(pending)
      ensures pairScope == ScopeAfterRows(pending, |pending|)
    {
      var scope: Option<(int, int, int, int)> := None;
      for a := 0 to |pendingIds|
        invariant constraints == old(constraints) + PairRows(pending, a)
        invariant scope == ScopeAfterRows(pending, a)
      {
        scope := AddPairRow(pendingIds, pending, a, scope);
        AppendAssoc(old(constraints), PairRows(pending, a), PairRow(pending, a));
      }
      pairScope := scope;
    }

    /** One row of the pair loop: pending `a` against every later pending reservation. */
    method AddPairRow(pendingIds: seq<int>, ghost pending: seq<Reservation>, a: nat, scope: Option<(int, int, int, int)>)
      returns (scope': Option<(int, int, int, int)>)
      requires pendingIds == Ids(pending) && a < |pending|
      requires forall k :: 0 <= k < |pending| ==> pending[k].id in byId && byId[pending[k].id] == pending[k]
      requires scope == ScopeAfterRows(pending, a)
      modifies `constraints
      ensures constraints == old(constraints) + PairRow(pending, a)
      ensures scope' == ScopeAfterRows(pending, a + 1)
    {
      scope' := scope;
      ghost var before, row := constraints, PairRow(pending, a);
      for b := a + 1 to |pendingIds|
        invariant constraints == before + row[..b - a - 1]
        invariant scope' == if b > a + 1 then Some(Intervals(pending[a], pending[b - 1])) else scope
      {
        var r1, r2 := byId[pendingIds[a]], byId[pendingIds[b]];
        assert r1 == pending[a] && r2 == pending[b];
        var start1, end1 := ParseTimeSlot(r1.day, r1.startTime), ParseTimeSlot(r1.day, r1.endTime);
        var start2, end2 := ParseTimeSlot(r2.day, r2.startTime), ParseTimeSlot(r2.day, r2.endTime);
        scope' := Some((start1, end1, start2, end2));
        var c := PendingPair(pendingIds[a], pendingIds[b], start1, end1, start2, end2);
        assert c == row[b - a - 1];
        PrefixSnoc(row, b - a - 1);
        AppendAssoc(before, row[..b - a - 1], [c]);
        constraints := constraints + [c];
      }
      assert row[..|pending| - a - 1] == row;
    }

    /**
     * `solve`: with no solution, `None` and nothing changes; otherwise every
     * variable of the first solution is decoded back to its reservation id,
     * whose entry becomes the solved place with the reservation's own interval,
     * and the whole of `scheduled` is returned.
     */
    method Solve(solutions: seq<Solution>) returns (result: Option<map<int, Entry>>)
      requires solutions != [] ==> forall name :: name in solutions[0] ==> exists id :: id in byId && name == VarName(id)
      modifies `scheduled
      ensures solutions == [] ==> result == None && scheduled == old(scheduled)
      ensures solutions != [] ==>
                && scheduled == Merge(old(scheduled), byId, SolvedIds(byId, solutions[0]), solutions[0])
                && result == Some(scheduled)
    {
      if solutions == [] {
        return None;
      }
      var sol := solutions[0];
      ghost var base := scheduled;
      var todo := sol.Keys;
      while todo != {}
        invariant todo <= sol.Keys
        invariant scheduled == Merge(base, byId, DoneIds(byId, sol, todo), sol)
        decreases |todo|
      {
        var name :| name in todo;
        ghost var id :| id in byId && name == VarName(id);
        VarNameRoundTrip(id);
        var resId := DecodeVarName(name).value;
        assert resId == id;
        var original := byId[resId];
        scheduled := scheduled[resId := Entry(sol[name], ParseTimeSlot(original.day, original.startTime), ParseTimeSlot(original.day, original.endTime), "scheduled")];
        WriteBackStep(base, byId, sol, todo, id);
        RemoveShrinks(todo, name);
        todo := todo - {name};
      }
      WriteBackDone(byId, sol);
      result := Some(scheduled);
    }
  }

  /**
   * The run at the bottom of complexe_scheduler.py without its printing: build
   * the problem from the rows, then solve it with the solutions the solver
   * enumerates. With none the result is `None`; otherwise it is the schedule
   * merged from the first, which keeps every fixed entry and places every
   * pending reservation as that solution says.
   */
  method ScheduleReservations(rs: seq<Reservation>, solutions: seq<Solution>) returns (result: Option<map<int, Entry>>)
    requires UniqueIds(rs)
    requires solutions != [] ==> Assigns(Variables(rs), solutions[0])
    requires PendingList(rs) == [] ==> solutions == []
    ensures solutions == [] <==> result == None
    ensures solutions != [] ==>
              && (forall id :: id in PendingIdSet(rs) ==> id in IndexById(rs) && VarName(id) in solutions[0])
              && result == Some(SolvedSchedule(rs, solutions[0]))
  {
    var scheduler := new Scheduler(rs);
    scheduler.CreateSchedulingProblem();
    if solutions != [] {
      SolvedIdsArePending(rs, solutions[0]);
      SolutionCoversPending(rs, solutions[0]);
      SolutionNamesKnown(rs, solutions[0]);
    }
    result := scheduler.Solve(solutions);
  }
}
