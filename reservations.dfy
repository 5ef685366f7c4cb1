/**
 * The allocation model of complexe_scheduler.py as values: instants and the
 * half-open overlap test, the fixed/pending partition of the reservation list,
 * the solver variables with their domains, the two kinds of constraint as
 * tagged data, what a solution must satisfy, and how a solution is merged
 * into the scheduled assignments. The class in reservation_scheduler.dfy
 * builds exactly these values step by step.
 */
module Reservations {
  import opened Wrappers
  import opened Strings
  import opened Sequences

  /** A time of day, in minutes after midnight (the `%H:%M` part of an instant). */
  type Minute = m: int | 0 <= m < 1440

  /** One input row; `day` is a day number standing for the `%Y-%m-%d` date. */
  datatype Reservation = Reservation(
    id: int,
    userId: int,
    placeId: int,
    formationId: Option<string>,
    day: nat,
    startTime: Minute,
    endTime: Minute,
    requestStatus: string)

  /** One value of `scheduled_assignments`. */
  datatype Entry = Entry(placeId: int, startTime: int, endTime: int, status: string)

  /** A solver variable: its name and its domain of places. */
  datatype Variable = Variable(name: string, domain: seq<int>)

  /**
   * A constraint with the values it was built from. A fixed conflict speaks
   * about the variable of one reservation id, a pending pair about the
   * variables of two; the variable of id `i` is named `VarName(i)`.
   */
  datatype Constraint =
    | FixedConflict(resId: int, start: int, end: int, fixedPlace: int, fixedStart: int, fixedEnd: int)
    | PendingPair(resId1: int, resId2: int, start1: int, end1: int, start2: int, end2: int)

  /** A solver solution: a place for each variable name. */
  type Solution = map<string, int>

  // ---------------------------------------------------------------- instants

  /** `_parse_time_slot`: a day and a time of day as one comparable instant. */
  function ParseTimeSlot(day: nat, time: Minute): int
  {
    day * 1440 + time
  }

  /** An instant gives back its day and its time of day. */
  lemma InstantParts(day: nat, time: Minute)
    ensures ParseTimeSlot(day, time) / 1440 == day
    ensures ParseTimeSlot(day, time) % 1440 == time
  {
  }

  /** Instants are ordered by day first and time of day second, and distinct pairs give distinct instants. */
  lemma ParseTimeSlotOrder(d1: nat, t1: Minute, d2: nat, t2: Minute)
    ensures ParseTimeSlot(d1, t1) < ParseTimeSlot(d2, t2) <==> d1 < d2 || (d1 == d2 && t1 < t2)
    ensures ParseTimeSlot(d1, t1) == ParseTimeSlot(d2, t2) <==> d1 == d2 && t1 == t2
  {
  }

  function Max(a: int, b: int): int { if a < b then b else a }
  function Min(a: int, b: int): int { if a < b then a else b }

  /**
   * `_do_times_overlap`: the half-open intervals [start1, end1) and
   * [start2, end2) share an instant. Each must be non-empty and each must
   * start before the other ends.
   */
  function DoTimesOverlap(start1: int, end1: int, start2: int, end2: int): (r: bool)
    ensures r <==> start1 < end1 && start2 < end2 && start1 < end2 && start2 < end1
  {
    Max(start1, start2) < Min(end1, end2)
  }

  lemma OverlapSymmetric(start1: int, end1: int, start2: int, end2: int)
    ensures DoTimesOverlap(start1, end1, start2, end2) == DoTimesOverlap(start2, end2, start1, end1)
  {
  }

  /** Intervals that only touch do not overlap, in either order. */
  lemma TouchingIntervalsDoNotOverlap(start1: int, end1: int, start2: int, end2: int)
    requires end1 == start2
    ensures !DoTimesOverlap(start1, end1, start2, end2)
    ensures !DoTimesOverlap(start2, end2, start1, end1)
  {
  }

  function Start(r: Reservation): int { ParseTimeSlot(r.day, r.startTime) }
  function End(r: Reservation): int { ParseTimeSlot(r.day, r.endTime) }

  // ---------------------------------------------------------------- places

  /** The 24 PC desks, the lower-floor area 25 and the rooms 101, 102, 103, in this order. */
  function AllAvailablePlaces(): (places: seq<int>)
    ensures |places| == 28
    ensures forall p :: p in places <==> (1 <= p <= 25 || p == 101 || p == 102 || p == 103)
    ensures forall k :: 0 <= k < 25 ==> places[k] == k + 1
    ensures places[25..] == [101, 102, 103]
  {
    var desks := seq(24, k requires 0 <= k < 24 => k + 1);
    assert forall p :: p in desks <==> 1 <= p <= 24 by {
      forall p | 1 <= p <= 24 ensures p in desks { assert desks[p - 1] == p; }
    }
    desks + [25] + [101, 102, 103]
  }

  // ---------------------------------------------------------------- partition

  /** Python truthiness of `formation_id`: present and not the empty string. */
  predicate Truthy(formationId: Option<string>)
  {
    formationId.Some? && formationId.value != ""
  }

  /** A reservation is fixed when accepted or bound to a formation; anything else is pending, rejected ones included. */
  predicate IsFixed(r: Reservation)
  {
    r.requestStatus == "accepted" || Truthy(r.formationId)
  }

  predicate UniqueIds(rs: seq<Reservation>)
  {
    forall i, j :: 0 <= i < j < |rs| ==> rs[i].id != rs[j].id
  }

  /** The entry written for a fixed reservation: its own place and times, verbatim. */
  function FixedEntry(r: Reservation): Entry
  {
    Entry(r.placeId, Start(r), End(r), "scheduled")
  }

  /** The entry written for a pending reservation solved to `place`. */
  function PendingEntry(r: Reservation, place: int): Entry
  {
    Entry(place, Start(r), End(r), "scheduled")
  }

  /** `_reservations_by_id`: a dict comprehension, so a later row with the same id wins. */
  function IndexById(rs: seq<Reservation>): (m: map<int, Reservation>)
    ensures forall k :: 0 <= k < |rs| ==> rs[k].id in m
    ensures forall id :: id in m ==> m[id] in rs && m[id].id == id
  {
    if rs == [] then map[]
    else
      var last := rs[|rs| - 1];
      IndexById(rs[..|rs| - 1])[last.id := last]
  }

  /** The fixed reservations, in input order. */
  function FixedList(rs: seq<Reservation>): (f: seq<Reservation>)
    ensures forall r :: r in f <==> r in rs && IsFixed(r)
  {
    if rs == [] then []
    else
      var last := rs[|rs| - 1];
      assert rs == rs[..|rs| - 1] + [last];
      FixedList(rs[..|rs| - 1]) + (if IsFixed(last) then [last] else [])
  }

  /** The pending reservations, in input order. */
  function PendingList(rs: seq<Reservation>): (p: seq<Reservation>)
    ensures forall r :: r in p <==> r in rs && !IsFixed(r)
    ensures |p| + |FixedList(rs)| == |rs|
  {
    if rs == [] then []
    else
      var last := rs[|rs| - 1];
      assert rs == rs[..|rs| - 1] + [last];
      PendingList(rs[..|rs| - 1]) + (if IsFixed(last) then [] else [last])
  }

  /** `FixedList` is the filter of the rows by `IsFixed`. */
  lemma {:induction false} FixedListIsFilter(rs: seq<Reservation>)
    ensures FixedList(rs) == Filter(rs, IsFixed)
  {
    if rs != [] {
      FixedListIsFilter(rs[..|rs| - 1]);
    }
  }

  /** `PendingList` is the filter of the rows by not `IsFixed`. */
  lemma {:induction false} PendingListIsFilter(rs: seq<Reservation>)
    ensures PendingList(rs) == Filter(rs, r => !IsFixed(r))
  {
    if rs != [] {
      PendingListIsFilter(rs[..|rs| - 1]);
    }
  }

  /**
   * `FixedList` keeps input order: it picks the fixed rows of `rs` at
   * strictly increasing positions, and every fixed row is picked.
   */
  lemma FixedListInOrder(rs: seq<Reservation>) returns (pos: seq<nat>)
    ensures Picks(rs, FixedList(rs), pos)
    ensures forall k :: 0 <= k < |rs| && IsFixed(rs[k]) ==> k in pos
  {
    FixedListIsFilter(rs);
    pos := FilterInOrder(rs, IsFixed);
  }

  /**
   * `PendingList` keeps input order: it picks the pending rows of `rs` at
   * strictly increasing positions, and every pending row is picked.
   */
  lemma PendingListInOrder(rs: seq<Reservation>) returns (pos: seq<nat>)
    ensures Picks(rs, PendingList(rs), pos)
    ensures forall k :: 0 <= k < |rs| && !IsFixed(rs[k]) ==> k in pos
  {
    PendingListIsFilter(rs);
    pos := FilterInOrder(rs, r => !IsFixed(r));
  }

  function Ids(l: seq<Reservation>): (ids: seq<int>)
    ensures |ids| == |l| && forall k :: 0 <= k < |l| ==> ids[k] == l[k].id
  {
    seq(|l|, k requires 0 <= k < |l| => l[k].id)
  }

  function PendingIdSet(rs: seq<Reservation>): set<int>
  {
    set r | r in PendingList(rs) :: r.id
  }

  /**
   * `scheduled_assignments` after the partition loop: one entry per fixed
   * reservation, holding its requested place and its own interval.
   */
  function FixedEntries(rs: seq<Reservation>): (m: map<int, Entry>)
    ensures forall k :: 0 <= k < |rs| && IsFixed(rs[k]) ==> rs[k].id in m
    ensures forall id :: id in m ==> exists k :: 0 <= k < |rs| && IsFixed(rs[k]) && rs[k].id == id
  {
    if rs == [] then map[]
    else
      var init, last := rs[..|rs| - 1], rs[|rs| - 1];
      var m := FixedEntries(init);
      assert forall k :: 0 <= k < |init| ==> init[k] == rs[k];
      if IsFixed(last) then m[last.id := FixedEntry(last)] else m
  }

  // ---------------------------------------------------------------- variables

  /** `f'res_{id}_place'`. */
  function VarName(id: int): string
  {
    "res_" + IntToString(id) + "_place"
  }

  /** `int(name.split('_')[1])`; `None` stands for the exception raised on a name without an integer second piece. */
  function DecodeVarName(name: string): Option<int>
  {
    var parts := Split(name, '_');
    if |parts| < 2 then None else ParseInt(parts[1])
  }

  /** Decoding a variable name gives back the reservation id, for every integer id. */
  lemma {:induction false} VarNameRoundTrip(id: int)
    ensures DecodeVarName(VarName(id)) == Some(id)
  {
    var digits := IntToString(id);
    var parts := ["res", digits, "place"];
    assert parts[1..] == [digits, "place"] && parts[1..][1..] == ["place"];
    assert Join(["place"], '_') == "place";
    assert Join([digits, "place"], '_') == digits + ['_'] + "place";
    assert Join(parts, '_') == "res" + ['_'] + (digits + ['_'] + "place");
    assert VarName(id) == Join(parts, '_');
    assert '_' !in digits;
    SplitJoin(parts, '_');
    ParseIntToString(id);
  }

  /** Distinct ids give distinct variable names. */
  lemma VarNameInjective(a: int, b: int)
    ensures VarName(a) == VarName(b) <==> a == b
  {
    VarNameRoundTrip(a);
    VarNameRoundTrip(b);
  }

  /** The variables added by the partition loop: one per pending reservation, in input order, each with the full place list. */
  function Variables(rs: seq<Reservation>): (vs: seq<Variable>)
    ensures |vs| == |PendingList(rs)|
    ensures forall k :: 0 <= k < |vs| ==>
              vs[k].name == VarName(PendingList(rs)[k].id) && vs[k].domain == AllAvailablePlaces()
  {
    if rs == [] then []
    else
      var last := rs[|rs| - 1];
      Variables(rs[..|rs| - 1]) + (if IsFixed(last) then [] else [Variable(VarName(last.id), AllAvailablePlaces())])
  }

  // ---------------------------------------------------------------- constraints

  /** The constraint the factory at lines 70-84 builds for pending `r` against fixed entry `f`. */
  function ConflictWith(r: Reservation, f: Entry): Constraint
  {
    FixedConflict(r.id, Start(r), End(r), f.placeId, f.startTime, f.endTime)
  }

  /** One constraint per fixed reservation listed before `r`, in that order. */
  function ConflictsWith(r: Reservation, fixed: seq<Reservation>): (cs: seq<Constraint>)
    ensures |cs| == |fixed|
    ensures forall k :: 0 <= k < |fixed| ==> cs[k] == ConflictWith(r, FixedEntry(fixed[k]))
  {
    seq(|fixed|, k requires 0 <= k < |fixed| => ConflictWith(r, FixedEntry(fixed[k])))
  }

  /** The fixed-conflict constraints added by the partition loop. */
  function FixedConstraints(rs: seq<Reservation>): seq<Constraint>
  {
    if rs == [] then []
    else
      var init, last := rs[..|rs| - 1], rs[|rs| - 1];
      FixedConstraints(init) + (if IsFixed(last) then [] else ConflictsWith(last, FixedList(init)))
  }

  /** The pairwise constraint for pending `a` listed before pending `b`, holding their own intervals. */
  function PairWith(a: Reservation, b: Reservation): Constraint
  {
    PendingPair(a.id, b.id, Start(a), End(a), Start(b), End(b))
  }

  /** The constraints the inner pair loop adds for `p[i]`: one per later pending reservation. */
  function PairRow(p: seq<Reservation>, i: nat): (row: seq<Constraint>)
    requires i < |p|
    ensures |row| == |p| - i - 1
    ensures forall k :: 0 <= k < |row| ==> row[k] == PairWith(p[i], p[i + 1 + k])
  {
    seq(|p| - i - 1, k requires 0 <= k < |p| - i - 1 => PairWith(p[i], p[i + 1 + k]))
  }

  /** The constraints of the first `i` rows of the pair loop. */
  function PairRows(p: seq<Reservation>, i: nat): seq<Constraint>
    requires i <= |p|
  {
    if i == 0 then [] else PairRows(p, i - 1) + PairRow(p, i - 1)
  }

  function PairConstraints(p: seq<Reservation>): seq<Constraint>
  {
    PairRows(p, |p|)
  }

  /** Every constraint `create_scheduling_problem` adds, in the order it adds them. */
  function BuiltConstraints(rs: seq<Reservation>): seq<Constraint>
  {
    FixedConstraints(rs) + PairConstraints(PendingList(rs))
  }

  // ---------------------------------------------------------------- meaning of a constraint

  /**
   * What a constraint means with the values it was built from: a fixed
   * conflict rejects the fixed place while the intervals overlap, a pending
   * pair rejects one common place while the two intervals overlap.
   */
  predicate Allows(c: Constraint, sol: Solution)
  {
    match c
    case FixedConflict(id, s, e, fp, fs, fe) =>
      VarName(id) in sol && !(sol[VarName(id)] == fp && DoTimesOverlap(s, e, fs, fe))
    case PendingPair(id1, id2, s1, e1, s2, e2) =>
      VarName(id1) in sol && VarName(id2) in sol
      && !(sol[VarName(id1)] == sol[VarName(id2)] && DoTimesOverlap(s1, e1, s2, e2))
  }

  /** A solution assigns exactly the variables, each a value of its domain. */
  predicate Assigns(vars: seq<Variable>, sol: Solution)
  {
    && (forall v :: v in vars ==> v.name in sol && sol[v.name] in v.domain)
    && (forall name :: name in sol ==> exists v :: v in vars && v.name == name)
  }

  /** Every constraint allows the solution. */
  predicate Satisfies(cs: seq<Constraint>, sol: Solution)
  {
    forall c :: c in cs ==> Allows(c, sol)
  }

  /** A solution assigns exactly the variables, each within its domain, and every constraint allows it. */
  predicate Solves(vars: seq<Variable>, cs: seq<Constraint>, sol: Solution)
  {
    Assigns(vars, sol) && Satisfies(cs, sol)
  }

  /**
   * The intervals the pairwise lambdas read when the solver calls them:
   * they close over the loop variables, which then hold the last pair built,
   * that of the last two pending reservations.
   */
  function LastPairIntervals(p: seq<Reservation>): (last: (int, int, int, int))
    requires |p| >= 2
  {
    (Start(p[|p| - 2]), End(p[|p| - 2]), Start(p[|p| - 1]), End(p[|p| - 1]))
  }

  /** What a constraint means when run: fixed conflicts as intended, every pending pair with the last pair's intervals. */
  predicate AllowsAsRun(c: Constraint, sol: Solution, last: (int, int, int, int))
  {
    match c
    case FixedConflict(_, _, _, _, _, _) => Allows(c, sol)
    case PendingPair(id1, id2, _, _, _, _) =>
      VarName(id1) in sol && VarName(id2) in sol
      && !(sol[VarName(id1)] == sol[VarName(id2)] && DoTimesOverlap(last.0, last.1, last.2, last.3))
  }

  predicate SolvesAsRun(vars: seq<Variable>, cs: seq<Constraint>, sol: Solution, last: (int, int, int, int))
  {
    Assigns(vars, sol) && forall c :: c in cs ==> AllowsAsRun(c, sol, last)
  }

  // ---------------------------------------------------------------- merge

  /** The ids of `byId` whose variable a solution names: the ids `solve` writes back. */
  function SolvedIds(byId: map<int, Reservation>, sol: Solution): (ids: set<int>)
    ensures forall id :: id in ids <==> id in byId && VarName(id) in sol
  {
    set id | id in byId && VarName(id) in sol
  }

  /**
   * What `solve` writes back: every id of `ids` gets the place its variable
   * received and the interval of its reservation; every other entry is
   * kept as it was.
   */
  function Merge(base: map<int, Entry>, byId: map<int, Reservation>, ids: set<int>, sol: Solution): (m: map<int, Entry>)
    requires forall id :: id in ids ==> id in byId && VarName(id) in sol
    ensures m.Keys == base.Keys + ids
    ensures forall id :: id in ids ==> m[id] == PendingEntry(byId[id], sol[VarName(id)])
    ensures forall id :: id in base && id !in ids ==> m[id] == base[id]
  {
    base + map id | id in ids :: PendingEntry(byId[id], sol[VarName(id)])
  }

  // ================================================================ lemmas

  /** The ids whose variable `solve` has written back once only the names in `todo` are left. */
  function DoneIds(byId: map<int, Reservation>, sol: Solution, todo: set<string>): (ids: set<int>)
    ensures forall id :: id in ids <==> id in byId && VarName(id) in sol && VarName(id) !in todo
  {
    set id | id in byId && VarName(id) in sol && VarName(id) !in todo
  }

  /** Writing back the variable `name` of `id` extends the merge by that one id. */
  lemma WriteBackStep(base: map<int, Entry>, byId: map<int, Reservation>, sol: Solution, todo: set<string>, id: int)
    requires id in byId && VarName(id) in todo && VarName(id) in sol
    ensures Merge(base, byId, DoneIds(byId, sol, todo - {VarName(id)}), sol)
            == Merge(base, byId, DoneIds(byId, sol, todo), sol)[id := PendingEntry(byId[id], sol[VarName(id)])]
  {
    DoneIdsStep(byId, sol, todo, id);
  }

  lemma DoneIdsStep(byId: map<int, Reservation>, sol: Solution, todo: set<string>, id: int)
    requires id in byId && VarName(id) in todo && VarName(id) in sol
    ensures DoneIds(byId, sol, todo - {VarName(id)}) == DoneIds(byId, sol, todo) + {id}
  {
    forall other | other in byId && VarName(other) == VarName(id) ensures other == id {
      VarNameInjective(other, id);
    }
  }

  /** Once no name is left, the ids written back are those the solution names. */
  lemma WriteBackDone(byId: map<int, Reservation>, sol: Solution)
    ensures DoneIds(byId, sol, {}) == SolvedIds(byId, sol)
  {
  }

  /** Every name of a solution of the built variables is the variable name of a known id. */
  lemma SolutionNamesKnown(rs: seq<Reservation>, sol: Solution)
    requires UniqueIds(rs)
    requires Assigns(Variables(rs), sol)
    ensures forall name :: name in sol ==> exists id :: id in IndexById(rs) && name == VarName(id)
  {
    var p := PendingList(rs);
    forall name | name in sol ensures exists id :: id in IndexById(rs) && name == VarName(id) {
      var k := SolutionNameIsPending(rs, sol, name);
      PendingByIdAt(rs, k);
    }
  }

  lemma {:induction false} IndexByIdAt(rs: seq<Reservation>, k: nat)
    requires UniqueIds(rs)
    requires k < |rs|
    ensures IndexById(rs)[rs[k].id] == rs[k]
  {
    var init := rs[..|rs| - 1];
    if k < |rs| - 1 {
      assert init[k] == rs[k];
      IndexByIdAt(init, k);
    }
  }

  lemma IndexByIdMember(rs: seq<Reservation>, r: Reservation)
    requires UniqueIds(rs)
    requires r in rs
    ensures r.id in IndexById(rs) && IndexById(rs)[r.id] == r
  {
    var k :| 0 <= k < |rs| && rs[k] == r;
    IndexByIdAt(rs, k);
  }

  /** With unique ids, a fixed reservation's entry holds its requested place and its parsed interval, status "scheduled". */
  lemma {:induction false} FixedEntriesAt(rs: seq<Reservation>, k: nat)
    requires UniqueIds(rs)
    requires k < |rs| && IsFixed(rs[k])
    ensures FixedEntries(rs)[rs[k].id] == FixedEntry(rs[k])
  {
    var init := rs[..|rs| - 1];
    if k < |rs| - 1 {
      assert init[k] == rs[k];
      FixedEntriesAt(init, k);
    }
  }

  /** The `k`-th fixed reservation's entry, looked up by its id. */
  lemma FixedListEntry(rs: seq<Reservation>, k: nat)
    requires UniqueIds(rs)
    requires k < |FixedList(rs)|
    ensures FixedList(rs)[k].id in FixedEntries(rs)
    ensures FixedEntries(rs)[FixedList(rs)[k].id] == FixedEntry(FixedList(rs)[k])
  {
    var f := FixedList(rs);
    assert f[k] in f;
    var j :| 0 <= j < |rs| && rs[j] == f[k];
    FixedEntriesAt(rs, j);
  }

  /** The `k`-th pending reservation, looked up by its id. */
  lemma PendingByIdAt(rs: seq<Reservation>, k: nat)
    requires UniqueIds(rs)
    requires k < |PendingList(rs)|
    ensures PendingList(rs)[k].id in IndexById(rs)
    ensures IndexById(rs)[PendingList(rs)[k].id] == PendingList(rs)[k]
  {
    var p := PendingList(rs);
    assert p[k] in p;
    var j :| 0 <= j < |rs| && rs[j] == p[k];
    IndexByIdAt(rs, j);
  }

  /**
   * The row at index `i` is found under its id, and so is every fixed entry
   * written before it.
   */
  lemma PartitionLookups(rs: seq<Reservation>, i: nat)
    requires UniqueIds(rs) && i < |rs|
    ensures rs[i].id in IndexById(rs) && IndexById(rs)[rs[i].id] == rs[i]
    ensures forall k :: 0 <= k < |FixedList(rs[..i])| ==>
              FixedList(rs[..i])[k].id in FixedEntries(rs[..i])
              && FixedEntries(rs[..i])[FixedList(rs[..i])[k].id] == FixedEntry(FixedList(rs[..i])[k])
  {
    IndexByIdAt(rs, i);
    assert UniqueIds(rs[..i]);
    FixedListEntries(rs[..i]);
  }

  /**
   * What one turn of the partition loop does for row `r`, given the fixed
   * reservations `fixed` met so far: a fixed row adds its entry and its id;
   * any other adds its id, its variable and one conflict per fixed reservation.
   */
  predicate RowAdded(r: Reservation, fixed: seq<Reservation>,
                     scheduled: map<int, Entry>, fixedIds: seq<int>, pendingIds: seq<int>, vars: seq<Variable>, cs: seq<Constraint>,
                     scheduled': map<int, Entry>, fixedIds': seq<int>, pendingIds': seq<int>, vars': seq<Variable>, cs': seq<Constraint>)
  {
    if IsFixed(r) then
      && scheduled' == scheduled[r.id := FixedEntry(r)] && fixedIds' == fixedIds + [r.id]
      && pendingIds' == pendingIds && vars' == vars && cs' == cs
    else
      && scheduled' == scheduled && fixedIds' == fixedIds
      && pendingIds' == pendingIds + [r.id]
      && vars' == vars + [Variable(VarName(r.id), AllAvailablePlaces())]
      && cs' == cs + ConflictsWith(r, fixed)
  }

  /** The state of the partition loop once the rows before index `i` are done. */
  predicate PartitionedUpTo(rs: seq<Reservation>, i: nat,
                            scheduled: map<int, Entry>, fixedIds: seq<int>, pendingIds: seq<int>, vars: seq<Variable>, cs: seq<Constraint>)
    requires i <= |rs|
  {
    && scheduled == FixedEntries(rs[..i])
    && fixedIds == Ids(FixedList(rs[..i]))
    && pendingIds == Ids(PendingList(rs[..i]))
    && vars == Variables(rs[..i])
    && cs == FixedConstraints(rs[..i])
  }

  /** One turn of the partition loop takes the state after `i` rows to the state after `i + 1`. */
  lemma PartitionStep(rs: seq<Reservation>, i: nat,
                      scheduled: map<int, Entry>, fixedIds: seq<int>, pendingIds: seq<int>, vars: seq<Variable>, cs: seq<Constraint>,
                      scheduled': map<int, Entry>, fixedIds': seq<int>, pendingIds': seq<int>, vars': seq<Variable>, cs': seq<Constraint>)
    requires i < |rs|
    requires PartitionedUpTo(rs, i, scheduled, fixedIds, pendingIds, vars, cs)
    requires RowAdded(rs[i], FixedList(rs[..i]), scheduled, fixedIds, pendingIds, vars, cs, scheduled', fixedIds', pendingIds', vars', cs')
    ensures PartitionedUpTo(rs, i + 1, scheduled', fixedIds', pendingIds', vars', cs')
  {
    var init, r := rs[..i], rs[i];
    PrefixSnoc(rs, i);
    if IsFixed(r) {
      FixedRowStep(init, r);
    } else {
      PendingRowStep(init, r);
    }
  }

  lemma FixedRowStep(init: seq<Reservation>, r: Reservation)
    requires IsFixed(r)
    ensures FixedEntries(init + [r]) == FixedEntries(init)[r.id := FixedEntry(r)]
    ensures Ids(FixedList(init + [r])) == Ids(FixedList(init)) + [r.id]
    ensures Ids(PendingList(init + [r])) == Ids(PendingList(init))
    ensures Variables(init + [r]) == Variables(init)
    ensures FixedConstraints(init + [r]) == FixedConstraints(init)
  {
    Snoc(init, r);
    IdsSnoc(FixedList(init), r);
    assert PendingList(init) + [] == PendingList(init);
    assert Variables(init) + [] == Variables(init);
    assert FixedConstraints(init) + [] == FixedConstraints(init);
  }

  lemma PendingRowStep(init: seq<Reservation>, r: Reservation)
    requires !IsFixed(r)
    ensures FixedEntries(init + [r]) == FixedEntries(init)
    ensures Ids(FixedList(init + [r])) == Ids(FixedList(init))
    ensures Ids(PendingList(init + [r])) == Ids(PendingList(init)) + [r.id]
    ensures Variables(init + [r]) == Variables(init) + [Variable(VarName(r.id), AllAvailablePlaces())]
    ensures FixedConstraints(init + [r]) == FixedConstraints(init) + ConflictsWith(r, FixedList(init))
  {
    Snoc(init, r);
    IdsSnoc(PendingList(init), r);
    assert FixedList(init) + [] == FixedList(init);
  }

  /** Every fixed reservation's entry, looked up by its id. */
  lemma FixedListEntries(rs: seq<Reservation>)
    requires UniqueIds(rs)
    ensures forall k :: 0 <= k < |FixedList(rs)| ==>
              FixedList(rs)[k].id in FixedEntries(rs) && FixedEntries(rs)[FixedList(rs)[k].id] == FixedEntry(FixedList(rs)[k])
  {
    forall k | 0 <= k < |FixedList(rs)|
      ensures FixedList(rs)[k].id in FixedEntries(rs) && FixedEntries(rs)[FixedList(rs)[k].id] == FixedEntry(FixedList(rs)[k])
    {
      FixedListEntry(rs, k);
    }
  }

  /** Every pending reservation, looked up by its id. */
  lemma PendingById(rs: seq<Reservation>)
    requires UniqueIds(rs)
    ensures forall k :: 0 <= k < |PendingList(rs)| ==>
              PendingList(rs)[k].id in IndexById(rs) && IndexById(rs)[PendingList(rs)[k].id] == PendingList(rs)[k]
  {
    forall k | 0 <= k < |PendingList(rs)|
      ensures PendingList(rs)[k].id in IndexById(rs) && IndexById(rs)[PendingList(rs)[k].id] == PendingList(rs)[k]
    {
      PendingByIdAt(rs, k);
    }
  }

  /** With unique ids, fixed ids and pending ids are disjoint. */
  lemma FixedAndPendingDisjoint(rs: seq<Reservation>)
    requires UniqueIds(rs)
    ensures FixedEntries(rs).Keys !! PendingIdSet(rs)
  {
    forall id | id in FixedEntries(rs) ensures id !in PendingIdSet(rs) {
      var k :| 0 <= k < |rs| && IsFixed(rs[k]) && rs[k].id == id;
      forall r | r in PendingList(rs) ensures r.id != id {
        var j :| 0 <= j < |rs| && rs[j] == r;
        assert j != k;
      }
    }
  }

  /**
   * The partition: a reservation's id is a key of the fixed entries exactly
   * when it is accepted or formation-bound, and otherwise it is a pending id;
   * a fixed entry copies the requested place and the parsed times verbatim.
   */
  lemma Partition(rs: seq<Reservation>, k: nat)
    requires UniqueIds(rs)
    requires k < |rs|
    ensures rs[k].id in FixedEntries(rs) <==> IsFixed(rs[k])
    ensures rs[k].id in PendingIdSet(rs) <==> !IsFixed(rs[k])
    ensures IsFixed(rs[k]) ==> FixedEntries(rs)[rs[k].id] == Entry(rs[k].placeId, Start(rs[k]), End(rs[k]), "scheduled")
  {
    FixedAndPendingDisjoint(rs);
    if IsFixed(rs[k]) {
      FixedEntriesAt(rs, k);
    } else {
      assert rs[k] in PendingList(rs);
    }
  }

  /**
   * A rejected reservation without a formation is not excluded: it becomes a
   * pending variable whose domain is the full place list.
   */
  lemma RejectedIsPending(rs: seq<Reservation>, k: nat)
    requires k < |rs|
    requires rs[k].requestStatus == "rejected" && !Truthy(rs[k].formationId)
    ensures rs[k] in PendingList(rs)
    ensures Variable(VarName(rs[k].id), AllAvailablePlaces()) in Variables(rs)
  {
    assert "rejected"[0] != "accepted"[0];
    assert !IsFixed(rs[k]);
    var p := PendingList(rs);
    assert rs[k] in p;
    var i :| 0 <= i < |p| && p[i] == rs[k];
    assert Variables(rs)[i] == Variable(VarName(rs[k].id), AllAvailablePlaces());
  }

  /** Every variable's domain is the full list of 28 places, whatever place the reservation asked for. */
  lemma DomainIgnoresRequestedPlace(rs: seq<Reservation>, v: Variable)
    requires v in Variables(rs)
    ensures |v.domain| == 28
    ensures exists r :: r in PendingList(rs) && v.name == VarName(r.id)
    ensures forall place :: place in v.domain <==> 1 <= place <= 25 || place == 101 || place == 102 || place == 103
  {
    var k :| 0 <= k < |Variables(rs)| && Variables(rs)[k] == v;
    assert PendingList(rs)[k] in PendingList(rs);
  }

  /** The variables decode back to the pending ids, in order; so variable names of distinct ids differ. */
  lemma VariableNamesDecode(rs: seq<Reservation>, k: nat)
    requires k < |Variables(rs)|
    ensures DecodeVarName(Variables(rs)[k].name) == Some(PendingList(rs)[k].id)
  {
    VarNameRoundTrip(PendingList(rs)[k].id);
  }

  /** A fixed conflict is built for pending `rs[i]` against every fixed `rs[j]` listed before it. */
  lemma {:induction false} FixedConflictBuilt(rs: seq<Reservation>, i: nat, j: nat)
    requires j < i < |rs|
    requires !IsFixed(rs[i]) && IsFixed(rs[j])
    ensures ConflictWith(rs[i], FixedEntry(rs[j])) in FixedConstraints(rs)
  {
    var init := rs[..|rs| - 1];
    if i < |rs| - 1 {
      assert init[i] == rs[i] && init[j] == rs[j];
      FixedConflictBuilt(init, i, j);
    } else {
      assert init[j] == rs[j];
      var f := FixedList(init);
      assert rs[j] in f;
      var k :| 0 <= k < |f| && f[k] == rs[j];
      assert ConflictsWith(rs[i], f)[k] == ConflictWith(rs[i], FixedEntry(rs[j]));
    }
  }

  /** Every fixed conflict built pairs a pending reservation with a fixed one listed before it. */
  lemma {:induction false} FixedConflictOnlyEarlier(rs: seq<Reservation>, c: Constraint)
    requires c in FixedConstraints(rs)
    ensures exists i, j :: 0 <= j < i < |rs| && !IsFixed(rs[i]) && IsFixed(rs[j])
                           && c == ConflictWith(rs[i], FixedEntry(rs[j]))
  {
    var init, last := rs[..|rs| - 1], rs[|rs| - 1];
    if c in FixedConstraints(init) {
      FixedConflictOnlyEarlier(init, c);
      var i, j :| 0 <= j < i < |init| && !IsFixed(init[i]) && IsFixed(init[j])
                  && c == ConflictWith(init[i], FixedEntry(init[j]));
      assert rs[i] == init[i] && rs[j] == init[j];
      assert 0 <= j < i < |rs| && !IsFixed(rs[i]) && IsFixed(rs[j]) && c == ConflictWith(rs[i], FixedEntry(rs[j]));
    } else {
      LastRowConflict(rs, c);
    }
  }

  /** A fixed conflict added for the last row pairs it with a fixed reservation listed before it. */
  lemma LastRowConflict(rs: seq<Reservation>, c: Constraint)
    requires rs != [] && !IsFixed(rs[|rs| - 1])
    requires c in ConflictsWith(rs[|rs| - 1], FixedList(rs[..|rs| - 1]))
    ensures exists i, j :: 0 <= j < i < |rs| && !IsFixed(rs[i]) && IsFixed(rs[j])
                           && c == ConflictWith(rs[i], FixedEntry(rs[j]))
  {
    var init, last := rs[..|rs| - 1], rs[|rs| - 1];
    var f := FixedList(init);
    var k :| 0 <= k < |f| && c == ConflictsWith(last, f)[k];
    assert f[k] in f;
    var j :| 0 <= j < |init| && init[j] == f[k];
    assert rs[j] == init[j];
    var i := |rs| - 1;
    assert 0 <= j < i < |rs| && !IsFixed(rs[i]) && IsFixed(rs[j]) && c == ConflictWith(rs[i], FixedEntry(rs[j]));
  }

  /**
   * The fixed conflicts are exactly one per (pending, earlier fixed) pair:
   * a fixed reservation listed after a pending one does not constrain it.
   */
  lemma FixedConstraintsExactly(rs: seq<Reservation>, c: Constraint)
    ensures c in FixedConstraints(rs) <==>
            exists i, j :: 0 <= j < i < |rs| && !IsFixed(rs[i]) && IsFixed(rs[j])
                           && c == ConflictWith(rs[i], FixedEntry(rs[j]))
  {
    if c in FixedConstraints(rs) {
      FixedConflictOnlyEarlier(rs, c);
    }
    if exists i, j :: 0 <= j < i < |rs| && !IsFixed(rs[i]) && IsFixed(rs[j])
                      && c == ConflictWith(rs[i], FixedEntry(rs[j])) {
      var i, j :| 0 <= j < i < |rs| && !IsFixed(rs[i]) && IsFixed(rs[j])
                  && c == ConflictWith(rs[i], FixedEntry(rs[j]));
      FixedConflictBuilt(rs, i, j);
    }
  }

  /** The fixed conflict rejects a place exactly when it is the fixed place and the intervals overlap. */
  lemma FixedConflictMeaning(r: Reservation, f: Entry, sol: Solution)
    requires VarName(r.id) in sol
    ensures !Allows(ConflictWith(r, f), sol) <==>
            sol[VarName(r.id)] == f.placeId && DoTimesOverlap(Start(r), End(r), f.startTime, f.endTime)
  {
  }

  lemma {:induction false} PairRowsContain(p: seq<Reservation>, n: nat, i: nat, j: nat)
    requires i < n <= |p| && i < j < |p|
    ensures PairWith(p[i], p[j]) in PairRows(p, n)
  {
    if i < n - 1 {
      PairRowsContain(p, n - 1, i, j);
    } else {
      assert PairRow(p, i)[j - i - 1] == PairWith(p[i], p[j]);
    }
  }

  lemma {:induction false} PairRowsOnlyOrdered(p: seq<Reservation>, n: nat, c: Constraint) returns (i: nat, j: nat)
    requires n <= |p|
    requires c in PairRows(p, n)
    ensures i < n && i < j < |p| && c == PairWith(p[i], p[j])
  {
    assert n > 0;
    var init, row := PairRows(p, n - 1), PairRow(p, n - 1);
    assert PairRows(p, n) == init + row;
    if c in init {
      i, j := PairRowsOnlyOrdered(p, n - 1, c);
    } else {
      var k :| 0 <= k < |row| && row[k] == c;
      i, j := n - 1, n + k;
    }
  }

  /** One pairwise constraint for every i < j, and no other. */
  lemma PairConstraintsExactly(p: seq<Reservation>, c: Constraint)
    ensures c in PairConstraints(p) <==> exists i, j :: 0 <= i < j < |p| && c == PairWith(p[i], p[j])
  {
    if c in PairConstraints(p) {
      var i, j := PairRowsOnlyOrdered(p, |p|, c);
    }
    if exists i, j :: 0 <= i < j < |p| && c == PairWith(p[i], p[j]) {
      var i, j :| 0 <= i < j < |p| && c == PairWith(p[i], p[j]);
      PairRowsContain(p, |p|, i, j);
    }
  }

  lemma {:induction false} PairRowsCount(p: seq<Reservation>, n: nat)
    requires n <= |p|
    ensures 2 * |PairRows(p, n)| == n * (2 * |p| - n - 1)
  {
    if n > 0 {
      PairRowsCount(p, n - 1);
      assert 2 * |PairRows(p, n)| == (n - 1) * (2 * |p| - n) + 2 * (|p| - n);
    }
  }

  /** There are |p|·(|p|-1)/2 pairwise constraints: one per unordered pair of pending reservations. */
  lemma PairConstraintsCount(p: seq<Reservation>)
    ensures 2 * |PairConstraints(p)| == |p| * (|p| - 1)
  {
    PairRowsCount(p, |p|);
  }

  /** A solution of the built problem gives the variable of the `k`-th pending reservation a place of the list. */
  lemma SolutionCoversPendingAt(rs: seq<Reservation>, sol: Solution, k: nat)
    requires Assigns(Variables(rs), sol)
    requires k < |PendingList(rs)|
    ensures PendingList(rs)[k].id in IndexById(rs)
    ensures VarName(PendingList(rs)[k].id) in sol && sol[VarName(PendingList(rs)[k].id)] in AllAvailablePlaces()
  {
    var vars := Variables(rs);
    assert vars[k] in vars;
    PendingIdKnown(rs, k);
  }

  /** The id of the `k`-th pending reservation is a key of `_reservations_by_id`. */
  lemma PendingIdKnown(rs: seq<Reservation>, k: nat)
    requires k < |PendingList(rs)|
    ensures PendingList(rs)[k].id in IndexById(rs)
  {
    var p := PendingList(rs);
    assert p[k] in p;
    var j :| 0 <= j < |rs| && rs[j] == p[k];
  }

  /** A solution of the built problem names every pending id's variable, with a place of the list. */
  lemma SolutionCoversPending(rs: seq<Reservation>, sol: Solution)
    requires Assigns(Variables(rs), sol)
    ensures forall id :: id in PendingIdSet(rs) ==>
              id in IndexById(rs) && VarName(id) in sol && sol[VarName(id)] in AllAvailablePlaces()
  {
    var p := PendingList(rs);
    forall id | id in PendingIdSet(rs)
      ensures id in IndexById(rs) && VarName(id) in sol && sol[VarName(id)] in AllAvailablePlaces()
    {
      var k :| 0 <= k < |p| && p[k].id == id;
      SolutionCoversPendingAt(rs, sol, k);
    }
  }

  /** For a solution of the built variables, the ids `solve` decodes are exactly the pending ids. */
  lemma SolvedIdsArePending(rs: seq<Reservation>, sol: Solution)
    requires Assigns(Variables(rs), sol)
    ensures SolvedIds(IndexById(rs), sol) == PendingIdSet(rs)
  {
    SolvedIdsOnlyPending(rs, sol);
    SolutionCoversPending(rs, sol);
  }

  lemma SolvedIdsOnlyPending(rs: seq<Reservation>, sol: Solution)
    requires Assigns(Variables(rs), sol)
    ensures SolvedIds(IndexById(rs), sol) <= PendingIdSet(rs)
  {
    var p := PendingList(rs);
    forall id | id in SolvedIds(IndexById(rs), sol) ensures id in PendingIdSet(rs) {
      var k := SolutionNameIsPending(rs, sol, VarName(id));
      VarNameInjective(id, p[k].id);
      assert p[k] in p;
    }
  }

  /** Every name a solution of the built variables assigns is the variable name of a pending reservation. */
  lemma SolutionNameIsPending(rs: seq<Reservation>, sol: Solution, name: string) returns (k: nat)
    requires Assigns(Variables(rs), sol)
    requires name in sol
    ensures k < |PendingList(rs)| && name == VarName(PendingList(rs)[k].id)
  {
    var vars := Variables(rs);
    var v :| v in vars && v.name == name;
    k :| 0 <= k < |vars| && vars[k] == v;
  }

  /** The schedule `solve` returns for a solution of the built problem. */
  function SolvedSchedule(rs: seq<Reservation>, sol: Solution): map<int, Entry>
    requires forall id :: id in PendingIdSet(rs) ==> id in IndexById(rs) && VarName(id) in sol
  {
    Merge(FixedEntries(rs), IndexById(rs), PendingIdSet(rs), sol)
  }

  /** Two distinct pending reservations solved to one place have intervals that do not overlap. */
  lemma PendingPairApart(rs: seq<Reservation>, sol: Solution, i: nat, j: nat)
    requires UniqueIds(rs)
    requires Satisfies(BuiltConstraints(rs), sol)
    requires i < |PendingList(rs)| && j < |PendingList(rs)| && i != j
    ensures var p := PendingList(rs);
            VarName(p[i].id) in sol && VarName(p[j].id) in sol
            && (sol[VarName(p[i].id)] == sol[VarName(p[j].id)] ==> !DoTimesOverlap(Start(p[i]), End(p[i]), Start(p[j]), End(p[j])))
  {
    var p := PendingList(rs);
    if i < j {
      PairRowsContain(p, |p|, i, j);
      assert Allows(PairWith(p[i], p[j]), sol);
    } else {
      PairRowsContain(p, |p|, j, i);
      assert Allows(PairWith(p[j], p[i]), sol);
      OverlapSymmetric(Start(p[i]), End(p[i]), Start(p[j]), End(p[j]));
    }
  }

  /** A pending reservation solved to the place of a fixed one listed before it does not overlap it. */
  lemma PendingClearOfEarlierFixed(rs: seq<Reservation>, sol: Solution, i: nat, j: nat)
    requires Satisfies(BuiltConstraints(rs), sol)
    requires j < i < |rs| && IsFixed(rs[j]) && !IsFixed(rs[i])
    ensures VarName(rs[i].id) in sol
    ensures sol[VarName(rs[i].id)] == rs[j].placeId ==> !DoTimesOverlap(Start(rs[i]), End(rs[i]), Start(rs[j]), End(rs[j]))
  {
    var c := ConflictWith(rs[i], FixedEntry(rs[j]));
    assert c in BuiltConstraints(rs) by {
      FixedConflictBuilt(rs, i, j);
    }
    assert Allows(c, sol);
  }

  /**
   * The guard against earlier fixed reservations holds for the program as
   * run: the conflict factory binds its values when it is called, so the
   * late-bound pairwise lambdas do not weaken it. Only the constraints are
   * needed, each read with its as-run meaning.
   */
  lemma PendingClearOfEarlierFixedAsRun(rs: seq<Reservation>, sol: Solution, last: (int, int, int, int), i: nat, j: nat)
    requires forall c :: c in BuiltConstraints(rs) ==> AllowsAsRun(c, sol, last)
    requires j < i < |rs| && IsFixed(rs[j]) && !IsFixed(rs[i])
    ensures VarName(rs[i].id) in sol
    ensures sol[VarName(rs[i].id)] == rs[j].placeId ==> !DoTimesOverlap(Start(rs[i]), End(rs[i]), Start(rs[j]), End(rs[j]))
  {
    var c := ConflictWith(rs[i], FixedEntry(rs[j]));
    FixedConflictBuilt(rs, i, j);
    assert AllowsAsRun(c, sol, last);
  }

  /**
   * Under the intended meaning of the constraints, the schedule `solve`
   * returns holds exactly the fixed and pending ids, keeps every fixed entry,
   * gives every pending id a place of the list, never puts two pending
   * reservations on one place at overlapping times, and never puts a pending
   * reservation on the place of a fixed one listed before it at an
   * overlapping time.
   */
  lemma {:induction false} SolvedScheduleHasNoDoubleBooking(rs: seq<Reservation>, sol: Solution)
    requires UniqueIds(rs)
    requires Solves(Variables(rs), BuiltConstraints(rs), sol)
    ensures forall id :: id in PendingIdSet(rs) ==> id in IndexById(rs) && VarName(id) in sol
    ensures var m := SolvedSchedule(rs, sol);
            && m.Keys == FixedEntries(rs).Keys + PendingIdSet(rs)
            && (forall id :: id in FixedEntries(rs) ==> m[id] == FixedEntries(rs)[id])
            && (forall id :: id in PendingIdSet(rs) ==> m[id].placeId in AllAvailablePlaces())
            && (forall a, b :: a in PendingIdSet(rs) && b in PendingIdSet(rs) && a != b && m[a].placeId == m[b].placeId
                  ==> !DoTimesOverlap(m[a].startTime, m[a].endTime, m[b].startTime, m[b].endTime))
            && (forall i, j :: 0 <= j < i < |rs| && IsFixed(rs[j]) && !IsFixed(rs[i])
                  && m[rs[i].id].placeId == m[rs[j].id].placeId
                  ==> !DoTimesOverlap(m[rs[i].id].startTime, m[rs[i].id].endTime, m[rs[j].id].startTime, m[rs[j].id].endTime))
  {
    SolutionCoversPending(rs, sol);
    var p, byId, base, P := PendingList(rs), IndexById(rs), FixedEntries(rs), PendingIdSet(rs);
    var m := SolvedSchedule(rs, sol);
    FixedAndPendingDisjoint(rs);
    forall a, b | a in P && b in P && a != b && m[a].placeId == m[b].placeId
      ensures !DoTimesOverlap(m[a].startTime, m[a].endTime, m[b].startTime, m[b].endTime)
    {
      ScheduledPairApart(rs, sol, a, b);
    }
    forall i, j | 0 <= j < i < |rs| && IsFixed(rs[j]) && !IsFixed(rs[i]) && m[rs[i].id].placeId == m[rs[j].id].placeId
      ensures !DoTimesOverlap(m[rs[i].id].startTime, m[rs[i].id].endTime, m[rs[j].id].startTime, m[rs[j].id].endTime)
    {
      ScheduledClearOfFixed(rs, sol, i, j);
    }
  }

  /** Two distinct pending ids given one place have intervals that do not overlap. */
  lemma ScheduledPairApart(rs: seq<Reservation>, sol: Solution, a: int, b: int)
    requires UniqueIds(rs)
    requires Satisfies(BuiltConstraints(rs), sol)
    requires a in PendingIdSet(rs) && b in PendingIdSet(rs) && a != b
    ensures a in IndexById(rs) && b in IndexById(rs) && VarName(a) in sol && VarName(b) in sol
    ensures sol[VarName(a)] == sol[VarName(b)] ==>
              !DoTimesOverlap(Start(IndexById(rs)[a]), End(IndexById(rs)[a]), Start(IndexById(rs)[b]), End(IndexById(rs)[b]))
  {
    var p := PendingList(rs);
    var i :| 0 <= i < |p| && p[i].id == a;
    var j :| 0 <= j < |p| && p[j].id == b;
    assert p[i] in p && p[j] in p;
    IndexByIdMember(rs, p[i]);
    IndexByIdMember(rs, p[j]);
    PendingPairApart(rs, sol, i, j);
  }

  /** A pending reservation and a fixed one listed before it, as the merge sees them. */
  lemma ScheduledClearOfFixed(rs: seq<Reservation>, sol: Solution, i: nat, j: nat)
    requires UniqueIds(rs)
    requires Satisfies(BuiltConstraints(rs), sol)
    requires j < i < |rs| && IsFixed(rs[j]) && !IsFixed(rs[i])
    ensures rs[i].id in PendingIdSet(rs) && rs[i].id in IndexById(rs) && IndexById(rs)[rs[i].id] == rs[i]
    ensures rs[j].id in FixedEntries(rs) && rs[j].id !in PendingIdSet(rs) && FixedEntries(rs)[rs[j].id] == FixedEntry(rs[j])
    ensures VarName(rs[i].id) in sol
    ensures sol[VarName(rs[i].id)] == rs[j].placeId ==> !DoTimesOverlap(Start(rs[i]), End(rs[i]), Start(rs[j]), End(rs[j]))
  {
    PendingClearOfEarlierFixed(rs, sol, i, j);
    FixedEntriesAt(rs, j);
    assert rs[i] in PendingList(rs);
    IndexByIdMember(rs, rs[i]);
    FixedAndPendingDisjoint(rs);
  }

  /**
   * A fixed reservation listed after a pending one does not constrain it:
   * with a pending `a` listed before a fixed `b`, the built problem has no
   * constraint at all, so putting `a` on `b`'s place solves it and the
   * schedule books both on one place, whatever their times.
   */
  lemma LaterFixedIsNotGuarded(a: Reservation, b: Reservation)
    requires !IsFixed(a) && IsFixed(b) && a.id != b.id
    requires b.placeId in AllAvailablePlaces()
    ensures UniqueIds([a, b])
    ensures BuiltConstraints([a, b]) == []
    ensures Solves(Variables([a, b]), BuiltConstraints([a, b]), map[VarName(a.id) := b.placeId])
    ensures forall id :: id in PendingIdSet([a, b]) ==> id in IndexById([a, b]) && VarName(id) in map[VarName(a.id) := b.placeId]
    ensures SolvedSchedule([a, b], map[VarName(a.id) := b.placeId])[a.id] == PendingEntry(a, b.placeId)
    ensures SolvedSchedule([a, b], map[VarName(a.id) := b.placeId])[b.id] == FixedEntry(b)
  {
    LaterFixedSolves(a, b);
    LaterFixedMerged(a, b);
  }

  lemma LaterFixedSolves(a: Reservation, b: Reservation)
    requires !IsFixed(a) && IsFixed(b)
    requires b.placeId in AllAvailablePlaces()
    ensures PendingIdSet([a, b]) == {a.id}
    ensures BuiltConstraints([a, b]) == []
    ensures Solves(Variables([a, b]), BuiltConstraints([a, b]), map[VarName(a.id) := b.placeId])
  {
    PendingThenFixedProblem(a, b);
    PendingIdSetOfOne([a, b], a);
    var vars := Variables([a, b]);
    assert vars[0].name == VarName(a.id);
    AssignsOne(vars, VarName(a.id), b.placeId);
  }

  lemma PendingIdSetOfOne(rs: seq<Reservation>, r: Reservation)
    requires PendingList(rs) == [r]
    ensures PendingIdSet(rs) == {r.id}
  {
    assert r in PendingList(rs);
  }

  lemma LaterFixedMerged(a: Reservation, b: Reservation)
    requires IsFixed(b) && a.id != b.id
    requires PendingIdSet([a, b]) == {a.id}
    ensures UniqueIds([a, b])
    ensures forall id :: id in PendingIdSet([a, b]) ==> id in IndexById([a, b]) && VarName(id) in map[VarName(a.id) := b.placeId]
    ensures SolvedSchedule([a, b], map[VarName(a.id) := b.placeId])[a.id] == PendingEntry(a, b.placeId)
    ensures SolvedSchedule([a, b], map[VarName(a.id) := b.placeId])[b.id] == FixedEntry(b)
  {
    IndexByIdAt([a, b], 0);
    FixedEntriesAt([a, b], 1);
  }

  /** The problem built from a pending reservation followed by a fixed one: one variable, no constraint. */
  lemma PendingThenFixedProblem(a: Reservation, b: Reservation)
    requires !IsFixed(a) && IsFixed(b)
    ensures PendingList([a, b]) == [a]
    ensures |Variables([a, b])| == 1
    ensures BuiltConstraints([a, b]) == []
  {
    assert [] + [a] == [a] && [a] + [b] == [a, b];
    assert PendingList([a, b]) == [a] by {
      SnocLists([], a);
      SnocLists([a], b);
    }
    assert FixedConstraints([a, b]) == [] by {
      SnocFixedConstraints([], a);
      SnocFixedConstraints([a], b);
    }
    assert PairConstraints([a]) == [] by {
      assert PairRows([a], 1) == PairRow([a], 0) == [];
    }
  }

  // ---------------------------------------------------------------- late binding (as run)

  /** As run, a pending pair rejects a common place exactly when the last pair's intervals overlap, whoever the pair is. */
  lemma AsRunPairIgnoresItsOwnIntervals(c: Constraint, sol: Solution, last: (int, int, int, int))
    requires c.PendingPair? && VarName(c.resId1) in sol && VarName(c.resId2) in sol
    ensures !AllowsAsRun(c, sol, last) <==>
            sol[VarName(c.resId1)] == sol[VarName(c.resId2)] && DoTimesOverlap(last.0, last.1, last.2, last.3)
  {
  }

  /** Three pending reservations give the three pairs in loop order. */
  lemma ThreePairs(a: Reservation, b: Reservation, c: Reservation)
    ensures PairConstraints([a, b, c]) == [PairWith(a, b), PairWith(a, c), PairWith(b, c)]
  {
    var rs := [a, b, c];
    assert PairRows(rs, 1) == PairRow(rs, 0) == [PairWith(a, b), PairWith(a, c)];
    assert PairRows(rs, 2) == PairRows(rs, 1) + [PairWith(b, c)];
    assert PairRow(rs, 2) == [];
  }

  /** Appending one reservation extends each list the partition loop builds by that reservation's share. */
  lemma Snoc(rs: seq<Reservation>, r: Reservation)
    ensures FixedList(rs + [r]) == FixedList(rs) + (if IsFixed(r) then [r] else [])
    ensures PendingList(rs + [r]) == PendingList(rs) + (if IsFixed(r) then [] else [r])
    ensures Variables(rs + [r]) == Variables(rs) + (if IsFixed(r) then [] else [Variable(VarName(r.id), AllAvailablePlaces())])
    ensures FixedConstraints(rs + [r]) == FixedConstraints(rs) + (if IsFixed(r) then [] else ConflictsWith(r, FixedList(rs)))
    ensures FixedEntries(rs + [r]) == if IsFixed(r) then FixedEntries(rs)[r.id := FixedEntry(r)] else FixedEntries(rs)
  {
    SnocLists(rs, r);
    SnocProblem(rs, r);
  }

  lemma SnocLists(rs: seq<Reservation>, r: Reservation)
    ensures FixedList(rs + [r]) == FixedList(rs) + (if IsFixed(r) then [r] else [])
    ensures PendingList(rs + [r]) == PendingList(rs) + (if IsFixed(r) then [] else [r])
  {
    assert (rs + [r])[..|rs|] == rs;
  }

  lemma SnocProblem(rs: seq<Reservation>, r: Reservation)
    ensures Variables(rs + [r]) == Variables(rs) + (if IsFixed(r) then [] else [Variable(VarName(r.id), AllAvailablePlaces())])
    ensures FixedConstraints(rs + [r]) == FixedConstraints(rs) + (if IsFixed(r) then [] else ConflictsWith(r, FixedList(rs)))
    ensures FixedEntries(rs + [r]) == if IsFixed(r) then FixedEntries(rs)[r.id := FixedEntry(r)] else FixedEntries(rs)
  {
    SnocVariables(rs, r);
    SnocFixedConstraints(rs, r);
    SnocFixedEntries(rs, r);
  }

  lemma SnocVariables(rs: seq<Reservation>, r: Reservation)
    ensures Variables(rs + [r]) == Variables(rs) + (if IsFixed(r) then [] else [Variable(VarName(r.id), AllAvailablePlaces())])
  {
    assert (rs + [r])[..|rs|] == rs;
  }

  lemma SnocFixedConstraints(rs: seq<Reservation>, r: Reservation)
    ensures FixedConstraints(rs + [r]) == FixedConstraints(rs) + (if IsFixed(r) then [] else ConflictsWith(r, FixedList(rs)))
  {
    assert (rs + [r])[..|rs|] == rs;
  }

  lemma SnocFixedEntries(rs: seq<Reservation>, r: Reservation)
    ensures FixedEntries(rs + [r]) == if IsFixed(r) then FixedEntries(rs)[r.id := FixedEntry(r)] else FixedEntries(rs)
  {
    assert (rs + [r])[..|rs|] == rs;
  }

  lemma IdsSnoc(l: seq<Reservation>, r: Reservation)
    ensures Ids(l + [r]) == Ids(l) + [r.id]
  {
  }

  /** The problem built from three pending reservations: all three are pending, and the three pairs come in loop order. */
  lemma ThreePendingProblem(a: Reservation, b: Reservation, c: Reservation)
    requires !IsFixed(a) && !IsFixed(b) && !IsFixed(c)
    ensures PendingList([a, b, c]) == [a, b, c]
    ensures FixedConstraints([a, b, c]) == []
    ensures BuiltConstraints([a, b, c]) == [PairWith(a, b), PairWith(a, c), PairWith(b, c)]
  {
    ThreePendingList(a, b, c);
    ThreeNoFixedConstraints(a, b, c);
    ThreePairs(a, b, c);
  }

  lemma ThreeNoFixedConstraints(a: Reservation, b: Reservation, c: Reservation)
    requires !IsFixed(a) && !IsFixed(b) && !IsFixed(c)
    ensures FixedConstraints([a, b, c]) == []
  {
    assert [] + [a] == [a] && [a] + [b] == [a, b] && [a, b] + [c] == [a, b, c];
    SnocFixedConstraints([], a);
    SnocFixedConstraints([a], b);
    SnocFixedConstraints([a, b], c);
  }

  lemma ThreePendingList(a: Reservation, b: Reservation, c: Reservation)
    requires !IsFixed(a) && !IsFixed(b) && !IsFixed(c)
    ensures PendingList([a, b, c]) == [a, b, c]
  {
    assert [] + [a] == [a] && [a] + [b] == [a, b] && [a, b] + [c] == [a, b, c];
    SnocLists([], a);
    SnocLists([a], b);
    SnocLists([a, b], c);
  }

  /**
   * As run, once the last two pending reservations do not overlap, no
   * pairwise constraint rejects anything: a solution that assigns the
   * variables and keeps clear of the fixed conflicts solves the problem,
   * however the pending reservations themselves overlap.
   */
  lemma AsRunIgnoresPairsWhenLastApart(rs: seq<Reservation>, sol: Solution)
    requires |PendingList(rs)| >= 2
    requires !DoTimesOverlap(LastPairIntervals(PendingList(rs)).0, LastPairIntervals(PendingList(rs)).1,
                             LastPairIntervals(PendingList(rs)).2, LastPairIntervals(PendingList(rs)).3)
    requires Assigns(Variables(rs), sol)
    requires Satisfies(FixedConstraints(rs), sol)
    ensures SolvesAsRun(Variables(rs), BuiltConstraints(rs), sol, LastPairIntervals(PendingList(rs)))
  {
    var p, last := PendingList(rs), LastPairIntervals(PendingList(rs));
    forall c | c in BuiltConstraints(rs) ensures AllowsAsRun(c, sol, last) {
      if c in PairConstraints(p) {
        var i, j := PairRowsOnlyOrdered(p, |p|, c);
        SolutionCoversPendingAt(rs, sol, i);
        SolutionCoversPendingAt(rs, sol, j);
      } else {
        assert c in FixedConstraints(rs);
      }
    }
  }

  /** One common place for three pending reservations assigns the three variables. */
  lemma OnePlaceAssigns(a: Reservation, b: Reservation, c: Reservation, place: int)
    requires !IsFixed(a) && !IsFixed(b) && !IsFixed(c)
    requires place in AllAvailablePlaces()
    ensures Assigns(Variables([a, b, c]), map[VarName(a.id) := place, VarName(b.id) := place, VarName(c.id) := place])
  {
    ThreePendingList(a, b, c);
    var vars := Variables([a, b, c]);
    assert vars[0].name == VarName(a.id) && vars[1].name == VarName(b.id) && vars[2].name == VarName(c.id);
    AssignsThree(vars, VarName(a.id), VarName(b.id), VarName(c.id), place);
  }

  /** Three variables over one domain, all given one value of it. */
  lemma AssignsThree(vars: seq<Variable>, na: string, nb: string, nc: string, place: int)
    requires |vars| == 3 && vars[0].name == na && vars[1].name == nb && vars[2].name == nc
    requires forall k :: 0 <= k < 3 ==> place in vars[k].domain
    ensures Assigns(vars, map[na := place, nb := place, nc := place])
  {
    var sol := map[na := place, nb := place, nc := place];
    forall v | v in vars ensures v.name in sol && sol[v.name] in v.domain {
      var k :| 0 <= k < |vars| && vars[k] == v;
    }
    forall name | name in sol ensures exists v :: v in vars && v.name == name {
      if name == na {
        assert vars[0] in vars;
      } else if name == nb {
        assert vars[1] in vars;
      } else {
        assert vars[2] in vars;
      }
    }
  }

  /** One variable given one value of its domain. */
  lemma AssignsOne(vars: seq<Variable>, name: string, place: int)
    requires |vars| == 1 && vars[0].name == name && place in vars[0].domain
    ensures Assigns(vars, map[name := place])
  {
    assert vars[0] in vars;
  }

  /**
   * The constraints as run let a double booking through: three pending
   * reservations where the first two overlap and the last two do not. One
   * common place for all three satisfies every constraint as run, but not as
   * intended; merged, it books the first two on one place at overlapping times.
   */
  lemma LateBindingAdmitsDoubleBooking(a: Reservation, b: Reservation, c: Reservation, place: int)
    requires !IsFixed(a) && !IsFixed(b) && !IsFixed(c)
    requires a.id != b.id && a.id != c.id && b.id != c.id
    requires DoTimesOverlap(Start(a), End(a), Start(b), End(b))
    requires !DoTimesOverlap(Start(b), End(b), Start(c), End(c))
    requires place in AllAvailablePlaces()
    ensures var rs, sol := [a, b, c], map[VarName(a.id) := place, VarName(b.id) := place, VarName(c.id) := place];
            && SolvesAsRun(Variables(rs), BuiltConstraints(rs), sol, LastPairIntervals(PendingList(rs)))
            && !Solves(Variables(rs), BuiltConstraints(rs), sol)
  {
    var rs := [a, b, c];
    var sol := map[VarName(a.id) := place, VarName(b.id) := place, VarName(c.id) := place];
    ThreePendingProblem(a, b, c);
    assert LastPairIntervals(PendingList(rs)) == (Start(b), End(b), Start(c), End(c));
    OnePlaceAssigns(a, b, c, place);
    AsRunIgnoresPairsWhenLastApart(rs, sol);
    var built := BuiltConstraints(rs);
    assert built[0] == PairWith(a, b);
    assert sol[VarName(a.id)] == place && sol[VarName(b.id)] == place;
    assert !Allows(built[0], sol);
  }

  /**
   * A concrete instance: two pending bookings on day 1, 09:00-12:00 and
   * 10:00-13:00, and a third on day 2, 09:00-10:00, all given place 1.
   */
  lemma LateBindingExample()
    ensures var rs := [Reservation(1, 11, 5, None, 1, 540, 720, "pending"),
                       Reservation(2, 12, 6, None, 1, 600, 780, "pending"),
                       Reservation(3, 13, 7, None, 2, 540, 600, "pending")];
            var sol := map[VarName(1) := 1, VarName(2) := 1, VarName(3) := 1];
            && SolvesAsRun(Variables(rs), BuiltConstraints(rs), sol, LastPairIntervals(PendingList(rs)))
            && !Solves(Variables(rs), BuiltConstraints(rs), sol)
  {
    var a := Reservation(1, 11, 5, None, 1, 540, 720, "pending");
    var b := Reservation(2, 12, 6, None, 1, 600, 780, "pending");
    var c := Reservation(3, 13, 7, None, 2, 540, 600, "pending");
    assert "pending"[0] != "accepted"[0];
    LateBindingAdmitsDoubleBooking(a, b, c, 1);
  }

  /**
   * When the last pair does overlap, the constraints as run are stricter than
   * intended: every solution as run is an intended one.
   */
  lemma AsRunStricterWhenLastPairOverlaps(vars: seq<Variable>, cs: seq<Constraint>, sol: Solution, last: (int, int, int, int))
    requires DoTimesOverlap(last.0, last.1, last.2, last.3)
    requires SolvesAsRun(vars, cs, sol, last)
    ensures Solves(vars, cs, sol)
  {
    forall c | c in cs ensures Allows(c, sol) {
      assert AllowsAsRun(c, sol, last);
    }
  }
}
